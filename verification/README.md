# Verified models from the ChakraCore tools

Dafny models of the hardest logic in ChakraCore's test and stress tools, and proofs of what that logic
is for. They cover the vendored test framework (`bin/External/catch.hpp`), the GC stress test
(`bin/GCStress`), the argument handling of the `ch` host (`bin/ch`) and the packing buffer that
`tools/lttng.py` generates.

Code that updates objects step by step is modelled by classes and methods with loops. Each such method
is proved against a function on values that says what it does to the state, and the main results are
proved about those functions. Where the source promises something that does not always hold, the exact
condition is proved, and in most cases an input that fails is given as well.

## The modules

- `SectionTree`: a test body as a finite tree of sections with distinct siblings, each of which may
  throw at its end, and the reference for the cycles of a run. It knows nothing of trackers.
- `Trackers`: the tracker objects and their context. A ghost forest from paths to states mirrors them.
- `SectionProgress`: what is left to run, read off the forest, and how each step changes it.
- `SectionRun`: the run loop, the reactions to sections starting and ending, and the test body.
- `SectionResults`: which leaves a run enters, from what the reporter hears. A section with sub-sections
  that throws itself is failed by the first cycle that gets past them, and so may lose leaves; `Covered`
  is the exact condition under which it does not. An exception that reaches the test case loses nothing.
- `GCHeap`, `GCSteps`, `GCStress`: objects with generations on an arbitrary graph, typed locations, the
  six random operations, the walk, and a collector that may free anything it does not trace from the
  stack roots and pinned objects. Random numbers are inputs of which nothing is known. `GCSteps` says
  what each step does, in terms of what every place refers to before and after it. What holds of all
  objects stays folded behind `Unfold`, `UnfoldStamps` and `UnfoldPins`, and is looked into only where
  that is needed.
- `TestSpec`, `TestSpecResults`, `TestSpecNames`: the parser of test specifications, its states, and the
  round trips of printed and of escaped specifications and of any mix of quoted and unquoted names. The
  character after an opening bracket or quote is never looked at, which is why the exact condition for a
  text is about the characters after its first.
- `TextWrap`: the line wrapper. `Room` is the unsigned difference of width and indent. A line that would
  end before its start, which is undefined in the source, makes the result `None`.
- `Xml`, `XmlResults`: the encoder and writer, and a character-level reader to read the output back,
  which keeps every character between tags. What a document says and how it is laid out is computed from
  the calls alone.
- `Generators`: generators as the digits of a number that counts up, and composite generators.
- `Divider`: sharing out the divider line of the console reporter, for a console of any width.
- `HostArgs`: taking arguments out of the command line in place. The end flag is compared only as far as
  the first flag is long, so anything that starts with `-enda` ends the block.
- `PackBuffer`: the growing buffer. `AllFit` says that no integer overflows on the way.
- `Replace`: replacing substrings in place.
- `Clara`, `ClaraResults`: populating a configuration from command-line tokens. A field that throws when
  it is set is one that does not accept the text.
- `Common`: an option type, a minimum, and associativity of concatenation.

All lemmas are proved without automatic induction.

## Model

| member | source | states |
|---|---|---|
| SectionRun.RunContext.RunTest | bin/External/catch.hpp:6700-6709 | for every section tree with distinct siblings, throwing or not, the loop ends; the number of cycles and the sequence of sections entered are those of the reference `TestRuns`, no tracker is ever closed in an illogical state, and the test case ends completed |
| SectionRun.RunContext.RunCycles | bin/External/catch.hpp:6704-6709 | the inner loop takes exactly the cycles that were left, in order; the list of cycles left is the measure that decreases |
| SectionRun.RunContext.RunCycle | bin/External/catch.hpp:6705-6709 | one turn takes the first of the cycles left, leaves exactly the others, and ends with the trackers in the resting shape (complete ones, at most one opened, untouched ones) |
| SectionRun.RunContext.EnterTestCase | bin/External/catch.hpp:6705-6706 | the start of a cycle opens the tracker of the test case and its ancestors and leaves nothing of the body run |
| SectionRun.RunContext.RunCurrentTest | bin/External/catch.hpp:6895-6938 | a cycle catches what the body throws, closes the tracker of the test case either way, so it never fails, and empties both section lists |
| SectionRun.RunContext.RunTestBody | bin/External/catch.hpp:6902-6928 | running the body enters the sections of one visit, and the current tracker is again that of the test case |
| SectionRun.RunContext.CloseTestCase | bin/External/catch.hpp:6929 | closing the tracker of the test case meets no illogical state and never leaves it failed |
| SectionRun.RunContext.HandleUnfinishedSections | bin/External/catch.hpp:6955-6964 | reporting the sections an exception left touches no tracker |
| SectionRun.RunContext.RunBody | bin/External/catch.hpp:6940-6944 | one run of a body: done siblings are skipped, the first other one takes one cycle, later ones are not opened; an exception ends the run |
| SectionRun.RunContext.RunSection | bin/External/catch.hpp:8815-8835 | a `SECTION` is entered exactly when no cycle was completed yet and it is not complete; then it takes the first of its cycles left |
| SectionRun.RunContext.StartSection | bin/External/catch.hpp:8815-8820 | an included section is open with its whole body to run and its ancestors executing children; any other is only listed |
| SectionRun.RunContext.RunIncluded | bin/External/catch.hpp:8822-8830 | an entered section takes one cycle and is left, normally or by an exception, with the parent current again |
| SectionRun.RunContext.LeaveSection | bin/External/catch.hpp:8822-8830 | leaving a section closes it or, where the exception started, fails it; never in an illogical state |
| SectionRun.RunContext.SectionStarted | bin/External/catch.hpp:6776-6793 | the tracker of the section is acquired, and the section is included exactly when that tracker is open |
| SectionRun.RunContext.SectionEnded | bin/External/catch.hpp:6806-6817 | closes the innermost active section, if any, and says whether that was illogical |
| SectionRun.RunContext.SectionEndedEarly | bin/External/catch.hpp:6819-6827 | fails the section where the exception started and closes those it passes on the way out |
| SectionRun.SectionReached | bin/External/catch.hpp:6288-6309 | of the sections a body reaches only the first one not done, in a cycle not completed, is open; no later one is spuriously open |
| SectionTree.LeavesReachedExactly | bin/External/catch.hpp:6250-6259 | a section enters each of its leaves once and in order if and only if no section below that throws is failed before its last leaf |
| SectionTree.TestLeavesReachedExactly | bin/External/catch.hpp:6700-6709 | the same for a test case, whose own exceptions lose nothing |
| SectionTree.EndsLateExactly | bin/External/catch.hpp:6250-6256 | which bodies a throwing section gets through before it is failed |
| SectionTree.OnlyLeavesThrowCovers | bin/External/catch.hpp:6819-6827 | where only leaves throw no leaf is lost |
| SectionTree.ThrowingParentLosesLeaf | bin/External/catch.hpp:6250-6259 | a section with two sub-sections that throws itself never runs the second |
| SectionTree.EnteredAtMost | bin/External/catch.hpp:6288-6304 | no section enters more leaves than it has |
| SectionTree.CycleKEntersLeafK | bin/External/catch.hpp:6700-6709 | where nothing throws, cycle k enters the k-th leaf from the left and there are as many cycles as leaves |
| SectionTree.TestCycleCount | bin/External/catch.hpp:6700-6709 | the number of cycles where only leaves throw: one for each leaf and one more for each section whose last sub-section throws |
| SectionTree.LeavesDistinct | bin/External/catch.hpp:6147-6156 | distinct siblings make all leaves distinct |
| SectionResults.LeavesOfRun | bin/External/catch.hpp:6776-6793 | of the sections reported, the leaves are all leaves of the test, left to right and once each, if and only if no throwing section still had a leaf to run |
| SectionResults.NoLeafTwice | bin/External/catch.hpp:6700-6709 | whatever throws, the leaves a run enters are among the leaves of the test in the same order, and none is entered twice |
| SectionTree.EntersInOrder | bin/External/catch.hpp:6288-6304 | the same for every section: the leaves it enters are a subsequence of its leaves |
| SectionResults.ThrowingLeavesAreEnteredOnce | bin/External/catch.hpp:6819-6827 | with throwing leaves every leaf is still entered exactly once, and how many cycles that takes |
| SectionResults.OneLeafPerCycle | bin/External/catch.hpp:6776-6793 | each cycle enters at most one leaf, the last section of its path |
| SectionProgress.EnterAt | bin/External/catch.hpp:6214-6219 | opening a section that is due leaves its ancestors executing children and all its own cycles before it |
| SectionProgress.SkipStep | bin/External/catch.hpp:6288-6304 | reaching a section that is done or comes too late only lists it |
| SectionProgress.ReturnStep | bin/External/catch.hpp:6221-6249 | after a sub-section took its cycle the body has exactly one cycle less to come, and goes on to the next section or unwinds |
| SectionProgress.ClosesWhenDone | bin/External/catch.hpp:6236-6242 | closing completes a section exactly when its body has nothing left to run, although only the last child is looked at |
| SectionProgress.CloseStep | bin/External/catch.hpp:6221-6249 | a section closed after a normal end has one cycle less to come |
| SectionProgress.FailStep | bin/External/catch.hpp:6250-6259 | a failed section has nothing to come, and its parent needs another run |
| SectionProgress.UnwindStep | bin/External/catch.hpp:6819-6827 | a section an exception passes through is closed and stays incomplete |
| SectionProgress.NothingDoneYet | bin/External/catch.hpp:6164-6169 | before the first cycle everything is to come |
| SectionProgress.NoneRemaining | bin/External/catch.hpp:6239-6242 | a body has nothing to come exactly when its last section is done |
| Trackers.TrackerContext.StartRun | bin/External/catch.hpp:6374-6379 | a run starts with a fresh root tracker only |
| Trackers.TrackerContext.StartCycle | bin/External/catch.hpp:6118-6121 | a cycle starts at the root |
| Trackers.SectionTracker.FindChild | bin/External/catch.hpp:6192-6197 | the child of that name and location, null exactly if there is none |
| Trackers.SectionTracker.AddChild | bin/External/catch.hpp:6188-6190 | the child is listed last and nothing else changes |
| Trackers.SectionTracker.OpenChild | bin/External/catch.hpp:6203-6209 | marks this tracker and its ancestors up to the first one already so marked |
| Trackers.SectionTracker.Open | bin/External/catch.hpp:6214-6219 | the tracker executes and is current, its ancestors execute children |
| Trackers.SectionTracker.TryOpen | bin/External/catch.hpp:6306-6309 | opens the tracker unless it is complete |
| Trackers.SectionTracker.CloseCurrent | bin/External/catch.hpp:6227-6248 | one step of closing, with the state it closes to and whether that is illogical |
| Trackers.SectionTracker.Close | bin/External/catch.hpp:6221-6249 | closes every tracker from the current one up to this one, each to its own state, or stops at an illogical state |
| Trackers.SectionTracker.Fail | bin/External/catch.hpp:6250-6256 | fails the tracker, marks its parent and moves there |
| Trackers.SectionTracker.FindOrAddChild | bin/External/catch.hpp:6292-6300 | the child, made and listed if it was not there |
| Trackers.SectionTracker.Acquire | bin/External/catch.hpp:6288-6304 | the tracker below the current one, opened unless it is complete or the cycle is |
| GCStress.Stress.Run | bin/GCStress/GCStress.cpp:317-337 | after any sequence of operations and walks, with a collection of any garbage in between, no check has failed, everything reachable is of the current generation and every pin count is right; each step did to the graph of objects just what it is for (`Does`), from the state the collection before it left, which differs only by objects that were not reachable |
| GCStress.Stress.Do | bin/GCStress/GCStress.cpp:186-193 | any single operation, with any random numbers, keeps that; an insertion, replacement, deletion, move, copy or swap changes what the located places refer to as its name says and nothing else, and a walk changes no reference and counts exactly what is reachable |
| GCSteps.LocatedByPath | bin/GCStress/GCStress.cpp:81-112 | a random location is reached from a stack or global root through objects that hand out their slots, each slot being the random number modulo the number of slots, and the walk ends where the numbers say so, at a null reference, or at an object that has nothing to give |
| GCSteps.GenerationsCounted | bin/GCStress/RecyclerTestObject.h:30-47 | over a whole run only walks move the generation on, each of them by one |
| GCStress.Stress.constructor | bin/GCStress/GCStress.cpp:289-304 | the roots start out null, which is a valid state |
| GCStress.Stress.InsertObject | bin/GCStress/GCStress.cpp:114-128 | a new object goes to the location that the random numbers give in the graph as it was, if that is empty; no other place changes, all places of the new object are null, and only the new object can become reachable |
| GCStress.Stress.ReplaceObject | bin/GCStress/GCStress.cpp:130-140 | the same whatever the location holds |
| GCStress.Stress.DeleteObject | bin/GCStress/GCStress.cpp:142-149 | exactly one location becomes null, and nothing becomes reachable |
| GCStress.Stress.MoveObject | bin/GCStress/GCStress.cpp:151-161 | the reference moves, also where both locations are the same or the second is reached only through the first |
| GCStress.Stress.CopyObject | bin/GCStress/GCStress.cpp:163-172 | the second location gets what the first holds |
| GCStress.Stress.SwapObjects | bin/GCStress/GCStress.cpp:174-184 | the two locations trade their references, also where they are the same |
| GCStress.Stress.CreateNewObject | bin/GCStress/GCStress.cpp:72-79 | a new object is of the current generation, its places are all null, and no other place changes |
| GCStress.Stress.GetRandomLocation | bin/GCStress/GCStress.cpp:81-112 | whatever the random numbers, the result is a root or a slot of a reachable object, and is the place that the walk over the graph leads to (`Located`) |
| GCStress.Stress.GoOn | bin/GCStress/GCStress.cpp:85-111 | one turn of that walk goes on unless the reference is null, the number says to stop, or the kind of the object gives no location |
| GCStress.Stress.TryGetRandomLocation | bin/GCStress/RecyclerTestObject.h:180-186 | a slot within the object, unless its kind has none to give |
| GCStress.Stress.Get | bin/GCStress/GCStress.h:82-112 | the reference without its tag, which is a reachable object; the tag is checked and never found missing |
| GCStress.Stress.Untag | bin/GCStress/GCStress.h:192-205 | the object behind a tagged reference, with the check of the tag bit |
| GCStress.Stress.Set | bin/GCStress/GCStress.h:114-139 | exactly this location changes, the reference is tagged as its kind of object wants it, and pins stay right |
| GCStress.Stress.SetRooted | bin/GCStress/GCStress.h:122-126 | a global root moves its pin from the old object to the new |
| GCStress.Stress.Unroot | bin/GCStress/GCStress.h:208-214 | takes one pin off the object held, which has one |
| GCStress.Stress.Root | bin/GCStress/GCStress.h:216-222 | puts one pin on the object held |
| GCStress.Stress.Settle | bin/GCStress/GCStress.cpp:114-184 | any set that holds the roots and is closed under references holds all that is reachable: what every operation rests on |
| GCStress.Stress.Collect | bin/GCStress/GCStress.cpp:299-304 | freeing anything a collector does not trace from the stack roots and pinned objects, through the kinds of objects it looks into, frees nothing reachable from the roots table and changes nothing of it |
| GCHeap.TracedExactly | bin/GCStress/RecyclerTestObject.h:408-414 | where objects that hide their references hold none, what is traced is just what is reachable |
| GCStress.HoldersAfterUpdate | bin/GCStress/GCStress.h:122-126 | how a write changes the number of roots that hold an object |
| GCStress.Stress.BeginWalk | bin/GCStress/RecyclerTestObject.h:30-47 | the generation moves on and all counters are zero |
| GCStress.Stress.WalkReference | bin/GCStress/RecyclerTestObject.h:49-72 | on any graph the recursion ends, stamps the object and all it stamps are followed, the depth is restored and the generation check holds |
| GCStress.Stress.Stamp | bin/GCStress/RecyclerTestObject.h:58-64 | an object not seen in this walk is of the generation before, gets stamped and is counted once |
| GCStress.Stress.CountOne | bin/GCStress/RecyclerTestObject.h:60-64 | the counts of objects and of the depth go up by one, and the maximal depth is the larger of what it was and the new depth |
| GCStress.Stress.DoWalkObject | bin/GCStress/RecyclerTestObject.h:302-310 | counts the bytes of the object and follows each of its references |
| GCStress.Stress.TallyOne | bin/GCStress/RecyclerTestObject.h:302-304 | one more object in the sum of sizes of its kind, none in the others |
| GCStress.Stress.WalkRoots | bin/GCStress/GCStress.cpp:199-204 | afterwards the stamped objects hold the roots and are closed under references |
| GCStress.Stress.WalkHeap | bin/GCStress/GCStress.cpp:195-207 | a walk stamps exactly the reachable objects, counts each once, adds up exactly their sizes by kind, returns the depth to zero and keeps the maximal depth within the object count, and above zero if anything is reachable |
| GCHeap.ReachableClosed | bin/GCStress/RecyclerTestObject.h:49-72 | what is reachable lies in every set that holds the roots and is closed under references |
| GCHeap.ReachableInSmallerHeap | bin/GCStress/GCStress.cpp:299-304 | freeing unreachable objects changes nothing about what is reachable |
| GCHeap.TotalWithOneMore | bin/GCStress/RecyclerTestObject.h:302-304 | sums of sizes do not depend on the order of counting |
| GCHeap.TotalExactly | bin/GCStress/RecyclerTestObject.h:302-304 | a counter starts at zero, and grows by the header of its class and the words of the object for objects of its own kind only |
| TestSpecResults.RoundTrip | bin/External/catch.hpp:3733-3785 | any list of non-empty filters of faithful patterns, written with commas, tildes, quotes and brackets, is parsed back to just that list |
| TestSpecNames.SpecificationParsed | bin/External/catch.hpp:3733-3818 | any specification put together from quoted names, unquoted names, with escapes and blanks in them, after tildes and blanks, ended by a comma, the end, or directly by a tag in brackets, tags and `exclude:` before a name or a tag, after any blanks, tildes and commas that name nothing, is parsed to just the patterns it shows, in their filters |
| TestSpecNames.UnclosedLost | bin/External/catch.hpp:3733-3744 | what is in quotes or brackets that are not closed in the same argument is lost, and the filters before stay as they are |
| TestSpecNames.BackslashLost | bin/External/catch.hpp:3733-3744 | so is an unquoted name that ends in a backslash |
| TestSpecNames.ArgumentsParsed | bin/External/catch.hpp:4042-4047 | the same for several arguments: the last filter of one goes on in the next |
| TestSpecResults.SurvivesExactly | bin/External/catch.hpp:3750-3812 | a pattern is parsed back if and only if its text is not empty, does not start like an exclusion and has no closing character after its first character, which is never looked at |
| TestSpecResults.UnfaithfulIsLost | bin/External/catch.hpp:3750-3812 | every other pattern is lost or shortened |
| TestSpecResults.EscapedNameSurvivesExactly | bin/External/catch.hpp:3787-3812 | a name with every character escaped is parsed back to that name if and only if it is neither empty nor starts like an exclusion |
| TestSpecResults.ParseEscaped | bin/External/catch.hpp:3787-3812 | what becomes of every name written with all characters escaped |
| TestSpec.Step | bin/External/catch.hpp:3739-3740 | in every reachable state the recorded escapes are increasing positions of backslashes within the token, and a turn of the loop moves on |
| TestSpec.Run | bin/External/catch.hpp:3739-3740 | the loop over the characters ends, in such a state |
| TestSpec.TestSpecParser.constructor | bin/External/catch.hpp:3731 | the parser starts empty |
| TestSpec.TestSpecParser.ParseArg | bin/External/catch.hpp:3733-3744 | the loop and the end of an argument do what the state machine on values does |
| TestSpec.Config.constructor | bin/External/catch.hpp:4038-4047 | the arguments are parsed one after the other by the same parser; without any there is no specification |
| TestSpec.TestSpecParser.GetTestSpec | bin/External/catch.hpp:3745-3748 | the filters, with the last one added if it is not empty |
| TestSpec.TestSpecParser.VisitChar | bin/External/catch.hpp:3750-3782 | one character moves the machine by one transition, passing over the character after a bracket or quote |
| TestSpec.TestSpecParser.EscapeHere | bin/External/catch.hpp:3787-3792 | records the backslash, starting a name if there is none |
| TestSpec.TestSpecParser.CutEscapes | bin/External/catch.hpp:3796-3799 | the removal loop never underflows and gives the token with exactly the recorded positions left out |
| TestSpec.TestSpecParser.AddPatternHere | bin/External/catch.hpp:3795-3812 | the pattern for the token, excluded if so marked, unless it is empty |
| TestSpec.TestSpecParser.AddFilterHere | bin/External/catch.hpp:3813-3818 | the current filter is added unless it is empty |
| TextWrap.Wrap | bin/External/catch.hpp:5427-5500 | the loop ends for any attributes, and gives the lines of the reference and the message where it stopped early, or nothing where a line would end before its start |
| TextWrap.TakeLine | bin/External/catch.hpp:5448-5498 | one turn of the loop gives one line and where the text goes on, or no line if that would end before its start |
| TextWrap.FindWrap | bin/External/catch.hpp:5457-5481 | the backward scan finds the last wrap point within reach, and ends the line there |
| TextWrap.LineEndsExactly | bin/External/catch.hpp:5448-5498 | where a line ends, told from the characters alone: at the first newline in reach or the end of the text; otherwise behind the last blank or separator, or before the last opening bracket or tab, in reach, without blanks at its end; and with a hyphen if and only if there is none |
| TextWrap.PrintsLineByLine | bin/External/catch.hpp:5427-5500 | the lines printed are consecutive pieces of the text, each with its hyphen if it has one, the first behind the initial indent, unless that is not set, and the others behind the general one |
| TextWrap.PrintsNothingExactly | bin/External/catch.hpp:5427-5500 | there is no result if and only if the line that is due after fewer than a thousand lines would end before its start |
| TextWrap.FindNewline | bin/External/catch.hpp:5453-5455 | the first newline within reach |
| TextWrap.Trim | bin/External/catch.hpp:5490-5491 | blanks at the end of the line are dropped, and nothing else |
| TextWrap.WrappingKeepsText | bin/External/catch.hpp:5427-5500 | without blanks, the lines that are printed are the text without blanks, all of it unless the message says it was truncated, and up to there if so |
| TextWrap.LosesNothingExactly | bin/External/catch.hpp:5441-5499 | no text of less than a thousand characters loses anything, if and only if the first line has some room and the lines after it have room for more than one column |
| TextWrap.NeverBreaksExactly | bin/External/catch.hpp:5449-5450 | no text makes a line end before its start, if and only if no indent is just as wide as the line |
| TextWrap.NoRoomBreaks | bin/External/catch.hpp:5483-5487 | otherwise a single letter does, on the first line or after a newline |
| TextWrap.EndsBeforeExactly | bin/External/catch.hpp:5483-5487 | a line ends before its start if and only if there is no room at all and no blank at its start |
| TextWrap.RoomyWrapping | bin/External/catch.hpp:5427-5500 | with room for two columns every line fits the width, none holds a newline, and short texts are not truncated |
| TextWrap.LineKeeps | bin/External/catch.hpp:5448-5494 | a line drops only blanks, holds no newline, and fits unless the indent is past the width |
| TextWrap.ProgressExactly | bin/External/catch.hpp:5457-5488 | a turn of the loop moves on if and only if there is more room than one column, the end of the text or a wrap point in reach |
| TextWrap.StallsForever | bin/External/catch.hpp:5483-5488 | where it does not move on once it never does, and fills up with hyphens |
| TextWrap.OneColumnLoses | bin/External/catch.hpp:5483-5488 | two letters after a line break are lost on lines of one column |
| TextWrap.LastWrapIsLast | bin/External/catch.hpp:5457-5481 | no wrap point lies between the one used and the end of the reach |
| XmlResults.DocumentRoundTrip | bin/External/catch.hpp:10067-10186 | from the text of any document an independent reader gets back exactly the elements, attributes and characters of the calls, blanks included, between the ends of lines and indents of the layout; both the text and the events are given by the calls alone, not by the state of the writer |
| XmlResults.WritesDocument | bin/External/catch.hpp:10067-10186 | the exact text of any document, as a function of the calls: a tag closed or a line ended where the calls before make it due, indents of two blanks for each open element, short ends directly after their start |
| XmlResults.TextsToldApart | bin/External/catch.hpp:10137-10147 | two texts without control characters are read back alike if and only if they are the same, blanks and all |
| XmlResults.RunAgrees | bin/External/catch.hpp:10088-10186 | after every sequence of calls a reader has seen just the events of these calls (`CallEvents`), which are computed from the calls alone: the open names, whether a start tag is open, and whether a line is due |
| XmlResults.DecodesExactly | bin/External/catch.hpp:9983-10021 | decoding gives the original back, as text and as an attribute, if and only if it has no control characters |
| XmlResults.TextRoundTrip | bin/External/catch.hpp:9988-10020 | decoding encoded text gives the text with its control characters rewritten |
| XmlResults.EncodedExactly | bin/External/catch.hpp:9988-10020 | what each character is written as, case by case |
| XmlResults.RewrittenExactly | bin/External/catch.hpp:10009-10016 | which characters are rewritten, and as what |
| XmlResults.AttributeRoundTrip | bin/External/catch.hpp:9988-10020 | the same within quotes |
| XmlResults.EndSurvivesExactly | bin/External/catch.hpp:9994-10000 | the encoded text holds the end mark of a character-data section if and only if the text starts with it |
| XmlResults.RewritesExactly | bin/External/catch.hpp:10009-10016 | a string is unchanged by rewriting if and only if it has no control characters |
| XmlResults.FinishesWithEnds | bin/External/catch.hpp:10083-10086 | the destructor writes just the ends that are missing, innermost first: finishing is the same as calling for them |
| XmlResults.DoValid | bin/External/catch.hpp:10088-10164 | each call keeps the indent twice as long as the stack of tags, an open tag on a non-empty stack, and no newline due within a tag |
| Xml.EncodeTo | bin/External/catch.hpp:9983-10021 | the loop writes the encoding of every character in order |
| Xml.XmlWriter.constructor | bin/External/catch.hpp:10067-10081 | writes the declaration |
| Xml.XmlWriter.StartElement | bin/External/catch.hpp:10088-10096 | closes an open tag, starts the new one and pushes it |
| Xml.XmlWriter.EndElement | bin/External/catch.hpp:10104-10117 | ends the innermost element in the short or long form and pops it |
| Xml.XmlWriter.WriteAttribute | bin/External/catch.hpp:10119-10123 | writes nothing for an empty name or value |
| Xml.XmlWriter.WriteText | bin/External/catch.hpp:10137-10147 | closes an open tag and writes the encoded text, with the indent only where a tag was open |
| Xml.XmlWriter.WriteBlankLine | bin/External/catch.hpp:10160-10164 | closes an open tag and ends the line |
| Xml.XmlWriter.Finish | bin/External/catch.hpp:10083-10086 | ends every element still open |
| Generators.RunAll | bin/External/catch.hpp:6700-6712 | the outer loop runs once for each number below the product of the sizes, with the indices counted up in between, and ends at zero |
| Generators.EveryCombinationOnce | bin/External/catch.hpp:8132-8140 | counting through goes through every combination of indices exactly once |
| Generators.CountingEndsExactly | bin/External/catch.hpp:8096-8140 | counting comes to an end if and only if every size is positive |
| Generators.AdvanceCounts | bin/External/catch.hpp:8096-8140 | advancing adds one to the number the indices are digits of, or says that it was the largest and resets all |
| Generators.NumberInjective | bin/External/catch.hpp:8096-8102 | no two combinations have the same number |
| Generators.GeneratorInfo.MoveNext | bin/External/catch.hpp:8096-8102 | the next index, or zero and false after the last |
| Generators.GeneratorsForTest.MoveNext | bin/External/catch.hpp:8132-8140 | the loop advances generators until one does not wrap, which is one step of the odometer |
| Generators.GeneratorsForTest.GetGeneratorInfo | bin/External/catch.hpp:8121-8130 | the generator of that name with the size first asked for, added last with index zero if it is new |
| Generators.CompositeGenerator.ValueAt | bin/External/catch.hpp:2577-2593 | the value at an index into all that is generated, in order; none past the end |
| Generators.CompositeGenerator.Add | bin/External/catch.hpp:2595-2598 | appends what one more generator gives |
| Generators.CompositeGenerator.Then | bin/External/catch.hpp:2600-2618 | takes over all that another gives; the other one keeps a total that is wrong unless it was zero |
| Divider.TotalsDivider | bin/External/catch.hpp:11053-11062 | for any console width both loops end; the widths add up to one column less, zero counts get none, each width is at most one column over and less than three under its exact share, and every other count keeps a column if and only if there are as many columns as such counts; columns are only put on or taken off the largest width, and of equal ones the last |
| Divider.FindMaxIsMax | bin/External/catch.hpp:11044-11051 | the number adjusted is a largest one, and of equal ones the last |
| Divider.StartsClose | bin/External/catch.hpp:11055-11057 | the first shares are at most one column short in all or, on consoles of three columns and more, two over |
| Divider.RatioBounds | bin/External/catch.hpp:11040-11043 | a share is the exact one rounded down, but never zero for a count that is not |
| HostArgs.HostConfigFlags.HandleArgsFlag | bin/ch/HostConfigFlags.cpp:105-151 | the block is captured in order, the arguments around it stay in front in order, the array stays a permutation, the final assertion holds, and nothing changes where there is no block |
| HostArgs.HostConfigFlags.FindBlock | bin/ch/HostConfigFlags.cpp:110-126 | the bounds of the block after the first `-args` |
| HostArgs.HostConfigFlags.SwapDown | bin/ch/HostConfigFlags.cpp:141-148 | the swaps bring the arguments behind the block down in order and lose none |
| HostArgs.HostConfigFlags.RemoveArg | bin/ch/HostConfigFlags.cpp:94-103 | exactly one argument is gone, and entries behind the last are as before |
| HostArgs.HostConfigFlags.FindArg | bin/ch/HostConfigFlags.h:41-54 | the first argument but the program name that starts with the flag, or -1 |
| HostArgs.HostConfigFlags.RemoveAll | bin/ch/JITProcessManager.cpp:37-46 | exactly the arguments that start with the flag are gone, the program name aside |
| HostArgs.SpliceTakesBlock | bin/ch/HostConfigFlags.cpp:105-151 | a command line made of a front, the flag, a block, an end flag and a rest comes apart into just the block and the front with the rest |
| HostArgs.SpliceParts | bin/ch/HostConfigFlags.cpp:105-151 | and whenever something is taken the command line is made like that, so that no argument is lost |
| HostArgs.TakesExactly | bin/ch/HostConfigFlags.cpp:110-132 | something is taken if and only if an argument that is no end flag directly follows the first `-args` |
| HostArgs.MatchesArgsExactly | bin/ch/HostConfigFlags.cpp:110-118 | character by character: a dash and the letters a, r, g, s in either case, whatever follows |
| HostArgs.MatchesEndArgsExactly | bin/ch/HostConfigFlags.cpp:120-126 | the end flag is told by a dash and the letters e, n, d, a alone |
| HostArgs.MatchesExactly | bin/ch/HostConfigFlags.h:41-54 | an argument starts with a flag if each character is the same or the other case of the same letter |
| HostArgs.FilterConcat | bin/ch/JITProcessManager.cpp:37-46 | each argument is kept or removed by itself, and those kept stay in order |
| PackBuffer.Trace | tools/lttng.py:468-495 | the bytes handed on are those of all payloads in order; every heap buffer acquired is released exactly once and the stack buffer never |
| PackBuffer.Packer.WriteToBuffer | tools/lttng.py:565-598 | appends the payload, growing the buffer first if it does not fit; a null payload changes nothing |
| PackBuffer.Packer.ResizeBuffer | tools/lttng.py:541-563 | a fresh buffer of the size asked for and half of that again, but no less than 32, with the same content; the old one is released unless it is on the stack |
| PackBuffer.Packer.constructor | tools/lttng.py:468-473 | starts with the stack buffer |
| PackBuffer.SmallPayloadsFit | tools/lttng.py:541-563 | payloads of up to a third of the largest integer in all never make a size overflow, whatever the buffer starts with |
| Replace.ReplaceInPlace | bin/External/catch.hpp:8735-8747 | wherever the loop ends it gives the string with all occurrences replaced from left to right, also where the replacement holds the string replaced, and never underflows; the result tells whether there was one |
| Replace.EndsExactly | bin/External/catch.hpp:8738-8745 | the loop ends if and only if there is something to search for or nothing to search in |
| Replace.ReplaceNext | bin/External/catch.hpp:8739-8744 | one replacement, and the next occurrence behind it |
| Replace.JoinSplit | bin/External/catch.hpp:8735-8747 | replacing a string by itself changes nothing |
| Replace.PiecesHoldNone | bin/External/catch.hpp:8735-8747 | no piece between the replacements holds the string replaced |
| Replace.FindIsFirst | bin/External/catch.hpp:8737 | what a search gives is an occurrence, and no earlier one is passed over |
| ClaraResults.TokensConserved | bin/External/catch.hpp:5027-5110 | when populating succeeds every token is used once, as an option, its value, a fixed or a floating argument, or returned in order; the configuration holds exactly the settings of these uses |
| ClaraResults.SucceedsExactly | bin/External/catch.hpp:5027-5110 | populating succeeds if and only if anything is specified at all, the tokens spell out options, accepted values and loose tokens, and every loose token is accepted by the argument it is used for |
| ClaraResults.FirstNamedExactly | bin/External/catch.hpp:5045-5060 | a short token sets the first option with it among its short names, a long token the first with it as its long name, and a token is loose if and only if it is positional or there is no such option |
| ClaraResults.OptionsReadExactly | bin/External/catch.hpp:5035-5082 | options are read without an error if and only if the tokens spell out options, values each option accepts, and loose tokens that may be there |
| ClaraResults.OptionsReadBack | bin/External/catch.hpp:5035-5082 | tokens spelled out from options with their values and loose tokens are read back as those |
| ClaraResults.FixedArgsUse | bin/External/catch.hpp:5083-5097 | which tokens are fixed arguments of which position |
| ClaraResults.FloatingArgsUse | bin/External/catch.hpp:5098-5110 | which of the rest are floating arguments |
| ClaraResults.PositionalUses | bin/External/catch.hpp:5083-5110 | where all loose tokens are positional the k-th is the k-th fixed argument, or else a floating one, or else left |
| ClaraResults.LooseTokensPositional | bin/External/catch.hpp:5063-5068 | where unrecognised tokens are errors only positional ones are left for the arguments |
| ClaraResults.FixedSetOnceExactly | bin/External/catch.hpp:5083-5097 | every fixed argument is set at most once, if and only if no token that is not positional, the last one aside, stands where a fixed argument is due |
| ClaraResults.SharedPositionExactly | bin/External/catch.hpp:5083-5097 | the same for the uses of the tokens |
| ClaraResults.UseAt | bin/External/catch.hpp:5083-5097 | a token is used for the fixed argument whose number is one more than the positional tokens before it, if there is such an argument |
| ClaraResults.UnknownOptionTakenForArgument | bin/External/catch.hpp:5083-5097 | an input that fails: an unknown option is taken for the first fixed argument, which the next token then is again |
| Clara.PopulateOptions | bin/External/catch.hpp:5035-5082 | the loops give the outcome of the reference, and an error if any field threw |
| Clara.PopulateFixedArgs | bin/External/catch.hpp:5083-5097 | the loop gives the outcome of the reference |
| Clara.PopulateFloatingArgs | bin/External/catch.hpp:5098-5110 | the loop gives the outcome of the reference |
| Clara.Populate | bin/External/catch.hpp:5027-5033 | the three phases in order, each on what the one before left |

## Left out

- SectionRun.RunContext.RunTest: section filters, abort-after-N, assertion counts and all reporter events but the start of sections are not modelled, and neither is the outer loop over generators there (see `Generators.RunAll`).
- SectionRun.RunContext.RunCycles: the abort test in the condition of the loop is not modelled.
- Trackers.SectionTracker.TryOpen: the test of the section filters is not modelled.
- Trackers.SectionTracker.Acquire: index trackers and section filters are not modelled, so every tracker is a section tracker with no filters.
- A test body is a fixed tree: bodies that take different sections in different cycles, or name two siblings alike, are not covered; a throw comes last in its section, since nothing after it runs.
- GCStress.Stress.GetRandomLocation: that it ends, which it does only by chance, is not stated; where the given random numbers run out the walk stops.
- GCStress.Stress.Collect: the recycler is not part of this model, only the contract that it frees nothing it traces from stack roots and pinned objects.
- GCStress.Stress.Get: implicit roots, which the source disables, are not modelled.
- GCStress.Stress.Set: write barriers and implicit roots (which the source disables) are not modelled.
- GCStress.Stress.WalkHeap: the counters are unbounded, the six byte counters are one map, and the sizes of the classes and of a word are parameters.
- GCStress.Stress.CreateNewObject: the weighted choice of kinds and the unmanaged memory of visited objects are not modelled; an object keeps its references as a sequence.
- TestSpec.TestSpecParser.ParseArg: tag aliases are expanded before, and the matching of patterns against test cases is not modelled.
- TextWrap.Wrap: what the source does with a line that ends before its start is undefined, and here only that it happens is modelled.
- TextWrap.RoomyWrapping: says nothing about the truncation message, which is of fixed length whatever the width.
- XmlResults.DocumentRoundTrip: comments and stylesheet references, which the writer does not encode, are left out; so are attribute-value normalisation (section 3.3.3 of XML 1.0) and the check for repeated attribute names.
- Xml.EncodeTo: bytes above 127, which are negative as signed characters, are characters above 127 here; both pass unchanged.
- Generators.RunAll: the generators are known before the first run; sizes of zero are excluded, with which counting does not end (`Generators.CountingEndsExactly`) before the index wraps around, which is not modelled.
- Generators.CompositeGenerator.Then: taking over from itself is excluded, since inserting a range of a vector into that vector is undefined.
- Divider.TotalsDivider: the product of the width and a count does not wrap, a console of no columns is excluded, and printing is left out.
- HostArgs.HostConfigFlags.HandleArgsFlag: case is folded for ASCII letters only.
- PackBuffer.Packer.ResizeBuffer: allocation does not fail, so neither does a write.
- Replace.ReplaceInPlace: an empty search string in a string that is not empty is excluded, with which the loop does not end (`Replace.EndsExactly`).
- Clara.PopulateOptions: the texts of errors are left out, and what a failed population leaves in the configuration.
- Clara.Populate: the validation of single options is left out, and so is the tokenizer, whose modes carry over between arguments.
- The recycler, BigUInt, the UTF-8 codex, string comparison, JsRT tests, host glue, reporters, matchers, the header generation of `tools/lttng.py` and the sample scripts: not modelled.
