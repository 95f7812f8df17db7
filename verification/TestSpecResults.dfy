/** Printing test specifications and parsing them back. */
module TestSpecResults {
  import Common
  import opened TestSpec

  // ----- printing -----

  /** A pattern that can be written down: a name or tag, possibly excluded. */
  predicate Simple(p: Pattern)
  {
    p.NamePattern? || p.TagPattern?
  }

  predicate Writable(p: Pattern)
  {
    Simple(p) || (p.ExcludedPattern? && Simple(p.underlying))
  }

  function Core(p: Pattern): Pattern
  {
    if p.ExcludedPattern? then p.underlying else p
  }

  function Text(p: Pattern): string
    requires Simple(p)
  {
    if p.NamePattern? then p.name else p.tag
  }

  function Closer(p: Pattern): char
    requires Simple(p)
  {
    if p.NamePattern? then '"' else ']'
  }

  function RenderSimple(p: Pattern): string
    requires Simple(p)
  {
    if p.NamePattern? then ['"'] + p.name + ['"'] else ['['] + p.tag + [']']
  }

  function RenderPattern(p: Pattern): string
    requires Writable(p)
  {
    if p.ExcludedPattern? then ['~'] + RenderSimple(p.underlying) else RenderSimple(p)
  }

  predicate WritableFilter(f: Filter)
  {
    forall p :: p in f ==> Writable(p)
  }

  predicate WritableSpec(fs: seq<Filter>)
  {
    forall f :: f in fs ==> WritableFilter(f)
  }

  function RenderFilter(f: Filter): string
    requires WritableFilter(f)
  {
    if f == [] then "" else RenderPattern(f[0]) + RenderFilter(f[1..])
  }

  function Render(fs: seq<Filter>): string
    requires WritableSpec(fs)
  {
    if fs == [] then ""
    else if |fs| == 1 then RenderFilter(fs[0])
    else RenderFilter(fs[0]) + "," + Render(fs[1..])
  }

  /** The texts that survive between their delimiters: the first character is never looked at. */
  predicate Plain(text: string, closer: char)
  {
    && text != "" && closer !in text[1..]
    && !("exclude:" <= text)
  }

  lemma {:induction false} ExcludePrefix(text: string)
    ensures StartsWith(text, EXCLUDE) <==> "exclude:" <= text
  {}

  predicate Faithful(p: Pattern)
  {
    Writable(p) && Plain(Text(Core(p)), Closer(Core(p)))
  }

  ghost predicate FaithfulFilter(f: Filter)
  {
    f != [] && forall p :: p in f ==> Faithful(p)
  }

  ghost predicate FaithfulSpec(fs: seq<Filter>)
  {
    forall f :: f in fs ==> FaithfulFilter(f)
  }

  // ----- running the parser over a rendered pattern -----

  /** Between patterns: nothing pending. */
  predicate Idle(s: State)
  {
    s.mode == None && !s.exclusion && s.escapeChars == []
  }

  /** What the parser has not looked at yet. */
  ghost predicate Ahead(arg: string, s: State, text: string)
  {
    s.pos <= |arg| && arg[s.pos..] == text
  }

  /** `run` gives the outcome of a state, which one turn of the loop does not change. */
  ghost predicate Outcome(arg: string, run: State -> State)
  {
    forall s {:trigger Step(arg, s)} :: Reachable(arg, s) && s.pos < |arg| ==> run(s) == run(Step(arg, s))
  }

  /** What the loop makes of a state. */
  ghost function Runner(arg: string): State -> State
  {
    s => if Reachable(arg, s) then Run(arg, s) else s
  }

  lemma {:induction false} RunnerOutcome(arg: string)
    ensures Outcome(arg, Runner(arg))
  {}

  /** Inside quotes or brackets the parser runs on to the closing character. */
  lemma {:induction false} RunInside(arg: string, run: State -> State, s: State, end: nat)
    requires Outcome(arg, run)
    requires Reachable(arg, s) && (s.mode == QuotedName || s.mode == Tag)
    requires s.pos <= end < |arg|
    requires forall k :: s.pos <= k < end ==> arg[k] != (if s.mode == QuotedName then '"' else ']')
    ensures Reachable(arg, s.(pos := end)) && run(s) == run(s.(pos := end))
    decreases end - s.pos
  {
    if s.pos < end {
      assert Step(arg, s) == s.(pos := s.pos + 1);
      RunInside(arg, run, s.(pos := s.pos + 1), end);
    }
  }

  /** The state after a delimited text. */
  function AfterText(s: State, p: Pattern, start: nat, end: nat): State
  {
    s.(mode := None, exclusion := false, start := start, pos := end,
       currentFilter := s.currentFilter + [if s.exclusion then ExcludedPattern(p) else p])
  }

  function Opener(p: Pattern): char
    requires Simple(p)
  {
    if p.NamePattern? then '"' else '['
  }

  lemma {:induction false} RenderParts(p: Pattern, tail: string)
    requires Simple(p)
    ensures
      var ahead, n := RenderSimple(p) + tail, |Text(p)|;
      && |ahead| == n + 2 + |tail|
      && ahead[0] == Opener(p) && ahead[1..n + 1] == Text(p) && ahead[n + 1] == Closer(p) && ahead[n + 2..] == tail
  {}

  lemma {:induction false} Shift(arg: string, q: nat, a: nat, b: nat)
    requires q <= |arg| && a <= b <= |arg| - q
    ensures arg[q..][a..b] == arg[q + a..q + b] && arg[q..][b..] == arg[q + b..]
  {}

  lemma {:induction false} Delimited(arg: string, q: nat, p: Pattern, tail: string)
    requires Simple(p) && Plain(Text(p), Closer(p))
    requires q <= |arg| && arg[q..] == RenderSimple(p) + tail
    ensures
      var end := q + 1 + |Text(p)|;
      && end < |arg| && arg[q] == Opener(p) && arg[end] == Closer(p)
      && arg[q+1..end] == Text(p) && arg[end+1..] == tail
      && (forall k :: q + 2 <= k < end ==> arg[k] != Closer(p))
  {
    var n := |Text(p)|;
    RenderParts(p, tail);
    Shift(arg, q, 1, n + 1);
    Shift(arg, q, n + 1, n + 2);
    forall k | q + 2 <= k < q + 1 + n ensures arg[k] != Closer(p) {
      assert arg[k] == Text(p)[k - q - 1] == Text(p)[1..][k - q - 2];
    }
  }

  lemma {:induction false} OpenText(arg: string, run: State -> State, s: State, p: Pattern) returns (r: State)
    requires Outcome(arg, run) && Reachable(arg, s) && s.mode == None && Simple(p)
    requires s.pos < |arg| && arg[s.pos] == Opener(p)
    ensures r == s.(mode := if p.NamePattern? then QuotedName else Tag, start := s.pos + 1, pos := s.pos + 2)
    ensures run(s) == run(r) && Reachable(arg, r)
  {
    r := Step(arg, s);
  }

  lemma {:induction false} CloseText(arg: string, run: State -> State, s: State, p: Pattern)
    requires Outcome(arg, run) && Reachable(arg, s) && Simple(p)
    requires s.mode == if p.NamePattern? then QuotedName else Tag
    requires s.pos < |arg| && arg[s.pos] == Closer(p)
    requires arg[s.start..s.pos] == Text(p) && Plain(Text(p), Closer(p))
    ensures run(s) == run(AfterText(s, p, s.start, s.pos + 1))
  {
    WithoutNothing(arg, s.start, s.pos, []);
    ExcludePrefix(Text(p));
    assert Step(arg, s) == AfterText(s, p, s.start, s.pos + 1);
  }

  lemma {:induction false} RunDelimited(arg: string, run: State -> State, s: State, p: Pattern, end: nat)
    requires Outcome(arg, run) && Reachable(arg, s) && s.mode == None
    requires Simple(p) && Plain(Text(p), Closer(p))
    requires s.pos + 2 <= end < |arg| && arg[s.pos] == Opener(p)
    requires arg[end] == Closer(p) && arg[s.pos+1..end] == Text(p)
    requires forall k :: s.pos + 2 <= k < end ==> arg[k] != Closer(p)
    ensures run(s) == run(AfterText(s, p, s.pos + 1, end + 1))
  {
    var m := OpenText(arg, run, s, p);
    RunInside(arg, run, m, end);
    CloseText(arg, run, m.(pos := end), p);
  }

  lemma {:induction false} RunSimple(arg: string, run: State -> State, s: State, p: Pattern, tail: string) returns (r: State)
    requires Outcome(arg, run)
    requires Reachable(arg, s) && s.mode == None
    requires Simple(p) && Plain(Text(p), Closer(p)) && Ahead(arg, s, RenderSimple(p) + tail)
    ensures run(s) == run(r) && Idle(r) && Ahead(arg, r, tail) && r.filters == s.filters
    ensures r.currentFilter == s.currentFilter + [if s.exclusion then ExcludedPattern(p) else p]
  {
    var end := s.pos + 1 + |Text(p)|;
    Delimited(arg, s.pos, p, tail);
    RunDelimited(arg, run, s, p, end);
    r := AfterText(s, p, s.pos + 1, end + 1);
  }

  lemma {:induction false} RunTilde(arg: string, run: State -> State, s: State, tail: string) returns (r: State)
    requires Outcome(arg, run)
    requires Idle(s) && Ahead(arg, s, ['~'] + tail)
    ensures run(s) == run(r) && r == s.(exclusion := true, pos := s.pos + 1) && Ahead(arg, r, tail)
  {
    assert arg[s.pos] == arg[s.pos..][0] == '~';
    r := Step(arg, s);
    assert arg[r.pos..] == arg[s.pos..][1..];
  }

  lemma {:induction false} RunPattern(arg: string, run: State -> State, s: State, p: Pattern, tail: string) returns (r: State)
    requires Outcome(arg, run)
    requires Idle(s) && Faithful(p) && Ahead(arg, s, RenderPattern(p) + tail)
    ensures run(s) == run(r) && Idle(r) && Ahead(arg, r, tail)
    ensures r.currentFilter == s.currentFilter + [p] && r.filters == s.filters
  {
    if p.ExcludedPattern? {
      var text := RenderSimple(p.underlying) + tail;
      assert RenderPattern(p) + tail == ['~'] + text;
      var m := RunTilde(arg, run, s, text);
      r := RunSimple(arg, run, m, p.underlying, tail);
    } else {
      r := RunSimple(arg, run, s, p, tail);
    }
  }

  lemma {:induction false} AppendFirst<T>(a: seq<T>, b: seq<T>)
    requires b != []
    ensures a + [b[0]] + b[1..] == a + b
  {}

  lemma {:induction false} RenderFilterCons(f: Filter, tail: string)
    requires f != [] && WritableFilter(f) && forall p :: p in f ==> Faithful(p)
    ensures Faithful(f[0]) && WritableFilter(f[1..]) && forall p :: p in f[1..] ==> Faithful(p)
    ensures RenderFilter(f) + tail == RenderPattern(f[0]) + (RenderFilter(f[1..]) + tail)
  {
    assert f[0] in f && forall p :: p in f[1..] ==> p in f;
    Common.Reassociate(RenderPattern(f[0]), RenderFilter(f[1..]), tail);
  }

  lemma {:induction false} RunFilter(arg: string, run: State -> State, s: State, f: Filter, tail: string) returns (r: State)
    requires Outcome(arg, run)
    requires Idle(s) && WritableFilter(f) && forall p :: p in f ==> Faithful(p)
    requires Ahead(arg, s, RenderFilter(f) + tail)
    ensures run(s) == run(r) && Idle(r) && Ahead(arg, r, tail)
    ensures r.currentFilter == s.currentFilter + f && r.filters == s.filters
    decreases |f|
  {
    if f == [] {
      r := s;
    } else {
      RenderFilterCons(f, tail);
      var m := RunPattern(arg, run, s, f[0], RenderFilter(f[1..]) + tail);
      r := RunFilter(arg, run, m, f[1..], tail);
      AppendFirst(s.currentFilter, f);
    }
  }

  lemma {:induction false} RunComma(arg: string, run: State -> State, s: State, tail: string) returns (r: State)
    requires Outcome(arg, run)
    requires Idle(s) && Ahead(arg, s, "," + tail)
    ensures run(s) == run(r) && Idle(r) && Ahead(arg, r, tail)
    ensures r.currentFilter == AddFilter(s).currentFilter && r.filters == AddFilter(s).filters
  {
    assert arg[s.pos] == arg[s.pos..][0] == ',';
    r := Step(arg, s);
    assert arg[r.pos..] == arg[s.pos..][1..];
  }

  lemma {:induction false} RunFilterAndComma(arg: string, run: State -> State, s: State, f: Filter, tail: string) returns (r: State)
    requires Outcome(arg, run)
    requires Idle(s) && s.currentFilter == []
    requires WritableFilter(f) && FaithfulFilter(f) && Ahead(arg, s, RenderFilter(f) + ("," + tail))
    ensures run(s) == run(r) && Idle(r) && Ahead(arg, r, tail)
    ensures r.currentFilter == [] && r.filters == s.filters + [f]
  {
    var m := RunFilter(arg, run, s, f, "," + tail);
    r := RunComma(arg, run, m, tail);
    assert s.currentFilter + f == f;
  }

  lemma {:induction false} RenderOne(fs: seq<Filter>)
    requires |fs| == 1 && WritableSpec(fs) && FaithfulSpec(fs)
    ensures Render(fs) == RenderFilter(fs[0]) + "" && FaithfulFilter(fs[0]) && fs == [fs[0]]
  {}

  lemma {:induction false} RenderCons(fs: seq<Filter>)
    requires |fs| > 1 && WritableSpec(fs) && FaithfulSpec(fs)
    ensures FaithfulFilter(fs[0]) && WritableSpec(fs[1..]) && FaithfulSpec(fs[1..])
    ensures Render(fs) == RenderFilter(fs[0]) + ("," + Render(fs[1..]))
  {}

  lemma {:induction false} RunSpec(arg: string, run: State -> State, s: State, fs: seq<Filter>) returns (r: State)
    requires Outcome(arg, run)
    requires Idle(s) && s.currentFilter == []
    requires WritableSpec(fs) && FaithfulSpec(fs) && Ahead(arg, s, Render(fs))
    ensures run(s) == run(r) && Idle(r) && r.pos == |arg|
    ensures AddFilter(r).filters == s.filters + fs
    decreases |fs|
  {
    if fs == [] {
      r := s;
    } else if |fs| == 1 {
      RenderOne(fs);
      r := RunFilter(arg, run, s, fs[0], "");
      assert s.currentFilter + fs[0] == fs[0];
    } else {
      RenderCons(fs);
      var m := RunFilterAndComma(arg, run, s, fs[0], Render(fs[1..]));
      r := RunSpec(arg, run, m, fs[1..]);
      AppendFirst(s.filters, fs);
    }
  }

  /** Round trip: any list of non-empty filters of faithful patterns is read back as it was written. */
  lemma {:induction false} RoundTrip(fs: seq<Filter>)
    requires WritableSpec(fs) && FaithfulSpec(fs)
    ensures ParseTestSpec(Render(fs)) == fs
  {
    var arg := Render(fs);
    RunnerOutcome(arg);
    var r := RunSpec(arg, Runner(arg), Restarted(INITIAL), fs);
    assert Run(arg, r) == r;
  }

  // ----- exactly which patterns survive -----

  function TextLength(p: Pattern): nat
  {
    match p
    case NamePattern(name) => |name|
    case TagPattern(tag) => |tag|
    case ExcludedPattern(u) => TextLength(u)
  }

  /** Every pattern so far is shorter than `n`, and so is what is left to make patterns of. */
  ghost predicate AllShort(arg: string, s: State, n: nat)
  {
    && (forall p :: p in s.currentFilter ==> TextLength(p) < n)
    && (forall f, p :: f in s.filters && p in f ==> TextLength(p) < n)
    && |arg| - (if s.mode == None then s.pos else s.start) < n
  }

  lemma {:induction false} WithoutShorter(arg: string, lo: nat, hi: nat, es: seq<nat>)
    requires lo <= hi <= |arg|
    ensures |Without(arg, lo, hi, es)| <= hi - lo
    decreases hi - lo
  {
    if lo < hi {
      WithoutShorter(arg, lo + 1, hi, es);
    }
  }

  lemma {:induction false} AddPatternShort(arg: string, s: State, isTag: bool, n: nat)
    requires s.start <= s.pos <= |arg| && AllShort(arg, s, n) && |arg| - s.start < n
    ensures AllShort(arg, AddPattern(arg, s, isTag), n)
  {
    WithoutShorter(arg, s.start, s.pos, s.escapeChars);
  }

  lemma {:induction false} VisitNameShort(arg: string, s: State, n: nat)
    requires Reachable(arg, s) && s.mode == Name && s.pos < |arg| && AllShort(arg, s, n)
    ensures AllShort(arg, Next(VisitName(arg, s, arg[s.pos])), n)
  {
    AddPatternShort(arg, s, false, n);
  }

  lemma {:induction false} StepShort(arg: string, s: State, n: nat)
    requires Reachable(arg, s) && s.pos < |arg| && AllShort(arg, s, n)
    ensures AllShort(arg, Step(arg, s), n)
  {
    match s.mode
    case None => VisitNameShort(arg, s.(mode := Name, start := s.pos), n);
    case Name => VisitNameShort(arg, s, n);
    case EscapedName =>
    case QuotedName => AddPatternShort(arg, s, false, n);
    case Tag => AddPatternShort(arg, s, true, n);
  }

  lemma {:induction false} RunShort(arg: string, s: State, n: nat)
    requires Reachable(arg, s) && AllShort(arg, s, n)
    ensures AllShort(arg, Run(arg, s), n)
    decreases |arg| + 1 - s.pos
  {
    if s.pos < |arg| {
      StepShort(arg, s, n);
      RunShort(arg, Step(arg, s), n);
    }
  }

  /** What parsing ends with, from a state in the middle of the text. */
  function Finish(arg: string, s: State): seq<Filter>
    requires s.mode == Name ==> s.start <= s.pos <= |arg|
  {
    AddFilter(if s.mode == Name then AddPattern(arg, s, false) else s).filters
  }

  lemma {:induction false} OnlyShortPatterns(arg: string, s: State, n: nat)
    requires Reachable(arg, s) && AllShort(arg, s, n)
    ensures forall f, p :: f in Finish(arg, Run(arg, s)) && p in f ==> TextLength(p) < n
  {
    RunShort(arg, s, n);
    var r := Run(arg, s);
    if r.mode == Name {
      AddPatternShort(arg, r, false, n);
    }
  }

  /** Where the parser will end a text that starts after position `q`. */
  function FirstCloser(arg: string, k: nat, closer: char): (e: nat)
    requires k <= |arg|
    ensures k <= e <= |arg|
    ensures e < |arg| ==> arg[e] == closer
    ensures forall i :: k <= i < e ==> arg[i] != closer
    decreases |arg| - k
  {
    if k == |arg| || arg[k] == closer then k else FirstCloser(arg, k + 1, closer)
  }

  /** The token read in place of a text that is not plain is a shorter one, or would be excluded. */
  lemma {:induction false} UnfaithfulToken(arg: string, q: nat, p: Pattern) returns (e: nat)
    requires Simple(p) && !Plain(Text(p), Closer(p)) && Text(p) != ""
    requires q <= |arg| && arg[q..] == RenderSimple(p)
    ensures q + 2 <= e <= q + 1 + |Text(p)| < |arg| && arg[e] == Closer(p)
    ensures forall k :: q + 2 <= k < e ==> arg[k] != Closer(p)
    ensures e < q + 1 + |Text(p)| || "exclude:" <= arg[q+1..e]
  {
    var text, ahead := Text(p), RenderSimple(p);
    assert forall i :: 0 <= i < |text| + 2 ==> ahead[i] == arg[q + i];
    assert ahead[|text| + 1] == Closer(p);
    e := FirstCloser(arg, q + 2, Closer(p));
    if e == q + 1 + |text| {
      assert arg[q+1..e] == ahead[1..|text| + 1] == text;
      assert forall i :: 0 <= i < |text| - 1 ==> text[1..][i] == ahead[i + 2] == arg[q + 2 + i];
    }
  }

  lemma {:induction false} ClosedShort(arg: string, s: State, isTag: bool, n: nat) returns (r: State)
    requires Reachable(arg, s) && s.pos < |arg| && s.mode == (if isTag then Tag else QuotedName)
    requires arg[s.pos] == (if isTag then ']' else '"')
    requires s.currentFilter == [] && s.filters == [] && |arg| - s.pos <= n
    requires s.pos - s.start < n || (s.pos - s.start == n && "exclude:" <= arg[s.start..s.pos])
    ensures r == Step(arg, s) && Reachable(arg, r) && AllShort(arg, r, n)
  {
    WithoutNothing(arg, s.start, s.pos, []);
    ExcludePrefix(arg[s.start..s.pos]);
    r := Step(arg, s);
  }

  /** A text that is not plain gives a shorter pattern, or none, and leaves less than its own length
      to make patterns of. */
  lemma {:induction false} UnfaithfulText(arg: string, run: State -> State, s: State, p: Pattern) returns (r: State)
    requires Outcome(arg, run) && Reachable(arg, s) && s.mode == None
    requires Simple(p) && !Plain(Text(p), Closer(p)) && Text(p) != ""
    requires Ahead(arg, s, RenderSimple(p)) && s.currentFilter == [] && s.filters == []
    ensures Reachable(arg, r) && run(s) == run(r) && AllShort(arg, r, |Text(p)|)
  {
    var e := UnfaithfulToken(arg, s.pos, p);
    assert arg[s.pos] == arg[s.pos..][0] && |arg| - s.pos == |Text(p)| + 2;
    var m := OpenText(arg, run, s, p);
    RunInside(arg, run, m, e);
    r := ClosedShort(arg, m.(pos := e), p.TagPattern?, |Text(p)|);
  }

  /** An empty text leaves no pattern at all. */
  lemma {:induction false} EmptyText(arg: string, run: State -> State, s: State, p: Pattern) returns (r: State)
    requires Outcome(arg, run) && Reachable(arg, s) && s.mode == None
    requires Simple(p) && Text(p) == "" && Ahead(arg, s, RenderSimple(p))
    ensures run(s) == run(r) && r.mode != Name && r.pos == |arg| && Reachable(arg, r)
    ensures r.currentFilter == s.currentFilter && r.filters == s.filters
  {
    assert arg[s.pos] == arg[s.pos..][0];
    r := OpenText(arg, run, s, p);
  }

  lemma {:induction false} ShortIsNot(found: seq<Filter>, p: Pattern)
    requires forall f, q :: f in found && q in f ==> TextLength(q) < TextLength(p)
    ensures found != [[p]]
  {
    assert [p] in [[p]] && p in [p];
  }

  lemma {:induction false} TextIsLost(arg: string, s: State, core: Pattern, p: Pattern)
    requires Reachable(arg, s) && s.mode == None && s.currentFilter == [] && s.filters == []
    requires Simple(core) && !Plain(Text(core), Closer(core)) && Ahead(arg, s, RenderSimple(core))
    requires TextLength(p) == |Text(core)|
    ensures Finish(arg, Run(arg, s)) != [[p]]
  {
    RunnerOutcome(arg);
    if Text(core) == "" {
      var r := EmptyText(arg, Runner(arg), s, core);
      assert Run(arg, r) == r && Finish(arg, r) == [];
    } else {
      var r := UnfaithfulText(arg, Runner(arg), s, core);
      OnlyShortPatterns(arg, r, |Text(core)|);
      ShortIsNot(Finish(arg, Run(arg, r)), p);
    }
  }

  lemma {:induction false} UnfaithfulIsLost(p: Pattern)
    requires Writable(p) && !Faithful(p)
    ensures ParseTestSpec(RenderPattern(p)) != [[p]]
  {
    var arg, s := RenderPattern(p), Restarted(INITIAL);
    if p.ExcludedPattern? {
      RunnerOutcome(arg);
      var r := RunTilde(arg, Runner(arg), s, RenderSimple(p.underlying));
      TextIsLost(arg, r, p.underlying, p);
    } else {
      TextIsLost(arg, s, p, p);
    }
  }

  /** A pattern survives being written and read exactly when it is faithful. */
  lemma {:induction false} SurvivesExactly(p: Pattern)
    requires Writable(p)
    ensures ParseTestSpec(RenderPattern(p)) == [[p]] <==> Faithful(p)
  {
    if Faithful(p) {
      assert FaithfulFilter([p]) && WritableFilter([p]);
      RoundTrip([[p]]);
      assert [p][1..] == [];
      assert Render([[p]]) == RenderFilter([p]) == RenderPattern(p) + RenderFilter([]) == RenderPattern(p);
    } else {
      UnfaithfulIsLost(p);
    }
  }

  // ----- names with every character escaped -----

  function Escaped(name: string): string
  {
    if name == "" then "" else ['\\', name[0]] + Escaped(name[1..])
  }

  /** In the middle of a name that so far reads `done`. */
  ghost predicate Naming(arg: string, s: State, done: string)
  {
    Reachable(arg, s) && s.mode == Name && !s.exclusion && Token(arg, s) == done
  }

  /** Recording the escape at `hi` cuts the character there and keeps the one after it. */
  lemma {:induction false} WithoutEscaped(arg: string, lo: nat, hi: nat, es: seq<nat>)
    requires lo <= hi && hi + 2 <= |arg| && forall e :: e in es ==> e < hi
    ensures Without(arg, lo, hi + 2, es + [hi]) == Without(arg, lo, hi, es) + [arg[hi + 1]]
  {
    var fs := es + [hi];
    WithoutSplit(arg, lo, hi, hi + 2, fs);
    WithoutEarlier(arg, lo, hi, es);
    WithoutLast(arg, hi, fs);
  }

  lemma {:induction false} WithoutEarlier(arg: string, lo: nat, hi: nat, es: seq<nat>)
    requires lo <= hi <= |arg|
    ensures Without(arg, lo, hi, es + [hi]) == Without(arg, lo, hi, es)
  {
    WithoutDependsOn(arg, lo, hi, es, es + [hi]);
  }

  lemma {:induction false} WithoutLast(arg: string, hi: nat, fs: seq<nat>)
    requires hi + 2 <= |arg| && hi in fs && hi + 1 !in fs
    ensures Without(arg, hi, hi + 2, fs) == [arg[hi + 1]]
  {
    assert Without(arg, hi + 1, hi + 2, fs) == [arg[hi + 1]] + Without(arg, hi + 2, hi + 2, fs);
    assert Without(arg, hi, hi + 2, fs) == "" + Without(arg, hi + 1, hi + 2, fs);
  }

  lemma {:induction false} StepBackslash(arg: string, s: State) returns (r: State)
    requires Reachable(arg, s) && s.mode == Name && s.pos < |arg| && arg[s.pos] == '\\'
    ensures r == Step(arg, s) && Reachable(arg, r)
    ensures r == s.(mode := EscapedName, escapeChars := s.escapeChars + [s.pos], pos := s.pos + 1)
  {
    r := Step(arg, s);
  }

  lemma {:induction false} StepEscaped(arg: string, s: State) returns (r: State)
    requires Reachable(arg, s) && s.mode == EscapedName && s.pos < |arg|
    ensures r == Step(arg, s) && Reachable(arg, r) && r == s.(mode := Name, pos := s.pos + 1)
  {
    r := Step(arg, s);
  }

  /** A backslash and the character after it add that character to the name. */
  lemma {:induction false} StepTwice(arg: string, run: State -> State, s: State, done: string, c: char, rest: string) returns (r: State)
    requires Outcome(arg, run) && Naming(arg, s, done) && Ahead(arg, s, ['\\', c] + rest)
    ensures run(s) == run(r) && Naming(arg, r, done + [c]) && Ahead(arg, r, rest)
    ensures r.currentFilter == s.currentFilter && r.filters == s.filters
  {
    var ahead := arg[s.pos..];
    assert ahead[0] == arg[s.pos] && ahead[1] == arg[s.pos + 1] && ahead[2..] == arg[s.pos + 2..];
    var m := StepBackslash(arg, s);
    r := StepEscaped(arg, m);
    WithoutEscaped(arg, s.start, s.pos, s.escapeChars);
  }

  lemma {:induction false} RunEscaped(arg: string, run: State -> State, s: State, done: string, name: string) returns (r: State)
    requires Outcome(arg, run) && Naming(arg, s, done) && Ahead(arg, s, Escaped(name))
    ensures run(s) == run(r) && Naming(arg, r, done + name) && r.pos == |arg|
    ensures r.currentFilter == s.currentFilter && r.filters == s.filters
    decreases |name|
  {
    if name == "" {
      r := s;
      assert done + name == done;
    } else {
      var m := StepTwice(arg, run, s, done, name[0], Escaped(name[1..]));
      r := RunEscaped(arg, run, m, done + [name[0]], name[1..]);
      AppendFirst(done, name);
    }
  }

  /** A backslash starts a name where it stands. */
  lemma {:induction false} StartEscaped(arg: string, s: State)
    requires Reachable(arg, s) && s.mode == None && s.pos < |arg| && arg[s.pos] == '\\'
    ensures var n := s.(mode := Name, start := s.pos); Reachable(arg, n) && Step(arg, s) == Step(arg, n)
  {}

  lemma {:induction false} FinishName(arg: string, s: State)
    requires s.mode == Name && s.start <= s.pos <= |arg| && !s.exclusion && s.currentFilter == [] && s.filters == []
    ensures
      var token := Token(arg, s);
      Finish(arg, s) == (
        if "exclude:" <= token then
          if token == "exclude:" then [] else [[ExcludedPattern(NamePattern(token[8..]))]]
        else if token == "" then [] else [[NamePattern(token)]])
  {
    ExcludePrefix(Token(arg, s));
    var token, r := Token(arg, s), AddPattern(arg, s, false);
    if StartsWith(token, EXCLUDE) {
      if |token| == |EXCLUDE| {
        assert token[..|EXCLUDE|] == token;
        assert r.currentFilter == [];
      } else {
        assert r.currentFilter == [ExcludedPattern(NamePattern(token[|EXCLUDE|..]))];
      }
    } else if token != "" {
      assert r.currentFilter == [NamePattern(token)];
    }
    assert r.currentFilter != [] ==> Finish(arg, s) == [r.currentFilter];
  }

  lemma {:induction false} RunsToEnd(name: string) returns (r: State)
    requires name != ""
    ensures Naming(Escaped(name), r, name) && r.currentFilter == [] && r.filters == []
    ensures ParseTestSpec(Escaped(name)) == Finish(Escaped(name), r)
  {
    var arg, s := Escaped(name), Restarted(INITIAL);
    RunnerOutcome(arg);
    StartEscaped(arg, s);
    var n := s.(mode := Name, start := 0);
    assert Naming(arg, n, "") && Ahead(arg, n, Escaped(name));
    r := RunEscaped(arg, Runner(arg), n, "", name);
    assert "" + name == name && Run(arg, r) == r && Run(arg, s) == Run(arg, n);
  }

  lemma {:induction false} ParseEscaped(name: string)
    ensures ParseTestSpec(Escaped(name)) ==
      if name == "" then []
      else if !("exclude:" <= name) then [[NamePattern(name)]]
      else if name == "exclude:" then []
      else [[ExcludedPattern(NamePattern(name[8..]))]]
  {
    if name != "" {
      var r := RunsToEnd(name);
      FinishName(Escaped(name), r);
    }
  }

  /** A name with every character escaped is read back as just that name, unless it is empty or
      starts like an exclusion. */
  lemma {:induction false} EscapedNameSurvivesExactly(name: string)
    ensures ParseTestSpec(Escaped(name)) == [[NamePattern(name)]] <==> name != "" && !("exclude:" <= name)
  {
    ParseEscaped(name);
  }
}
