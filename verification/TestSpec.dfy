/** Test specifications on the command line, and the character state machine that parses them. */
module TestSpec {

  datatype Pattern = NamePattern(name: string) | TagPattern(tag: string) | ExcludedPattern(underlying: Pattern)

  /** All patterns of a filter must match; a specification matches if one of its filters does. */
  type Filter = seq<Pattern>

  datatype Mode = None | Name | QuotedName | Tag | EscapedName

  const EXCLUDE := "exclude:"

  function StartsWith(s: string, prefix: string): bool
  {
    |s| >= |prefix| && s[..|prefix|] == prefix
  }

  /** The state of a parser, the text it works on aside. */
  datatype State = State(
    mode: Mode, exclusion: bool, start: nat, pos: nat, escapeChars: seq<nat>,
    currentFilter: Filter, filters: seq<Filter>)

  // ----- what holds of every state -----

  ghost predicate Increasing(es: seq<nat>)
  {
    forall i, j :: 0 <= i < j < |es| ==> es[i] < es[j]
  }

  /** Where the parser may be between two characters; in particular the recorded escapes are
      backslashes within the current token, in order. */
  ghost predicate Reachable(arg: string, s: State)
  {
    && Increasing(s.escapeChars)
    && (match s.mode
        case None => s.pos <= |arg| + 1 && s.escapeChars == []
        case Name | EscapedName =>
          && s.start <= s.pos <= |arg|
          && forall e :: e in s.escapeChars ==> s.start <= e < s.pos && arg[e] == '\\'
        case QuotedName | Tag => s.start <= |arg| && s.start <= s.pos <= |arg| + 1 && s.escapeChars == [])
  }

  // ----- tokens -----

  /** The text from `lo` to `hi` without the characters at the positions in `es`. */
  function Without(arg: string, lo: nat, hi: nat, es: seq<nat>): string
    requires lo <= hi <= |arg|
    decreases hi - lo
  {
    if lo == hi then ""
    else (if lo in es then "" else [arg[lo]]) + Without(arg, lo + 1, hi, es)
  }

  lemma {:induction false} WithoutSplit(arg: string, lo: nat, mid: nat, hi: nat, es: seq<nat>)
    requires lo <= mid <= hi <= |arg|
    ensures Without(arg, lo, hi, es) == Without(arg, lo, mid, es) + Without(arg, mid, hi, es)
    decreases mid - lo
  {
    if lo < mid {
      WithoutSplit(arg, lo + 1, mid, hi, es);
    }
  }

  lemma {:induction false} WithoutNothing(arg: string, lo: nat, hi: nat, es: seq<nat>)
    requires lo <= hi <= |arg|
    requires forall e :: e in es ==> e < lo || hi <= e
    ensures Without(arg, lo, hi, es) == arg[lo..hi]
    decreases hi - lo
  {
    if lo < hi {
      WithoutNothing(arg, lo + 1, hi, es);
      assert arg[lo..hi] == [arg[lo]] + arg[lo+1..hi];
    }
  }

  lemma {:induction false} WithoutDependsOn(arg: string, lo: nat, hi: nat, es: seq<nat>, fs: seq<nat>)
    requires lo <= hi <= |arg|
    requires forall k :: lo <= k < hi ==> (k in es <==> k in fs)
    ensures Without(arg, lo, hi, es) == Without(arg, lo, hi, fs)
    decreases hi - lo
  {
    if lo < hi {
      WithoutDependsOn(arg, lo + 1, hi, es, fs);
    }
  }

  /** The token a parser in a token would end here. */
  function Token(arg: string, s: State): string
    requires s.start <= s.pos <= |arg|
  {
    Without(arg, s.start, s.pos, s.escapeChars)
  }

  // ----- the transitions -----

  function AddPattern(arg: string, s: State, isTag: bool): State
    requires s.start <= s.pos <= |arg|
  {
    var token := Token(arg, s);
    var exclusion := s.exclusion || StartsWith(token, EXCLUDE);
    var rest := if StartsWith(token, EXCLUDE) then token[|EXCLUDE|..] else token;
    var pattern := if isTag then TagPattern(rest) else NamePattern(rest);
    s.(escapeChars := [], exclusion := false, mode := None,
       currentFilter :=
         if rest == "" then s.currentFilter
         else s.currentFilter + [if exclusion then ExcludedPattern(pattern) else pattern])
  }

  function AddFilter(s: State): State
  {
    if s.currentFilter == [] then s
    else s.(filters := s.filters + [s.currentFilter], currentFilter := [])
  }

  function Escape(s: State): State
  {
    s.(start := if s.mode == None then s.pos else s.start, mode := EscapedName, escapeChars := s.escapeChars + [s.pos])
  }

  /** Starting a mode after a bracket or quote passes over it, and over the first character after it unseen. */
  function StartAfter(s: State, mode: Mode): State
  {
    s.(mode := mode, start := s.pos + 1, pos := s.pos + 1)
  }

  function VisitName(arg: string, s: State, c: char): State
    requires s.start <= s.pos <= |arg|
  {
    if c == ',' then AddFilter(AddPattern(arg, s, false))
    else if c == '[' then
      StartAfter(
        if arg[s.start..s.pos] == EXCLUDE then s.(exclusion := true) else AddPattern(arg, s, false), Tag)
    else if c == '\\' then Escape(s)
    else s
  }

  function Visit(arg: string, s: State): State
    requires s.pos < |arg| && (s.mode != None ==> s.start <= s.pos)
  {
    var c := arg[s.pos];
    match s.mode
    case None =>
      if c == ' ' then s
      else if c == '~' then s.(exclusion := true)
      else if c == '[' then StartAfter(s, Tag)
      else if c == '"' then StartAfter(s, QuotedName)
      else if c == '\\' then Escape(s)
      else VisitName(arg, s.(mode := Name, start := s.pos), c)
    case Name => VisitName(arg, s, c)
    case EscapedName => s.(mode := Name)
    case QuotedName => if c == '"' then AddPattern(arg, s, false) else s
    case Tag => if c == ']' then AddPattern(arg, s, true) else s
  }

  function Next(s: State): State
  {
    s.(pos := s.pos + 1)
  }

  /** One turn of the loop over the characters. */
  function Step(arg: string, s: State): (r: State)
    requires Reachable(arg, s) && s.pos < |arg|
    ensures Reachable(arg, r) && r.pos > s.pos
  {
    StepReachable(arg, s);
    Next(Visit(arg, s))
  }

  lemma {:induction false} EscapeReachable(arg: string, s: State)
    requires Reachable(arg, s) && s.pos < |arg| && arg[s.pos] == '\\' && (s.mode == None || s.mode == Name)
    ensures Reachable(arg, Next(Escape(s))) && Escape(s).pos == s.pos
  {
    assert forall i :: 0 <= i < |s.escapeChars| ==> s.escapeChars[i] in s.escapeChars;
  }

  lemma {:induction false} VisitNameReachable(arg: string, s: State)
    requires Reachable(arg, s) && s.mode == Name && s.pos < |arg|
    ensures var v := VisitName(arg, s, arg[s.pos]); Reachable(arg, Next(v)) && v.pos >= s.pos
  {
    if arg[s.pos] == '\\' {
      EscapeReachable(arg, s);
    } else {
      ExcludeHasNoEscapes(arg, s);
    }
  }

  lemma {:induction false} StepReachable(arg: string, s: State)
    requires Reachable(arg, s) && s.pos < |arg|
    ensures var v := Visit(arg, s); Reachable(arg, Next(v)) && v.pos >= s.pos
  {
    if s.mode == None {
      if arg[s.pos] == '\\' {
        EscapeReachable(arg, s);
      } else {
        VisitNameReachable(arg, s.(mode := Name, start := s.pos));
      }
    } else if s.mode == Name {
      VisitNameReachable(arg, s);
    }
  }

  lemma {:induction false} ExcludeHasNoEscapes(arg: string, s: State)
    requires Reachable(arg, s)
    ensures s.mode == Name && s.escapeChars != [] ==> arg[s.start..s.pos] != EXCLUDE
  {
    if s.mode == Name && s.escapeChars != [] {
      var e := s.escapeChars[0];
      assert e in s.escapeChars;
      assert arg[s.start..s.pos][e - s.start] == '\\';
      assert '\\' !in EXCLUDE;
    }
  }

  function Run(arg: string, s: State): (r: State)
    requires Reachable(arg, s)
    ensures Reachable(arg, r) && r.pos >= |arg|
    decreases |arg| + 1 - s.pos
  {
    if s.pos < |arg| then Run(arg, Step(arg, s)) else s
  }

  const NPOS: nat := 0xFFFF_FFFF_FFFF_FFFF

  function Restarted(s: State): State
  {
    s.(mode := None, exclusion := false, start := NPOS, pos := 0, escapeChars := [])
  }

  /** The parser after `arg`, which may follow other arguments. */
  function Parse(arg: string, s: State): State
  {
    var r := Run(arg, Restarted(s));
    if r.mode == Name then AddPattern(arg, r, false) else r
  }

  const INITIAL: State := State(None, false, 0, 0, [], [], [])

  function ParseTestSpec(arg: string): seq<Filter>
  {
    AddFilter(Parse(arg, INITIAL)).filters
  }

  /** The parser after several arguments. */
  function ParseAll(args: seq<string>): State
  {
    if args == [] then INITIAL else Parse(args[|args| - 1], ParseAll(args[..|args| - 1]))
  }

  // ----- the parser itself -----

  class TestSpecParser {
    var mode: Mode
    var exclusion: bool
    var start: nat
    var pos: nat
    var arg: string
    var escapeChars: seq<nat>
    var currentFilter: Filter
    var filters: seq<Filter>

    constructor ()
      ensures St() == INITIAL && arg == ""
    {
      mode, exclusion, start, pos, arg := None, false, 0, 0, "";
      escapeChars, currentFilter, filters := [], [], [];
    }

    function St(): State
      reads this
    {
      State(mode, exclusion, start, pos, escapeChars, currentFilter, filters)
    }

    /** Parses one argument, tag aliases already expanded. */
    method ParseArg(expanded: string)
      modifies this
      ensures arg == expanded && St() == Parse(expanded, old(St()))
    {
      mode := None;
      exclusion := false;
      start := NPOS;
      arg := expanded;
      escapeChars := [];
      pos := 0;
      while pos < |arg|
        invariant arg == expanded && Reachable(arg, St())
        invariant Run(arg, St()) == Run(arg, Restarted(old(St())))
        decreases |arg| + 1 - pos
      {
        ghost var before := St();
        VisitChar(arg[pos]);
        pos := pos + 1;
        assert St() == Step(arg, before);
      }
      if mode == Name {
        AddPatternHere(false);
      }
    }

    method GetTestSpec() returns (r: seq<Filter>)
      modifies this
      ensures St() == AddFilter(old(St())) && r == filters
    {
      AddFilterHere();
      r := filters;
    }

    method VisitChar(c: char)
      requires Reachable(arg, St()) && pos < |arg| && c == arg[pos]
      modifies this
      ensures arg == old(arg) && St() == Visit(arg, old(St()))
    {
      if mode == None {
        match c
        case ' ' => return;
        case '~' => exclusion := true; return;
        case '[' => pos := pos + 1; StartNewMode(Tag, pos); return;
        case '"' => pos := pos + 1; StartNewMode(QuotedName, pos); return;
        case '\\' => EscapeHere(); return;
        case _ => StartNewMode(Name, pos);
      }
      if mode == Name {
        if c == ',' {
          AddPatternHere(false);
          AddFilterHere();
        } else if c == '[' {
          if arg[start..pos] == EXCLUDE {
            exclusion := true;
          } else {
            AddPatternHere(false);
          }
          pos := pos + 1;
          StartNewMode(Tag, pos);
        } else if c == '\\' {
          EscapeHere();
        }
      } else if mode == EscapedName {
        mode := Name;
      } else if mode == QuotedName && c == '"' {
        AddPatternHere(false);
      } else if mode == Tag && c == ']' {
        AddPatternHere(true);
      }
    }

    method StartNewMode(newMode: Mode, newStart: nat)
      modifies this`mode, this`start
      ensures mode == newMode && start == newStart
    {
      mode := newMode;
      start := newStart;
    }

    method EscapeHere()
      modifies this`start, this`mode, this`escapeChars
      ensures St() == Escape(old(St()))
    {
      if mode == None {
        start := pos;
      }
      mode := EscapedName;
      escapeChars := escapeChars + [pos];
    }

    /** Cuts the escaping backslashes out of the current token, each shifted by those cut before it. */
    method CutEscapes() returns (token: string)
      requires start <= pos <= |arg| && Increasing(escapeChars)
      requires forall e :: e in escapeChars ==> start <= e < pos
      ensures token == Token(arg, St())
    {
      token := arg[start..pos];
      ghost var cut := start;
      var i := 0;
      while i < |escapeChars|
        invariant 0 <= i <= |escapeChars| && start <= cut <= pos
        invariant cut == if i == 0 then start else escapeChars[i-1] + 1
        invariant token == Without(arg, start, cut, escapeChars) + arg[cut..pos]
        invariant |Without(arg, start, cut, escapeChars)| + i == cut - start
      {
        var e := escapeChars[i];
        assert e in escapeChars && cut <= e;
        CutNext(arg, start, cut, e, escapeChars, i);
        CutAt(Without(arg, start, cut, escapeChars), arg, cut, e, pos);
        token := token[..e - start - i] + token[e - start - i + 1..];
        cut := e + 1;
        i := i + 1;
      }
      forall e | e in escapeChars ensures e < cut {
        var k :| 0 <= k < |escapeChars| && escapeChars[k] == e;
      }
      WithoutSplit(arg, start, cut, pos, escapeChars);
      WithoutNothing(arg, cut, pos, escapeChars);
    }

    method AddPatternHere(isTag: bool)
      requires start <= pos <= |arg| && Increasing(escapeChars)
      requires forall e :: e in escapeChars ==> start <= e < pos
      modifies this
      ensures arg == old(arg) && St() == AddPattern(arg, old(St()), isTag)
    {
      var token := CutEscapes();
      escapeChars := [];
      if StartsWith(token, EXCLUDE) {
        exclusion := true;
        token := token[|EXCLUDE|..];
      }
      if token != "" {
        var pattern := if isTag then TagPattern(token) else NamePattern(token);
        if exclusion {
          pattern := ExcludedPattern(pattern);
        }
        currentFilter := currentFilter + [pattern];
      }
      exclusion := false;
      mode := None;
    }

    method AddFilterHere()
      modifies this`filters, this`currentFilter
      ensures St() == AddFilter(old(St()))
    {
      if currentFilter != [] {
        filters := filters + [currentFilter];
        currentFilter := [];
      }
    }
  }

  class Config {
    var testSpec: seq<Filter>

    /** The specification that several arguments make together; there is none without any. */
    constructor (testsOrTags: seq<string>)
      ensures testSpec == if testsOrTags == [] then [] else AddFilter(ParseAll(testsOrTags)).filters
    {
      testSpec := [];
      new;
      if testsOrTags != [] {
        var parser := new TestSpecParser();
        var i := 0;
        while i < |testsOrTags|
          invariant 0 <= i <= |testsOrTags| && fresh(parser) && parser.St() == ParseAll(testsOrTags[..i])
        {
          parser.ParseArg(testsOrTags[i]);
          assert testsOrTags[..i+1][..i] == testsOrTags[..i];
          i := i + 1;
        }
        assert testsOrTags[..i] == testsOrTags;
        testSpec := parser.GetTestSpec();
      }
    }
  }

  lemma {:induction false} CutAt(kept: string, arg: string, cut: nat, e: nat, pos: nat)
    requires cut <= e < pos <= |arg|
    ensures
      var token := kept + arg[cut..pos];
      var k := |kept| + (e - cut);
      token[..k] == kept + arg[cut..e] && token[k+1..] == arg[e+1..pos]
  {}

  lemma {:induction false} CutNext(arg: string, start: nat, cut: nat, e: nat, es: seq<nat>, i: nat)
    requires start <= cut <= e < |arg| && i < |es| && es[i] == e && Increasing(es)
    requires cut == if i == 0 then start else es[i-1] + 1
    ensures Without(arg, start, e + 1, es) == Without(arg, start, cut, es) + arg[cut..e]
  {
    forall x | x in es ensures x < cut || e <= x {
      var k :| 0 <= k < |es| && es[k] == x;
    }
    WithoutSplit(arg, start, cut, e + 1, es);
    WithoutSplit(arg, cut, e, e + 1, es);
    WithoutNothing(arg, cut, e, es);
  }
}
