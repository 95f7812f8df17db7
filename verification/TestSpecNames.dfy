/** Test specifications with unquoted names, in one argument or several. */
module TestSpecNames {
  import opened Common
  import T = TestSpec
  import opened R = TestSpecResults

  type Filter = T.Filter
  type State = T.State
  type Pattern = T.Pattern

  // ----- what can be written -----

  /** A character of an unquoted name, with a backslash before it or not. */
  datatype Piece = Piece(c: char, escaped: bool)

  /** A pattern in quotes or brackets, an unquoted name with a tilde or not, or an excluded tag. */
  datatype Shape = Quoted(p: Pattern) | Bare(tilde: bool, pieces: seq<Piece>) | ExcludeTag(tag: string)

  datatype Part = Part(blanks: nat, shape: Shape)

  function Spelled(pieces: seq<Piece>): string
  {
    if pieces == [] then ""
    else (if pieces[0].escaped then ['\\', pieces[0].c] else [pieces[0].c]) + Spelled(pieces[1..])
  }

  function Chars(pieces: seq<Piece>): (r: string)
    ensures |r| == |pieces|
  {
    if pieces == [] then "" else [pieces[0].c] + Chars(pieces[1..])
  }

  /** Commas, opening brackets and backslashes end or change a name where they are not escaped. */
  predicate ValidPieces(pieces: seq<Piece>)
  {
    forall i :: 0 <= i < |pieces| ==> pieces[i].escaped || pieces[i].c !in {',', '[', '\\'}
  }

  /** A name is neither empty nor just the word for exclusions, and does not start with a blank, a tilde or
      a quote unless that is escaped. */
  predicate ValidName(pieces: seq<Piece>)
  {
    && pieces != [] && ValidPieces(pieces) && Chars(pieces) != "exclude:"
    && (pieces[0].escaped || pieces[0].c !in {' ', '~', '"'})
  }

  predicate ValidShape(shape: Shape)
  {
    match shape
    case Quoted(p) => Faithful(p)
    case Bare(_, pieces) => ValidName(pieces)
    case ExcludeTag(tag) => Plain(tag, ']')
  }

  function Blanks(n: nat): string
  {
    if n == 0 then "" else " " + Blanks(n - 1)
  }

  function SpellShape(shape: Shape): string
    requires ValidShape(shape)
  {
    match shape
    case Quoted(p) => RenderPattern(p)
    case Bare(tilde, pieces) => (if tilde then "~" else "") + Spelled(pieces)
    case ExcludeTag(tag) => "exclude:[" + tag + "]"
  }

  function SpellPart(part: Part): string
    requires ValidShape(part.shape)
  {
    Blanks(part.blanks) + SpellShape(part.shape)
  }

  /** What an unquoted name means, which may be excluded in two ways. */
  function Named(exclusion: bool, name: string): Pattern
  {
    if "exclude:" <= name then T.ExcludedPattern(T.NamePattern(name[8..]))
    else if exclusion then T.ExcludedPattern(T.NamePattern(name))
    else T.NamePattern(name)
  }

  /** What a part means. */
  function Meaning(shape: Shape): Pattern
  {
    match shape
    case Quoted(p) => p
    case Bare(tilde, pieces) => Named(tilde, Chars(pieces))
    case ExcludeTag(tag) => T.ExcludedPattern(T.TagPattern(tag))
  }

  /** An unquoted name goes on until a comma or an opening bracket. */
  predicate MayFollow(before: Shape, part: Part)
  {
    before.Bare? ==> part.blanks == 0 && part.shape.Quoted? && part.shape.p.TagPattern?
  }

  predicate ValidParts(parts: seq<Part>)
  {
    && (forall i :: 0 <= i < |parts| ==> ValidShape(parts[i].shape))
    && (forall i :: 0 <= i < |parts| - 1 ==> MayFollow(parts[i].shape, parts[i + 1]))
  }

  function Spell(parts: seq<Part>): string
    requires forall i :: 0 <= i < |parts| ==> ValidShape(parts[i].shape)
  {
    if parts == [] then "" else SpellPart(parts[0]) + Spell(parts[1..])
  }

  function Meanings(parts: seq<Part>): Filter
  {
    if parts == [] then [] else [Meaning(parts[0].shape)] + Meanings(parts[1..])
  }

  // ----- running the parser over unquoted names -----

  ghost predicate InName(arg: string, s: State, done: string)
  {
    T.Reachable(arg, s) && s.mode == T.Name && T.Token(arg, s) == done
  }

  lemma {:induction false} AheadOne(arg: string, s: State, c: char, tail: string)
    requires Ahead(arg, s, [c] + tail)
    ensures s.pos < |arg| && arg[s.pos] == c && arg[s.pos + 1..] == tail
  {
    var ahead := arg[s.pos..];
    assert ahead[0] == arg[s.pos] && ahead[1..] == arg[s.pos + 1..];
    assert ([c] + tail)[1..] == tail;
  }

  lemma {:induction false} RunBlanks(arg: string, run: State -> State, s: State, n: nat, tail: string) returns (r: State)
    requires Outcome(arg, run) && T.Reachable(arg, s) && s.mode == T.None && Ahead(arg, s, Blanks(n) + tail)
    ensures run(s) == run(r) && r == s.(pos := s.pos + n) && T.Reachable(arg, r) && Ahead(arg, r, tail)
    decreases n
  {
    if n == 0 {
      r := s;
      assert Blanks(0) + tail == tail;
    } else {
      assert Blanks(n) + tail == [' '] + (Blanks(n - 1) + tail);
      AheadOne(arg, s, ' ', Blanks(n - 1) + tail);
      r := T.Step(arg, s);
      r := RunBlanks(arg, run, r, n - 1, tail);
    }
  }

  /** Any character but a blank, a tilde, a bracket or a quote starts a name where it stands. */
  lemma {:induction false} StartName(arg: string, s: State)
    requires T.Reachable(arg, s) && s.mode == T.None && s.pos < |arg| && arg[s.pos] !in {' ', '~', '[', '"'}
    ensures var n := s.(mode := T.Name, start := s.pos);
      T.Reachable(arg, n) && T.Step(arg, s) == T.Step(arg, n) && T.Token(arg, n) == ""
  {}

  lemma {:induction false} RunPlain(arg: string, run: State -> State, s: State, done: string, c: char, tail: string) returns (r: State)
    requires Outcome(arg, run) && InName(arg, s, done) && Ahead(arg, s, [c] + tail) && c !in {',', '[', '\\'}
    ensures run(s) == run(r) && r == s.(pos := s.pos + 1) && InName(arg, r, done + [c]) && Ahead(arg, r, tail)
  {
    AheadOne(arg, s, c, tail);
    r := T.Step(arg, s);
    T.WithoutSplit(arg, s.start, s.pos, s.pos + 1, s.escapeChars);
    T.WithoutNothing(arg, s.pos, s.pos + 1, s.escapeChars);
  }

  lemma {:induction false} RunEscape(arg: string, run: State -> State, s: State, done: string, c: char, tail: string) returns (r: State)
    requires Outcome(arg, run) && InName(arg, s, done) && Ahead(arg, s, ['\\', c] + tail)
    ensures run(s) == run(r) && InName(arg, r, done + [c]) && Ahead(arg, r, tail)
    ensures r == s.(pos := s.pos + 2, escapeChars := s.escapeChars + [s.pos])
  {
    assert ['\\', c] + tail == ['\\'] + ([c] + tail);
    AheadOne(arg, s, '\\', [c] + tail);
    var m := StepBackslash(arg, s);
    AheadOne(arg, m, c, tail);
    r := StepEscaped(arg, m);
    WithoutEscaped(arg, s.start, s.pos, s.escapeChars);
  }

  /** The pieces of a name add their characters to it. */
  lemma {:induction false} RunPieces(arg: string, run: State -> State, s: State, done: string, pieces: seq<Piece>, tail: string) returns (r: State)
    requires Outcome(arg, run) && InName(arg, s, done) && ValidPieces(pieces) && Ahead(arg, s, Spelled(pieces) + tail)
    ensures run(s) == run(r) && InName(arg, r, done + Chars(pieces)) && Ahead(arg, r, tail)
    ensures r == s.(pos := r.pos, escapeChars := r.escapeChars)
    ensures (forall i :: 0 <= i < |pieces| ==> !pieces[i].escaped) ==> r.escapeChars == s.escapeChars
    decreases |pieces|
  {
    if pieces == [] {
      r := s;
      assert Spelled(pieces) + tail == tail && done + "" == done;
    } else {
      var piece, rest := pieces[0], Spelled(pieces[1..]) + tail;
      var first := if piece.escaped then ['\\', piece.c] else [piece.c];
      Reassociate(first, Spelled(pieces[1..]), tail);
      var m: State;
      if piece.escaped {
        m := RunEscape(arg, run, s, done, piece.c, rest);
      } else {
        m := RunPlain(arg, run, s, done, piece.c, rest);
      }
      r := RunPieces(arg, run, m, done + [piece.c], pieces[1..], tail);
      Reassociate(done, [piece.c], Chars(pieces[1..]));
    }
  }

  /** A name from its first character on. */
  lemma {:induction false} RunName(arg: string, run: State -> State, s: State, pieces: seq<Piece>, tail: string) returns (r: State)
    requires Outcome(arg, run) && T.Reachable(arg, s) && s.mode == T.None
    requires ValidPieces(pieces) && pieces != [] && (pieces[0].escaped || pieces[0].c !in {' ', '~', '"'})
    requires Ahead(arg, s, Spelled(pieces) + tail)
    ensures run(s) == run(r) && InName(arg, r, Chars(pieces)) && Ahead(arg, r, tail)
    ensures r == s.(mode := T.Name, start := s.pos, pos := r.pos, escapeChars := r.escapeChars)
    ensures (forall i :: 0 <= i < |pieces| ==> !pieces[i].escaped) ==> r.escapeChars == s.escapeChars
  {
    var n := s.(mode := T.Name, start := s.pos);
    assert arg[s.pos] == (Spelled(pieces) + tail)[0];
    StartName(arg, s);
    assert run(s) == run(T.Step(arg, s)) == run(T.Step(arg, n)) == run(n);
    r := RunPieces(arg, run, n, "", pieces, tail);
    assert "" + Chars(pieces) == Chars(pieces);
  }

  // ----- where names end -----

  /** The pattern for a name that has ended. */
  function NameEnded(s: State, name: string): State
  {
    s.(mode := T.None, exclusion := false, escapeChars := [],
       currentFilter := s.currentFilter + [Named(s.exclusion, name)])
  }

  lemma {:induction false} NameAdded(arg: string, s: State, name: string)
    requires InName(arg, s, name) && name != "" && name != "exclude:"
    ensures T.AddPattern(arg, s, false) == NameEnded(s, name)
    ensures arg[s.start..s.pos] != T.EXCLUDE
  {
    ExcludePrefix(name);
    T.ExcludeHasNoEscapes(arg, s);
    if s.escapeChars == [] {
      T.WithoutNothing(arg, s.start, s.pos, []);
    }
  }

  lemma {:induction false} EndByComma(arg: string, run: State -> State, s: State, name: string, tail: string) returns (r: State)
    requires Outcome(arg, run) && InName(arg, s, name) && name != "" && name != "exclude:"
    requires Ahead(arg, s, "," + tail)
    ensures run(s) == run(r) && Idle(r) && Ahead(arg, r, tail)
    ensures r.currentFilter == [] && r.filters == s.filters + [NameEnded(s, name).currentFilter]
  {
    NameAdded(arg, s, name);
    AheadOne(arg, s, ',', tail);
    r := T.Step(arg, s);
  }

  /** The bracket after a name ends it, and starts a tag. */
  lemma {:induction false} EndByBracket(arg: string, run: State -> State, s: State, name: string, tail: string) returns (r: State)
    requires Outcome(arg, run) && InName(arg, s, name) && name != "" && name != "exclude:"
    requires Ahead(arg, s, "[" + tail)
    ensures run(s) == run(r) && T.Reachable(arg, r)
    ensures r == NameEnded(s, name).(mode := T.Tag, start := s.pos + 1, pos := s.pos + 2)
  {
    NameAdded(arg, s, name);
    AheadOne(arg, s, '[', tail);
    r := T.Step(arg, s);
  }

  /** The rest of a tag, once its bracket and first character have been passed over. */
  lemma {:induction false} RunTagRest(arg: string, run: State -> State, s: State, tag: string, tail: string) returns (r: State)
    requires Outcome(arg, run) && T.Reachable(arg, s) && s.mode == T.Tag && s.start > 0 && s.pos == s.start + 1
    requires Plain(tag, ']') && arg[s.start - 1..] == "[" + tag + "]" + tail
    ensures run(s) == run(r) && Idle(r) && Ahead(arg, r, tail) && r.filters == s.filters
    ensures r.currentFilter == s.currentFilter + [if s.exclusion then T.ExcludedPattern(T.TagPattern(tag)) else T.TagPattern(tag)]
  {
    var p, q := T.TagPattern(tag), s.start - 1;
    assert RenderSimple(p) + tail == "[" + tag + "]" + tail;
    Delimited(arg, q, p, tail);
    var end := q + 1 + |tag|;
    RunInside(arg, run, s, end);
    CloseText(arg, run, s.(pos := end), p);
    r := AfterText(s, p, s.start, end + 1);
  }

  // ----- excluded tags -----

  function Unescaped(text: string): (r: seq<Piece>)
    ensures |r| == |text| && forall i :: 0 <= i < |text| ==> r[i] == Piece(text[i], false)
  {
    seq(|text|, i requires 0 <= i < |text| => Piece(text[i], false))
  }

  lemma {:induction false} SpelledUnescaped(text: string)
    ensures Spelled(Unescaped(text)) == text && Chars(Unescaped(text)) == text
  {
    if text != "" {
      assert Unescaped(text)[1..] == Unescaped(text[1..]);
      SpelledUnescaped(text[1..]);
    }
  }

  /** Where nothing was escaped, the bracket behind `exclude:` marks the tag as excluded. */
  lemma {:induction false} ExcludeByBracket(arg: string, run: State -> State, s: State, tail: string) returns (r: State)
    requires Outcome(arg, run) && InName(arg, s, "exclude:") && s.escapeChars == [] && Ahead(arg, s, "[" + tail)
    ensures run(s) == run(r) && T.Reachable(arg, r)
    ensures r == s.(mode := T.Tag, exclusion := true, start := s.pos + 1, pos := s.pos + 2)
  {
    T.WithoutNothing(arg, s.start, s.pos, []);
    AheadOne(arg, s, '[', tail);
    r := T.Step(arg, s);
  }

  lemma {:induction false} RunExcludeTag(arg: string, run: State -> State, s: State, tag: string, tail: string) returns (r: State)
    requires Outcome(arg, run) && Idle(s) && Plain(tag, ']') && Ahead(arg, s, "exclude:[" + tag + "]" + tail)
    ensures run(s) == run(r) && Idle(r) && Ahead(arg, r, tail) && r.filters == s.filters
    ensures r.currentFilter == s.currentFilter + [T.ExcludedPattern(T.TagPattern(tag))]
  {
    var word, rest := Unescaped("exclude:"), tag + "]" + tail;
    SpelledUnescaped("exclude:");
    assert "exclude:[" + tag + "]" + tail == Spelled(word) + ("[" + rest);
    var m := RunName(arg, run, s, word, "[" + rest);
    assert arg[m.pos..] == "[" + tag + "]" + tail;
    r := ExcludeByBracket(arg, run, m, rest);
    r := RunTagRest(arg, run, r, tag, tail);
  }

  // ----- running the parser over parts -----

  /** After some parts: between patterns, or in a name that has not ended. */
  ghost predicate At(arg: string, s: State, pending: Option<Shape>, patterns: Filter)
  {
    if pending.None? then Idle(s) && s.currentFilter == patterns
    else
      && pending.value.Bare? && ValidName(pending.value.pieces)
      && InName(arg, s, Chars(pending.value.pieces)) && s.exclusion == pending.value.tilde && s.currentFilter == patterns
  }

  function Pending(pending: Option<Shape>): Filter
  {
    if pending.None? then [] else [Meaning(pending.value)]
  }

  lemma {:induction false} RunBare(arg: string, run: State -> State, s: State, shape: Shape, tail: string) returns (r: State)
    requires Outcome(arg, run) && Idle(s) && shape.Bare? && ValidShape(shape) && Ahead(arg, s, SpellShape(shape) + tail)
    ensures run(s) == run(r) && At(arg, r, Some(shape), s.currentFilter) && Ahead(arg, r, tail) && r.filters == s.filters
  {
    if shape.tilde {
      assert SpellShape(shape) + tail == ['~'] + (Spelled(shape.pieces) + tail);
      r := RunTilde(arg, run, s, Spelled(shape.pieces) + tail);
    } else {
      assert SpellShape(shape) == Spelled(shape.pieces);
      r := s;
    }
    r := RunName(arg, run, r, shape.pieces, tail);
  }

  /** A shape, from between patterns. */
  lemma {:induction false} RunShape(arg: string, run: State -> State, s: State, shape: Shape, tail: string)
    returns (r: State, pending: Option<Shape>)
    requires Outcome(arg, run) && Idle(s) && ValidShape(shape) && Ahead(arg, s, SpellShape(shape) + tail)
    ensures run(s) == run(r) && Ahead(arg, r, tail) && r.filters == s.filters
    ensures pending == (if shape.Bare? then Some(shape) else None)
    ensures At(arg, r, pending, if shape.Bare? then s.currentFilter else s.currentFilter + [Meaning(shape)])
  {
    match shape
    case Quoted(p) =>
      r := RunPattern(arg, run, s, p, tail);
      pending := None;
    case Bare(_, _) =>
      r := RunBare(arg, run, s, shape, tail);
      pending := Some(shape);
    case ExcludeTag(tag) =>
      r := RunExcludeTag(arg, run, s, tag, tail);
      pending := None;
  }

  /** A tag right behind a name. */
  lemma {:induction false} RunTagAfterName(arg: string, run: State -> State, s: State, name: Shape, patterns: Filter, tag: Pattern, tail: string)
    returns (r: State)
    requires Outcome(arg, run) && At(arg, s, Some(name), patterns) && tag.TagPattern? && Faithful(tag)
    requires Ahead(arg, s, RenderPattern(tag) + tail)
    ensures run(s) == run(r) && Ahead(arg, r, tail) && r.filters == s.filters
    ensures At(arg, r, None, patterns + [Meaning(name), tag])
  {
    assert RenderPattern(tag) + tail == "[" + (tag.tag + "]" + tail);
    assert "[" + tag.tag + "]" + tail == "[" + (tag.tag + "]" + tail);
    r := EndByBracket(arg, run, s, Chars(name.pieces), tag.tag + "]" + tail);
    r := RunTagRest(arg, run, r, tag.tag, tail);
    assert patterns + [Meaning(name)] + [tag] == patterns + [Meaning(name), tag];
  }

  lemma {:induction false} RunPart(
    arg: string, run: State -> State, s: State, before: Option<Shape>, patterns: Filter, part: Part, tail: string)
    returns (r: State, pending: Option<Shape>, more: Filter)
    requires Outcome(arg, run) && At(arg, s, before, patterns) && ValidShape(part.shape)
    requires before.Some? ==> MayFollow(before.value, part)
    requires Ahead(arg, s, SpellPart(part) + tail)
    ensures run(s) == run(r) && Ahead(arg, r, tail) && r.filters == s.filters && At(arg, r, pending, more)
    ensures pending == (if part.shape.Bare? then Some(part.shape) else None)
    ensures more + Pending(pending) == patterns + Pending(before) + [Meaning(part.shape)]
  {
    if before.Some? {
      assert Blanks(0) + SpellShape(part.shape) == SpellShape(part.shape);
      r := RunTagAfterName(arg, run, s, before.value, patterns, part.shape.p, tail);
      pending, more := None, patterns + [Meaning(before.value), part.shape.p];
    } else {
      Reassociate(Blanks(part.blanks), SpellShape(part.shape), tail);
      var m := RunBlanks(arg, run, s, part.blanks, SpellShape(part.shape) + tail);
      r, pending := RunShape(arg, run, m, part.shape, tail);
      more := if part.shape.Bare? then patterns else patterns + [Meaning(part.shape)];
    }
  }

  lemma {:induction false} SpellCons(parts: seq<Part>, tail: string)
    requires ValidParts(parts) && parts != []
    ensures ValidParts(parts[1..]) && Spell(parts) + tail == SpellPart(parts[0]) + (Spell(parts[1..]) + tail)
    ensures |parts| > 1 ==> MayFollow(parts[0].shape, parts[1..][0])
  {
    Reassociate(SpellPart(parts[0]), Spell(parts[1..]), tail);
  }

  /** The parts of a filter, or of what is left of one. */
  lemma {:induction false} RunParts(
    arg: string, run: State -> State, s: State, before: Option<Shape>, patterns: Filter, parts: seq<Part>, tail: string)
    returns (r: State, pending: Option<Shape>, more: Filter)
    requires Outcome(arg, run) && At(arg, s, before, patterns) && ValidParts(parts)
    requires before.Some? && parts != [] ==> MayFollow(before.value, parts[0])
    requires Ahead(arg, s, Spell(parts) + tail)
    ensures run(s) == run(r) && Ahead(arg, r, tail) && r.filters == s.filters && At(arg, r, pending, more)
    ensures more + Pending(pending) == patterns + Pending(before) + Meanings(parts)
    decreases |parts|
  {
    if parts == [] {
      r, pending, more := s, before, patterns;
      assert Spell(parts) + tail == tail;
    } else {
      SpellCons(parts, tail);
      r, pending, more := RunPart(arg, run, s, before, patterns, parts[0], Spell(parts[1..]) + tail);
      r, pending, more := RunParts(arg, run, r, pending, more, parts[1..], tail);
      Reassociate(patterns + Pending(before), [Meaning(parts[0].shape)], Meanings(parts[1..]));
    }
  }

  // ----- filters -----

  predicate ValidFilters(fs: seq<seq<Part>>)
  {
    forall i :: 0 <= i < |fs| ==> fs[i] != [] && ValidParts(fs[i])
  }

  /** Filters, joined by commas. */
  function SpellFilters(fs: seq<seq<Part>>): string
    requires ValidFilters(fs)
  {
    if fs == [] then "" else if |fs| == 1 then Spell(fs[0]) else Spell(fs[0]) + "," + SpellFilters(fs[1..])
  }

  function AllMeanings(fs: seq<seq<Part>>): seq<Filter>
  {
    if fs == [] then [] else [Meanings(fs[0])] + AllMeanings(fs[1..])
  }

  lemma {:induction false} MeaningsNotEmpty(parts: seq<Part>)
    ensures |Meanings(parts)| == |parts|
  {
    if parts != [] {
      MeaningsNotEmpty(parts[1..]);
    }
  }

  /** The comma behind the parts of a filter ends it. */
  lemma {:induction false} EndFilter(arg: string, run: State -> State, s: State, pending: Option<Shape>, patterns: Filter, tail: string) returns (r: State)
    requires Outcome(arg, run) && At(arg, s, pending, patterns) && patterns + Pending(pending) != [] && Ahead(arg, s, "," + tail)
    ensures run(s) == run(r) && Idle(r) && Ahead(arg, r, tail)
    ensures r.currentFilter == [] && r.filters == s.filters + [patterns + Pending(pending)]
  {
    if pending.None? {
      r := RunComma(arg, run, s, tail);
      assert patterns + [] == patterns;
    } else {
      r := EndByComma(arg, run, s, Chars(pending.value.pieces), tail);
    }
  }

  lemma {:induction false} OneFilter(fs: seq<seq<Part>>)
    requires ValidFilters(fs) && |fs| == 1
    ensures SpellFilters(fs) == Spell(fs[0]) + "" && AllMeanings(fs) == [Meanings(fs[0])]
  {
    assert AllMeanings(fs) == [Meanings(fs[0])] + AllMeanings(fs[1..]);
  }

  lemma {:induction false} MoreFilters(fs: seq<seq<Part>>)
    requires ValidFilters(fs) && |fs| > 1
    ensures ValidFilters(fs[1..]) && SpellFilters(fs) == Spell(fs[0]) + ("," + SpellFilters(fs[1..]))
    ensures AllMeanings(fs) == [Meanings(fs[0])] + AllMeanings(fs[1..])
  {
    Reassociate(Spell(fs[0]), ",", SpellFilters(fs[1..]));
  }

  /** The filters with what was there before put in front of the first. */
  function Joined(before: Filter, fs: seq<Filter>): (r: seq<Filter>)
    ensures r != []
  {
    if fs == [] then [before] else [before + fs[0]] + fs[1..]
  }

  lemma {:induction false} RunFirstFilter(arg: string, run: State -> State, s: State, parts: seq<Part>, tail: string) returns (r: State)
    requires Outcome(arg, run) && Idle(s) && parts != [] && ValidParts(parts) && Ahead(arg, s, Spell(parts) + ("," + tail))
    ensures run(s) == run(r) && Idle(r) && Ahead(arg, r, tail)
    ensures r.currentFilter == [] && r.filters == s.filters + [s.currentFilter + Meanings(parts)]
  {
    MeaningsNotEmpty(parts);
    var m, pending, patterns := RunParts(arg, run, s, None, s.currentFilter, parts, "," + tail);
    JoinedOne(s.currentFilter, Meanings(parts));
    r := EndFilter(arg, run, m, pending, patterns, tail);
  }

  /** Filters, of which the last one does not end yet. */
  lemma {:induction false} RunFilters(arg: string, run: State -> State, s: State, fs: seq<seq<Part>>)
    returns (r: State, pending: Option<Shape>, patterns: Filter)
    requires Outcome(arg, run) && Idle(s) && ValidFilters(fs) && Ahead(arg, s, SpellFilters(fs))
    ensures run(s) == run(r) && r.pos == |arg| && At(arg, r, pending, patterns)
    ensures
      var all := Joined(s.currentFilter, AllMeanings(fs));
      r.filters + [patterns + Pending(pending)] == s.filters + all
    decreases |fs|
  {
    if fs == [] {
      r, pending, patterns := s, None, s.currentFilter;
      assert patterns + [] == patterns;
    } else if |fs| == 1 {
      OneFilter(fs);
      r, pending, patterns := RunParts(arg, run, s, None, s.currentFilter, fs[0], "");
      JoinedOne(s.currentFilter, Meanings(fs[0]));
    } else {
      MoreFilters(fs);
      var m := RunFirstFilter(arg, run, s, fs[0], SpellFilters(fs[1..]));
      r, pending, patterns := RunFilters(arg, run, m, fs[1..]);
      AllMeaningsNotEmpty(fs[1..]);
      JoinedRest(s.filters, s.currentFilter, Meanings(fs[0]), AllMeanings(fs[1..]));
    }
  }

  lemma {:induction false} JoinedOne(before: Filter, first: Filter)
    ensures Joined(before, [first]) == [before + first] && before + [] + first == before + first
  {}

  lemma {:induction false} JoinedRest(filters: seq<Filter>, before: Filter, first: Filter, rest: seq<Filter>)
    requires rest != []
    ensures (filters + [before + first]) + Joined([], rest) == filters + Joined(before, [first] + rest)
  {
    assert [] + rest[0] == rest[0];
    assert ([first] + rest)[1..] == rest;
    assert Joined([], rest) == rest;
    Reassociate(filters, [before + first], rest);
  }

  lemma {:induction false} AllMeaningsNotEmpty(fs: seq<seq<Part>>)
    ensures fs != [] ==> AllMeanings(fs) != []
  {}

  // ----- arguments -----

  /** Blanks, tildes and commas that say nothing, up to a comma. */
  predicate Lead(lead: string)
  {
    (forall i :: 0 <= i < |lead| ==> lead[i] in {' ', '~', ','}) && (lead != "" ==> lead[|lead| - 1] == ',')
  }

  /** They end the filter before them, and no tilde among them excludes what follows. */
  lemma {:induction false} RunLead(arg: string, run: State -> State, s: State, lead: string, tail: string) returns (r: State)
    requires Outcome(arg, run) && T.Reachable(arg, s) && s.mode == T.None && s.escapeChars == []
    requires Lead(lead) && lead != "" && Ahead(arg, s, lead + tail)
    ensures run(s) == run(r) && Idle(r) && T.Reachable(arg, r) && Ahead(arg, r, tail)
    ensures r.filters == T.AddFilter(s).filters && r.currentFilter == []
    decreases |lead|
  {
    assert lead + tail == [lead[0]] + (lead[1..] + tail);
    AheadOne(arg, s, lead[0], lead[1..] + tail);
    r := T.Step(arg, s);
    if |lead| > 1 {
      r := RunLead(arg, run, r, lead[1..], tail);
    } else {
      assert lead[1..] + tail == tail;
    }
  }

  /** An argument goes on with the filter that was left open before, unless commas come first, and
      leaves its last one open. */
  lemma {:induction false} ArgumentParsed(lead: string, fs: seq<seq<Part>>, s: State)
    requires Lead(lead) && ValidFilters(fs)
    ensures
      var t, before := T.Parse(lead + SpellFilters(fs), s), if lead == "" then s else T.AddFilter(s);
      t.filters + [t.currentFilter] == before.filters + Joined(before.currentFilter, AllMeanings(fs))
  {
    var arg, start := lead + SpellFilters(fs), T.Restarted(s);
    RunnerOutcome(arg);
    var m := start;
    if lead != "" {
      m := RunLead(arg, Runner(arg), start, lead, SpellFilters(fs));
    } else {
      assert "" + SpellFilters(fs) == SpellFilters(fs);
    }
    var r, pending, patterns := RunFilters(arg, Runner(arg), m, fs);
    RunsTo(arg, start, r);
    EndArgument(arg, r, pending, patterns);
  }

  lemma {:induction false} RunUnclosed(arg: string, run: State -> State, s: State, open: char, text: string) returns (r: State)
    requires Outcome(arg, run) && T.Reachable(arg, s) && s.mode == T.None && Ahead(arg, s, [open] + text)
    requires (open == '"' && forall k :: 1 <= k < |text| ==> text[k] != '"')
      || (open == '[' && forall k :: 1 <= k < |text| ==> text[k] != ']')
    ensures run(s) == run(r) && T.Reachable(arg, r) && r.pos >= |arg|
    ensures r.mode != T.Name && r.filters == s.filters && r.currentFilter == s.currentFilter
  {
    AheadOne(arg, s, open, text);
    r := T.Step(arg, s);
    if r.pos < |arg| {
      forall k | r.pos <= k < |arg| ensures arg[k] == text[k - s.pos - 1] {
        assert arg[s.pos + 1..][k - s.pos - 1] == arg[k];
      }
      RunInside(arg, run, r, |arg| - 1);
      r := T.Step(arg, r.(pos := |arg| - 1));
    }
  }

  /** What is in quotes or brackets that are not closed is lost. */
  lemma {:induction false} UnclosedLost(tilde: bool, open: char, text: string, s: State)
    requires (open == '"' && forall k :: 1 <= k < |text| ==> text[k] != '"')
      || (open == '[' && forall k :: 1 <= k < |text| ==> text[k] != ']')
    ensures
      var t := T.Parse((if tilde then "~" else "") + [open] + text, s);
      t.filters == s.filters && t.currentFilter == s.currentFilter
  {
    var arg, m := (if tilde then "~" else "") + [open] + text, T.Restarted(s);
    RunnerOutcome(arg);
    if tilde {
      assert arg == ['~'] + ([open] + text);
      AheadOne(arg, m, '~', [open] + text);
      m := T.Step(arg, m);
    }
    var r := RunUnclosed(arg, Runner(arg), m, open, text);
    RunsTo(arg, T.Restarted(s), r);
  }

  /** So is a name before a backslash that escapes nothing. */
  lemma {:induction false} BackslashLost(pieces: seq<Piece>, s: State)
    requires ValidPieces(pieces) && (pieces != [] ==> pieces[0].escaped || pieces[0].c !in {' ', '~', '"'})
    ensures
      var t := T.Parse(Spelled(pieces) + "\\", s);
      t.filters == s.filters && t.currentFilter == s.currentFilter
  {
    var arg, start := Spelled(pieces) + "\\", T.Restarted(s);
    RunnerOutcome(arg);
    var m := start;
    if pieces != [] {
      m := RunName(arg, Runner(arg), start, pieces, "\\");
    }
    assert arg[m.pos..][0] == arg[m.pos] == '\\' && |arg| == m.pos + 1;
    RunsTo(arg, start, T.Step(arg, m));
  }

  lemma {:induction false} RunsTo(arg: string, s: State, r: State)
    requires T.Reachable(arg, s) && T.Reachable(arg, r) && r.pos >= |arg| && Runner(arg)(s) == Runner(arg)(r)
    ensures T.Run(arg, s) == r
  {}

  lemma {:induction false} EndArgument(arg: string, r: State, pending: Option<Shape>, patterns: Filter)
    requires At(arg, r, pending, patterns) && r.pos == |arg|
    ensures T.Reachable(arg, r)
    ensures
      var t := if r.mode == T.Name then T.AddPattern(arg, r, false) else r;
      t.filters == r.filters && t.currentFilter == patterns + Pending(pending)
  {
    if pending.Some? {
      NameAdded(arg, r, Chars(pending.value.pieces));
    }
  }

  function SpellAll(specs: seq<seq<seq<Part>>>): seq<string>
    requires forall k :: 0 <= k < |specs| ==> ValidFilters(specs[k])
  {
    seq(|specs|, k requires 0 <= k < |specs| => SpellFilters(specs[k]))
  }

  /** The filters of several arguments: the last one of each goes on into the next. */
  function JoinAll(specs: seq<seq<seq<Part>>>): (r: seq<Filter>)
    ensures r != []
  {
    if specs == [] then [[]]
    else
      var before := JoinAll(specs[..|specs| - 1]);
      before[..|before| - 1] + Joined(before[|before| - 1], AllMeanings(specs[|specs| - 1]))
  }

  /** The filters found in several arguments are those written, run together where one argument ends and
      the next begins; what is left open in the end is a filter if it has patterns. */
  lemma {:induction false} ArgumentsParsed(specs: seq<seq<seq<Part>>>)
    requires forall k :: 0 <= k < |specs| ==> ValidFilters(specs[k])
    ensures
      var s, all := T.ParseAll(SpellAll(specs)), JoinAll(specs);
      && s.filters + [s.currentFilter] == all
      && T.AddFilter(s).filters == if all[|all| - 1] == [] then all[..|all| - 1] else all
  {
    if specs != [] {
      var n := |specs| - 1;
      ArgumentsParsed(specs[..n]);
      assert SpellAll(specs)[..n] == SpellAll(specs[..n]);
      var s := T.ParseAll(SpellAll(specs[..n]));
      ArgumentParsed("", specs[n], s);
      assert "" + SpellFilters(specs[n]) == SpellFilters(specs[n]);
      OpenLast(s.filters, s.currentFilter, JoinAll(specs[..n]));
    }
    var s := T.ParseAll(SpellAll(specs));
    OpenLast(s.filters, s.currentFilter, JoinAll(specs));
  }

  lemma {:induction false} OpenLast(filters: seq<Filter>, current: Filter, all: seq<Filter>)
    requires filters + [current] == all
    ensures filters == all[..|all| - 1] && current == all[|all| - 1]
  {}

  /** Filters written in one argument are read back as they are. */
  lemma {:induction false} SpecificationParsed(lead: string, fs: seq<seq<Part>>)
    requires Lead(lead) && ValidFilters(fs)
    ensures T.ParseTestSpec(lead + SpellFilters(fs)) == AllMeanings(fs)
  {
    ArgumentParsed(lead, fs, T.INITIAL);
    var t := T.Parse(lead + SpellFilters(fs), T.INITIAL);
    OpenLast(t.filters, t.currentFilter, Joined([], AllMeanings(fs)));
    if fs != [] {
      assert [] + AllMeanings(fs)[0] == AllMeanings(fs)[0];
      assert Joined([], AllMeanings(fs)) == AllMeanings(fs);
      LastMeaning(fs);
    }
  }

  lemma {:induction false} LastMeaning(fs: seq<seq<Part>>)
    requires ValidFilters(fs) && fs != []
    ensures AllMeanings(fs) != [] && AllMeanings(fs)[|AllMeanings(fs)| - 1] != []
  {
    MeaningsNotEmpty(fs[0]);
    if |fs| > 1 {
      LastMeaning(fs[1..]);
    }
  }
}
