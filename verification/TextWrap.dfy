/** Wrapping text into lines of a given width. */
module TextWrap {
  import opened Common

  const SIZES: nat := 0x1_0000_0000_0000_0000
  const NPOS: nat := SIZES - 1

  const MAX_LINES: nat := 1000
  const MESSAGE := "... message truncated due to excessive size"

  /** `initialIndent` is the indent of the first line unless it is `NPOS`. */
  datatype TextAttributes = TextAttributes(initialIndent: nat, indent: nat, width: nat)
  {
    function FirstIndent(): nat
    {
      if initialIndent != NPOS then initialIndent else indent
    }

    predicate Valid()
    {
      initialIndent < SIZES && indent < SIZES && width < SIZES
    }

    /** No indent is just as wide as the line. */
    predicate Defined()
    {
      Valid() && FirstIndent() != width && indent != width
    }

    /** At least two characters fit on every line after the indent. */
    predicate Roomy()
    {
      Valid() && FirstIndent() + 2 <= width && indent + 2 <= width
    }
  }

  /** The line that shows the text from `start` to `end` after an indent; the text goes on at `next`.
      A line may end before its start, and then cannot be shown. */
  datatype Line = Line(indent: nat, start: nat, end: int, next: int, hyphen: bool)

  predicate WrapAfter(c: char) { c in "])}>-,./|\\" }
  predicate WrapBefore(c: char) { c in "[({<\t" }
  predicate WrapInstead(c: char) { c in " \n\r" }

  // ----- where a line ends -----

  /** The columns left after the indent, computed in unsigned arithmetic. */
  function Room(indent: nat, width: nat): nat
    requires indent < SIZES && width < SIZES
  {
    if indent <= width then width - indent else SIZES - indent + width
  }

  function FirstNewline(str: string, at: nat, end: nat): (r: nat)
    requires at <= end <= |str|
    ensures at <= r <= end && (r < end ==> str[r] == '\n')
    decreases end - at
  {
    if at == end || str[at] == '\n' then at else FirstNewline(str, at + 1, end)
  }

  lemma {:induction false} NoNewlineBefore(str: string, at: nat, end: nat)
    requires at <= end <= |str|
    ensures '\n' !in str[at..FirstNewline(str, at, end)]
    decreases end - at
  {
    if at < end && str[at] != '\n' {
      NoNewlineBefore(str, at + 1, end);
      var r := FirstNewline(str, at, end);
      assert str[at..r] == [str[at]] + str[at+1..r];
    }
  }

  /** May a line from `at`, which must stop at `end`, be wrapped at `f`? */
  predicate Wraps(str: string, at: nat, end: nat, f: nat)
    requires at <= f <= end < |str|
  {
    (f != end && WrapAfter(str[f])) || (f > at && WrapBefore(str[f])) || WrapInstead(str[f])
  }

  function LastWrap(str: string, at: nat, end: nat, f: nat): (r: Option<nat>)
    requires at <= f <= end < |str|
    ensures r.Some? ==> at <= r.value <= f && Wraps(str, at, end, r.value)
  {
    if Wraps(str, at, end, f) then Some(f)
    else if f == at then None
    else LastWrap(str, at, end, f - 1)
  }

  lemma {:induction false} LastWrapIsLast(str: string, at: nat, end: nat, f: nat)
    requires at <= f <= end < |str|
    ensures
      var r := LastWrap(str, at, end, f);
      forall g :: at <= g <= f && Wraps(str, at, end, g) ==> r.Some? && g <= r.value
  {
    if !Wraps(str, at, end, f) && f > at {
      LastWrapIsLast(str, at, end, f - 1);
    }
  }

  function TrimEnd(str: string, at: nat, end: nat): (r: nat)
    requires at <= end <= |str|
    ensures at <= r <= end
  {
    if end > at && WrapInstead(str[end - 1]) then TrimEnd(str, at, end - 1) else end
  }

  lemma {:induction false} TrimsBlanks(str: string, at: nat, end: nat)
    requires at <= end <= |str|
    ensures Blank(str, TrimEnd(str, at, end), end)
  {
    if end > at && WrapInstead(str[end - 1]) {
      TrimsBlanks(str, at, end - 1);
    }
  }

  predicate Blank(str: string, from: nat, to: nat)
    requires from <= to <= |str|
  {
    forall i :: from <= i < to ==> WrapInstead(str[i])
  }

  /** Where the line from `at` has to stop whatever the wrap points. */
  function Limit(str: string, at: nat, room: nat): nat
    requires at <= |str|
  {
    FirstNewline(str, at, at + Min(|str| - at, room))
  }

  predicate Inside(str: string, line: Line)
  {
    line.start <= line.end <= line.next <= |str|
  }

  function WrappedLine(str: string, at: nat, indent: nat, limit: nat, f: nat): (r: Line)
    requires at <= f <= limit < |str| && Wraps(str, at, limit, f)
    ensures Inside(str, r) && r.start == at < r.next
  {
    if f != limit && WrapAfter(str[f]) then Line(indent, at, TrimEnd(str, at, f + 1), f + 1, false)
    else if f > at && WrapBefore(str[f]) then Line(indent, at, TrimEnd(str, at, f), f, false)
    else Line(indent, at, TrimEnd(str, at, f), f + 1, false)
  }

  /** A line that has to stop where it starts, with room left, has a newline there. */
  lemma {:induction false} WrapsAtOnce(str: string, at: nat, room: nat)
    requires at < |str|
    ensures room > 0 && Limit(str, at, room) == at ==> LastWrap(str, at, at, at) == Some(at)
  {}

  function NextLine(str: string, at: nat, indent: nat, width: nat): (r: Line)
    requires at < |str| && indent < SIZES && width < SIZES
    ensures r.start == at && (!Inside(str, r) ==> indent == width && r == Line(indent, at, at - 1, at - 1, true))
  {
    var limit := Limit(str, at, Room(indent, width));
    if limit == |str| then Line(indent, at, |str|, |str|, false)
    else
      var wrap := LastWrap(str, at, limit, limit);
      if wrap.Some? then WrappedLine(str, at, indent, limit, wrap.value)
      else
        WrapsAtOnce(str, at, Room(indent, width));
        Line(indent, at, limit - 1, limit - 1, true)
  }

  /** At most `most` lines, from `at` on, up to one that would end before its start. */
  function Lines(str: string, attr: TextAttributes, at: nat, indent: nat, most: nat): seq<Line>
    requires attr.Valid() && at <= |str| && indent < SIZES
    decreases most, attr
  {
    if at == |str| || most == 0 then []
    else
      var line := NextLine(str, at, indent, attr.width);
      if !Inside(str, line) then [] else [line] + Lines(str, attr, line.next, attr.indent, most - 1)
  }

  /** Does one of the lines end before its start? */
  predicate Breaks(str: string, attr: TextAttributes, at: nat, indent: nat, most: nat)
    requires attr.Valid() && at <= |str| && indent < SIZES
    decreases most, attr
  {
    at < |str| && most > 0 &&
    var line := NextLine(str, at, indent, attr.width);
    !Inside(str, line) || Breaks(str, attr, line.next, attr.indent, most - 1)
  }

  function Printed(str: string, line: Line): string
    requires Inside(str, line)
  {
    seq(line.indent, i => ' ') + str[line.start..line.end] + (if line.hyphen then "-" else "")
  }

  function AllLines(str: string, attr: TextAttributes): seq<Line>
    requires attr.Valid()
  {
    Lines(str, attr, 0, attr.FirstIndent(), MAX_LINES)
  }

  predicate AnyBreaks(str: string, attr: TextAttributes)
    requires attr.Valid()
  {
    Breaks(str, attr, 0, attr.FirstIndent(), MAX_LINES)
  }

  // ----- what one line keeps -----

  /** A line ends before its start exactly where there is no room at all and no blank to wrap at. */
  lemma {:induction false} EndsBeforeExactly(str: string, at: nat, indent: nat, width: nat)
    requires at < |str| && indent < SIZES && width < SIZES
    ensures
      var line := NextLine(str, at, indent, width);
      && (line.end < line.start <==> Room(indent, width) == 0 && !WrapInstead(str[at]))
      && (line.end < line.start <==> !Inside(str, line))
  {}

  /** A line drops nothing but blanks, holds no newline, and fits unless the indent is past the width. */
  lemma {:induction false} LineKeeps(str: string, at: nat, indent: nat, width: nat)
    requires at < |str| && indent < SIZES && width < SIZES
    ensures
      var line := NextLine(str, at, indent, width);
      Inside(str, line) ==>
      && Blank(str, line.end, line.next)
      && '\n' !in str[line.start..line.end]
      && (indent <= width ==> |Printed(str, line)| <= width)
  {
    var room := Room(indent, width);
    var limit, line := Limit(str, at, room), NextLine(str, at, indent, width);
    NoNewlineBefore(str, at, at + Min(|str| - at, room));
    if Inside(str, line) {
      assert line.end <= limit && str[at..line.end] <= str[at..limit];
    }
    if limit < |str| && LastWrap(str, at, limit, limit).Some? {
      var f := LastWrap(str, at, limit, limit).value;
      TrimsBlanks(str, at, f);
      TrimsBlanks(str, at, f + 1);
    }
  }

  /** The text goes on further unless at most one column is left and no wrap point is in reach. */
  lemma {:induction false} ProgressExactly(str: string, at: nat, indent: nat, width: nat)
    requires at < |str| && indent < SIZES && width < SIZES
    ensures
      var limit := Limit(str, at, Room(indent, width));
      NextLine(str, at, indent, width).next > at <==>
        limit == |str| || Room(indent, width) > 1 || exists f :: at <= f <= limit && Wraps(str, at, limit, f)
  {
    var limit := Limit(str, at, Room(indent, width));
    if limit < |str| {
      LastWrapIsLast(str, at, limit, limit);
      assert limit != at + Room(indent, width) ==> Wraps(str, at, limit, limit);
    }
  }

  // ----- where a line ends, by its characters alone -----

  /** Where a line from `start` that reaches to `reach` could end: at a blank, before an opening character
      that is not its first, or after a closing one within reach. */
  predicate BreakPoint(str: string, start: nat, reach: nat, f: int)
    requires start <= reach < |str|
  {
    start <= f <= reach &&
    (str[f] in {' ', '\n', '\r'}
     || (f > start && str[f] in {'[', '(', '{', '<', '\t'})
     || (f < reach && str[f] in {']', ')', '}', '>', '-', ',', '.', '/', '|', '\\'}))
  }

  /** A line reaches to the first newline or as far as there is room, after the indent, in unsigned
      arithmetic of 64 bits. */
  ghost predicate Reach(str: string, start: nat, room: nat, reach: nat)
  {
    && start <= reach <= |str| && reach <= start + room
    && (forall i :: start <= i < reach ==> str[i] != '\n')
    && (reach < |str| && reach < start + room ==> str[reach] == '\n')
  }

  lemma {:induction false} ReachIsLimit(str: string, at: nat, indent: nat, width: nat)
    requires at <= |str| && indent < SIZES && width < SIZES
    ensures Reach(str, at, (width - indent) % 0x1_0000_0000_0000_0000, Limit(str, at, Room(indent, width)))
  {
    var end := at + Min(|str| - at, Room(indent, width));
    NoNewlineBefore(str, at, end);
    var reach := FirstNewline(str, at, end);
    forall i | at <= i < reach ensures str[i] != '\n' {
      assert str[at..reach][i - at] == str[i];
    }
  }

  ghost predicate LastBreakPoint(str: string, start: nat, reach: nat, f: int)
    requires start <= reach < |str|
  {
    BreakPoint(str, start, reach, f) && forall g :: g > f ==> !BreakPoint(str, start, reach, g)
  }

  /** The line is broken at `f`: the text goes on there, if that is before an opening character, and behind
      it if not; what is shown ends with no blank, and only blanks are left out. */
  ghost predicate BrokenAt(str: string, line: Line, f: nat)
    requires f < |str|
  {
    && !line.hyphen && line.start <= line.end <= line.next <= |str|
    && line.next == (if f > line.start && str[f] in {'[', '(', '{', '<', '\t'} then f else f + 1)
    && (line.end > line.start ==> str[line.end - 1] !in {' ', '\n', '\r'})
    && (forall i :: line.end <= i < line.next ==> str[i] in {' ', '\n', '\r'})
  }

  lemma {:induction false} WrapsAtBreakPoints(str: string, at: nat, reach: nat, f: nat)
    requires at <= f <= reach < |str|
    ensures Wraps(str, at, reach, f) <==> BreakPoint(str, at, reach, f)
  {
    MembersOf(str[f]);
  }

  lemma {:induction false} MembersOf(c: char)
    ensures WrapInstead(c) <==> c in {' ', '\n', '\r'}
    ensures WrapBefore(c) <==> c in {'[', '(', '{', '<', '\t'}
    ensures WrapAfter(c) <==> c in {']', ')', '}', '>', '-', ',', '.', '/', '|', '\\'}
  {}

  lemma {:induction false} WrappedLineBroken(str: string, at: nat, indent: nat, reach: nat, f: nat)
    requires at <= f <= reach < |str| && Wraps(str, at, reach, f)
    ensures BrokenAt(str, WrappedLine(str, at, indent, reach, f), f)
  {
    MembersOf(str[f]);
    var end := if (f != reach && WrapAfter(str[f])) then f + 1 else f;
    TrimsBlanks(str, at, end);
    TrimsAll(str, at, end);
    forall c: char { MembersOf(c); }
  }

  /** A line that does not reach the end of the text ends with a hyphen, at the end of its reach, exactly
      when it has no break point, and otherwise is broken at the last one. */
  lemma {:induction false} LineEndsExactly(str: string, at: nat, indent: nat, width: nat) returns (reach: nat)
    requires at < |str| && indent < SIZES && width < SIZES
    ensures Reach(str, at, (width - indent) % 0x1_0000_0000_0000_0000, reach)
    ensures
      var line := NextLine(str, at, indent, width);
      && line.indent == indent && line.start == at
      && if reach == |str| then line.end == line.next == |str| && !line.hyphen
         else if forall f :: !BreakPoint(str, at, reach, f) then line.end == line.next == reach - 1 && line.hyphen
         else exists f :: LastBreakPoint(str, at, reach, f) && BrokenAt(str, line, f)
  {
    reach := Limit(str, at, Room(indent, width));
    ReachIsLimit(str, at, indent, width);
    if reach < |str| {
      var wrap := LastWrap(str, at, reach, reach);
      LastWrapIsLast(str, at, reach, reach);
      forall f: nat | at <= f <= reach { WrapsAtBreakPoints(str, at, reach, f); }
      if wrap.Some? {
        WrappedLineBroken(str, at, indent, reach, wrap.value);
        assert LastBreakPoint(str, at, reach, wrap.value);
      }
    }
  }

  lemma {:induction false} TrimsAll(str: string, at: nat, end: nat)
    requires at <= end <= |str|
    ensures var r := TrimEnd(str, at, end); r > at ==> !WrapInstead(str[r - 1])
  {
    if end > at && WrapInstead(str[end - 1]) {
      TrimsAll(str, at, end - 1);
    }
  }

  // ----- what the whole text keeps -----

  function Strip(str: string): string
  {
    if str == "" then ""
    else (if WrapInstead(str[0]) then "" else [str[0]]) + Strip(str[1..])
  }

  lemma {:induction false} StripConcat(a: string, b: string)
    ensures Strip(a + b) == Strip(a) + Strip(b)
  {
    if a == "" {
      assert a + b == b;
    } else {
      StripConcat(a[1..], b);
      assert (a + b)[0] == a[0] && (a + b)[1..] == a[1..] + b;
      Reassociate(if WrapInstead(a[0]) then "" else [a[0]], Strip(a[1..]), Strip(b));
    }
  }

  lemma {:induction false} StripBlanks(str: string)
    requires forall i :: 0 <= i < |str| ==> WrapInstead(str[i])
    ensures Strip(str) == ""
  {
    if str != "" {
      StripBlanks(str[1..]);
    }
  }

  predicate AllInside(str: string, lines: seq<Line>)
  {
    forall i :: 0 <= i < |lines| ==> Inside(str, lines[i])
  }

  /** The texts of the lines, without indents and hyphens. */
  function Bodies(str: string, lines: seq<Line>): string
    requires AllInside(str, lines)
  {
    if lines == [] then "" else str[lines[0].start..lines[0].end] + Bodies(str, lines[1..])
  }

  /** Where the text is left: at the end, unless all of the `most` lines were used. */
  function Stop(at: int, lines: seq<Line>): int
  {
    if lines == [] then at else lines[|lines| - 1].next
  }

  lemma {:induction false} StripSlice(str: string, a: nat, b: nat, c: nat)
    requires a <= b <= c <= |str|
    ensures Strip(str[a..c]) == Strip(str[a..b]) + Strip(str[b..c])
  {
    StripConcat(str[a..b], str[b..c]);
    assert str[a..c] == str[a..b] + str[b..c];
  }

  /** Lines that leave no gap but blanks. */
  ghost predicate Gapless(str: string, at: nat, lines: seq<Line>)
    decreases |lines|
  {
    lines == [] ||
    (Inside(str, lines[0]) && lines[0].start == at && Blank(str, lines[0].end, lines[0].next)
     && Gapless(str, lines[0].next, lines[1..]))
  }

  lemma {:induction false} GaplessKeepText(str: string, at: nat, lines: seq<Line>)
    requires at <= |str| && Gapless(str, at, lines)
    ensures AllInside(str, lines) && at <= Stop(at, lines) <= |str|
    ensures Strip(Bodies(str, lines)) == Strip(str[at..Stop(at, lines)])
    decreases |lines|
  {
    if lines != [] {
      var line, rest := lines[0], lines[1..];
      assert lines == [line] + rest;
      GaplessKeepText(str, line.next, rest);
      BodiesCons(str, line, rest);
      StopCons(line, rest);
      StripConcat(str[line.start..line.end], Bodies(str, rest));
      StripLine(str, line, Stop(line.next, rest));
    }
  }

  lemma {:induction false} LineLeavesBlanks(str: string, at: nat, indent: nat, width: nat)
    requires at < |str| && indent < SIZES && width < SIZES
    ensures var line := NextLine(str, at, indent, width); Inside(str, line) ==> Blank(str, line.end, line.next)
  {
    LineKeeps(str, at, indent, width);
  }

  lemma {:induction false} LinesGapless(str: string, attr: TextAttributes, at: nat, indent: nat, most: nat)
    requires attr.Valid() && at <= |str| && indent < SIZES
    ensures
      var lines := Lines(str, attr, at, indent, most);
      Gapless(str, at, lines) && |lines| <= most
      && (|lines| < most && !Breaks(str, attr, at, indent, most) ==> Stop(at, lines) == |str|)
    decreases most
  {
    if at < |str| && most > 0 {
      var line := NextLine(str, at, indent, attr.width);
      if Inside(str, line) {
        LineLeavesBlanks(str, at, indent, attr.width);
        LinesGapless(str, attr, line.next, attr.indent, most - 1);
        StopCons(line, Lines(str, attr, line.next, attr.indent, most - 1));
      }
    }
  }

  /** The bodies are the text up to where the lines stop, but for blanks. */
  lemma {:induction false} LinesKeepText(str: string, attr: TextAttributes, at: nat, indent: nat, most: nat)
    requires attr.Valid() && at <= |str| && indent < SIZES
    ensures
      var lines := Lines(str, attr, at, indent, most);
      && AllInside(str, lines) && at <= Stop(at, lines) <= |str|
      && Strip(Bodies(str, lines)) == Strip(str[at..Stop(at, lines)])
      && |lines| <= most && (Stop(at, lines) < |str| && !Breaks(str, attr, at, indent, most) ==> |lines| == most)
  {
    LinesGapless(str, attr, at, indent, most);
    GaplessKeepText(str, at, Lines(str, attr, at, indent, most));
  }

  lemma {:induction false} StopCons(line: Line, rest: seq<Line>)
    ensures Stop(line.start, [line] + rest) == Stop(line.next, rest)
  {}

  lemma {:induction false} BodiesCons(str: string, line: Line, rest: seq<Line>)
    requires Inside(str, line) && AllInside(str, rest)
    ensures AllInside(str, [line] + rest)
    ensures Bodies(str, [line] + rest) == str[line.start..line.end] + Bodies(str, rest)
  {
    assert ([line] + rest)[1..] == rest;
  }

  lemma {:induction false} StripLine(str: string, line: Line, stop: nat)
    requires Inside(str, line) && Blank(str, line.end, line.next) && line.next <= stop <= |str|
    ensures Strip(str[line.start..stop]) == Strip(str[line.start..line.end]) + Strip(str[line.next..stop])
  {
    StripSlice(str, line.start, line.end, stop);
    StripSlice(str, line.end, line.next, stop);
    StripBlanks(str[line.end..line.next]);
  }

  /** Every line holds no newline, and fits if the indents do. */
  lemma {:induction false} LinesFit(str: string, attr: TextAttributes, at: nat, indent: nat, most: nat)
    requires attr.Valid() && at <= |str| && indent < SIZES
    ensures forall line :: line in Lines(str, attr, at, indent, most) ==>
      && Inside(str, line) && '\n' !in Printed(str, line)
      && (indent <= attr.width && attr.indent <= attr.width ==> |Printed(str, line)| <= attr.width)
    decreases most
  {
    if at < |str| && most > 0 {
      LineKeeps(str, at, indent, attr.width);
      var line := NextLine(str, at, indent, attr.width);
      if Inside(str, line) {
        LinesFit(str, attr, line.next, attr.indent, most - 1);
      }
    }
  }

  /** Unless there is room for just one column every line takes at least one character. */
  lemma {:induction false} LinesBounded(str: string, attr: TextAttributes, at: nat, indent: nat, most: nat)
    requires attr.Valid() && at <= |str| && indent < SIZES
    requires Room(indent, attr.width) != 1 && Room(attr.indent, attr.width) != 1
    ensures var lines := Lines(str, attr, at, indent, most); |lines| <= Stop(at, lines) - at
    decreases most
  {
    if at < |str| && most > 0 {
      ProgressExactly(str, at, indent, attr.width);
      var line := NextLine(str, at, indent, attr.width);
      if Inside(str, line) {
        EndsBeforeExactly(str, at, indent, attr.width);
        RoomlessMoves(str, at, indent, attr.width);
        LinesBounded(str, attr, line.next, attr.indent, most - 1);
        StopCons(line, Lines(str, attr, line.next, attr.indent, most - 1));
      }
    }
  }

  /** Without room the text still goes on where there is a blank. */
  lemma {:induction false} RoomlessMoves(str: string, at: nat, indent: nat, width: nat)
    requires at < |str| && indent < SIZES && width < SIZES
    ensures Room(indent, width) == 0 && WrapInstead(str[at]) ==> NextLine(str, at, indent, width).next > at
  {}

  lemma {:induction false} DefinedNeverBreaks(str: string, attr: TextAttributes, at: nat, indent: nat, most: nat)
    requires attr.Defined() && at <= |str| && indent < SIZES && indent != attr.width
    ensures !Breaks(str, attr, at, indent, most)
    decreases most
  {
    if at < |str| && most > 0 {
      DefinedNeverBreaks(str, attr, NextLine(str, at, indent, attr.width).next, attr.indent, most - 1);
    }
  }

  // ----- the wrapped text -----

  function Print(str: string, lines: seq<Line>): seq<string>
    requires AllInside(str, lines)
  {
    seq(|lines|, i requires 0 <= i < |lines| => Printed(str, lines[i]))
  }

  /** The lines, and the message if they do not get to the end; nothing where a line cannot be shown. */
  function Wrapped(str: string, attr: TextAttributes): Option<seq<string>>
    requires attr.Valid()
  {
    var lines := AllLines(str, attr);
    LinesKeepText(str, attr, 0, attr.FirstIndent(), MAX_LINES);
    if AnyBreaks(str, attr) then None
    else Some(Print(str, lines) + if Stop(0, lines) == |str| then [] else [MESSAGE])
  }

  /** Wrapping loses only blanks: all of the text is there unless it was truncated, which the last
      line then says, and up to there otherwise. */
  lemma {:induction false} WrappingKeepsText(str: string, attr: TextAttributes)
    requires attr.Valid()
    ensures AllInside(str, AllLines(str, attr))
    ensures Wrapped(str, attr).Some? ==>
      var lines, all := AllLines(str, attr), Wrapped(str, attr).value;
      && |lines| <= 1000 && Print(str, lines) <= all
      && Strip(Bodies(str, lines)) == Strip(str[..Stop(0, lines)])
      && (|all| <= 1000 <==> Stop(0, lines) == |str|)
      && (|all| <= 1000 ==> |all| == |lines| && Strip(Bodies(str, lines)) == Strip(str))
      && (|all| > 1000 ==> |all| == 1001 && all[1000] == "... message truncated due to excessive size")
  {
    LinesKeepText(str, attr, 0, attr.FirstIndent(), MAX_LINES);
    assert str[..|str|] == str;
  }

  /** Each line starts where the one before left off, after its own indent. */
  lemma {:induction false} LinesFollow(str: string, attr: TextAttributes, at: nat, indent: nat, most: nat, k: nat)
    requires attr.Valid() && at <= |str| && indent < SIZES && k < |Lines(str, attr, at, indent, most)|
    ensures
      var lines := Lines(str, attr, at, indent, most);
      var from, used := if k == 0 then at else lines[k - 1].next, if k == 0 then indent else attr.indent;
      0 <= from < |str| && lines[k] == NextLine(str, from, used, attr.width)
    decreases most
  {
    if k > 0 {
      var line := NextLine(str, at, indent, attr.width);
      LinesFollow(str, attr, line.next, attr.indent, most - 1, k - 1);
    }
  }

  /** Where the lines stop short of the end, all are used up or the next would end before its start. */
  lemma {:induction false} LinesStop(str: string, attr: TextAttributes, at: nat, indent: nat, most: nat)
    requires attr.Valid() && at <= |str| && indent < SIZES
    ensures
      var lines := Lines(str, attr, at, indent, most);
      var stop, used := Stop(at, lines), if lines == [] then indent else attr.indent;
      && 0 <= stop <= |str|
      && (Breaks(str, attr, at, indent, most) <==>
          stop < |str| && |lines| < most && NextLine(str, stop, used, attr.width).end < stop)
    decreases most
  {
    LinesKeepText(str, attr, at, indent, most);
    if at < |str| && most > 0 {
      var line := NextLine(str, at, indent, attr.width);
      if Inside(str, line) {
        LinesStop(str, attr, line.next, attr.indent, most - 1);
        StopCons(line, Lines(str, attr, line.next, attr.indent, most - 1));
      }
    }
  }

  /** What is printed, line by line: the indent of the first line or of the later ones, the text of the
      line, and its hyphen. */
  lemma {:induction false} PrintsLineByLine(str: string, attr: TextAttributes, k: nat)
    requires attr.Valid() && k < |AllLines(str, attr)|
    ensures
      var lines := AllLines(str, attr);
      var line, from := lines[k], if k == 0 then 0 else lines[k - 1].next;
      && line.indent == (if k == 0 && attr.initialIndent != 0xFFFF_FFFF_FFFF_FFFF then attr.initialIndent else attr.indent)
      && 0 <= from < |str| && line == NextLine(str, from, line.indent, attr.width) && Inside(str, line)
    ensures Wrapped(str, attr).Some? ==>
      var line, all := AllLines(str, attr)[k], Wrapped(str, attr).value;
      Inside(str, line) && k < |all| &&
      all[k] == seq(line.indent, i => ' ') + str[line.start..line.end] + (if line.hyphen then "-" else "")
  {
    LinesFollow(str, attr, 0, attr.FirstIndent(), MAX_LINES, k);
    LinesKeepText(str, attr, 0, attr.FirstIndent(), MAX_LINES);
    PrintsAt(str, AllLines(str, attr), k);
  }

  lemma {:induction false} PrintsAt(str: string, lines: seq<Line>, k: nat)
    requires AllInside(str, lines) && k < |lines|
    ensures Print(str, lines)[k] ==
      seq(lines[k].indent, i => ' ') + str[lines[k].start..lines[k].end] + (if lines[k].hyphen then "-" else "")
  {}

  /** Nothing is printed exactly where the next line, of at most a thousand, would end before its start. */
  lemma {:induction false} PrintsNothingExactly(str: string, attr: TextAttributes)
    requires attr.Valid()
    ensures
      var lines := AllLines(str, attr);
      var stop, used := Stop(0, lines), if lines == [] then attr.FirstIndent() else attr.indent;
      && 0 <= stop <= |str|
      && (Wrapped(str, attr).None? <==>
          stop < |str| && |lines| < 1000 && NextLine(str, stop, used, attr.width).end < stop)
  {
    LinesStop(str, attr, 0, attr.FirstIndent(), MAX_LINES);
  }

  /** With room for two characters nothing of a text of up to a thousand characters is truncated,
      and all lines fit. */
  lemma {:induction false} RoomyWrapping(str: string, attr: TextAttributes)
    requires attr.Roomy()
    ensures Wrapped(str, attr).Some?
    ensures |str| <= MAX_LINES ==> |Wrapped(str, attr).value| <= |str|
    ensures forall k :: 0 <= k < |Wrapped(str, attr).value| && k < MAX_LINES ==>
      |Wrapped(str, attr).value[k]| <= attr.width && '\n' !in Wrapped(str, attr).value[k]
  {
    DefinedNeverBreaks(str, attr, 0, attr.FirstIndent(), MAX_LINES);
    LinesKeepText(str, attr, 0, attr.FirstIndent(), MAX_LINES);
    LinesBounded(str, attr, 0, attr.FirstIndent(), MAX_LINES);
    LinesFit(str, attr, 0, attr.FirstIndent(), MAX_LINES);
    WrappingKeepsText(str, attr);
    var lines, all := AllLines(str, attr), Wrapped(str, attr).value;
    forall k | 0 <= k < |all| && k < MAX_LINES ensures |all[k]| <= attr.width && '\n' !in all[k] {
      assert k < |lines| && lines[k] in lines;
      assert all[k] == Printed(str, lines[k]);
    }
  }

  // ----- when text is lost -----

  /** Where a single column is left and no wrap point is in reach, the text never goes on. */
  lemma {:induction false} StallsForever(str: string, attr: TextAttributes, at: nat, most: nat)
    requires attr.Valid() && at < |str|
    requires NextLine(str, at, attr.indent, attr.width).next == at
    ensures
      var lines := Lines(str, attr, at, attr.indent, most);
      && |lines| == most && Stop(at, lines) == at
      && forall line :: line in lines ==> line == Line(attr.indent, at, at, at, true)
    decreases most
  {
    if most > 0 {
      ProgressExactly(str, at, attr.indent, attr.width);
      StallsForever(str, attr, at, most - 1);
    }
  }

  /** After a newline, what follows is laid out with the indent of the later lines. */
  lemma {:induction false} NewlineFirst(str: string, attr: TextAttributes, most: nat)
    requires attr.Valid() && str != "" && str[0] == '\n' && most > 0
    ensures
      var first := Line(attr.FirstIndent(), 0, 0, 1, false);
      && Lines(str, attr, 0, attr.FirstIndent(), most) == [first] + Lines(str, attr, 1, attr.indent, most - 1)
      && (Breaks(str, attr, 0, attr.FirstIndent(), most) <==> Breaks(str, attr, 1, attr.indent, most - 1))
  {
    assert Limit(str, 0, Room(attr.FirstIndent(), attr.width)) == 0 && Wraps(str, 0, 0, 0);
    assert NextLine(str, 0, attr.FirstIndent(), attr.width) == Line(attr.FirstIndent(), 0, 0, 1, false);
  }

  lemma {:induction false} TwoLettersStall(attr: TextAttributes)
    requires attr.Valid() && Room(attr.indent, attr.width) == 1
    ensures NextLine("\nab", 1, attr.indent, attr.width).next == 1
  {
    assert Limit("\nab", 1, 1) == 2;
    ProgressExactly("\nab", 1, attr.indent, attr.width);
  }

  lemma {:induction false} StripTwoLetters()
    ensures Strip("\nab") == "ab"
  {
    assert Strip("\nab"[1..]) == Strip("ab") == "a" + Strip("ab"[1..]) && Strip("b") == "b" + Strip("");
  }

  /** After a line break, two letters never fit on lines of one column. */
  lemma {:induction false} OneColumnLoses(attr: TextAttributes)
    requires attr.Valid() && Room(attr.indent, attr.width) == 1
    ensures
      var lines := AllLines("\nab", attr);
      AllInside("\nab", lines) && Strip(Bodies("\nab", lines)) == "" && Strip("\nab") == "ab"
  {
    StripTwoLetters();
    NewlineFirst("\nab", attr, MAX_LINES);
    TwoLettersStall(attr);
    StallsForever("\nab", attr, 1, MAX_LINES - 1);
    LinesKeepText("\nab", attr, 0, attr.FirstIndent(), MAX_LINES);
    var rest := Lines("\nab", attr, 1, attr.indent, MAX_LINES - 1);
    StopCons(Line(attr.FirstIndent(), 0, 0, 1, false), rest);
    StripBlanks("\n");
    assert "\nab"[0..1] == "\n";
  }

  /** No text makes a line end before its start exactly when no indent is just as wide as the line. */
  lemma {:induction false} NeverBreaksExactly(attr: TextAttributes)
    requires attr.Valid()
    ensures (forall str: string :: !AnyBreaks(str, attr)) <==> attr.Defined()
  {
    if attr.Defined() {
      forall str: string ensures !AnyBreaks(str, attr) {
        DefinedNeverBreaks(str, attr, 0, attr.FirstIndent(), MAX_LINES);
      }
    } else {
      NoRoomBreaks(attr);
    }
  }

  /** A letter breaks where its line has no room at all: the first line, or one after a newline. */
  lemma {:induction false} NoRoomBreaks(attr: TextAttributes)
    requires attr.Valid() && !attr.Defined()
    ensures AnyBreaks("a", attr) || AnyBreaks("\na", attr)
  {
    if attr.FirstIndent() == attr.width {
      EndsBeforeExactly("a", 0, attr.FirstIndent(), attr.width);
    } else {
      NewlineFirst("\na", attr, MAX_LINES);
      EndsBeforeExactly("\na", 1, attr.indent, attr.width);
    }
  }

  /** Is every character but the blanks there? */
  predicate KeepsAll(str: string, attr: TextAttributes)
    requires attr.Valid()
  {
    !AnyBreaks(str, attr) && AllInside(str, AllLines(str, attr)) && Strip(Bodies(str, AllLines(str, attr))) == Strip(str)
  }

  lemma {:induction false} ShortTextsKept(str: string, attr: TextAttributes)
    requires attr.Defined() && Room(attr.indent, attr.width) != 1 && |str| < MAX_LINES
    ensures KeepsAll(str, attr)
  {
    LinesKeepText(str, attr, 0, attr.FirstIndent(), MAX_LINES);
    DefinedNeverBreaks(str, attr, 0, attr.FirstIndent(), MAX_LINES);
    if str != "" {
      var line := NextLine(str, 0, attr.FirstIndent(), attr.width);
      LinesBounded(str, attr, line.next, attr.indent, MAX_LINES - 1);
      StopCons(line, Lines(str, attr, line.next, attr.indent, MAX_LINES - 1));
    }
    assert Stop(0, AllLines(str, attr)) == |str| && str[..|str|] == str;
  }

  /** No text of less than a thousand characters is lost, exactly when the first line has some room and
      the lines after it have room for more than one column. */
  lemma {:induction false} LosesNothingExactly(attr: TextAttributes)
    requires attr.Valid()
    ensures (forall str: string :: |str| < MAX_LINES ==> KeepsAll(str, attr)) <==>
      Room(attr.FirstIndent(), attr.width) > 0 && Room(attr.indent, attr.width) > 1
  {
    if !attr.Defined() {
      NoRoomBreaks(attr);
      assert |"a"| < MAX_LINES && |"\na"| < MAX_LINES;
    } else if Room(attr.indent, attr.width) == 1 {
      OneColumnLoses(attr);
      assert |"\nab"| < MAX_LINES && !KeepsAll("\nab", attr);
    } else {
      forall str: string | |str| < MAX_LINES ensures KeepsAll(str, attr) {
        ShortTextsKept(str, attr);
      }
    }
  }

  // ----- the wrapper -----

  method FindNewline(str: string, at: nat, end: nat) returns (r: nat)
    requires at <= end <= |str|
    ensures r == FirstNewline(str, at, end)
  {
    r := at;
    while r < end && str[r] != '\n'
      invariant at <= r <= end
      invariant FirstNewline(str, r, end) == FirstNewline(str, at, end)
    {
      r := r + 1;
    }
  }

  /** Scans backwards from `limit` for a wrap point, moving the end of the line and the next start to it. */
  method FindWrap(str: string, at: nat, limit: nat) returns (end: nat, next: nat, found: bool)
    requires at <= limit < |str|
    ensures found == LastWrap(str, at, limit, limit).Some?
    ensures !found ==> end == limit
    ensures found ==>
      var f := LastWrap(str, at, limit, limit).value;
      Wraps(str, at, limit, f) && at <= f <= limit &&
      if f != limit && WrapAfter(str[f]) then end == next == f + 1
      else if f > at && WrapBefore(str[f]) then end == next == f
      else end == f && next == f + 1
  {
    end, next, found := limit, |str|, false;
    var f := limit;
    while true
      invariant at <= f <= limit && end == limit && !found
      invariant LastWrap(str, at, limit, f) == LastWrap(str, at, limit, limit)
      decreases f
    {
      if WrapAfter(str[f]) && f != end {
        end, next, found := f + 1, f + 1, true;
      } else if f > at && WrapBefore(str[f]) {
        end, next, found := f, f, true;
      } else if WrapInstead(str[f]) {
        next, end, found := f + 1, f, true;
      }
      if f == at {
        break;
      }
      f := f - 1;
      if found {
        break;
      }
    }
  }

  method Trim(str: string, at: nat, end: nat) returns (r: nat)
    requires at <= end <= |str|
    ensures r == TrimEnd(str, at, end)
  {
    r := end;
    while r > at && WrapInstead(str[r - 1])
      invariant at <= r <= end && TrimEnd(str, at, r) == TrimEnd(str, at, end)
    {
      r := r - 1;
    }
  }

  /** One line from `it`, which is not the end of the text, unless it would end before its start. */
  method TakeLine(str: string, it: nat, indent: nat, width: nat) returns (text: Option<string>, next: int)
    requires it < |str| && indent < SIZES && width < SIZES
    ensures
      var line := NextLine(str, it, indent, width);
      text == (if Inside(str, line) then Some(Printed(str, line)) else None) && next == line.next
  {
    var suffix := "";
    var end: int := FindNewline(str, it, it + Min(|str| - it, Room(indent, width)));
    next := |str|;
    if end != |str| {
      var wrapEnd, wrapNext, found := FindWrap(str, it, end);
      if !found {
        end := end - 1;
        next := end;
        suffix := "-";
      } else {
        end := Trim(str, it, wrapEnd);
        next := wrapNext;
      }
    }
    EndsBeforeExactly(str, it, indent, width);
    if end < it {
      return None, next;
    }
    text := Some(seq(indent, i => ' ') + str[it..end] + suffix);
  }

  lemma {:induction false} LinesOneMore(str: string, attr: TextAttributes, done: seq<Line>, at: nat, indent: nat, most: nat)
    requires attr.Valid() && at < |str| && indent < SIZES && most > 0
    requires Inside(str, NextLine(str, at, indent, attr.width))
    ensures
      var line := NextLine(str, at, indent, attr.width);
      done + Lines(str, attr, at, indent, most) == (done + [line]) + Lines(str, attr, line.next, attr.indent, most - 1)
  {}

  lemma {:induction false} PrintOneMore(str: string, lines: seq<Line>, line: Line)
    requires AllInside(str, lines) && Inside(str, line)
    ensures AllInside(str, lines + [line])
    ensures Print(str, lines + [line]) == Print(str, lines) + [Printed(str, line)]
  {}

  /** Before a turn of the loop: the lines so far, and what is still to come. */
  ghost predicate Underway(str: string, attr: TextAttributes, lines: seq<string>, done: seq<Line>, at: nat, indent: nat)
  {
    && attr.Valid() && at <= |str| && indent < SIZES && |lines| == |done| <= MAX_LINES
    && AllInside(str, done) && lines == Print(str, done) && at == Stop(0, done)
    && AllLines(str, attr) == done + Lines(str, attr, at, indent, MAX_LINES - |done|)
    && AnyBreaks(str, attr) == Breaks(str, attr, at, indent, MAX_LINES - |done|)
  }

  lemma {:induction false} UnderwayOn(str: string, attr: TextAttributes, lines: seq<string>, done: seq<Line>, at: nat, indent: nat)
    requires Underway(str, attr, lines, done, at, indent) && at < |str| && |lines| < MAX_LINES
    ensures
      var line := NextLine(str, at, indent, attr.width);
      if Inside(str, line) then Underway(str, attr, lines + [Printed(str, line)], done + [line], line.next, attr.indent)
      else AnyBreaks(str, attr)
  {
    var line := NextLine(str, at, indent, attr.width);
    if Inside(str, line) {
      LinesOneMore(str, attr, done, at, indent, MAX_LINES - |done|);
      PrintOneMore(str, done, line);
    }
  }

  lemma {:induction false} UnderwayEnds(str: string, attr: TextAttributes, lines: seq<string>, done: seq<Line>, at: nat, indent: nat)
    requires Underway(str, attr, lines, done, at, indent) && (at == |str| || |lines| == MAX_LINES)
    ensures Wrapped(str, attr) == Some(lines + if at == |str| then [] else [MESSAGE])
  {
    assert AllLines(str, attr) == done;
  }

  method Wrap(str: string, attr: TextAttributes) returns (r: Option<seq<string>>)
    requires attr.Valid()
    ensures r == Wrapped(str, attr)
  {
    var lines: seq<string> := [];
    var indent: nat := if attr.initialIndent != NPOS then attr.initialIndent else attr.indent;
    var it: nat := 0;
    ghost var done: seq<Line> := [];
    while it < |str|
      invariant it <= |str| && |lines| <= MAX_LINES && indent < SIZES
      invariant Underway(str, attr, lines, done, it, indent)
      decreases MAX_LINES - |lines|
    {
      if |lines| >= MAX_LINES {
        UnderwayEnds(str, attr, lines, done, it, indent);
        return Some(lines + [MESSAGE]);
      }
      var text, next := TakeLine(str, it, indent, attr.width);
      UnderwayOn(str, attr, lines, done, it, indent);
      if text.None? {
        return None;
      }
      done := done + [NextLine(str, it, indent, attr.width)];
      lines := lines + [text.value];
      if indent != attr.indent {
        indent := attr.indent;
      }
      it := next;
    }
    UnderwayEnds(str, attr, lines, done, it, indent);
    r := Some(lines);
    assert lines + [] == lines;
  }
}
