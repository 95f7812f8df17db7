/** A reader of XML, independent of how it was written, and what it finds in what the writer wrote. */
module XmlResults {
  import opened Common
  import opened Xml

  // ----- the reader -----

  datatype Event = Open(name: string) | Attribute(key: string, value: string) | Text(c: char) | Close(name: string, short: bool)

  datatype Mode =
    | Content | Entity(ref: string)
    | TagStart | OpenName(name: string) | InTag | EmptyTag | CloseName(name: string)
    | AttrName(key: string) | AttrStart(key: string)
    | AttrValue(key: string, value: string) | AttrEntity(key: string, value: string, ref: string)
    | Declaration | Broken

  /** The elements that are open, outermost first, and what was read so far, with every character
      between tags. */
  datatype Reader = Reader(mode: Mode, open: seq<string>, events: seq<Event>)

  predicate Blank(c: char)
  {
    c == ' ' || c == '\n' || c == '\t' || c == '\r'
  }

  predicate NameChar(c: char)
  {
    !Blank(c) && c !in "<>&\"'=/?!"
  }

  predicate IsName(name: string)
  {
    name != "" && forall i :: 0 <= i < |name| ==> NameChar(name[i])
  }

  /** The character an entity stands for, if it is one. */
  function Resolve(ref: string): string
  {
    if ref == "lt" then "<" else if ref == "amp" then "&" else if ref == "gt" then ">"
    else if ref == "quot" then "\"" else ""
  }

  function Emit(r: Reader, e: Event): Reader
  {
    r.(events := r.events + [e])
  }

  function OpenElement(r: Reader, name: string): Reader
  {
    Emit(r, Event.Open(name)).(mode := InTag, open := r.open + [name])
  }

  /** Ends the innermost element, which must have the given name, in the short form or with an end tag. */
  function CloseElement(r: Reader, name: string, short: bool): Reader
  {
    if r.open == [] || r.open[|r.open| - 1] != name then r.(mode := Broken)
    else Emit(r, Close(name, short)).(mode := Content, open := r.open[..|r.open| - 1])
  }

  function ReadInTag(r: Reader, c: char): Reader
  {
    if c == ' ' then r.(mode := InTag)
    else if c == '/' then r.(mode := EmptyTag)
    else if c == '>' then r.(mode := Content)
    else if NameChar(c) then r.(mode := AttrName([c]))
    else r.(mode := Broken)
  }

  function ReadChar(r: Reader, c: char): Reader
  {
    match r.mode
    case Content =>
      if c == '<' then r.(mode := TagStart)
      else if c == '&' then r.(mode := Entity(""))
      else Emit(r, Text(c))
    case Entity(ref) =>
      if c != ';' then r.(mode := Entity(ref + [c]))
      else if Resolve(ref) == "" then r.(mode := Broken)
      else Emit(r, Text(Resolve(ref)[0])).(mode := Content)
    case TagStart =>
      if c == '/' then r.(mode := CloseName(""))
      else if c == '?' then r.(mode := Declaration)
      else if NameChar(c) then r.(mode := OpenName([c]))
      else r.(mode := Broken)
    case OpenName(name) =>
      if NameChar(c) then r.(mode := OpenName(name + [c])) else ReadInTag(OpenElement(r, name), c)
    case InTag => ReadInTag(r, c)
    case EmptyTag =>
      if c == '>' && r.open != [] then CloseElement(r, r.open[|r.open| - 1], true) else r.(mode := Broken)
    case CloseName(name) =>
      if NameChar(c) then r.(mode := CloseName(name + [c]))
      else if c == '>' then CloseElement(r, name, false)
      else r.(mode := Broken)
    case AttrName(key) =>
      if NameChar(c) then r.(mode := AttrName(key + [c]))
      else if c == '=' then r.(mode := AttrStart(key))
      else r.(mode := Broken)
    case AttrStart(key) => if c == '"' then r.(mode := AttrValue(key, "")) else r.(mode := Broken)
    case AttrValue(key, value) =>
      if c == '"' then Emit(r, Attribute(key, value)).(mode := InTag)
      else if c == '<' then r.(mode := Broken)
      else if c == '&' then r.(mode := AttrEntity(key, value, ""))
      else r.(mode := AttrValue(key, value + [c]))
    case AttrEntity(key, value, ref) =>
      if c != ';' then r.(mode := AttrEntity(key, value, ref + [c]))
      else if Resolve(ref) == "" then r.(mode := Broken)
      else r.(mode := AttrValue(key, value + Resolve(ref)))
    case Declaration => if c == '>' then r.(mode := Content) else r
    case Broken => r
  }

  function Read(r: Reader, text: string): Reader
    decreases |text|
  {
    if text == "" then r else Read(ReadChar(r, text[0]), text[1..])
  }

  lemma {:induction false} ReadConcat(r: Reader, a: string, b: string)
    ensures Read(r, a + b) == Read(Read(r, a), b)
    decreases |a|
  {
    if a == "" {
      assert a + b == b;
    } else {
      ReadConcat(ReadChar(r, a[0]), a[1..], b);
      assert (a + b)[1..] == a[1..] + b;
    }
  }

  lemma {:induction false} ReadOne(r: Reader, c: char)
    ensures Read(r, [c]) == ReadChar(r, c)
  {
    assert Read(ReadChar(r, c), [c][1..]) == ReadChar(r, c);
  }

  // ----- reading encoded text -----

  /** What a string becomes in XML, where control characters have no place. */
  function Rewrite(str: string): string
  {
    if str == "" then "" else RewriteChar(str[0]) + Rewrite(str[1..])
  }

  function RewriteChar(c: char): string
  {
    if Control(c) then HexEscape(c) else [c]
  }

  lemma {:induction false} RewriteLength(str: string)
    ensures |Rewrite(str)| >= |str|
    ensures (exists i :: 0 <= i < |str| && Control(str[i])) ==> |Rewrite(str)| > |str|
  {
    if str != "" {
      RewriteLength(str[1..]);
      if i :| 0 < i < |str| && Control(str[i]) {
        assert str[1..][i - 1] == str[i];
      }
    }
  }

  /** Strings are kept exactly when they have no control characters. */
  lemma {:induction false} RewritesExactly(str: string)
    ensures Rewrite(str) == str <==> forall i :: 0 <= i < |str| ==> !Control(str[i])
  {
    if forall i :: 0 <= i < |str| ==> !Control(str[i]) {
      if str != "" {
        RewritesExactly(str[1..]);
        assert str == [str[0]] + str[1..];
      }
    } else {
      RewriteLength(str);
    }
  }

  /** The text events of a string. */
  function Texts(str: string): seq<Event>
  {
    if str == "" then [] else [Text(str[0])] + Texts(str[1..])
  }

  predicate PlainText(str: string)
  {
    forall i :: 0 <= i < |str| ==> str[i] != '<' && str[i] != '&'
  }

  lemma {:induction false} ReadPlainText(r: Reader, str: string)
    requires r.mode == Content && PlainText(str)
    ensures Read(r, str) == r.(events := r.events + Texts(str))
    decreases |str|
  {
    if str != "" {
      var m := ReadChar(r, str[0]);
      ReadPlainText(m, str[1..]);
      Reassociate(r.events, [Text(str[0])], Texts(str[1..]));
    }
  }

  lemma {:induction false} TextsConcat(a: string, b: string)
    ensures Texts(a + b) == Texts(a) + Texts(b)
  {
    if a == "" {
      assert a + b == b;
    } else {
      TextsConcat(a[1..], b);
      assert (a + b)[1..] == a[1..] + b && (a + b)[0] == a[0];
      Reassociate([Text(a[0])], Texts(a[1..]), Texts(b));
    }
  }

  /** An entity in the text. */
  lemma {:induction false} ReadRef(r: Reader, ref: string, rest: string)
    requires r.mode.Entity? && forall i :: 0 <= i < |rest| ==> rest[i] != ';'
    requires r.mode.ref + rest == ref
    ensures Read(r, rest) == r.(mode := Entity(ref))
    decreases |rest|
  {
    if rest != "" {
      var m := ReadChar(r, rest[0]);
      assert m.mode.ref + rest[1..] == ref;
      ReadRef(m, ref, rest[1..]);
    }
  }

  lemma {:induction false} ReadEntity(r: Reader, ref: string)
    requires r.mode == Content && Resolve(ref) != ""
    ensures Read(r, "&" + ref + ";") == Emit(r, Text(Resolve(ref)[0]))
  {
    var m := r.(mode := Entity(""));
    ReadOne(r, '&');
    ReadRef(m, ref, ref);
    ReadOne(m.(mode := Entity(ref)), ';');
    ReadConcat(r, "&", ref);
    ReadConcat(r, "&" + ref, ";");
  }

  /** The entity for a character, if the encoder uses one. */
  function EntityOf(c: char): string
  {
    if c == '<' then "lt" else if c == '&' then "amp" else if c == '>' then "gt" else if c == '"' then "quot" else ""
  }

  lemma {:induction false} EncodesByEntity(str: string, i: nat, what: ForWhat)
    requires i < |str|
    ensures
      var c, e := str[i], EncodeChar(str, i, what);
      if c == '<' || c == '&' || (c == '"' && what == ForAttributes) then e == "&" + EntityOf(c) + ";"
      else (c == '>' && e == "&" + EntityOf(c) + ";") || e == RewriteChar(c)
  {}

  lemma {:induction false} RewriteCharPlain(c: char)
    requires c != '<' && c != '&'
    ensures PlainText(RewriteChar(c))
    ensures c != '"' ==> '"' !in RewriteChar(c)
  {}

  lemma {:induction false} ReadEncodedChar(r: Reader, str: string, i: nat)
    requires r.mode == Content && i < |str|
    ensures Read(r, EncodeChar(str, i, ForTextNodes)) == r.(events := r.events + Texts(RewriteChar(str[i])))
  {
    var c, e := str[i], EncodeChar(str, i, ForTextNodes);
    EncodesByEntity(str, i, ForTextNodes);
    if e == "&" + EntityOf(c) + ";" && EntityOf(c) != "" {
      ReadEntity(r, EntityOf(c));
      assert Texts([c]) == [Text(c)] + Texts([c][1..]) == [Text(c)];
    } else {
      RewriteCharPlain(c);
      ReadPlainText(r, e);
    }
  }

  /** Text is read back as it was, but for the control characters, whatever stands before it. */
  lemma {:induction false} TextRoundTrip(r: Reader, str: string, i: nat)
    requires r.mode == Content && i <= |str|
    ensures Read(r, EncodeFrom(str, i, ForTextNodes)) == r.(events := r.events + Texts(Rewrite(str[i..])))
    decreases |str| - i
  {
    if i < |str| {
      ReadEncodedChar(r, str, i);
      var m := Read(r, EncodeChar(str, i, ForTextNodes));
      ReadConcat(r, EncodeChar(str, i, ForTextNodes), EncodeFrom(str, i + 1, ForTextNodes));
      TextRoundTrip(m, str, i + 1);
      assert str[i..][1..] == str[i+1..];
      TextsConcat(RewriteChar(str[i]), Rewrite(str[i+1..]));
      Reassociate(r.events, Texts(RewriteChar(str[i])), Texts(Rewrite(str[i+1..])));
    }
  }

  // ----- reading encoded attributes -----

  lemma {:induction false} ReadPlainValue(r: Reader, str: string)
    requires r.mode.AttrValue? && PlainText(str) && '"' !in str
    ensures Read(r, str) == r.(mode := AttrValue(r.mode.key, r.mode.value + str))
    decreases |str|
  {
    if str != "" {
      var m := ReadChar(r, str[0]);
      ReadPlainValue(m, str[1..]);
      assert m.mode.value + str[1..] == r.mode.value + str;
    } else {
      assert r.mode.value + str == r.mode.value;
    }
  }

  lemma {:induction false} ReadValueRef(r: Reader, ref: string, rest: string)
    requires r.mode.AttrEntity? && forall i :: 0 <= i < |rest| ==> rest[i] != ';'
    requires r.mode.ref + rest == ref
    ensures Read(r, rest) == r.(mode := r.mode.(ref := ref))
    decreases |rest|
  {
    if rest != "" {
      var m := ReadChar(r, rest[0]);
      assert m.mode.ref + rest[1..] == ref;
      ReadValueRef(m, ref, rest[1..]);
    }
  }

  lemma {:induction false} ReadValueEntity(r: Reader, ref: string)
    requires r.mode.AttrValue? && Resolve(ref) != ""
    ensures Read(r, "&" + ref + ";") == r.(mode := AttrValue(r.mode.key, r.mode.value + Resolve(ref)))
  {
    var m := r.(mode := AttrEntity(r.mode.key, r.mode.value, ""));
    ReadOne(r, '&');
    ReadValueRef(m, ref, ref);
    ReadOne(m.(mode := m.mode.(ref := ref)), ';');
    ReadConcat(r, "&", ref);
    ReadConcat(r, "&" + ref, ";");
  }

  lemma {:induction false} ReadEncodedValueChar(r: Reader, str: string, i: nat)
    requires r.mode.AttrValue? && i < |str|
    ensures Read(r, EncodeChar(str, i, ForAttributes)) == r.(mode := AttrValue(r.mode.key, r.mode.value + RewriteChar(str[i])))
  {
    var c, e := str[i], EncodeChar(str, i, ForAttributes);
    EncodesByEntity(str, i, ForAttributes);
    if e == "&" + EntityOf(c) + ";" && EntityOf(c) != "" {
      ReadValueEntity(r, EntityOf(c));
    } else {
      RewriteCharPlain(c);
      ReadPlainValue(r, e);
    }
  }

  lemma {:induction false} AttributeRoundTrip(r: Reader, str: string, i: nat)
    requires r.mode.AttrValue? && i <= |str|
    ensures Read(r, EncodeFrom(str, i, ForAttributes)) == r.(mode := AttrValue(r.mode.key, r.mode.value + Rewrite(str[i..])))
    decreases |str| - i
  {
    if i < |str| {
      ReadEncodedValueChar(r, str, i);
      var m := Read(r, EncodeChar(str, i, ForAttributes));
      ReadConcat(r, EncodeChar(str, i, ForAttributes), EncodeFrom(str, i + 1, ForAttributes));
      AttributeRoundTrip(m, str, i + 1);
      assert str[i..][1..] == str[i+1..];
      Reassociate(r.mode.value, RewriteChar(str[i]), Rewrite(str[i+1..]));
    } else {
      assert r.mode.value + Rewrite(str[i..]) == r.mode.value;
    }
  }

  lemma {:induction false} TextsLength(str: string)
    ensures |Texts(str)| == |str| && forall i :: 0 <= i < |str| ==> Texts(str)[i] == Text(str[i])
  {
    if str != "" {
      TextsLength(str[1..]);
    }
  }

  /** Decoding gives back the encoded string, as text and as an attribute, exactly when it has no
      control characters. */
  lemma {:induction false} DecodesExactly(str: string, key: string)
    ensures
      var r := Reader(Content, [], []);
      var kept := forall i :: 0 <= i < |str| ==> !Control(str[i]);
      && (Read(r, Encode(str, ForTextNodes)) == r.(events := Texts(str)) <==> kept)
      && (Read(r.(mode := AttrValue(key, "")), Encode(str, ForAttributes)) == r.(mode := AttrValue(key, str)) <==> kept)
  {
    var r := Reader(Content, [], []);
    assert str[0..] == str;
    TextRoundTrip(r, str, 0);
    AttributeRoundTrip(r.(mode := AttrValue(key, "")), str, 0);
    assert [] + Texts(Rewrite(str)) == Texts(Rewrite(str)) && "" + Rewrite(str) == Rewrite(str);
    RewritesExactly(str);
    RewriteLength(str);
    TextsLength(str);
    TextsLength(Rewrite(str));
  }

  // ----- what is written for each character -----

  /** Control characters, but for white space, become a backslash, an x and two hexadecimal digits. */
  lemma {:induction false} RewrittenExactly(c: char)
    ensures
      var n, digits := c as int, "0123456789ABCDEF";
      RewriteChar(c) ==
        if n <= 8 || 14 <= n <= 31 || n == 127 then ['\\', 'x', digits[(n % 256) / 16], digits[n % 16]] else [c]
  {}

  /** Angle brackets, ampersands and quotes become entities: `<` and `&` always, a quote in attributes
      only, and `>` behind two closing brackets that do not start the text. */
  lemma {:induction false} EncodedExactly(str: string, i: nat, what: ForWhat)
    requires i < |str|
    ensures
      var c := str[i];
      EncodeChar(str, i, what) ==
        if c == '<' then "&lt;" else if c == '&' then "&amp;"
        else if c == '"' && what == ForAttributes then "&quot;"
        else if c == '>' && i >= 3 && str[i-2..i] == "]]" then "&gt;"
        else RewriteChar(c)
  {
    if i >= 3 {
      assert str[i-2..i] == [str[i-2], str[i-1]];
    }
  }

  // ----- reading what was written -----

  datatype Op =
    | StartElement(name: string) | EndElement
    | WriteAttribute(name: string, attribute: string) | WriteText(text: string, indented: bool) | WriteBlankLine

  /** Names are names, elements end after they started, and attributes directly follow a start or each other. */
  predicate Allowed(s: State, op: Op)
  {
    match op
    case StartElement(name) => IsName(name)
    case EndElement => s.tags != []
    case WriteAttribute(name, _) => s.tagIsOpen && IsName(name)
    case WriteText(_, _) => true
    case WriteBlankLine => true
  }

  function Do(s: State, op: Op): State
    requires s.Valid() && Allowed(s, op)
  {
    match op
    case StartElement(name) => s.StartElement(name)
    case EndElement => s.EndElement()
    case WriteAttribute(name, attribute) => s.WriteAttribute(name, attribute)
    case WriteText(text, indented) => s.WriteText(text, indented)
    case WriteBlankLine => s.WriteBlankLine()
  }

  lemma {:induction false} DoValid(s: State, op: Op)
    requires s.Valid() && Allowed(s, op)
    ensures Do(s, op).Valid()
  {}

  const LINE_END: seq<Event> := [Text('\n')]

  /** The end of line behind a tag that has to be closed first, and the one that is due. */
  function Closing(s: State): seq<Event>
  {
    if s.tagIsOpen then LINE_END else []
  }

  function DueLine(s: State): seq<Event>
  {
    if s.needsNewline then LINE_END else []
  }

  /** What a reader should make of one call: what was written, and all the white space around it. */
  function EventsOf(s: State, op: Op): seq<Event>
    requires s.Valid() && Allowed(s, op)
  {
    match op
    case StartElement(name) => Closing(s) + DueLine(s) + Texts(s.indent) + [Event.Open(name)]
    case EndElement =>
      (if s.tagIsOpen then [] else DueLine(s) + Texts(s.indent[..|s.indent| - 2]))
      + [Close(s.tags[|s.tags| - 1], s.tagIsOpen)] + LINE_END
    case WriteAttribute(name, attribute) => if attribute == "" then [] else [Attribute(name, Rewrite(attribute))]
    case WriteText(text, indented) =>
      if text == "" then []
      else Closing(s) + (if s.tagIsOpen && indented then Texts(s.indent) else []) + Texts(Rewrite(text))
    case WriteBlankLine => Closing(s) + LINE_END
  }

  /** Texts without control characters are told apart, blanks and all. */
  lemma {:induction false} TextsToldApart(s: State, a: string, b: string, indented: bool)
    requires s.Valid() && Rewrite(a) == a && Rewrite(b) == b
    ensures EventsOf(s, WriteText(a, indented)) == EventsOf(s, WriteText(b, indented)) <==> a == b
  {
    var layout := Closing(s) + if s.tagIsOpen && indented then Texts(s.indent) else [];
    TextsLength(a);
    TextsLength(b);
    if EventsOf(s, WriteText(a, indented)) == EventsOf(s, WriteText(b, indented)) {
      if a != "" && b != "" {
        assert Texts(a) == (layout + Texts(a))[|layout|..] == (layout + Texts(b))[|layout|..] == Texts(b);
        assert forall i :: 0 <= i < |a| ==> Texts(a)[i] == Text(a[i]) && Texts(b)[i] == Text(b[i]);
      }
      assert a == b;
    }
  }

  const NEW_READER := Reader(Content, [], [])

  function Seen(s: State): Reader
  {
    Read(NEW_READER, s.os)
  }

  /** A name ends where the next character that cannot be in it is read. */
  function Settled(r: Reader): Reader
  {
    if r.mode.OpenName? then OpenElement(r, r.mode.name) else r
  }

  /** The reader is where the writer is. */
  ghost predicate Agrees(s: State, events: seq<Event>)
  {
    s.Valid() && Settled(Seen(s)) == Reader(if s.tagIsOpen then InTag else Content, s.tags, events)
  }

  lemma {:induction false} SeenWrite(s: State, text: string)
    ensures Seen(s.Write(text)) == Read(Seen(s), text)
  {
    ReadConcat(NEW_READER, s.os, text);
  }

  lemma {:induction false} ReadTwo(r: Reader, text: string)
    requires |text| == 2
    ensures Read(r, text) == ReadChar(ReadChar(r, text[0]), text[1])
  {
    ReadOne(ReadChar(r, text[0]), text[1]);
    assert text[1..] == [text[1]];
  }

  lemma {:induction false} ReadOpenName(r: Reader, done: string, name: string)
    requires r.mode == OpenName(done) && forall i :: 0 <= i < |name| ==> NameChar(name[i])
    ensures Read(r, name) == r.(mode := OpenName(done + name))
    decreases |name|
  {
    if name != "" {
      ReadOpenName(ReadChar(r, name[0]), done + [name[0]], name[1..]);
      assert done + [name[0]] + name[1..] == done + name;
    } else {
      assert done + name == done;
    }
  }

  lemma {:induction false} ReadCloseName(r: Reader, done: string, name: string)
    requires r.mode == CloseName(done) && forall i :: 0 <= i < |name| ==> NameChar(name[i])
    ensures Read(r, name) == r.(mode := CloseName(done + name))
    decreases |name|
  {
    if name != "" {
      ReadCloseName(ReadChar(r, name[0]), done + [name[0]], name[1..]);
      assert done + [name[0]] + name[1..] == done + name;
    } else {
      assert done + name == done;
    }
  }

  lemma {:induction false} ReadAttrName(r: Reader, done: string, name: string)
    requires r.mode == AttrName(done) && forall i :: 0 <= i < |name| ==> NameChar(name[i])
    ensures Read(r, name) == r.(mode := AttrName(done + name))
    decreases |name|
  {
    if name != "" {
      ReadAttrName(ReadChar(r, name[0]), done + [name[0]], name[1..]);
      assert done + [name[0]] + name[1..] == done + name;
    } else {
      assert done + name == done;
    }
  }

  lemma {:induction false} TagClosedAgrees(s: State, events: seq<Event>)
    requires Agrees(s, events)
    ensures Agrees(s.TagClosed(), events + Closing(s))
  {
    if s.tagIsOpen {
      SeenWrite(s, ">\n");
      ReadTwo(Seen(s), ">\n");
    } else {
      assert events + [] == events;
    }
  }

  /** Plain text between tags, such as indents and ends of lines. */
  lemma {:induction false} PlainTextAgrees(s: State, text: string, events: seq<Event>)
    requires Agrees(s, events) && !s.tagIsOpen && PlainText(text)
    ensures Agrees(s.Write(text), events + Texts(text)) && Seen(s.Write(text)) == Reader(Content, s.tags, events + Texts(text))
  {
    SeenWrite(s, text);
    ReadPlainText(Seen(s), text);
  }

  lemma {:induction false} LineEndTexts()
    ensures Texts("\n") == LINE_END
  {
    assert Texts("\n") == [Text('\n')] + Texts("\n"[1..]);
  }

  lemma {:induction false} NewlineAgrees(s: State, events: seq<Event>)
    requires Agrees(s, events)
    ensures Agrees(s.Newline(), events + DueLine(s))
  {
    if s.needsNewline {
      LineEndTexts();
      PlainTextAgrees(s, "\n", events);
    } else {
      assert events + [] == events;
    }
  }

  /** Where an element starts, after the line and the indent. */
  lemma {:induction false} StartTagSeen(s: State, name: string, events: seq<Event>)
    requires Agrees(s, events) && !s.tagIsOpen && Seen(s).mode == Content && IsName(name)
    ensures Settled(Seen(s.Write("<").Write(name))) == Reader(InTag, s.tags + [name], events + [Event.Open(name)])
  {
    SeenWrite(s, "<");
    ReadOne(Seen(s), '<');
    SeenWrite(s.Write("<"), name);
    ReadOpenName(ReadChar(Seen(s.Write("<")), name[0]), [name[0]], name[1..]);
    assert [name[0]] + name[1..] == name;
  }

  lemma {:induction false} StartElementAgrees(s: State, name: string, events: seq<Event>)
    requires Agrees(s, events) && IsName(name)
    ensures Agrees(s.StartElement(name), events + EventsOf(s, StartElement(name)))
  {
    var c, n := s.TagClosed(), s.TagClosed().Newline();
    TagClosedAgrees(s, events);
    NewlineAgrees(c, events + Closing(s));
    PlainTextAgrees(n, n.indent, events + Closing(s) + DueLine(s));
    StartTagSeen(n.Write(n.indent), name, events + Closing(s) + DueLine(s) + Texts(s.indent));
    DoValid(s, StartElement(name));
    Regroup(events, Closing(s), DueLine(s), Texts(s.indent), [Event.Open(name)]);
  }

  lemma {:induction false} Regroup<T>(events: seq<T>, a: seq<T>, b: seq<T>, c: seq<T>, d: seq<T>)
    ensures events + a + b + c + d == events + (a + b + c + d)
  {}

  lemma {:induction false} EndOpenTagAgrees(s: State, events: seq<Event>)
    requires Agrees(s, events) && s.tagIsOpen
    ensures Agrees(s.EndElement(), events + EventsOf(s, EndElement))
  {
    SeenWrite(s, "/>\n");
    ReadConcat(Seen(s), "/>", "\n");
    ReadTwo(Seen(s), "/>");
    ReadOne(Read(Seen(s), "/>"), '\n');
    assert "/>" + "\n" == "/>\n";
    EndElementValid(s);
    var close := [Close(s.tags[|s.tags| - 1], true)];
    Reassociate(events, close, LINE_END);
    assert [] + close + LINE_END == close + LINE_END;
  }

  lemma {:induction false} EndTagSeen(s: State, name: string)
    requires Seen(s).mode == Content && IsName(name)
    ensures Seen(s.Write("</").Write(name).Write(">\n")) == ReadChar(CloseElement(Seen(s), name, false), '\n')
  {
    SeenWrite(s, "</");
    ReadTwo(Seen(s), "</");
    SeenWrite(s.Write("</"), name);
    ReadCloseName(Seen(s.Write("</")), "", name);
    assert "" + name == name;
    SeenWrite(s.Write("</").Write(name), ">\n");
    ReadTwo(Seen(s.Write("</").Write(name)), ">\n");
    assert CloseElement(Seen(s).(mode := CloseName(name)), name, false) == CloseElement(Seen(s), name, false);
  }

  lemma {:induction false} EndElementAgrees(s: State, events: seq<Event>)
    requires Agrees(s, events) && s.tags != [] && !s.tagIsOpen && IsName(s.tags[|s.tags| - 1])
    ensures Agrees(s.EndElement(), events + EventsOf(s, EndElement))
  {
    var n, name := s.Newline(), s.tags[|s.tags| - 1];
    var outer := n.indent[..|n.indent| - 2];
    NewlineAgrees(s, events);
    PlainTextAgrees(n, outer, events + DueLine(s));
    EndTagSeen(n.Write(outer), name);
    EndElementValid(s);
    Regroup(events, DueLine(s), Texts(outer), [Close(name, false)], LINE_END);
  }

  /** The name of an attribute within a tag, up to the opening quote. */
  lemma {:induction false} AttributeNameSeen(s: State, name: string)
    requires Settled(Seen(s)).mode == InTag && IsName(name)
    ensures Seen(s.Write(" ").Write(name).Write("=\"")) == Settled(Seen(s)).(mode := AttrValue(name, ""))
  {
    var a := s.Write(" ");
    SeenWrite(s, " ");
    ReadOne(Seen(s), ' ');
    SeenWrite(a, name);
    ReadAttrName(ReadChar(Seen(a), name[0]), [name[0]], name[1..]);
    assert [name[0]] + name[1..] == name;
    SeenWrite(a.Write(name), "=\"");
    ReadTwo(Seen(a.Write(name)), "=\"");
  }

  lemma {:induction false} AttributeValueSeen(s: State, name: string, attribute: string)
    requires Seen(s).mode == AttrValue(name, "")
    ensures Seen(s.Write(Encode(attribute, ForAttributes)).Write("\"")) ==
      Emit(Seen(s), Attribute(name, Rewrite(attribute))).(mode := InTag)
  {
    var d := s.Write(Encode(attribute, ForAttributes));
    SeenWrite(s, Encode(attribute, ForAttributes));
    AttributeRoundTrip(Seen(s), attribute, 0);
    assert attribute[0..] == attribute && "" + Rewrite(attribute) == Rewrite(attribute);
    SeenWrite(d, "\"");
    ReadOne(Seen(d), '"');
  }

  lemma {:induction false} WriteAttributeAgrees(s: State, name: string, attribute: string, events: seq<Event>)
    requires Agrees(s, events) && s.tagIsOpen && IsName(name)
    ensures Agrees(s.WriteAttribute(name, attribute), events + EventsOf(s, WriteAttribute(name, attribute)))
  {
    if attribute != "" {
      AttributeNameSeen(s, name);
      AttributeValueSeen(s.Write(" ").Write(name).Write("=\""), name, attribute);
    } else {
      assert events + [] == events;
    }
  }

  lemma {:induction false} EncodedTextAgrees(s: State, text: string, events: seq<Event>)
    requires Agrees(s, events) && !s.tagIsOpen
    ensures Agrees(s.Write(Encode(text, ForTextNodes)).(needsNewline := true), events + Texts(Rewrite(text)))
  {
    SeenWrite(s, Encode(text, ForTextNodes));
    TextRoundTrip(Seen(s), text, 0);
    assert text[0..] == text;
  }

  lemma {:induction false} IndentAgrees(s: State, indented: bool, events: seq<Event>)
    requires Agrees(s, events) && !s.tagIsOpen
    ensures Agrees(if indented then s.Write(s.indent) else s, events + if indented then Texts(s.indent) else [])
  {
    if indented {
      PlainTextAgrees(s, s.indent, events);
    } else {
      assert events + [] == events;
    }
  }

  lemma {:induction false} WriteTextAgrees(s: State, text: string, indented: bool, events: seq<Event>)
    requires Agrees(s, events)
    ensures Agrees(s.WriteText(text, indented), events + EventsOf(s, WriteText(text, indented)))
  {
    if text != "" {
      var c, indents := s.TagClosed(), s.tagIsOpen && indented;
      var layout := if indents then Texts(s.indent) else [];
      TagClosedAgrees(s, events);
      IndentAgrees(c, indents, events + Closing(s));
      EncodedTextAgrees(if indents then c.Write(c.indent) else c, text, events + Closing(s) + layout);
      RegroupThree(events, Closing(s), layout, Texts(Rewrite(text)));
    } else {
      assert events + [] == events;
    }
  }

  lemma {:induction false} RegroupThree<T>(events: seq<T>, a: seq<T>, b: seq<T>, c: seq<T>)
    ensures events + a + b + c == events + (a + b + c)
  {}

  lemma {:induction false} WriteBlankLineAgrees(s: State, events: seq<Event>)
    requires Agrees(s, events)
    ensures Agrees(s.WriteBlankLine(), events + EventsOf(s, WriteBlankLine))
  {
    TagClosedAgrees(s, events);
    LineEndTexts();
    PlainTextAgrees(s.TagClosed(), "\n", events + Closing(s));
    Reassociate(events, Closing(s), LINE_END);
  }

  lemma {:induction false} DoAgrees(s: State, op: Op, events: seq<Event>)
    requires Agrees(s, events) && Allowed(s, op) && forall i :: 0 <= i < |s.tags| ==> IsName(s.tags[i])
    ensures Agrees(Do(s, op), events + EventsOf(s, op))
  {
    match op
    case StartElement(name) => StartElementAgrees(s, name, events);
    case EndElement => if s.tagIsOpen { EndOpenTagAgrees(s, events); } else { EndElementAgrees(s, events); }
    case WriteAttribute(name, attribute) => WriteAttributeAgrees(s, name, attribute, events);
    case WriteText(text, indented) => WriteTextAgrees(s, text, indented, events);
    case WriteBlankLine => WriteBlankLineAgrees(s, events);
  }

  // ----- what a sequence of calls means, by the calls alone -----

  function Init(ops: seq<Op>): seq<Op>
    requires ops != []
  {
    ops[..|ops| - 1]
  }

  function Last(ops: seq<Op>): Op
    requires ops != []
  {
    ops[|ops| - 1]
  }

  /** The names of the elements started and not ended, outermost first. */
  function OpenNames(ops: seq<Op>): seq<string>
  {
    if ops == [] then []
    else
      var names := OpenNames(Init(ops));
      match Last(ops)
      case StartElement(name) => names + [name]
      case EndElement => if names == [] then [] else names[..|names| - 1]
      case _ => names
  }

  /** Has nothing but attributes followed the last start? */
  predicate InStartTag(ops: seq<Op>)
  {
    ops != [] &&
    match Last(ops)
    case StartElement(_) => true
    case EndElement => false
    case WriteAttribute(_, _) => InStartTag(Init(ops))
    case WriteText(text, _) => text == "" && InStartTag(Init(ops))
    case WriteBlankLine => false
  }

  /** Has text been written since the last start or end? */
  predicate TextSinceTag(ops: seq<Op>)
  {
    ops != [] &&
    match Last(ops)
    case StartElement(_) => false
    case EndElement => false
    case WriteText(text, _) => text != "" || TextSinceTag(Init(ops))
    case _ => TextSinceTag(Init(ops))
  }

  /** Names are names, elements end after they started, and attributes belong to a start. */
  predicate Legal(ops: seq<Op>)
  {
    ops == [] ||
    (Legal(Init(ops)) &&
     match Last(ops)
     case StartElement(name) => IsName(name)
     case EndElement => OpenNames(Init(ops)) != []
     case WriteAttribute(name, _) => InStartTag(Init(ops)) && IsName(name)
     case _ => true)
  }

  function Spaces(n: nat): (r: string)
    ensures |r| == n && forall i :: 0 <= i < n ==> r[i] == ' '
  {
    seq(n, _ => ' ')
  }

  function Indent(ops: seq<Op>): string
  {
    Spaces(2 * |OpenNames(ops)|)
  }

  /** The characters that the last of the calls adds. */
  function TextOf(ops: seq<Op>, op: Op): string
    requires op.EndElement? ==> OpenNames(ops) != []
  {
    var closing, due := if InStartTag(ops) then ">\n" else "", if TextSinceTag(ops) then "\n" else "";
    match op
    case StartElement(name) => closing + due + Indent(ops) + "<" + name
    case EndElement =>
      var names := OpenNames(ops);
      if InStartTag(ops) then "/>\n"
      else due + Spaces(2 * (|names| - 1)) + "</" + names[|names| - 1] + ">\n"
    case WriteAttribute(name, attribute) =>
      if attribute == "" then "" else " " + name + "=\"" + Encode(attribute, ForAttributes) + "\""
    case WriteText(text, indented) =>
      if text == "" then ""
      else closing + (if InStartTag(ops) && indented then Indent(ops) else "") + Encode(text, ForTextNodes)
    case WriteBlankLine => closing + "\n"
  }

  /** The whole text. */
  function DocumentText(ops: seq<Op>): string
    requires Legal(ops)
  {
    if ops == [] then "<?" + "xml version=\"1.0\" encoding=\"UTF-8\"?" + ">\n"
    else DocumentText(Init(ops)) + TextOf(Init(ops), Last(ops))
  }

  /** What a reader should make of the last of the calls. */
  function CallEvents(ops: seq<Op>, op: Op): seq<Event>
    requires op.EndElement? ==> OpenNames(ops) != []
  {
    var end := [Text('\n')];
    var closing, due := if InStartTag(ops) then end else [], if TextSinceTag(ops) then end else [];
    match op
    case StartElement(name) => closing + due + Texts(Indent(ops)) + [Event.Open(name)]
    case EndElement =>
      var names := OpenNames(ops);
      if InStartTag(ops) then [Close(names[|names| - 1], true)] + end
      else due + Texts(Spaces(2 * (|names| - 1))) + [Close(names[|names| - 1], false)] + end
    case WriteAttribute(name, attribute) => if attribute == "" then [] else [Attribute(name, Rewrite(attribute))]
    case WriteText(text, indented) =>
      if text == "" then []
      else closing + (if InStartTag(ops) && indented then Texts(Indent(ops)) else []) + Texts(Rewrite(text))
    case WriteBlankLine => closing + end
  }

  function DocumentEvents(ops: seq<Op>): seq<Event>
    requires Legal(ops)
  {
    if ops == [] then [Text('\n')] else DocumentEvents(Init(ops)) + CallEvents(Init(ops), Last(ops))
  }

  // ----- the writer does what the calls mean -----

  /** The writer knows what is open, whether a tag is, and whether a line is due. */
  ghost predicate Knows(s: State, ops: seq<Op>)
  {
    && s.Valid() && s.tags == OpenNames(ops) && s.indent == Indent(ops)
    && s.tagIsOpen == InStartTag(ops) && s.needsNewline == TextSinceTag(ops)
    && forall i :: 0 <= i < |s.tags| ==> IsName(s.tags[i])
  }

  lemma {:induction false} KnowsNext(s: State, ops: seq<Op>, op: Op)
    requires Knows(s, ops) && Legal(ops + [op])
    ensures Allowed(s, op) && Knows(Do(s, op), ops + [op])
  {
    assert Init(ops + [op]) == ops && Last(ops + [op]) == op;
    DoValid(s, op);
    var n := Do(s, op);
    assert n.indent == Indent(ops + [op]);
  }

  lemma {:induction false} WritesBefore(s: State)
    requires s.Valid()
    ensures s.TagClosed().os == s.os + if s.tagIsOpen then ">\n" else ""
    ensures s.TagClosed().Newline().os == s.TagClosed().os + if s.needsNewline then "\n" else ""
    ensures s.Newline().os == s.os + if s.needsNewline then "\n" else ""
  {
    assert s.os + "" == s.os;
  }

  lemma {:induction false} WritesStart(s: State, name: string, closing: string, due: string)
    requires s.Valid() && closing == (if s.tagIsOpen then ">\n" else "") && due == if s.needsNewline then "\n" else ""
    ensures s.StartElement(name).os == s.os + (closing + due + s.indent + "<" + name)
  {
    WritesBefore(s);
    Regroup(s.os, closing, due, s.indent, "<");
    Reassociate(s.os, closing + due + s.indent + "<", name);
  }

  lemma {:induction false} WritesEnd(s: State, outer: string, name: string, due: string)
    requires s.Valid() && s.tags != [] && !s.tagIsOpen && due == if s.needsNewline then "\n" else ""
    requires outer == s.indent[..|s.indent| - 2] && name == s.tags[|s.tags| - 1]
    ensures s.EndElement().os == s.os + (due + outer + "</" + name + ">\n")
  {
    WritesBefore(s);
    Regroup(s.os, due, outer, "</", name);
    Reassociate(s.os, due + outer + "</" + name, ">\n");
  }

  lemma {:induction false} WritesAttribute(s: State, name: string, attribute: string, value: string)
    requires name != "" && attribute != "" && value == Encode(attribute, ForAttributes)
    ensures s.WriteAttribute(name, attribute).os == s.os + (" " + name + "=\"" + value + "\"")
  {
    Regroup(s.os, " ", name, "=\"", value);
    Reassociate(s.os, " " + name + "=\"" + value, "\"");
  }

  lemma {:induction false} WritesText(s: State, text: string, closing: string, indents: string, encoded: string, indented: bool)
    requires s.Valid() && text != "" && encoded == Encode(text, ForTextNodes)
    requires closing == if s.tagIsOpen then ">\n" else ""
    requires indents == if s.tagIsOpen && indented then s.indent else ""
    ensures s.WriteText(text, indented).os == s.os + (closing + indents + encoded)
  {
    WritesBefore(s);
    assert s.os + closing + "" == s.os + closing;
    RegroupThree(s.os, closing, indents, encoded);
  }

  lemma {:induction false} WritesTextOf(s: State, ops: seq<Op>, op: Op)
    requires Knows(s, ops) && Allowed(s, op)
    ensures Do(s, op).os == s.os + TextOf(ops, op)
  {
    var closing, due := if s.tagIsOpen then ">\n" else "", if s.needsNewline then "\n" else "";
    match op
    case StartElement(name) => WritesStart(s, name, closing, due);
    case EndElement =>
      var outer := Spaces(2 * (|s.tags| - 1));
      assert s.indent[..|s.indent| - 2] == outer;
      if !s.tagIsOpen {
        WritesEnd(s, outer, s.tags[|s.tags| - 1], due);
      }
    case WriteAttribute(name, attribute) =>
      if attribute != "" {
        WritesAttribute(s, name, attribute, Encode(attribute, ForAttributes));
      }
    case WriteText(text, indented) =>
      if text != "" {
        WritesText(s, text, closing, if s.tagIsOpen && indented then s.indent else "", Encode(text, ForTextNodes), indented);
      }
    case WriteBlankLine =>
      WritesBefore(s);
      Reassociate(s.os, closing, "\n");
  }

  lemma {:induction false} EventsOfCall(s: State, ops: seq<Op>, op: Op)
    requires Knows(s, ops) && Allowed(s, op)
    ensures EventsOf(s, op) == CallEvents(ops, op)
  {
    if op.EndElement? {
      assert s.indent[..|s.indent| - 2] == Spaces(2 * (|s.tags| - 1));
    }
  }

  /** The writer after some calls. */
  function Run(ops: seq<Op>): (s: State)
    requires Legal(ops)
    ensures Knows(s, ops)
  {
    if ops == [] then START
    else
      assert Init(ops) + [Last(ops)] == ops;
      KnowsNext(Run(Init(ops)), Init(ops), Last(ops));
      Do(Run(Init(ops)), Last(ops))
  }

  lemma {:induction false} WritesDeclaration()
    ensures START.os == DocumentText([])
  {}

  /** The text written is just that of the calls. */
  lemma {:induction false} WritesDocument(ops: seq<Op>)
    requires Legal(ops)
    ensures Run(ops).os == DocumentText(ops)
  {
    if ops == [] {
      WritesDeclaration();
    } else {
      WritesDocument(Init(ops));
      assert Init(ops) + [Last(ops)] == ops;
      KnowsNext(Run(Init(ops)), Init(ops), Last(ops));
      WritesTextOf(Run(Init(ops)), Init(ops), Last(ops));
    }
  }

  /** And a reader finds just what was called for, with the elements open that the writer has open. */
  lemma {:induction false} RunAgrees(ops: seq<Op>)
    requires Legal(ops)
    ensures Agrees(Run(ops), DocumentEvents(ops))
  {
    if ops == [] {
      StartAgrees();
    } else {
      RunAgrees(Init(ops));
      assert Init(ops) + [Last(ops)] == ops;
      KnowsNext(Run(Init(ops)), Init(ops), Last(ops));
      DoAgrees(Run(Init(ops)), Last(ops), DocumentEvents(Init(ops)));
      EventsOfCall(Run(Init(ops)), Init(ops), Last(ops));
    }
  }

  // ----- whole documents -----

  /** The calls with an end for every element that has none. */
  function WithEnds(ops: seq<Op>): (r: seq<Op>)
    requires Legal(ops)
    ensures Legal(r) && ops <= r && OpenNames(r) == []
    decreases |OpenNames(ops)|
  {
    if OpenNames(ops) == [] then ops
    else
      assert Init(ops + [EndElement]) == ops;
      WithEnds(ops + [EndElement])
  }

  /** The destructor makes the calls that are missing. */
  lemma {:induction false} FinishesWithEnds(ops: seq<Op>)
    requires Legal(ops)
    ensures Finished(Run(ops)) == Run(WithEnds(ops))
    decreases |OpenNames(ops)|
  {
    if OpenNames(ops) != [] {
      assert Init(ops + [EndElement]) == ops;
      EndElementValid(Run(ops));
      FinishesWithEnds(ops + [EndElement]);
    }
  }

  lemma {:induction false} ReadsDeclaration(r: Reader, body: string)
    requires r.mode == Content && '>' !in body
    ensures Read(r, "<?" + body + ">\n") == Emit(r, Text('\n'))
  {
    ReadConcat(r, "<?" + body, ">\n");
    ReadConcat(r, "<?", body);
    ReadTwo(r, "<?");
    ReadDeclaration(r.(mode := Declaration), body);
    ReadTwo(r.(mode := Declaration), ">\n");
  }

  lemma {:induction false} StartAgrees()
    ensures Agrees(START, LINE_END)
  {
    ReadsDeclaration(NEW_READER, PROLOG);
  }

  lemma {:induction false} ReadDeclaration(r: Reader, text: string)
    requires r.mode == Declaration && '>' !in text
    ensures Read(r, text) == r
    decreases |text|
  {
    if text != "" {
      ReadDeclaration(r, text[1..]);
    }
  }

  /** Round trip: the text of any document, finished by the destructor, is just that of the calls and the
      missing ends, and from it a reader gets back just the elements, attributes and characters that were
      called for, blanks and layout included, and every element closed. */
  lemma {:induction false} DocumentRoundTrip(ops: seq<Op>)
    requires Legal(ops)
    ensures
      var all, text := WithEnds(ops), Finished(Run(ops)).os;
      && text == DocumentText(all)
      && Read(NEW_READER, text) == Reader(Content, [], DocumentEvents(all))
      && Settled(Seen(Run(ops))).open == OpenNames(ops)
  {
    FinishesWithEnds(ops);
    RunAgrees(ops);
    RunAgrees(WithEnds(ops));
    WritesDocument(WithEnds(ops));
  }

  // ----- the end of a character-data section -----

  /** Does `text` hold `]]>`, ending at some `k`? */
  ghost predicate HoldsEnd(text: string)
  {
    exists k :: EndsAt(text, k)
  }

  predicate EndsAt(text: string, k: int)
  {
    2 <= k < |text| && text[k - 2] == ']' && text[k - 1] == ']' && text[k] == '>'
  }

  predicate TwoBrackets(text: string)
  {
    |text| >= 2 && text[|text| - 2] == ']' && text[|text| - 1] == ']'
  }

  lemma {:induction false} HoldsEndAppend(text: string, c: char)
    ensures HoldsEnd(text + [c]) <==> HoldsEnd(text) || (TwoBrackets(text) && c == '>')
  {
    if k :| EndsAt(text + [c], k) {
      assert k < |text| ==> EndsAt(text, k);
    }
    if k :| EndsAt(text, k) {
      assert EndsAt(text + [c], k);
    }
    if TwoBrackets(text) && c == '>' {
      assert EndsAt(text + [c], |text|);
    }
  }

  predicate Harmless(text: string)
  {
    text != "" && ']' !in text && '>' !in text
  }

  lemma {:induction false} HoldsEndHarmless(text: string, more: string)
    requires Harmless(more)
    ensures HoldsEnd(text + more) <==> HoldsEnd(text)
    ensures text + more != "" && (text + more)[|text + more| - 1] != ']'
    decreases |more|
  {
    var init, last := more[..|more| - 1], more[|more| - 1];
    assert text + more == (text + init) + [last];
    if init == "" {
      assert text + init == text;
    } else {
      HoldsEndHarmless(text, init);
    }
    HoldsEndAppend(text + init, last);
  }

  lemma {:induction false} EncodedCharHarmless(str: string, i: nat, what: ForWhat)
    requires i < |str|
    ensures var e := EncodeChar(str, i, what);
      Harmless(e) || (e == [str[i]] && (str[i] == ']' || (str[i] == '>' && !(i > 2 && TwoBrackets(str[..i])))))
  {}

  /** The brackets at the end of `done` are those before position `i`. */
  ghost predicate SameEnd(done: string, str: string, i: nat)
    requires i <= |str|
  {
    && (TwoBrackets(done) <==> TwoBrackets(str[..i]))
    && ((done != "" && done[|done| - 1] == ']') <==> (i > 0 && str[i - 1] == ']'))
  }

  lemma {:induction false} EncodeOne(done: string, str: string, i: nat, what: ForWhat) returns (next: string)
    requires i < |str| && SameEnd(done, str, i)
    ensures next == done + EncodeChar(str, i, what) && SameEnd(next, str, i + 1)
    ensures HoldsEnd(next) <==> HoldsEnd(done) || (i == 2 && TwoBrackets(str[..2]) && str[2] == '>')
  {
    var e := EncodeChar(str, i, what);
    next := done + e;
    EncodedCharHarmless(str, i, what);
    if Harmless(e) {
      HoldsEndHarmless(done, e);
    } else {
      HoldsEndAppend(done, str[i]);
    }
  }

  lemma {:induction false} EncodesEnd(done: string, str: string, i: nat, what: ForWhat)
    requires i <= |str| && SameEnd(done, str, i)
    ensures HoldsEnd(done + EncodeFrom(str, i, what)) <==> HoldsEnd(done) || (i <= 2 && EndsAt(str, 2))
    decreases |str| - i
  {
    if i < |str| {
      var next := EncodeOne(done, str, i, what);
      EncodesEnd(next, str, i + 1, what);
      Reassociate(done, EncodeChar(str, i, what), EncodeFrom(str, i + 1, what));
    } else {
      assert done + EncodeFrom(str, i, what) == done;
    }
  }

  /** The encoder lets `]]>` through in just one place: at the very start. */
  lemma {:induction false} EndSurvivesExactly(str: string, what: ForWhat)
    ensures HoldsEnd(Encode(str, what)) <==> EndsAt(str, 2)
  {
    EncodesEnd("", str, 0, what);
    assert "" + Encode(str, what) == Encode(str, what);
  }
}
