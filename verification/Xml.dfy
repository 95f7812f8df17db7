/** Writing XML, with a reader that gets the elements, attributes and text back from the characters. */
module Xml {
  import opened Common

  // ----- encoding -----

  datatype ForWhat = ForTextNodes | ForAttributes

  predicate Control(c: char)
  {
    c < 9 as char || (13 as char < c < 32 as char) || c == 127 as char
  }

  function HexDigit(d: nat): char
    requires d < 16
  {
    "0123456789ABCDEF"[d]
  }

  function HexEscape(c: char): string
    requires Control(c)
  {
    ['\\', 'x', HexDigit(c as int / 16), HexDigit(c as int % 16)]
  }

  function EncodeChar(str: string, i: nat, what: ForWhat): string
    requires i < |str|
  {
    var c := str[i];
    if c == '<' then "&lt;"
    else if c == '&' then "&amp;"
    else if c == '>' then (if i > 2 && str[i-1] == ']' && str[i-2] == ']' then "&gt;" else [c])
    else if c == '"' then (if what == ForAttributes then "&quot;" else [c])
    else if Control(c) then HexEscape(c)
    else [c]
  }

  function EncodeFrom(str: string, i: nat, what: ForWhat): string
    requires i <= |str|
    decreases |str| - i
  {
    if i == |str| then "" else EncodeChar(str, i, what) + EncodeFrom(str, i + 1, what)
  }

  function Encode(str: string, what: ForWhat): string
  {
    EncodeFrom(str, 0, what)
  }

  method EncodeTo(str: string, what: ForWhat) returns (os: string)
    ensures os == Encode(str, what)
  {
    os := "";
    var i := 0;
    while i < |str|
      invariant 0 <= i <= |str|
      invariant os + EncodeFrom(str, i, what) == Encode(str, what)
    {
      var c := str[i];
      ghost var before := os;
      match c {
      case '<' => os := os + "&lt;";
      case '&' => os := os + "&amp;";
      case '>' =>
        if i > 2 && str[i-1] == ']' && str[i-2] == ']' {
          os := os + "&gt;";
        } else {
          os := os + [c];
        }
      case '"' =>
        if what == ForAttributes {
          os := os + "&quot;";
        } else {
          os := os + [c];
        }
      case _ =>
        if Control(c) {
          os := os + "\\x" + [HexDigit(c as int / 16), HexDigit(c as int % 16)];
          assert os == before + HexEscape(c);
        } else {
          os := os + [c];
        }
      }
      assert os == before + EncodeChar(str, i, what);
      Reassociate(before, EncodeChar(str, i, what), EncodeFrom(str, i + 1, what));
      i := i + 1;
    }
  }

  // ----- the writer -----

  const PROLOG := "xml version=\"1.0\" encoding=\"UTF-8\"?"
  const DECLARATION := "<?" + PROLOG + ">\n"

  datatype State = State(tagIsOpen: bool, needsNewline: bool, tags: seq<string>, indent: string, os: string)
  {
    ghost predicate Valid()
    {
      && |indent| == 2 * |tags| && (forall k :: 0 <= k < |indent| ==> indent[k] == ' ')
      && (tagIsOpen ==> tags != [] && !needsNewline)
    }

    function Write(text: string): State
    {
      this.(os := os + text)
    }

    function TagClosed(): State
    {
      if tagIsOpen then Write(">\n").(tagIsOpen := false) else this
    }

    function Newline(): State
    {
      if needsNewline then Write("\n").(needsNewline := false) else this
    }

    function StartElement(name: string): State
    {
      var s := TagClosed().Newline();
      s.Write(s.indent).Write("<").Write(name).(tags := s.tags + [name], indent := s.indent + "  ", tagIsOpen := true)
    }

    function EndElement(): State
      requires tags != [] && |indent| >= 2
    {
      var s := Newline();
      var outer := s.indent[..|s.indent| - 2];
      (if s.tagIsOpen then s.Write("/>\n")
       else s.Write(outer).Write("</").Write(s.tags[|s.tags| - 1]).Write(">\n"))
      .(tags := s.tags[..|s.tags| - 1], indent := outer, tagIsOpen := false)
    }

    function WriteAttribute(name: string, attribute: string): State
    {
      if name == "" || attribute == "" then this
      else Write(" ").Write(name).Write("=\"").Write(Encode(attribute, ForAttributes)).Write("\"")
    }

    function WriteText(text: string, indented: bool): State
    {
      if text == "" then this
      else
        var s := TagClosed();
        (if tagIsOpen && indented then s.Write(s.indent) else s)
        .Write(Encode(text, ForTextNodes)).(needsNewline := true)
    }

    function WriteBlankLine(): State
    {
      TagClosed().Write("\n")
    }
  }

  const START: State := State(false, false, [], "", DECLARATION)

  class XmlWriter {
    var tagIsOpen: bool
    var needsNewline: bool
    var tags: seq<string>
    var indent: string
    var os: string

    constructor ()
      ensures St() == START
    {
      tagIsOpen, needsNewline, tags, indent, os := false, false, [], "", DECLARATION;
    }

    function St(): State
      reads this
    {
      State(tagIsOpen, needsNewline, tags, indent, os)
    }

    method EnsureTagClosed()
      modifies this`os, this`tagIsOpen
      ensures St() == old(St()).TagClosed()
    {
      if tagIsOpen {
        os := os + ">\n";
        tagIsOpen := false;
      }
    }

    method NewlineIfNecessary()
      modifies this`os, this`needsNewline
      ensures St() == old(St()).Newline()
    {
      if needsNewline {
        os := os + "\n";
        needsNewline := false;
      }
    }

    method StartElement(name: string)
      modifies this
      ensures St() == old(St()).StartElement(name)
    {
      EnsureTagClosed();
      NewlineIfNecessary();
      os := os + indent + "<" + name;
      tags := tags + [name];
      indent := indent + "  ";
      tagIsOpen := true;
    }

    method EndElement()
      requires tags != [] && |indent| >= 2
      modifies this
      ensures St() == old(St()).EndElement()
    {
      NewlineIfNecessary();
      indent := indent[..|indent| - 2];
      if tagIsOpen {
        os := os + "/>\n";
        tagIsOpen := false;
      } else {
        os := os + indent + "</" + tags[|tags| - 1] + ">\n";
      }
      tags := tags[..|tags| - 1];
    }

    method WriteAttribute(name: string, attribute: string)
      modifies this`os
      ensures St() == old(St()).WriteAttribute(name, attribute)
    {
      if name != "" && attribute != "" {
        var encoded := EncodeTo(attribute, ForAttributes);
        os := os + " " + name + "=\"" + encoded + "\"";
      }
    }

    method WriteText(text: string, indented: bool)
      modifies this
      ensures St() == old(St()).WriteText(text, indented)
    {
      if text != "" {
        var tagWasOpen := tagIsOpen;
        EnsureTagClosed();
        if tagWasOpen && indented {
          os := os + indent;
        }
        var encoded := EncodeTo(text, ForTextNodes);
        os := os + encoded;
        needsNewline := true;
      }
    }

    method WriteBlankLine()
      modifies this
      ensures St() == old(St()).WriteBlankLine()
    {
      EnsureTagClosed();
      os := os + "\n";
    }

    /** The destructor: closes what is still open. */
    method Finish()
      requires St().Valid()
      modifies this
      ensures St() == Finished(old(St()))
    {
      while tags != []
        invariant St().Valid() && Finished(St()) == Finished(old(St()))
        decreases |tags|
      {
        EndElementValid(St());
        EndElement();
      }
    }
  }

  lemma {:induction false} EndElementValid(s: State)
    requires s.Valid() && s.tags != []
    ensures s.EndElement().Valid() && |s.EndElement().tags| == |s.tags| - 1
  {}

  function Finished(s: State): State
    requires s.Valid()
    decreases |s.tags|
  {
    if s.tags == [] then s
    else
      EndElementValid(s);
      Finished(s.EndElement())
  }
}
