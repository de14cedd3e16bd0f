/**
 * The SVG objects of transport-catalogue/svg.cpp whose state the program
 * builds up: circles, polylines and texts set up field by field, and the
 * document that owns them. A text's data is stored escaped with the five
 * predefined entities of section 4.6 of XML 1.0; the escaping is specified
 * here by `Escape`, with `Unescape` as its inverse.
 *
 * Rendering (Render, RenderObject, the PathProps attributes of svg.h) is
 * formatted text output and is not part of this model.
 */
module Svg {
  import opened Wrappers

  /** svg::Point, (0, 0) by default. */
  datatype Point = Point(x: real, y: real)

  const Origin := Point(0.0, 0.0)

  /** uint32_t. */
  type Uint32 = n: int | 0 <= n < 0x1_0000_0000

  // ---------------------------------------------------------------------
  // Escaping text data

  /** kTegs: the entity that replaces each of the five XML special characters. */
  const Entities: map<char, string> :=
    map['"' := "&quot;", '\'' := "&apos;", '<' := "&lt;", '>' := "&gt;", '&' := "&amp;"]

  /** A character that must not appear raw inside an attribute or text: both quotes and both angle brackets. */
  predicate IsMarkup(c: char) {
    c == '"' || c == '\'' || c == '<' || c == '>'
  }

  /** The text of one character in the escaped data: its entity, or the character itself. */
  function EscapeChar(c: char): (r: string)
    ensures c in Entities ==> |r| > 1 && r[0] == '&' && r[|r| - 1] == ';'
    ensures c !in Entities ==> r == [c]
    ensures forall k :: 0 <= k < |r| ==> !IsMarkup(r[k])
  {
    if c in Entities then Entities[c] else [c]
  }

  /** The escaped data: each character's text in turn. */
  function Escape(data: string): string
    decreases |data|
  {
    if data == [] then [] else EscapeChar(data[0]) + Escape(data[1..])
  }

  /** Escaping one more character at the end adds that character's text at the end. */
  lemma {:induction false} EscapeSnoc(data: string, c: char)
    ensures Escape(data + [c]) == Escape(data) + EscapeChar(c)
    decreases |data|
  {
    if data == [] {
      assert Escape([c]) == EscapeChar(c) + Escape([]);
    } else {
      assert (data + [c])[0] == data[0] && (data + [c])[1..] == data[1..] + [c];
      EscapeSnoc(data[1..], c);
      assert Escape(data + [c]) == EscapeChar(data[0]) + (Escape(data[1..]) + EscapeChar(c));
    }
  }

  /** The escaped data never holds a raw quote, apostrophe or angle bracket. */
  lemma {:induction false} EscapeHasNoMarkup(data: string)
    ensures forall k :: 0 <= k < |Escape(data)| ==> !IsMarkup(Escape(data)[k])
    decreases |data|
  {
    if data != [] {
      EscapeHasNoMarkup(data[1..]);
      var head := EscapeChar(data[0]);
      var tail := Escape(data[1..]);
      forall k | 0 <= k < |head + tail|
        ensures !IsMarkup((head + tail)[k])
      {
        if k >= |head| {
          assert (head + tail)[k] == tail[k - |head|];
        }
      }
    }
  }

  /** Data without any of the five special characters is stored as it is. */
  lemma {:induction false} EscapeKeepsPlainText(data: string)
    requires forall k :: 0 <= k < |data| ==> data[k] !in Entities
    ensures Escape(data) == data
    decreases |data|
  {
    if data != [] {
      EscapeKeepsPlainText(data[1..]);
      assert data == [data[0]] + data[1..];
    }
  }

  /** The character whose entity starts the text, with the entity's length. */
  function EntityAt(s: string): (r: (char, nat))
    requires s != [] && s[0] == '&'
    ensures 1 <= r.1 <= |s|
  {
    if "&quot;" <= s then ('"', 6)
    else if "&apos;" <= s then ('\'', 6)
    else if "&lt;" <= s then ('<', 4)
    else if "&gt;" <= s then ('>', 4)
    else if "&amp;" <= s then ('&', 5)
    else ('&', 1)
  }

  /** Replacing each entity back by its character; any other text is copied. */
  function Unescape(s: string): string
    decreases |s|
  {
    if s == [] then []
    else if s[0] != '&' then [s[0]] + Unescape(s[1..])
    else
      var e := EntityAt(s);
      [e.0] + Unescape(s[e.1..])
  }

  /** Unescaping a character's text followed by more text gives the character back first. */
  lemma UnescapeStep(c: char, rest: string)
    ensures Unescape(EscapeChar(c) + rest) == [c] + Unescape(rest)
  {
    var s := EscapeChar(c) + rest;
    if c in Entities {
      var entity := EscapeChar(c);
      assert s[..|entity|] == entity;
      assert s[1] == entity[1] && s[2] == entity[2];
      assert EntityAt(s) == (c, |entity|);
      assert s[|entity|..] == rest;
    } else {
      assert s[0] == c && s[1..] == rest;
    }
  }

  /** Replacing each entity back recovers the data exactly. */
  lemma {:induction false} UnescapeEscape(data: string)
    ensures Unescape(Escape(data)) == data
    decreases |data|
  {
    if data != [] {
      UnescapeStep(data[0], Escape(data[1..]));
      UnescapeEscape(data[1..]);
      assert data == [data[0]] + data[1..];
    }
  }

  // ---------------------------------------------------------------------
  // Objects

  class Circle {
    var center: Point
    var radius: real

    constructor ()
      ensures center == Origin && radius == 1.0
    {
      center := Origin;
      radius := 1.0;
    }

    method SetCenter(c: Point) returns (self: Circle)
      modifies this
      ensures center == c && radius == old(radius)
      ensures self == this
    {
      center := c;
      return this;
    }

    method SetRadius(r: real) returns (self: Circle)
      modifies this
      ensures radius == r && center == old(center)
      ensures self == this
    {
      radius := r;
      return this;
    }
  }

  class Polyline {
    var points: seq<Point>

    constructor ()
      ensures points == []
    {
      points := [];
    }

    /** The point goes at the end; the earlier points stay as they were. */
    method AddPoint(p: Point) returns (self: Polyline)
      modifies this
      ensures points == old(points) + [p]
      ensures self == this
    {
      points := points + [p];
      return this;
    }
  }

  class Text {
    var pos: Point
    var offset: Point
    var fontSize: Uint32
    var fontWeight: Option<string>
    var fontFamily: Option<string>
    /** The text as stored: already escaped. */
    var data: string

    constructor ()
      ensures pos == Origin && offset == Origin && fontSize == 1
      ensures fontWeight == None && fontFamily == None && data == []
    {
      pos := Origin;
      offset := Origin;
      fontSize := 1;
      fontWeight := None;
      fontFamily := None;
      data := [];
    }

    method SetPosition(p: Point) returns (self: Text)
      modifies this
      ensures pos == p
      ensures offset == old(offset) && fontSize == old(fontSize) && fontWeight == old(fontWeight)
      ensures fontFamily == old(fontFamily) && data == old(data)
      ensures self == this
    {
      pos := p;
      return this;
    }

    method SetOffset(p: Point) returns (self: Text)
      modifies this
      ensures offset == p
      ensures pos == old(pos) && fontSize == old(fontSize) && fontWeight == old(fontWeight)
      ensures fontFamily == old(fontFamily) && data == old(data)
      ensures self == this
    {
      offset := p;
      return this;
    }

    method SetFontSize(size: Uint32) returns (self: Text)
      modifies this
      ensures fontSize == size
      ensures pos == old(pos) && offset == old(offset) && fontWeight == old(fontWeight)
      ensures fontFamily == old(fontFamily) && data == old(data)
      ensures self == this
    {
      fontSize := size;
      return this;
    }

    method SetFontFamily(family: string) returns (self: Text)
      modifies this
      ensures fontFamily == Some(family)
      ensures pos == old(pos) && offset == old(offset) && fontSize == old(fontSize)
      ensures fontWeight == old(fontWeight) && data == old(data)
      ensures self == this
    {
      fontFamily := Some(family);
      return this;
    }

    method SetFontWeight(weight: string) returns (self: Text)
      modifies this
      ensures fontWeight == Some(weight)
      ensures pos == old(pos) && offset == old(offset) && fontSize == old(fontSize)
      ensures fontFamily == old(fontFamily) && data == old(data)
      ensures self == this
    {
      fontWeight := Some(weight);
      return this;
    }

    /** The data is escaped character by character into a new string, which then replaces the old data. */
    method SetData(text: string) returns (self: Text)
      modifies this
      ensures data == Escape(text)
      ensures pos == old(pos) && offset == old(offset) && fontSize == old(fontSize)
      ensures fontWeight == old(fontWeight) && fontFamily == old(fontFamily)
      ensures self == this
    {
      var result: string := [];
      for i := 0 to |text|
        invariant result == Escape(text[..i])
        invariant unchanged(this)
      {
        var c := text[i];
        EscapeSnoc(text[..i], c);
        assert text[..i + 1] == text[..i] + [c];
        if c !in Entities {
          result := result + [c];
        } else {
          result := result + Entities[c];
        }
      }
      assert text[..|text|] == text;
      data := result;
      return this;
    }
  }

  /** What a Document's unique_ptr<Object> points to. */
  datatype Object =
    | CircleObject(circle: Circle)
    | PolylineObject(polyline: Polyline)
    | TextObject(text: Text)

  class Document {
    var objects: seq<Object>

    constructor ()
      ensures objects == []
    {
      objects := [];
    }

    /** The object goes at the end; the earlier objects stay as they were, in order. */
    method AddPtr(obj: Object)
      modifies this
      ensures objects == old(objects) + [obj]
      ensures |objects| == |old(objects)| + 1 && objects[..|old(objects)|] == old(objects)
    {
      objects := objects + [obj];
    }
  }
}
