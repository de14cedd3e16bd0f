/**
 * The SVG objects of src/svg.cpp. Their setters, Polyline::AddPoint,
 * Text::SetData and Document::AddPtr are the code of
 * transport-catalogue/svg.cpp again (kTegs holds string_view entities here,
 * std::string ones there, with the same text), so the points, the size type
 * and the escaping they are specified by are those of module Svg.
 *
 * Rendering, which here formats doubles with "{:.6g}", is not part of this
 * model.
 */
module SrcSvg {
  import opened Wrappers
  import Svg

  class Circle {
    var center: Svg.Point
    var radius: real

    constructor ()
      ensures center == Svg.Origin && radius == 1.0
    {
      center := Svg.Origin;
      radius := 1.0;
    }

    method SetCenter(c: Svg.Point) returns (self: Circle)
      modifies this
      ensures center == c && radius == old(radius)
      ensures self == this
    {
      center := c;
      return this;
    }

    method SetRadius(r: real) returns (self: Circle)
      modifies this
      ensures radius == r && center == old(center)
      ensures self == this
    {
      radius := r;
      return this;
    }
  }

  class Polyline {
    var points: seq<Svg.Point>

    constructor ()
      ensures points == []
    {
      points := [];
    }

    /** The point goes at the end; the earlier points stay as they were. */
    method AddPoint(p: Svg.Point) returns (self: Polyline)
      modifies this
      ensures points == old(points) + [p]
      ensures self == this
    {
      points := points + [p];
      return this;
    }
  }

  class Text {
    var pos: Svg.Point
    var offset: Svg.Point
    var fontSize: Svg.Uint32
    var fontWeight: Option<string>
    var fontFamily: Option<string>
    /** The text as stored: already escaped. */
    var data: string

    constructor ()
      ensures pos == Svg.Origin && offset == Svg.Origin && fontSize == 1
      ensures fontWeight == None && fontFamily == None && data == []
    {
      pos := Svg.Origin;
      offset := Svg.Origin;
      fontSize := 1;
      fontWeight := None;
      fontFamily := None;
      data := [];
    }

    method SetPosition(p: Svg.Point) returns (self: Text)
      modifies this
      ensures pos == p
      ensures offset == old(offset) && fontSize == old(fontSize) && fontWeight == old(fontWeight)
      ensures fontFamily == old(fontFamily) && data == old(data)
      ensures self == this
    {
      pos := p;
      return this;
    }

    method SetOffset(p: Svg.Point) returns (self: Text)
      modifies this
      ensures offset == p
      ensures pos == old(pos) && fontSize == old(fontSize) && fontWeight == old(fontWeight)
      ensures fontFamily == old(fontFamily) && data == old(data)
      ensures self == this
    {
      offset := p;
      return this;
    }

    method SetFontSize(size: Svg.Uint32) returns (self: Text)
      modifies this
      ensures fontSize == size
      ensures pos == old(pos) && offset == old(offset) && fontWeight == old(fontWeight)
      ensures fontFamily == old(fontFamily) && data == old(data)
      ensures self == this
    {
      fontSize := size;
      return this;
    }

    method SetFontFamily(family: string) returns (self: Text)
      modifies this
      ensures fontFamily == Some(family)
      ensures pos == old(pos) && offset == old(offset) && fontSize == old(fontSize)
      ensures fontWeight == old(fontWeight) && data == old(data)
      ensures self == this
    {
      fontFamily := Some(family);
      return this;
    }

    method SetFontWeight(weight: string) returns (self: Text)
      modifies this
      ensures fontWeight == Some(weight)
      ensures pos == old(pos) && offset == old(offset) && fontSize == old(fontSize)
      ensures fontFamily == old(fontFamily) && data == old(data)
      ensures self == this
    {
      fontWeight := Some(weight);
      return this;
    }

    /** The data is escaped character by character into a new string, which then replaces the old data. */
    method SetData(text: string) returns (self: Text)
      modifies this
      ensures data == Svg.Escape(text)
      ensures pos == old(pos) && offset == old(offset) && fontSize == old(fontSize)
      ensures fontWeight == old(fontWeight) && fontFamily == old(fontFamily)
      ensures self == this
    {
      var result: string := [];
      for i := 0 to |text|
        invariant result == Svg.Escape(text[..i])
        invariant unchanged(this)
      {
        var c := text[i];
        Svg.EscapeSnoc(text[..i], c);
        assert text[..i + 1] == text[..i] + [c];
        if c !in Svg.Entities {
          result := result + [c];
        } else {
          result := result + Svg.Entities[c];
        }
      }
      assert text[..|text|] == text;
      data := result;
      return this;
    }
  }

  /** What a Document's unique_ptr<Object> points to. */
  datatype Object =
    | CircleObject(circle: Circle)
    | PolylineObject(polyline: Polyline)
    | TextObject(text: Text)

  class Document {
    var objects: seq<Object>

    constructor ()
      ensures objects == []
    {
      objects := [];
    }

    /** The object goes at the end; the earlier objects stay as they were, in order. */
    method AddPtr(obj: Object)
      modifies this
      ensures objects == old(objects) + [obj]
      ensures |objects| == |old(objects)| + 1 && objects[..|old(objects)|] == old(objects)
    {
      objects := objects + [obj];
    }
  }
}
