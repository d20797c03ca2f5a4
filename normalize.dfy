/**
 * Mapping an icon drawn in its own viewBox onto the 24 by 24 canvas of the
 * sprite (`normalize_element_to_24x24`).  The mapping is the viewBox to
 * user-space transformation of section 7.7 of SVG 1.1, written out as a
 * `transform` list (section 7.6) of a translation and a scaling, each left
 * out when it is the identity.
 */
module Normalize {
  import opened Wrappers
  import opened Text
  import opened Svg
  import opened ViewBoxes

  /** The size of the sprite's canvas. */
  const Side: real := 24.0

  /** `(vx, vy, vw, vh) == (0, 0, 24, 24)`: the viewBox needs no mapping. */
  predicate IsUnitBox(vb: ViewBox) {
    vb.X() == 0.0 && vb.Y() == 0.0 && vb.W() == Side && vb.H() == Side
  }

  /** The affine map `p |-> (sx * p.x + tx, sy * p.y + ty)`. */
  datatype Frame = Frame(sx: real, sy: real, tx: real, ty: real)

  /**
   * `scale = 24 / size`, `translate = -origin * scale`: the frame that sends
   * the viewBox's origin to (0, 0) and its size to 24 by 24.
   */
  function Mapping(vb: ViewBox): (m: Frame)
    requires vb.W() != 0.0 && vb.H() != 0.0
    ensures m.sx * vb.W() == Side && m.sy * vb.H() == Side
    ensures m.tx + m.sx * vb.X() == 0.0 && m.ty + m.sy * vb.Y() == 0.0
  {
    var sx := Side / vb.W();
    var sy := Side / vb.H();
    Frame(sx, sy, -vb.X() * sx, -vb.Y() * sy)
  }

  /** Those four equations pin the frame down: no other frame satisfies them. */
  lemma MappingIsUnique(vb: ViewBox, m: Frame)
    requires vb.W() != 0.0 && vb.H() != 0.0
    requires m.sx * vb.W() == Side && m.sy * vb.H() == Side
    requires m.tx + m.sx * vb.X() == 0.0 && m.ty + m.sy * vb.Y() == 0.0
    ensures m == Mapping(vb)
  {
    var n := Mapping(vb);
    assert (m.sx - n.sx) * vb.W() == 0.0;
    assert (m.sy - n.sy) * vb.H() == 0.0;
  }

  /** One entry of an SVG transform list. */
  datatype Component = Translate(tx: real, ty: real) | Scale(sx: real, sy: real)

  /** The components the generator writes: a translation only if it moves, a scaling only if it resizes. */
  function Components(m: Frame): (cs: seq<Component>)
    ensures |cs| == (if m.tx != 0.0 || m.ty != 0.0 then 1 else 0) + (if m.sx != 1.0 || m.sy != 1.0 then 1 else 0)
    ensures forall c | c in cs :: c == Translate(m.tx, m.ty) || c == Scale(m.sx, m.sy)
    ensures (m.tx != 0.0 || m.ty != 0.0) <==> (cs != [] && cs[0] == Translate(m.tx, m.ty))
    ensures (m.sx != 1.0 || m.sy != 1.0) <==> (cs != [] && cs[|cs| - 1] == Scale(m.sx, m.sy))
    ensures cs == [] <==> m == Frame(1.0, 1.0, 0.0, 0.0)
  {
    (if m.tx != 0.0 || m.ty != 0.0 then [Translate(m.tx, m.ty)] else [])
    + (if m.sx != 1.0 || m.sy != 1.0 then [Scale(m.sx, m.sy)] else [])
  }

  /** A point of the plane. */
  datatype Point = Point(x: real, y: real)

  function ApplyOne(c: Component, p: Point): Point {
    match c
    case Translate(tx, ty) => Point(p.x + tx, p.y + ty)
    case Scale(sx, sy) => Point(sx * p.x, sy * p.y)
  }

  /** A transform list maps a point through its last entry first (section 7.6 of SVG 1.1). */
  function Apply(cs: seq<Component>, p: Point): Point {
    if cs == [] then p else ApplyOne(cs[0], Apply(cs[1..], p))
  }

  lemma ScaleAt(sx: real, sy: real, p: Point)
    ensures ApplyOne(Scale(sx, sy), p) == Point(sx * p.x, sy * p.y)
  {
  }

  lemma TranslateAt(tx: real, ty: real, p: Point)
    ensures ApplyOne(Translate(tx, ty), p) == Point(p.x + tx, p.y + ty)
  {
  }

  lemma ApplyOneOrTwo(a: Component, b: Component, p: Point)
    ensures Apply([b], p) == ApplyOne(b, p)
    ensures Apply([a, b], p) == ApplyOne(a, ApplyOne(b, p))
  {
    assert [b][1..] == [];
    assert [a, b][1..] == [b];
  }

  /** Leaving out the identity components does not change the map. */
  lemma ComponentsApply(m: Frame, p: Point)
    ensures Apply(Components(m), p) == Point(m.sx * p.x + m.tx, m.sy * p.y + m.ty)
  {
    var t, s := Translate(m.tx, m.ty), Scale(m.sx, m.sy);
    var sp := Point(m.sx * p.x, m.sy * p.y);
    ApplyOneOrTwo(t, s, p);
    ApplyOneOrTwo(s, t, p);
    ScaleAt(m.sx, m.sy, p);
    TranslateAt(m.tx, m.ty, sp);
    TranslateAt(m.tx, m.ty, p);
    if m.tx != 0.0 || m.ty != 0.0 {
      if m.sx != 1.0 || m.sy != 1.0 {
        assert Components(m) == [t, s];
      } else {
        assert Components(m) == [t] && sp == p;
      }
    } else if m.sx != 1.0 || m.sy != 1.0 {
      assert Components(m) == [s];
    } else {
      assert Components(m) == [] && sp == p;
    }
  }

  /** The transform sends the viewBox's corners to the corners of the 24 by 24 canvas. */
  lemma MapsViewBoxOntoCanvas(vb: ViewBox)
    requires vb.W() != 0.0 && vb.H() != 0.0
    ensures Apply(Components(Mapping(vb)), Point(vb.X(), vb.Y())) == Point(0.0, 0.0)
    ensures Apply(Components(Mapping(vb)), Point(vb.X() + vb.W(), vb.Y() + vb.H())) == Point(Side, Side)
  {
    FrameMapsCorners(Mapping(vb), vb.X(), vb.Y(), vb.W(), vb.H());
  }

  lemma FrameMapsCorners(m: Frame, x: real, y: real, w: real, h: real)
    requires m.sx * w == Side && m.sy * h == Side
    requires m.tx + m.sx * x == 0.0 && m.ty + m.sy * y == 0.0
    ensures Apply(Components(m), Point(x, y)) == Point(0.0, 0.0)
    ensures Apply(Components(m), Point(x + w, y + h)) == Point(Side, Side)
  {
    ComponentsApply(m, Point(x, y));
    ComponentsApply(m, Point(x + w, y + h));
    assert m.sx * (x + w) + m.tx == m.sx * w + (m.tx + m.sx * x);
    assert m.sy * (y + h) + m.ty == m.sy * h + (m.ty + m.sy * y);
  }

  /** The general mapping adds nothing exactly for the unit viewBox, so the fast path agrees with it. */
  lemma NoComponentsIffUnitBox(vb: ViewBox)
    requires vb.W() != 0.0 && vb.H() != 0.0
    ensures Components(Mapping(vb)) == [] <==> IsUnitBox(vb)
  {
    var m := Mapping(vb);
    if m == Frame(1.0, 1.0, 0.0, 0.0) {
      assert vb.W() == Side && vb.H() == Side;
      assert vb.X() == 0.0 && vb.Y() == 0.0;
    }
  }

  /** `f'translate({tx},{ty})'` and `f'scale({sx},{sy})'`. */
  function ComponentText(c: Component, repr: FloatText): string {
    match c
    case Translate(tx, ty) => "translate(" + repr(tx) + "," + repr(ty) + ")"
    case Scale(sx, sy) => "scale(" + repr(sx) + "," + repr(sy) + ")"
  }

  function ComponentTexts(cs: seq<Component>, repr: FloatText): (ts: seq<string>)
    ensures |ts| == |cs|
    ensures forall k :: 0 <= k < |cs| ==> ts[k] == ComponentText(cs[k], repr)
  {
    if cs == [] then [] else [ComponentText(cs[0], repr)] + ComponentTexts(cs[1..], repr)
  }

  /** The new `transform` value: the existing list, if any, then the new components. */
  function Combined(existing: string, added: string): (t: string)
    ensures existing == [] ==> t == added
    ensures existing != [] ==> StartsWith(t, existing) && t[|existing|..] == " " + added
  {
    if existing == [] then added else existing + " " + added
  }

  /** The attribute map the generator leaves on a shape that it normalises. */
  function NormalizedAttrs(e: Element, vb: ViewBox, repr: FloatText): (attrs: map<string, string>)
    requires IsUnitBox(vb) || (vb.W() != 0.0 && vb.H() != 0.0)
    ensures "fill" in attrs && attrs["fill"] == "currentColor"
    ensures forall k :: k in e.attrs && k != "fill" && k != "transform" ==> k in attrs && attrs[k] == e.attrs[k]
    ensures forall k :: k in attrs ==> k in e.attrs || k == "fill" || k == "transform"
  {
    var moved :=
      if IsUnitBox(vb) then e.attrs
      else
        var cs := Components(Mapping(vb));
        if cs == [] then e.attrs
        else e.attrs["transform" := Combined(Attr(e, "transform", ""), JoinWith(ComponentTexts(cs, repr), " "))];
    moved["fill" := "currentColor"]
  }

  /**
   * `normalize_element_to_24x24`: the shape with its new attributes, or the
   * ZeroDivisionError of `24 / vw` or `24 / vh` for a viewBox of zero size.
   */
  function Normalized(e: Element, vb: ViewBox, repr: FloatText): (r: Result<Element, Fault>)
    ensures r.Failure? <==> !IsUnitBox(vb) && (vb.W() == 0.0 || vb.H() == 0.0)
    ensures r.Failure? ==> r.error == ZeroSizeViewBox
    ensures r.Success? ==> r.value.tag == e.tag && r.value.children == e.children
  {
    if !IsUnitBox(vb) && (vb.W() == 0.0 || vb.H() == 0.0) then Failure(ZeroSizeViewBox)
    else Success(e.(attrs := NormalizedAttrs(e, vb, repr)))
  }

  /**
   * The steps of `normalize_element_to_24x24`, one `element.set` at a time,
   * on the shape's attribute map.
   */
  method NormalizeElement(e: Element, vb: ViewBox, repr: FloatText) returns (r: Result<Element, Fault>)
    ensures r == Normalized(e, vb, repr)
  {
    var attrs := e.attrs;
    if IsUnitBox(vb) {
      attrs := attrs["fill" := "currentColor"];
      return Success(e.(attrs := attrs));
    }
    if vb.W() == 0.0 || vb.H() == 0.0 {
      return Failure(ZeroSizeViewBox);
    }
    var scaleX := Side / vb.W();
    var scaleY := Side / vb.H();
    var translateX := -vb.X() * scaleX;
    var translateY := -vb.Y() * scaleY;
    ghost var m := Mapping(vb);
    assert m == Frame(scaleX, scaleY, translateX, translateY);
    var transforms: seq<string> := [];
    ghost var cs: seq<Component> := [];
    if translateX != 0.0 || translateY != 0.0 {
      transforms := transforms + [ComponentText(Translate(translateX, translateY), repr)];
      cs := cs + [Translate(translateX, translateY)];
    }
    assert transforms == ComponentTexts(cs, repr);
    if scaleX != 1.0 || scaleY != 1.0 {
      transforms := transforms + [ComponentText(Scale(scaleX, scaleY), repr)];
      cs := cs + [Scale(scaleX, scaleY)];
    }
    assert cs == Components(m);
    assert transforms == ComponentTexts(cs, repr);
    if transforms != [] {
      var existing := if "transform" in attrs then attrs["transform"] else "";
      var added := JoinWith(transforms, " ");
      if existing != [] {
        attrs := attrs["transform" := existing + " " + added];
      } else {
        attrs := attrs["transform" := added];
      }
    }
    attrs := attrs["fill" := "currentColor"];
    return Success(e.(attrs := attrs));
  }

  /** For the unit viewBox the `transform` attribute is left exactly as it was, present or absent. */
  lemma UnitBoxKeepsTransform(e: Element, vb: ViewBox, repr: FloatText)
    requires IsUnitBox(vb)
    ensures Normalized(e, vb, repr).Success?
    ensures var attrs := Normalized(e, vb, repr).value.attrs;
            ("transform" in attrs <==> "transform" in e.attrs)
            && ("transform" in e.attrs ==> attrs["transform"] == e.attrs["transform"])
  {
  }

  /**
   * For any other viewBox of non-zero size, the new components follow an
   * existing transform, which is kept as a prefix.  (Over the reals the
   * components are never both the identity here, by NoComponentsIffUnitBox,
   * so the code's `if transforms:` guard always passes.)
   */
  lemma ExistingTransformIsPrefix(e: Element, vb: ViewBox, repr: FloatText)
    requires !IsUnitBox(vb) && vb.W() != 0.0 && vb.H() != 0.0
    ensures Normalized(e, vb, repr).Success?
    ensures var attrs := Normalized(e, vb, repr).value.attrs;
            var added := JoinWith(ComponentTexts(Components(Mapping(vb)), repr), " ");
            "transform" in attrs
            && (if "transform" in e.attrs && e.attrs["transform"] != []
                then attrs["transform"] == e.attrs["transform"] + " " + added
                else attrs["transform"] == added)
  {
    NoComponentsIffUnitBox(vb);
  }
}
