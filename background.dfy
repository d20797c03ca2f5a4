/**
 * Recognising the invisible or full-canvas shapes that icon files carry as
 * backgrounds (`is_background_element`).  The rules are tried in order:
 * `fill="none"`, then the known full-canvas path outlines, then a rect
 * covering the whole viewBox.
 */
module Background {
  import opened Wrappers
  import opened Text
  import opened Numbers
  import opened Svg
  import opened ViewBoxes

  /**
   * The `d` strings of a path that covers the whole viewBox.  The first five
   * are f-strings over the viewBox numbers (so they depend on how those
   * numbers print); the last four are fixed.
   */
  function Patterns(vb: ViewBox, repr: FloatText): (ps: seq<string>)
    ensures |ps| == 9 && ps[5..] == FixedPatterns
  {
    var vx, vy := vb.Show(vb.X(), repr), vb.Show(vb.Y(), repr);
    var vw, vh := vb.Show(vb.W(), repr), vb.Show(vb.H(), repr);
    var iw, ih := IntText(Trunc(vb.W())), IntText(Trunc(vb.H()));
    [ "M" + vx + " " + vy + "h" + vw + "v" + vh + "H" + vx + "z",
      "M" + vx + " " + vy + "h" + vw + "v" + vh + "H" + vx + "V" + vy + "z",
      "M" + vx + "," + vy + "h" + vw + "v" + vh + "H" + vx + "V" + vy + "z",
      "M" + vx + " " + vy + "h" + iw + "v" + ih + "H" + vx + "z",
      "M" + vx + " " + vy + "h" + iw + "v" + ih + "H" + vx + "V" + vy + "z" ]
    + FixedPatterns
  }

  const FixedPatterns: seq<string> := ["M0 0h24v24H0z", "M0 0h24v24H0V0z", "M0,0h24v24H0V0z", "M.01 0h24v24h-24V0z"]

  /**
   * `float(element.get(key, 0))`: an absent attribute reads as 0.0, a present
   * one must parse as a float or the classifier raises.
   */
  function Coordinate(e: Element, key: string): (r: Result<real, Fault>)
    ensures key !in e.attrs ==> r == Success(0.0)
    ensures key in e.attrs ==> (r.Success? <==> ParseFloat(e.attrs[key]).Some?)
    ensures key in e.attrs && r.Success? ==> Some(r.value) == ParseFloat(e.attrs[key])
    ensures r.Failure? ==> r.error == NotANumber(key, e.attrs[key])
  {
    if key !in e.attrs then Success(0.0)
    else
      var v := ParseFloat(e.attrs[key]);
      if v.None? then Failure(NotANumber(key, e.attrs[key])) else Success(v.value)
  }

  /** A rect spanning the viewBox: anchored at its origin and at least its size. */
  predicate Covers(x: real, y: real, width: real, height: real, vb: ViewBox) {
    x == vb.X() && y == vb.Y() && width >= vb.W() && height >= vb.H()
  }

  /** The rect rule; the four coordinates are read in the order x, y, width, height. */
  function RectRule(e: Element, vb: ViewBox): (r: Result<bool, Fault>)
    ensures r.Success? <==> (Coordinate(e, "x").Success? && Coordinate(e, "y").Success?
                          && Coordinate(e, "width").Success? && Coordinate(e, "height").Success?)
    ensures r.Success? ==> r.value == Covers(Coordinate(e, "x").value, Coordinate(e, "y").value,
                                            Coordinate(e, "width").value, Coordinate(e, "height").value, vb)
    ensures r.Failure? ==> r.error.NotANumber? && r.error.attribute in {"x", "y", "width", "height"}
                           && Coordinate(e, r.error.attribute) == Failure(r.error)
    ensures r.Failure? && r.error.attribute != "x" ==> Coordinate(e, "x").Success?
    ensures r.Failure? && r.error.attribute in {"width", "height"} ==> Coordinate(e, "y").Success?
    ensures r.Failure? && r.error.attribute == "height" ==> Coordinate(e, "width").Success?
  {
    var x := Coordinate(e, "x");
    if x.Failure? then Failure(x.error)
    else
      var y := Coordinate(e, "y");
      if y.Failure? then Failure(y.error)
      else
        var width := Coordinate(e, "width");
        if width.Failure? then Failure(width.error)
        else
          var height := Coordinate(e, "height");
          if height.Failure? then Failure(height.error)
          else Success(Covers(x.value, y.value, width.value, height.value, vb))
  }

  /**
   * `is_background_element`: true for a background, false for a shape to
   * keep, Failure for the exception `float()` raises on a rect coordinate.
   */
  function Classify(e: Element, vb: ViewBox, repr: FloatText): (r: Result<bool, Fault>)
    ensures HasAttr(e, "fill", "none") ==> r == Success(true)
    ensures r.Failure? ==> LocalName(e.tag) == "rect" && !HasAttr(e, "fill", "none")
    ensures !HasAttr(e, "fill", "none") && LocalName(e.tag) == "path"
            ==> r == Success(Strip(Attr(e, "d", "")) in Patterns(vb, repr))
    ensures !HasAttr(e, "fill", "none") && LocalName(e.tag) == "rect" ==> r == RectRule(e, vb)
    ensures LocalName(e.tag) !in {"path", "rect"} ==> (r == Success(true) <==> HasAttr(e, "fill", "none"))
  {
    var tag := LocalName(e.tag);
    if HasAttr(e, "fill", "none") then Success(true)
    else if tag == "path" && Strip(Attr(e, "d", "")) in Patterns(vb, repr) then Success(true)
    else if tag == "rect" then RectRule(e, vb)
    else Success(false)
  }

  /** The classifier's answer, with a fault counted as "not known to be background". */
  predicate IsBackground(e: Element, vb: ViewBox, repr: FloatText) {
    Classify(e, vb, repr) == Success(true)
  }

  /** A path drawn with one of the fixed full-canvas outlines is background under every viewBox. */
  lemma FixedPatternIsBackground(e: Element, vb: ViewBox, repr: FloatText)
    requires LocalName(e.tag) == "path"
    requires Strip(Attr(e, "d", "")) in FixedPatterns
    ensures IsBackground(e, vb, repr)
  {
    var ps := Patterns(vb, repr);
    var d := Strip(Attr(e, "d", ""));
    var k :| 0 <= k < 4 && FixedPatterns[k] == d;
    assert ps[5 + k] == ps[5..][k];
  }

  /**
   * A rect without a width reads as zero wide, so it is kept (or it raises)
   * whenever the viewBox has a positive width; the same holds of height.
   */
  lemma RectWithoutSizeIsNotBackground(e: Element, vb: ViewBox, repr: FloatText)
    requires LocalName(e.tag) == "rect" && !HasAttr(e, "fill", "none")
    requires ("width" !in e.attrs && vb.W() > 0.0) || ("height" !in e.attrs && vb.H() > 0.0)
    ensures !IsBackground(e, vb, repr)
  {
  }

  /**
   * The rect `x="0" y="0" width="24" height="24"` is background for the
   * default viewBox and for the fallback.
   */
  lemma FullCanvasRectIsBackground(e: Element, vb: ViewBox, repr: FloatText)
    requires LocalName(e.tag) == "rect"
    requires vb == Fallback || vb == Parsed(0.0, 0.0, 24.0, 24.0)
    requires "x" in e.attrs && e.attrs["x"] == "0"
    requires "y" in e.attrs && e.attrs["y"] == "0"
    requires "width" in e.attrs && e.attrs["width"] == "24"
    requires "height" in e.attrs && e.attrs["height"] == "24"
    ensures IsBackground(e, vb, repr)
  {
    assert IntText(0) == "0" && IntText(24) == "24";
    ParseFloatOfIntText(0);
    ParseFloatOfIntText(24);
  }

  /** A rect whose coordinate does not parse makes the classifier raise, naming that attribute. */
  lemma UnparsableCoordinateRaises(e: Element, vb: ViewBox, repr: FloatText, key: string)
    requires LocalName(e.tag) == "rect" && !HasAttr(e, "fill", "none")
    requires key in {"x", "y", "width", "height"}
    requires key in e.attrs && ParseFloat(e.attrs[key]).None?
    ensures Classify(e, vb, repr).Failure?
    ensures Classify(e, vb, repr).error.NotANumber?
  {
    if key == "x" {
      assert Coordinate(e, "x").Failure?;
    } else if key == "y" {
      assert Coordinate(e, "y").Failure?;
    } else if key == "width" {
      assert Coordinate(e, "width").Failure?;
    } else {
      assert Coordinate(e, "height").Failure?;
    }
  }
}
