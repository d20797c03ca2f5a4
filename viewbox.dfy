/** Reading the `viewBox` attribute of an icon's root element (`parse_viewbox`). */
module ViewBoxes {
  import opened Wrappers
  import opened Text
  import opened Numbers
  import opened Svg

  /**
   * The four numbers of a viewBox.  `Fallback` is the tuple of Python ints
   * `(0, 0, 24, 24)` returned when the text cannot be used; `Parsed` holds
   * the floats read from the text.  The two print differently (`0` versus
   * `0.0`), which matters to the background patterns.
   */
  datatype ViewBox = Fallback | Parsed(x: real, y: real, w: real, h: real)
  {
    function X(): real { if Fallback? then 0.0 else x }
    function Y(): real { if Fallback? then 0.0 else y }
    function W(): real { if Fallback? then 24.0 else w }
    function H(): real { if Fallback? then 24.0 else h }

    /** `f'{v}'` for one of this viewBox's numbers. */
    function Show(v: real, repr: FloatText): string {
      if Fallback? then IntText(Trunc(v)) else repr(v)
    }
  }

  /** `[float(v) for v in tokens]`; None when some `float` raises. */
  function ParseAll(ts: seq<string>): (r: Option<seq<real>>)
    ensures r.Some? ==> |r.value| == |ts|
  {
    if ts == [] then Some([])
    else
      var v := ParseFloat(ts[0]);
      if v.None? then None
      else
        var rest := ParseAll(ts[1..]);
        if rest.None? then None else Some([v.value] + rest.value)
  }

  /** Every token is read, in order, and one that does not parse makes the whole list fail. */
  lemma {:induction false} ParseAllReadsEveryToken(ts: seq<string>)
    ensures ParseAll(ts).Some? <==> forall i :: 0 <= i < |ts| ==> ParseFloat(ts[i]).Some?
    ensures ParseAll(ts).Some? ==> forall i :: 0 <= i < |ts| ==> ParseAll(ts).value[i] == ParseFloat(ts[i]).value
  {
    if ts != [] {
      ParseAllReadsEveryToken(ts[1..]);
      assert forall i :: 1 <= i < |ts| ==> ts[i] == ts[1..][i - 1];
    }
  }

  /**
   * `parse_viewbox`: exactly four white-space separated numbers give those
   * numbers; any other text, including a number that does not parse, gives
   * the fallback.
   */
  function ParseViewBox(s: string): (vb: ViewBox)
    ensures var ts := Tokens(s);
            vb.Parsed? <==> |ts| == 4 && forall i :: 0 <= i < 4 ==> ParseFloat(ts[i]).Some?
    ensures var ts := Tokens(s);
            vb.Parsed? ==> vb == Parsed(ParseFloat(ts[0]).value, ParseFloat(ts[1]).value,
                                        ParseFloat(ts[2]).value, ParseFloat(ts[3]).value)
  {
    var ts := Tokens(s);
    var values := ParseAll(ts);
    ParseAllReadsEveryToken(ts);
    if values.Some? && |values.value| == 4 then
      Parsed(values.value[0], values.value[1], values.value[2], values.value[3])
    else
      Fallback
  }

  /** The viewBox of a document: `parse_viewbox(root.get('viewBox', '0 0 24 24'))`. */
  function DocumentViewBox(root: Element): ViewBox {
    ParseViewBox(Attr(root, "viewBox", "0 0 24 24"))
  }

  /** Four integers written with single spaces read back as themselves. */
  lemma ParseViewBoxOfInts(a: int, b: int, c: int, d: int)
    ensures ParseViewBox(JoinWith([IntText(a), IntText(b), IntText(c), IntText(d)], " "))
            == Parsed(a as real, b as real, c as real, d as real)
  {
    var ws := [IntText(a), IntText(b), IntText(c), IntText(d)];
    IntTextsAreWords(ws);
    TokensOfJoin(ws);
    ParseFloatOfIntText(a);
    ParseFloatOfIntText(b);
    ParseFloatOfIntText(c);
    ParseFloatOfIntText(d);
    ParsedFromTokens(JoinWith(ws, " "), a as real, b as real, c as real, d as real);
  }

  lemma IntTextsAreWords(ws: seq<string>)
    requires |ws| == 4 && forall i :: 0 <= i < 4 ==> ws[i] != [] && NoSpace(ws[i])
    ensures AreWords(ws)
  {
    assert ws[3..][1..] == [] && ws[2..][1..] == ws[3..] && ws[1..][1..] == ws[2..];
    assert AreWords(ws[3..]);
    assert AreWords(ws[2..]);
    assert AreWords(ws[1..]);
  }

  lemma ParsedFromTokens(s: string, x: real, y: real, w: real, h: real)
    requires |Tokens(s)| == 4
    requires ParseFloat(Tokens(s)[0]) == Some(x) && ParseFloat(Tokens(s)[1]) == Some(y)
    requires ParseFloat(Tokens(s)[2]) == Some(w) && ParseFloat(Tokens(s)[3]) == Some(h)
    ensures ParseViewBox(s) == Parsed(x, y, w, h)
  {
    ParseAllOfFour(Tokens(s), x, y, w, h);
  }

  lemma ParseAllOfFour(ts: seq<string>, x: real, y: real, w: real, h: real)
    requires |ts| == 4
    requires ParseFloat(ts[0]) == Some(x) && ParseFloat(ts[1]) == Some(y)
    requires ParseFloat(ts[2]) == Some(w) && ParseFloat(ts[3]) == Some(h)
    ensures ParseAll(ts) == Some([x, y, w, h])
  {
    var t1, t2, t3 := ts[1..], ts[2..], ts[3..];
    assert t3[0] == ts[3] && t3[1..] == [] && ParseAll([]) == Some([]);
    assert ParseAll(t3).value == [h] + [] == [h];
    assert t2[0] == ts[2] && t2[1..] == t3;
    assert ParseAll(t2).value == [w] + [h] == [w, h];
    assert t1[0] == ts[1] && t1[1..] == t2;
    assert ParseAll(t1).value == [y] + [w, h] == [y, w, h];
    assert ts[1..] == t1;
    assert ParseAll(ts).value == [x] + [y, w, h] == [x, y, w, h];
  }

  /**
   * A root without a `viewBox` attribute reads the default text, which
   * gives the floats (0.0, 0.0, 24.0, 24.0), not the int fallback.
   */
  lemma MissingViewBoxIsParsedDefault(root: Element)
    requires "viewBox" !in root.attrs
    ensures DocumentViewBox(root) == Parsed(0.0, 0.0, 24.0, 24.0)
  {
    assert IntText(0) == "0";
    assert IntText(24) == "24";
    assert JoinWith([IntText(0), IntText(0), IntText(24), IntText(24)], " ") == "0 0 24 24";
    ParseViewBoxOfInts(0, 0, 24, 24);
  }

  /** Text without exactly four tokens falls back to (0, 0, 24, 24). */
  lemma WrongTokenCountFallsBack(s: string)
    requires |Tokens(s)| != 4
    ensures ParseViewBox(s) == Fallback
         && ParseViewBox(s).X() == 0.0 && ParseViewBox(s).Y() == 0.0
         && ParseViewBox(s).W() == 24.0 && ParseViewBox(s).H() == 24.0
  {
  }
}
