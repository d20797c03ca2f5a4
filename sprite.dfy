/**
 * Assembling the sprite (`generate_sprite`): the icon files in name order,
 * one `<symbol>` per icon that has shapes, inside one hidden `<svg>`, and
 * the whole text through the final formatting pass.
 */
module Sprite {
  import opened Wrappers
  import opened Sequences
  import opened Text
  import opened Svg
  import opened Collect
  import opened Format

  /** What reading a file gives: a decoding or I/O error, or the parsed text. */
  datatype Contents = Unreadable | Readable(markup: Markup)

  /** One `*.svg` file of the icon directory. */
  datatype IconFile = IconFile(name: string, contents: Contents)

  /** `ET.tostring(element, encoding='unicode')`. */
  type Serializer = Element -> string

  // ---------------------------------------------------------------------
  // Icon names.

  /** `s.rfind(c)`: the last position of `c` in `s`, or -1. */
  function LastIndexOf(s: string, c: char): (i: int)
    ensures -1 <= i < |s|
    ensures i >= 0 ==> s[i] == c
    ensures forall j :: i < j < |s| ==> s[j] != c
  {
    if s == [] then -1
    else if s[|s| - 1] == c then |s| - 1
    else LastIndexOf(s[..|s| - 1], c)
  }

  /** `Path(name).stem`: the name without its last suffix, a leading dot not counting as one. */
  function Stem(name: string): (r: string)
    ensures |r| <= |name| && r == name[..|r|]
    ensures r != name ==> 0 < |r| < |name| - 1 && name[|r|] == '.'
    ensures r != name ==> forall j :: |r| < j < |name| ==> name[j] != '.'
    ensures 0 < LastIndexOf(name, '.') < |name| - 1 ==> r == name[..LastIndexOf(name, '.')]
  {
    var i := LastIndexOf(name, '.');
    if 0 < i < |name| - 1 then name[..i] else name
  }

  /** The icon of `base.svg` is called `base`, dots inside `base` included. */
  lemma StemOfSvgName(base: string)
    requires base != []
    ensures Stem(base + ".svg") == base
  {
    var name := base + ".svg";
    assert name[|base|] == '.';
    assert name[|base| + 1] == 's' && name[|base| + 2] == 'v' && name[|base| + 3] == 'g';
    assert LastIndexOf(name, '.') == |base|;
    assert name[..|base|] == base;
  }

  /** A file called just `.svg` keeps its whole name. */
  lemma StemOfHiddenSvg()
    ensures Stem(".svg") == ".svg"
  {
    var name := ".svg";
    assert name[0] == '.' && name[1] == 's' && name[2] == 'v' && name[3] == 'g';
    assert LastIndexOf(name, '.') == 0;
  }

  // ---------------------------------------------------------------------
  // `sorted(svg_files)`: all files sit in one directory, so paths compare by name.

  predicate Ordered(fs: seq<IconFile>) {
    forall i, j :: 0 <= i < j < |fs| ==> LessEq(fs[i].name, fs[j].name)
  }

  function Insert(f: IconFile, fs: seq<IconFile>): (r: seq<IconFile>)
    requires Ordered(fs)
    ensures Ordered(r) && multiset(r) == multiset(fs) + multiset{f}
  {
    if fs == [] then [f]
    else if LessEq(f.name, fs[0].name) then
      InsertFirst(f, fs);
      [f] + fs
    else
      var rest := Insert(f, fs[1..]);
      LessEqTotal(f.name, fs[0].name);
      InsertAfterFirst(f, fs, rest);
      HeadAndTail(fs);
      [fs[0]] + rest
  }

  lemma InsertFirst(f: IconFile, fs: seq<IconFile>)
    requires Ordered(fs) && fs != [] && LessEq(f.name, fs[0].name)
    ensures Ordered([f] + fs)
  {
    forall j | 0 <= j < |fs| ensures LessEq(f.name, fs[j].name) {
      if j > 0 {
        LessEqTransitive(f.name, fs[0].name, fs[j].name);
      }
    }
    forall i, j | 0 <= i < j < |fs| + 1 ensures LessEq(([f] + fs)[i].name, ([f] + fs)[j].name) {
      if i > 0 {
        assert ([f] + fs)[i] == fs[i - 1];
      }
      assert ([f] + fs)[j] == fs[j - 1];
    }
  }

  lemma InsertAfterFirst(f: IconFile, fs: seq<IconFile>, rest: seq<IconFile>)
    requires Ordered(fs) && fs != [] && LessEq(fs[0].name, f.name)
    requires Ordered(rest) && multiset(rest) == multiset(fs[1..]) + multiset{f}
    ensures Ordered([fs[0]] + rest)
  {
    forall j | 0 <= j < |rest| ensures LessEq(fs[0].name, rest[j].name) {
      assert rest[j] in multiset(rest);
      if rest[j] != f {
        assert rest[j] in multiset(fs[1..]);
        var k :| 0 <= k < |fs[1..]| && fs[1..][k] == rest[j];
        assert fs[k + 1] == rest[j];
      }
    }
    forall i, j | 0 <= i < j < |rest| + 1 ensures LessEq(([fs[0]] + rest)[i].name, ([fs[0]] + rest)[j].name) {
      if i > 0 {
        assert ([fs[0]] + rest)[i] == rest[i - 1];
      }
      assert ([fs[0]] + rest)[j] == rest[j - 1];
    }
  }

  /** `sorted(svg_files)`: the files in name order, none gained and none lost. */
  function SortByName(fs: seq<IconFile>): (r: seq<IconFile>)
    ensures Ordered(r) && multiset(r) == multiset(fs)
  {
    if fs == [] then []
    else
      var init := fs[..|fs| - 1];
      assert fs == init + [fs[|fs| - 1]];
      Insert(fs[|fs| - 1], SortByName(init))
  }

  // ---------------------------------------------------------------------
  // The lines of the sprite before the formatting pass.

  const Header := "<svg" + " xmlns=\"http://www.w3.org/2000/svg\"" + " style=\"display: none;\">"
  const SymbolClose := "  </symbol>"
  const Footer := "</svg>"

  function SymbolOpen(name: string): string {
    "  <symbol id=\"" + name + "\" viewBox=\"0 0 24 24\">"
  }

  function ElementLines(es: seq<Element>, serialize: Serializer): seq<string> {
    if es == [] then [] else ElementLines(es[..|es| - 1], serialize) + ["    " + serialize(es[|es| - 1])]
  }

  /** One `<symbol>` holding the given shapes. */
  function Symbol(name: string, es: seq<Element>, serialize: Serializer): seq<string> {
    [SymbolOpen(name)] + ElementLines(es, serialize) + [SymbolClose]
  }

  /** The shapes of a file, or none when it cannot be read. */
  function Shapes(f: IconFile, repr: FloatText): seq<Element> {
    match f.contents
    case Unreadable => []
    case Readable(markup) => IconElements(markup, repr)
  }

  /** The file made it into the sprite. */
  predicate Shown(f: IconFile, repr: FloatText) {
    Shapes(f, repr) != []
  }

  /** What one file adds to the sprite. */
  function Block(f: IconFile, repr: FloatText, serialize: Serializer): seq<string> {
    if Shown(f, repr) then Symbol(Stem(f.name), Shapes(f, repr), serialize) else []
  }

  function Blocks(fs: seq<IconFile>, repr: FloatText, serialize: Serializer): seq<string> {
    if fs == [] then [] else Blocks(fs[..|fs| - 1], repr, serialize) + Block(fs[|fs| - 1], repr, serialize)
  }

  /** How many of `fs` made it into the sprite. */
  function Emitted(fs: seq<IconFile>, repr: FloatText): nat {
    if fs == [] then 0 else Emitted(fs[..|fs| - 1], repr) + (if Shown(fs[|fs| - 1], repr) then 1 else 0)
  }

  function SpriteLines(files: seq<IconFile>, repr: FloatText, serialize: Serializer): seq<string> {
    [Header] + Blocks(SortByName(files), repr, serialize) + [Footer]
  }

  /** The text `generate_sprite` writes, or None when there are no icon files. */
  function SpriteText(files: seq<IconFile>, repr: FloatText, serialize: Serializer): Option<string> {
    if files == [] then None else Some(Optimized(JoinOn(SpriteLines(files, repr, serialize), '\n')))
  }

  // ---------------------------------------------------------------------
  // The imperative assembly.

  /** The body of the loop in `generate_sprite`: one file's symbol, if it has shapes. */
  method AddIcon(lines: seq<string>, file: IconFile, repr: FloatText, serialize: Serializer)
    returns (out: seq<string>, added: bool)
    ensures out == lines + Block(file, repr, serialize)
    ensures added == Shown(file, repr)
  {
    var iconName := Stem(file.name);
    match file.contents {
      case Unreadable =>
        AppendEmpty(lines);
        return lines, false;
      case Readable(markup) =>
        var elements := ExtractIconElements(markup, repr);
        if elements != [] {
          out := AppendSymbol(lines, iconName, elements, serialize);
          return out, true;
        }
        AppendEmpty(lines);
        return lines, false;
    }
  }

  /** The lines of one `<symbol>`, appended to `lines`. */
  method AppendSymbol(lines: seq<string>, name: string, elements: seq<Element>, serialize: Serializer)
    returns (out: seq<string>)
    ensures out == lines + Symbol(name, elements, serialize)
  {
    out := lines + [SymbolOpen(name)];
    for j := 0 to |elements|
      invariant out == lines + [SymbolOpen(name)] + ElementLines(elements[..j], serialize)
    {
      TakeOfTake(elements, j, j + 1);
      out := out + ["    " + serialize(elements[j])];
    }
    TakeAll(elements);
    out := out + [SymbolClose];
    Regroup(lines, SymbolOpen(name), ElementLines(elements, serialize), SymbolClose);
  }

  lemma Regroup(lines: seq<string>, open: string, middle: seq<string>, close: string)
    ensures lines + [open] + middle + [close] == lines + ([open] + middle + [close])
  {
  }

  lemma BlocksSnoc(fs: seq<IconFile>, i: nat, repr: FloatText, serialize: Serializer)
    requires i < |fs|
    ensures [Header] + Blocks(fs[..i + 1], repr, serialize)
            == [Header] + Blocks(fs[..i], repr, serialize) + Block(fs[i], repr, serialize)
    ensures Emitted(fs[..i + 1], repr) == Emitted(fs[..i], repr) + (if Shown(fs[i], repr) then 1 else 0)
  {
    var p := fs[..i + 1];
    TakeOfTake(fs, i, i + 1);
    assert p[..|p| - 1] == fs[..i] && p[|p| - 1] == fs[i];
    var before, block := Blocks(fs[..i], repr, serialize), Block(fs[i], repr, serialize);
    assert Blocks(p, repr, serialize) == before + block;
    AppendIsAssociative([Header], before, block);
  }

  /**
   * `generate_sprite`: the sprite text and the number of icons in it; no text
   * at all when the directory holds no icon files.
   */
  method GenerateSprite(files: seq<IconFile>, repr: FloatText, serialize: Serializer)
    returns (sprite: Option<string>, processed: nat)
    ensures sprite == SpriteText(files, repr, serialize)
    ensures processed == Emitted(SortByName(files), repr)
  {
    if files == [] {
      return None, 0;
    }
    var spriteContent := [Header];
    processed := 0;
    var sorted := SortByName(files);
    for i := 0 to |sorted|
      invariant spriteContent == [Header] + Blocks(sorted[..i], repr, serialize)
      invariant processed == Emitted(sorted[..i], repr)
    {
      BlocksSnoc(sorted, i, repr, serialize);
      var added;
      spriteContent, added := AddIcon(spriteContent, sorted[i], repr, serialize);
      if added {
        processed := processed + 1;
      }
    }
    TakeAll(sorted);
    spriteContent := spriteContent + [Footer];
    var optimized := OptimizeSpriteContent(JoinOn(spriteContent, '\n'));
    return Some(optimized), processed;
  }

  // ---------------------------------------------------------------------
  // What the sprite holds.

  /** How often `x` occurs in `ls`. */
  function Count(ls: seq<string>, x: string): nat {
    if ls == [] then 0 else Count(ls[..|ls| - 1], x) + (if ls[|ls| - 1] == x then 1 else 0)
  }

  lemma {:induction false} CountAppend(a: seq<string>, b: seq<string>, x: string)
    ensures Count(a + b, x) == Count(a, x) + Count(b, x)
    decreases |b|
  {
    if b == [] {
      AppendEmpty(a);
    } else {
      var init := b[..|b| - 1];
      InitOfAppend(a, b);
      CountAppend(a, init, x);
    }
  }

  /** A shape's line is never mistaken for the end of a symbol. */
  lemma {:induction false} ElementLinesCloseNothing(es: seq<Element>, serialize: Serializer)
    ensures Count(ElementLines(es, serialize), SymbolClose) == 0
  {
    if es != [] {
      var line := "    " + serialize(es[|es| - 1]);
      assert line[2] != SymbolClose[2];
      ElementLinesCloseNothing(es[..|es| - 1], serialize);
    }
  }

  lemma BlockClosesOnce(f: IconFile, repr: FloatText, serialize: Serializer)
    ensures Count(Block(f, repr, serialize), SymbolClose) == (if Shown(f, repr) then 1 else 0)
  {
    if Shown(f, repr) {
      SymbolClosesOnce(Stem(f.name), Shapes(f, repr), serialize);
    }
  }

  lemma SymbolClosesOnce(name: string, es: seq<Element>, serialize: Serializer)
    ensures Count(Symbol(name, es, serialize), SymbolClose) == 1
  {
    var open, middle := SymbolOpen(name), ElementLines(es, serialize);
    assert |open| > |SymbolClose|;
    ElementLinesCloseNothing(es, serialize);
    CountAppend([open], middle, SymbolClose);
    CountAppend([open] + middle, [SymbolClose], SymbolClose);
    Singleton(open);
    Singleton(SymbolClose);
  }

  /** The count `generate_sprite` reports is the number of symbols it closed. */
  lemma {:induction false} EmittedCountsSymbols(fs: seq<IconFile>, repr: FloatText, serialize: Serializer)
    ensures Count(Blocks(fs, repr, serialize), SymbolClose) == Emitted(fs, repr)
  {
    if fs != [] {
      var init := fs[..|fs| - 1];
      EmittedCountsSymbols(init, repr, serialize);
      CountAppend(Blocks(init, repr, serialize), Block(fs[|fs| - 1], repr, serialize), SymbolClose);
      BlockClosesOnce(fs[|fs| - 1], repr, serialize);
    }
  }

  /** No more icons than files. */
  lemma {:induction false} EmittedAtMostFiles(fs: seq<IconFile>, repr: FloatText)
    ensures Emitted(fs, repr) <= |fs|
  {
    if fs != [] {
      EmittedAtMostFiles(fs[..|fs| - 1], repr);
    }
  }

  /** Sorting loses no file, so at most one icon per file reaches the sprite. */
  lemma ProcessedAtMostFiles(files: seq<IconFile>, repr: FloatText)
    ensures Emitted(SortByName(files), repr) <= |files|
  {
    var sorted := SortByName(files);
    EmittedAtMostFiles(sorted, repr);
    assert |sorted| == |multiset(sorted)| == |multiset(files)| == |files|;
  }

  /** The `k`-th shape line of a symbol is the `k`-th shape, serialised and indented. */
  lemma {:induction false} ElementLinesAt(es: seq<Element>, serialize: Serializer, k: nat)
    requires k < |es|
    ensures |ElementLines(es, serialize)| == |es|
    ensures ElementLines(es, serialize)[k] == "    " + serialize(es[k])
  {
    var init := es[..|es| - 1];
    if init != [] {
      ElementLinesLength(init, serialize);
      if k < |init| {
        ElementLinesAt(init, serialize, k);
      }
    }
  }

  lemma {:induction false} ElementLinesLength(es: seq<Element>, serialize: Serializer)
    ensures |ElementLines(es, serialize)| == |es|
  {
    if es != [] {
      ElementLinesLength(es[..|es| - 1], serialize);
    }
  }

  /**
   * A file reaches the sprite exactly when it can be read and has shapes; its
   * symbol then holds one indented line per shape, between its opening and
   * closing lines.
   */
  lemma BlockOfFile(f: IconFile, repr: FloatText, serialize: Serializer, k: nat)
    ensures Block(f, repr, serialize) != [] <==> (f.contents.Readable? && IconElements(f.contents.markup, repr) != [])
    ensures var es, b := Shapes(f, repr), Block(f, repr, serialize);
            k < |es| ==> |b| == |es| + 2 && b[0] == SymbolOpen(Stem(f.name))
                         && b[k + 1] == "    " + serialize(es[k]) && b[|b| - 1] == SymbolClose
  {
    var es := Shapes(f, repr);
    if es != [] {
      SymbolShape(Stem(f.name), es, serialize, k);
    }
  }

  /** A symbol holds one indented line per shape, between its opening and closing lines. */
  lemma SymbolShape(name: string, es: seq<Element>, serialize: Serializer, k: nat)
    ensures var b := Symbol(name, es, serialize);
            |b| == |es| + 2 && b[0] == SymbolOpen(name) && b[|b| - 1] == SymbolClose
            && (k < |es| ==> b[k + 1] == "    " + serialize(es[k]))
  {
    var open, middle := SymbolOpen(name), ElementLines(es, serialize);
    ElementLinesLength(es, serialize);
    if k < |es| {
      ElementLinesAt(es, serialize, k);
      assert ([open] + middle + [SymbolClose])[k + 1] == middle[k];
    }
  }

  // ---------------------------------------------------------------------
  // What the formatting pass does to the sprite.

  /** The opening and the closing line of a symbol come through the pass unchanged. */
  lemma SymbolLinesSurvive(name: string)
    ensures FormatLine(SymbolOpen(name)) == [SymbolOpen(name)]
    ensures FormatLine(SymbolClose) == [SymbolClose]
  {
    var rest := " id=\"" + name + "\" viewBox=\"0 0 24 24\">";
    var s := "<symbol" + rest;
    assert SymbolOpen(name) == "  " + s;
    assert s[..7] == "<symbol";
    assert IsStripped(s) by {
      assert s[0] == '<' && s[|s| - 1] == '>';
    }
    StripAfterSpaces("  ", s);
    CloseSurvives();
  }

  lemma CloseSurvives()
    ensures FormatLine(SymbolClose) == [SymbolClose]
  {
    var c := "</symbol>";
    assert SymbolClose == "  " + c;
    assert IsStripped(c) by {
      assert c[0] == '<' && c[|c| - 1] == '>';
    }
    StripAfterSpaces("  ", c);
    CloseIndent();
  }

  lemma CloseIndent()
    ensures Indent("</symbol>") == "  "
  {
    var c := "</symbol>";
    assert !StartsWith(c, "<symbol") by {
      assert c[1] != "<symbol"[1];
    }
    assert !StartsWith(c, "<path") by {
      assert c[1] != "<path"[1];
    }
    assert StartsWith(c, "</symbol>");
  }

  /**
   * A shape's line keeps an indentation of four spaces only when its
   * serialised text starts with `<path`; any other shape loses it.
   */
  lemma ElementLineIndent(text: string)
    requires text != [] && IsStripped(text)
    ensures FormatLine("    " + text) == [Indent(text) + text]
    ensures StartsWith(text, "<path") && !StartsWith(text, "<symbol") ==> Indent(text) == "    "
    ensures !StartsWith(text, "<path") && !StartsWith(text, "<symbol") && !StartsWith(text, "</symbol>")
            ==> FormatLine("    " + text) == [text]
  {
    assert Strip("    " + text) == text by {
      StripAfterSpaces("    ", text);
    }
    assert FormatLine("    " + text) == [Indent(text) + text];
    assert [] + text == text;
  }

  /** A stripped line that is neither a symbol line nor a path comes through the pass unchanged. */
  lemma PlainLineSurvives(s: string)
    requires s != [] && IsStripped(s)
    requires !StartsWith(s, "<symbol") && !StartsWith(s, "<path") && !StartsWith(s, "</symbol>")
    ensures FormatLine(s) == [s]
  {
    StripOfStripped(s);
    assert Indent(s) + s == s;
  }

  /** The first and the last line of the sprite come through the pass unchanged. */
  lemma HeaderSurvives()
    ensures FormatLine(Header) == [Header]
  {
    assert IsStripped(Header) by {
      assert Header[0] == '<' && Header[|Header| - 1] == '>';
    }
    assert !StartsWith(Header, "<symbol") by {
      assert Header[2] != "<symbol"[2];
    }
    assert !StartsWith(Header, "<path") by {
      assert Header[1] != "<path"[1];
    }
    assert !StartsWith(Header, "</symbol>") by {
      assert Header[1] != "</symbol>"[1];
    }
    PlainLineSurvives(Header);
  }

  lemma FooterSurvives()
    ensures FormatLine(Footer) == [Footer]
  {
    assert IsStripped(Footer) by {
      assert Footer[0] == '<' && Footer[|Footer| - 1] == '>';
    }
    assert !StartsWith(Footer, "<symbol") by {
      assert Footer[1] != "<symbol"[1];
    }
    assert !StartsWith(Footer, "<path") by {
      assert Footer[1] != "<path"[1];
    }
    assert !StartsWith(Footer, "</symbol>") by {
      assert Footer[3] != "</symbol>"[3];
    }
    PlainLineSurvives(Footer);
  }

  lemma NoBreakInFrame()
    ensures '\n' !in Header && '\n' !in Footer
  {
    var a, b, c := "<svg", " xmlns=\"http://www.w3.org/2000/svg\"", " style=\"display: none;\">";
    assert '\n' !in a && '\n' !in b && '\n' !in c;
    assert Header == a + b + c;
  }

  /**
   * The written sprite starts with the hidden `<svg>` line and ends with its
   * closing line, however the icons' shapes serialise; in between lie the
   * symbols' lines, formatted.
   */
  lemma SpriteFrame(files: seq<IconFile>, repr: FloatText, serialize: Serializer)
    requires files != []
    ensures var lines := SplitOn(SpriteText(files, repr, serialize).value, '\n');
            var blocks := Blocks(SortByName(files), repr, serialize);
            lines == [Header] + (if blocks == [] then [] else FormatLines(SplitOn(JoinOn(blocks, '\n'), '\n'))) + [Footer]
  {
    var blocks := Blocks(SortByName(files), repr, serialize);
    var middle := if blocks == [] then [] else SplitOn(JoinOn(blocks, '\n'), '\n');
    RawSpriteLines(blocks);
    var raw := [Header] + middle + [Footer];
    assert SplitOn(JoinOn([Header] + blocks + [Footer], '\n'), '\n') == raw;
    FormatLinesAppend([Header] + middle, [Footer]);
    FormatLinesAppend([Header], middle);
    HeaderSurvives();
    FooterSurvives();
    assert FormatLines([Header]) == FormatLine(Header) by {
      Singleton(Header);
    }
    assert FormatLines([Footer]) == FormatLine(Footer) by {
      Singleton(Footer);
    }
    var f := [Header] + FormatLines(middle) + [Footer];
    assert FormatLines(raw) == f;
    FrameIsClean(FormatLines(middle), middle);
    JoinCleanLines(f);
  }

  lemma FrameIsClean(m: seq<string>, middle: seq<string>)
    requires m == FormatLines(middle) && NoBreaks(middle)
    ensures AllClean([Header] + m + [Footer])
  {
    FormatLinesAreClean(middle);
    FrameLinesAreClean();
    Surround(Header, m, Footer, Clean);
  }

  lemma FrameLinesAreClean()
    ensures Clean(Header) && Clean(Footer)
  {
    HeaderSurvives();
    FooterSurvives();
    NoBreakInFrame();
    FormatLineIsClean(Header);
    FormatLineIsClean(Footer);
  }

  lemma Surround(a: string, m: seq<string>, b: string, p: string -> bool)
    requires p(a) && p(b) && forall i :: 0 <= i < |m| ==> p(m[i])
    ensures forall i :: 0 <= i < |[a] + m + [b]| ==> p(([a] + m + [b])[i])
  {
    var f := [a] + m + [b];
    forall i | 0 <= i < |f| ensures p(f[i]) {
      if 0 < i < |f| - 1 {
        assert f[i] == m[i - 1];
      }
    }
  }

  /** Splitting the joined raw lines at the breaks: the frame, and the symbols' text split. */
  lemma RawSpriteLines(blocks: seq<string>)
    ensures var middle := if blocks == [] then [] else SplitOn(JoinOn(blocks, '\n'), '\n');
            SplitOn(JoinOn([Header] + blocks + [Footer], '\n'), '\n') == [Header] + middle + [Footer]
            && NoBreaks(middle)
  {
    NoBreakInFrame();
    SplitOnWithout(Header, '\n');
    SplitOnWithout(Footer, '\n');
    if blocks == [] {
      AppendEmpty([Header]);
      JoinOnAppend([Header], [Footer], '\n');
      SplitOnAround(Header, Footer, '\n');
    } else {
      var jb := JoinOn(blocks, '\n');
      AppendIsAssociative([Header], blocks, [Footer]);
      SplitOnPieces(jb, '\n');
      JoinOnAppend([Header], blocks + [Footer], '\n');
      JoinOnAppend(blocks, [Footer], '\n');
      SplitOnAround(Header, jb + "\n" + Footer, '\n');
      SplitOnAround(jb, Footer, '\n');
    }
  }
}
