/**
 * The final pass over the sprite text (`optimize_sprite_content`): every
 * line is stripped, blank lines are dropped, and the lines that open or
 * close a symbol or hold a path get a fixed indentation back.
 */
module Format {
  import opened Sequences
  import opened Text

  /** The indentation given to a stripped, non-blank line, chosen by how it starts. */
  function Indent(s: string): (pad: string)
    ensures forall i :: 0 <= i < |pad| ==> pad[i] == ' '
  {
    if StartsWith(s, "<symbol") then "  "
    else if StartsWith(s, "<path") then "    "
    else if StartsWith(s, "</symbol>") then "  "
    else ""
  }

  /** What one input line becomes: nothing when it is blank. */
  function FormatLine(l: string): seq<string> {
    var s := Strip(l);
    if s == [] then [] else [Indent(s) + s]
  }

  /** The loop of `optimize_sprite_content` over the lines `ls`. */
  function FormatLines(ls: seq<string>): seq<string> {
    if ls == [] then [] else FormatLines(ls[..|ls| - 1]) + FormatLine(ls[|ls| - 1])
  }

  /** `optimize_sprite_content(content)` as a value. */
  function Optimized(content: string): string {
    JoinOn(FormatLines(SplitOn(content, '\n')), '\n')
  }

  /** `optimize_sprite_content(content)`. */
  method OptimizeSpriteContent(content: string) returns (optimized: string)
    ensures optimized == Optimized(content)
  {
    var lines := SplitOn(content, '\n');
    var optimizedLines: seq<string> := [];
    for i := 0 to |lines|
      invariant optimizedLines == FormatLines(lines[..i])
    {
      FormatLinesSnoc(lines, i);
      var stripped := Strip(lines[i]);
      if stripped != [] {
        if StartsWith(stripped, "<symbol") {
          FormatLineOfText(lines[i], "  ");
          optimizedLines := optimizedLines + ["  " + stripped];
        } else if StartsWith(stripped, "<path") {
          FormatLineOfText(lines[i], "    ");
          optimizedLines := optimizedLines + ["    " + stripped];
        } else if StartsWith(stripped, "</symbol>") {
          FormatLineOfText(lines[i], "  ");
          optimizedLines := optimizedLines + ["  " + stripped];
        } else {
          FormatLineOfText(lines[i], "");
          assert "" + stripped == stripped;
          optimizedLines := optimizedLines + [stripped];
        }
      } else {
        AppendEmpty(optimizedLines);
      }
    }
    TakeAll(lines);
    optimized := JoinOn(optimizedLines, '\n');
  }

  // ---------------------------------------------------------------------
  // What the pass keeps.

  /** The stripped text of every non-blank line of `ls`, in order. */
  function Kept(ls: seq<string>): seq<string> {
    if ls == [] then []
    else
      var s := Strip(ls[|ls| - 1]);
      Kept(ls[..|ls| - 1]) + (if s == [] then [] else [s])
  }

  /** Each line stripped. */
  function StripAll(ls: seq<string>): (r: seq<string>)
    ensures |r| == |ls|
  {
    if ls == [] then [] else StripAll(ls[..|ls| - 1]) + [Strip(ls[|ls| - 1])]
  }

  /** A line of the output: free of line breaks, and one the pass leaves as it is. */
  predicate Clean(o: string) {
    NoBreak(o) && FormatLine(o) == [o]
  }

  predicate NoBreak(l: string) {
    '\n' !in l
  }

  /** Every line of `ls` satisfies `p`. */
  predicate Each(ls: seq<string>, p: string -> bool) {
    forall i :: 0 <= i < |ls| ==> p(ls[i])
  }

  predicate NoBreaks(ls: seq<string>) {
    Each(ls, NoBreak)
  }

  predicate AllClean(ls: seq<string>) {
    Each(ls, Clean)
  }

  lemma EachAppend(a: seq<string>, b: seq<string>, p: string -> bool)
    requires Each(a, p) && Each(b, p)
    ensures Each(a + b, p)
  {
    forall i | 0 <= i < |a + b| ensures p((a + b)[i]) {
      if i >= |a| {
        assert (a + b)[i] == b[i - |a|];
      }
    }
  }

  lemma EachInit(ls: seq<string>, p: string -> bool)
    requires ls != [] && Each(ls, p)
    ensures Each(ls[..|ls| - 1], p) && p(ls[|ls| - 1])
  {
    var init := ls[..|ls| - 1];
    forall i | 0 <= i < |init| ensures p(init[i]) {
      assert init[i] == ls[i];
    }
  }

  /** `strip()` takes nothing but the characters of its argument. */
  lemma StripIsPart(l: string, c: char)
    requires c !in l
    ensures c !in Strip(l)
  {
    var k := |l| - |TrimStart(l)|;
    StripIsSlice(l);
    NotInSlice(l, c, k, k + |Strip(l)|);
  }

  /** Re-indenting a stripped line and stripping it again gives the line back. */
  lemma StripOfIndented(s: string)
    requires IsStripped(s)
    ensures Strip(Indent(s) + s) == s
  {
    var pad := Indent(s);
    assert forall i :: 0 <= i < |pad| ==> IsSpace(pad[i]);
    StripAfterSpaces(pad, s);
  }

  /** A line without breaks becomes at most one clean line. */
  lemma FormatLineIsClean(l: string)
    requires NoBreak(l)
    ensures |FormatLine(l)| <= 1 && AllClean(FormatLine(l))
  {
    var s := Strip(l);
    if s != [] {
      StripIsPart(l, '\n');
      StripOfIndented(s);
      assert '\n' !in Indent(s);
      assert '\n' !in Indent(s) + s;
      assert FormatLine(Indent(s) + s) == [Indent(s) + s];
    }
  }

  /** A clean line comes through the pass unchanged. */
  lemma FormatLineOfClean(o: string)
    requires Clean(o)
    ensures FormatLine(o) == [o]
  {
  }

  /** Stripping the output lines gives exactly the non-blank input lines, stripped, in order. */
  lemma {:induction false} FormatKeepsText(ls: seq<string>)
    ensures StripAll(FormatLines(ls)) == Kept(ls)
  {
    if ls != [] {
      var init, l := ls[..|ls| - 1], ls[|ls| - 1];
      FormatKeepsText(init);
      var f := FormatLines(init);
      var s := Strip(l);
      if s != [] {
        StripOfIndented(s);
        FrontOfAppend(f, [Indent(s) + s]);
      } else {
        AppendEmpty(f);
      }
    }
  }

  /** Every output line is clean, provided the input lines hold no breaks. */
  lemma {:induction false} FormatLinesAreClean(ls: seq<string>)
    requires NoBreaks(ls)
    ensures AllClean(FormatLines(ls))
  {
    if ls != [] {
      var init, l := ls[..|ls| - 1], ls[|ls| - 1];
      EachInit(ls, NoBreak);
      FormatLinesAreClean(init);
      FormatLineIsClean(l);
      EachAppend(FormatLines(init), FormatLine(l), Clean);
    }
  }

  /** The pass leaves lines that are already clean alone. */
  lemma {:induction false} FormatLinesOfClean(ls: seq<string>)
    requires AllClean(ls)
    ensures FormatLines(ls) == ls
  {
    if ls != [] {
      var init, o := ls[..|ls| - 1], ls[|ls| - 1];
      EachInit(ls, Clean);
      FormatLinesOfClean(init);
      FormatLineOfClean(o);
      InitAndLast(ls);
    }
  }

  /** Clean lines joined and split again are the same lines. */
  lemma JoinCleanLines(f: seq<string>)
    requires f != [] && AllClean(f)
    ensures JoinOn(f, '\n') != [] && SplitOn(JoinOn(f, '\n'), '\n') == f
  {
    assert Clean(f[0]);
    JoinPrefix(f, '\n');
    assert NoBreaks(f);
    SplitOfJoin(f, '\n');
  }

  lemma JoinPrefix(ls: seq<string>, sep: char)
    requires ls != []
    ensures |ls[0]| <= |JoinOn(ls, sep)| && JoinOn(ls, sep)[..|ls[0]|] == ls[0]
  {
  }

  /**
   * The optimised text, split into lines: the formatted lines, every one of
   * them clean (or the empty text when no line survives).
   */
  lemma OptimizedLines(content: string)
    ensures var f := FormatLines(SplitOn(content, '\n'));
            AllClean(f) && (f == [] <==> Optimized(content) == [])
            && (f != [] ==> SplitOn(Optimized(content), '\n') == f)
  {
    var ls := SplitOn(content, '\n');
    SplitOnPieces(content, '\n');
    FormatLinesAreClean(ls);
    var f := FormatLines(ls);
    if f != [] {
      JoinCleanLines(f);
    }
  }

  /** Optimising twice gives what optimising once gives. */
  lemma OptimizedIsIdempotent(content: string)
    ensures Optimized(Optimized(content)) == Optimized(content)
  {
    var f := FormatLines(SplitOn(content, '\n'));
    OptimizedLines(content);
    if f == [] {
      OptimizedOfEmpty();
    } else {
      FormatLinesOfClean(f);
    }
  }

  lemma OptimizedOfEmpty()
    ensures Optimized([]) == []
  {
    assert SplitOn([], '\n') == [[]];
    assert FormatLines([[]]) == FormatLines([]) + FormatLine([]);
  }

  lemma FormatLineOfText(l: string, pad: string)
    requires Strip(l) != [] && pad == Indent(Strip(l))
    ensures FormatLine(l) == [pad + Strip(l)]
  {
  }

  lemma FormatLinesSnoc(ls: seq<string>, i: nat)
    requires i < |ls|
    ensures FormatLines(ls[..i + 1]) == FormatLines(ls[..i]) + FormatLine(ls[i])
  {
    TakeOfTake(ls, i, i + 1);
  }

  /** The pass appends: its result on `a + b` is its result on `a`, then on `b`. */
  lemma {:induction false} FormatLinesAppend(a: seq<string>, b: seq<string>)
    ensures FormatLines(a + b) == FormatLines(a) + FormatLines(b)
    decreases |b|
  {
    if b == [] {
      AppendEmpty(a);
    } else {
      var init, last := b[..|b| - 1], b[|b| - 1];
      var ab := a + b;
      InitOfAppend(a, b);
      assert ab[..|ab| - 1] == a + init && ab[|ab| - 1] == last;
      FormatLinesAppend(a, init);
      assert FormatLines(ab) == FormatLines(a + init) + FormatLine(last);
      AppendIsAssociative(FormatLines(a), FormatLines(init), FormatLine(last));
    }
  }
}
