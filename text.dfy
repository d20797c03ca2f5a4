/**
 * The string operations of Python that the sprite generator relies on:
 * `str.isspace`, `str.strip`, `str.split()` (on runs of white space),
 * `str.split(sep)`, `sep.join(...)`, `str.startswith` and `str(int)`.
 */
module Text {
  import opened Sequences

  /** Python's `str.isspace()` for a single character. */
  predicate IsSpace(c: char) {
    var n := c as int;
    (9 <= n <= 13) || (28 <= n <= 32) || n == 0x85 || n == 0xA0 || n == 0x1680
    || (0x2000 <= n <= 0x200A) || n == 0x2028 || n == 0x2029 || n == 0x202F
    || n == 0x205F || n == 0x3000
  }

  predicate NoSpace(s: string) {
    forall i :: 0 <= i < |s| ==> !IsSpace(s[i])
  }

  /** A string that `strip()` leaves alone: empty, or not starting or ending with white space. */
  predicate IsStripped(s: string) {
    s == [] || (!IsSpace(s[0]) && !IsSpace(s[|s| - 1]))
  }

  /** `s.lstrip()`. */
  function TrimStart(s: string): (r: string)
    ensures |r| <= |s| && r == s[|s| - |r|..]
    ensures r == [] || !IsSpace(r[0])
  {
    if s != [] && IsSpace(s[0]) then TrimStart(s[1..]) else s
  }

  /** What `lstrip()` removes is white space. */
  lemma {:induction false} TrimStartRemovesSpace(s: string)
    ensures forall i {:trigger IsSpace(s[i])} :: 0 <= i < |s| - |TrimStart(s)| ==> IsSpace(s[i])
  {
    if s != [] && IsSpace(s[0]) {
      var tail := s[1..];
      TrimStartRemovesSpace(tail);
      assert TrimStart(s) == TrimStart(tail);
      forall i | 1 <= i < |s| - |TrimStart(s)| ensures IsSpace(s[i]) {
        assert s[i] == tail[i - 1];
      }
    }
  }

  /** `s.rstrip()`. */
  function TrimEnd(s: string): (r: string)
    ensures |r| <= |s| && r == s[..|r|]
    ensures r == [] || !IsSpace(r[|r| - 1])
  {
    if s != [] && IsSpace(s[|s| - 1]) then TrimEnd(s[..|s| - 1]) else s
  }

  /** What `rstrip()` removes is white space. */
  lemma {:induction false} TrimEndRemovesSpace(s: string)
    ensures forall i {:trigger IsSpace(s[i])} :: |TrimEnd(s)| <= i < |s| ==> IsSpace(s[i])
  {
    if s != [] && IsSpace(s[|s| - 1]) {
      TrimEndRemovesSpace(s[..|s| - 1]);
    }
  }

  /** `s.strip()`. */
  function Strip(s: string): (r: string)
    ensures IsStripped(r)
  {
    TrimEnd(TrimStart(s))
  }

  /**
   * `strip()`, that is `lstrip()` then `rstrip()`, keeps the text between the
   * leading and the trailing white space and removes only white space.
   */
  lemma StripKeepsMiddle(s: string)
    ensures var k := |s| - |TrimStart(s)|;
            var r := TrimEnd(TrimStart(s));
            k + |r| <= |s| && r == s[k..k + |r|]
            && (forall i {:trigger IsSpace(s[i])} :: 0 <= i < k ==> IsSpace(s[i]))
            && (forall i {:trigger IsSpace(s[i])} :: k + |r| <= i < |s| ==> IsSpace(s[i]))
  {
    TrimStartRemovesSpace(s);
    StripIsSlice(s);
    StripDropsTrailingSpace(s);
  }

  /** `strip()` keeps a slice of its argument, starting where `lstrip()` starts. */
  lemma StripIsSlice(s: string)
    ensures var k := |s| - |TrimStart(s)|;
            var r := TrimEnd(TrimStart(s));
            k + |r| <= |s| && r == s[k..k + |r|]
  {
    SliceOfTrimmed(s, TrimStart(s), TrimEnd(TrimStart(s)));
  }

  lemma SliceOfTrimmed(s: string, t: string, r: string)
    requires |t| <= |s| && t == s[|s| - |t|..]
    requires |r| <= |t| && r == t[..|r|]
    ensures |s| - |t| + |r| <= |s| && r == s[|s| - |t|..|s| - |t| + |r|]
  {
    SliceOfSlice(s, t, r, |s| - |t|);
  }

  lemma StripDropsTrailingSpace(s: string)
    ensures var k := |s| - |TrimStart(s)|;
            forall i {:trigger IsSpace(s[i])} :: k + |TrimEnd(TrimStart(s))| <= i < |s| ==> IsSpace(s[i])
  {
    var t := TrimStart(s);
    var k := |s| - |t|;
    var r := TrimEnd(t);
    assert t == s[k..];
    TrimEndRemovesSpace(t);
    forall i | k + |r| <= i < |s| ensures IsSpace(s[i]) {
      assert s[i] == t[i - k];
    }
  }

  lemma StripOfStripped(s: string)
    requires IsStripped(s)
    ensures Strip(s) == s
  {
  }

  lemma {:induction false} StripAfterSpaces(pad: string, s: string)
    requires forall i :: 0 <= i < |pad| ==> IsSpace(pad[i])
    requires IsStripped(s)
    ensures Strip(pad + s) == s
  {
    if pad == [] {
      assert pad + s == s;
    } else {
      assert (pad + s)[1..] == pad[1..] + s;
      StripAfterSpaces(pad[1..], s);
    }
  }

  /** A string is blank when `strip()` leaves nothing of it. */
  lemma BlankIffAllSpace(s: string)
    ensures Strip(s) == [] <==> forall i :: 0 <= i < |s| ==> IsSpace(s[i])
  {
    StripKeepsMiddle(s);
  }

  /** `s.startswith(p)`. */
  predicate StartsWith(s: string, p: string) {
    |p| <= |s| && s[..|p|] == p
  }

  // ---------------------------------------------------------------------
  // `s.split()` without arguments: the maximal runs of non-space characters.

  /** The longest prefix of `s` that holds no white space. */
  function Word(s: string): (w: string)
    ensures |w| <= |s| && w == s[..|w|] && NoSpace(w)
    ensures |w| < |s| ==> IsSpace(s[|w|])
  {
    if s == [] || IsSpace(s[0]) then [] else [s[0]] + Word(s[1..])
  }

  /** `s.split()`. */
  function Tokens(s: string): (ts: seq<string>)
    ensures forall k | 0 <= k < |ts| :: ts[k] != [] && NoSpace(ts[k])
    decreases |s|
  {
    var t := TrimStart(s);
    if t == [] then []
    else
      var w := Word(t);
      [w] + Tokens(t[|w|..])
  }

  /** The number of characters in all the parts together. */
  function TotalLength(parts: seq<string>): nat {
    if parts == [] then 0 else |parts[0]| + TotalLength(parts[1..])
  }

  /** `sep.join(parts)`: the parts in order, one separator between each two. */
  function JoinWith(parts: seq<string>, sep: string): (r: string)
    ensures parts == [] ==> r == []
    ensures parts != [] ==> |r| == TotalLength(parts) + (|parts| - 1) * |sep|
    ensures parts != [] ==> r[..|parts[0]|] == parts[0]
  {
    if parts == [] then []
    else if |parts| == 1 then parts[0]
    else parts[0] + sep + JoinWith(parts[1..], sep)
  }

  lemma {:induction false} WordOfWordThenSpace(w: string, rest: string)
    requires w != [] && NoSpace(w)
    requires rest == [] || IsSpace(rest[0])
    ensures Word(w + rest) == w
  {
    if |w| == 1 {
      assert (w + rest)[1..] == rest;
    } else {
      assert (w + rest)[1..] == w[1..] + rest;
      WordOfWordThenSpace(w[1..], rest);
    }
  }

  lemma TokensAfterSpace(rest: string)
    ensures Tokens(" " + rest) == Tokens(rest)
  {
    assert (" " + rest)[1..] == rest;
  }

  lemma TokensCons(w: string, rest: string)
    requires w != [] && NoSpace(w)
    requires rest == [] || IsSpace(rest[0])
    ensures Tokens(w + rest) == [w] + Tokens(rest)
  {
    var s := w + rest;
    assert TrimStart(s) == s;
    WordOfWordThenSpace(w, rest);
    assert s[|w|..] == rest;
  }

  /** Non-empty strings without white space, as `split()` produces them. */
  predicate AreWords(ws: seq<string>) {
    ws == [] || (ws[0] != [] && NoSpace(ws[0]) && AreWords(ws[1..]))
  }

  lemma TokensOfWord(w: string)
    requires w != [] && NoSpace(w)
    ensures Tokens(w) == [w]
  {
    TokensCons(w, []);
    AppendEmpty(w);
  }

  lemma TokensOfJoinCons(w: string, tail: seq<string>)
    requires w != [] && NoSpace(w) && tail != []
    ensures Tokens(JoinWith([w] + tail, " ")) == [w] + Tokens(JoinWith(tail, " "))
  {
    var rest := JoinWith(tail, " ");
    assert ([w] + tail)[1..] == tail;
    assert JoinWith([w] + tail, " ") == w + (" " + rest);
    TokensCons(w, " " + rest);
    TokensAfterSpace(rest);
  }

  /** Splitting a single-space join of space-free, non-empty words gives the words back. */
  lemma {:induction false} TokensOfJoin(ws: seq<string>)
    requires AreWords(ws)
    ensures Tokens(JoinWith(ws, " ")) == ws
  {
    if |ws| == 1 {
      TokensOfWord(ws[0]);
    } else if |ws| > 1 {
      var w, tail := ws[0], ws[1..];
      assert ws == [w] + tail;
      TokensOfJoinCons(w, tail);
      TokensOfJoin(tail);
    }
  }

  // ---------------------------------------------------------------------
  // `s.split(sep)` and `sep.join(lines)` for a one-character separator.

  /** The text of `s` before its first `sep`. */
  function Line(s: string, sep: char): (l: string)
    ensures |l| <= |s| && l == s[..|l|] && sep !in l
    ensures |l| < |s| ==> s[|l|] == sep
  {
    if s == [] || s[0] == sep then [] else [s[0]] + Line(s[1..], sep)
  }

  /** `s.split(sep)`: never empty. */
  function SplitOn(s: string, sep: char): (ls: seq<string>)
    ensures |ls| >= 1
    decreases |s|
  {
    var l := Line(s, sep);
    if |l| == |s| then [s] else [l] + SplitOn(s[|l| + 1..], sep)
  }

  /** No piece of a split holds the separator. */
  lemma {:induction false} SplitOnPieces(s: string, sep: char)
    ensures forall i :: 0 <= i < |SplitOn(s, sep)| ==> sep !in SplitOn(s, sep)[i]
    decreases |s|
  {
    var l := Line(s, sep);
    if |l| < |s| {
      SplitOnPieces(s[|l| + 1..], sep);
    }
  }

  /** `"sep".join(lines)` for a one-character separator. */
  function JoinOn(ls: seq<string>, sep: char): (r: string)
    ensures ls != [] ==> |r| == TotalLength(ls) + |ls| - 1
  {
    JoinWith(ls, [sep])
  }

  lemma {:induction false} LineOfJoin(l: string, sep: char, rest: string)
    requires sep !in l
    ensures Line(l + [sep] + rest, sep) == l
  {
    if l == [] {
    } else {
      assert (l + [sep] + rest)[1..] == l[1..] + [sep] + rest;
      LineOfJoin(l[1..], sep, rest);
    }
  }

  /** Splitting on the separator undoes joining with it. */
  lemma {:induction false} SplitOfJoin(ls: seq<string>, sep: char)
    requires |ls| >= 1
    requires forall i :: 0 <= i < |ls| ==> sep !in ls[i]
    ensures SplitOn(JoinOn(ls, sep), sep) == ls
  {
    if |ls| == 1 {
      assert Line(ls[0], sep) == ls[0];
    } else {
      var rest := JoinOn(ls[1..], sep);
      var s := JoinOn(ls, sep);
      assert s == ls[0] + [sep] + rest;
      LineOfJoin(ls[0], sep, rest);
      assert s[|ls[0]| + 1..] == rest;
      SplitOfJoin(ls[1..], sep);
    }
  }

  /** Joining the pieces of a split gives the text back. */
  lemma {:induction false} JoinOfSplit(s: string, sep: char)
    ensures JoinOn(SplitOn(s, sep), sep) == s
    decreases |s|
  {
    var l := Line(s, sep);
    if |l| < |s| {
      var tail := s[|l| + 1..];
      var pieces := SplitOn(tail, sep);
      assert SplitOn(s, sep) == [l] + pieces;
      assert ([l] + pieces)[1..] == pieces;
      assert JoinOn(SplitOn(s, sep), sep) == l + [sep] + JoinOn(pieces, sep);
      JoinOfSplit(tail, sep);
      assert s == l + [sep] + tail;
    } else {
      assert SplitOn(s, sep) == [s];
    }
  }

  /** A text without the separator is one piece. */
  lemma SplitOnWithout(s: string, sep: char)
    requires sep !in s
    ensures SplitOn(s, sep) == [s]
  {
  }

  /** Joining two non-empty runs of lines puts one separator between them. */
  lemma {:induction false} JoinOnAppend(a: seq<string>, b: seq<string>, sep: char)
    requires a != [] && b != []
    ensures JoinOn(a + b, sep) == JoinOn(a, sep) + [sep] + JoinOn(b, sep)
  {
    if |a| == 1 {
      assert (a + b)[1..] == b;
    } else {
      assert (a + b)[1..] == a[1..] + b;
      JoinOnAppend(a[1..], b, sep);
      assert JoinOn(a + b, sep) == a[0] + [sep] + JoinOn(a[1..] + b, sep);
    }
  }

  /** Splitting at a separator splits the two sides apart. */
  lemma {:induction false} SplitOnAround(a: string, b: string, sep: char)
    ensures SplitOn(a + [sep] + b, sep) == SplitOn(a, sep) + SplitOn(b, sep)
    decreases |a|
  {
    var s := a + [sep] + b;
    var l := Line(a, sep);
    if |l| == |a| {
      assert l == a;
      assert SplitOn(a, sep) == [a];
      LineOfJoin(a, sep, b);
      assert s[|a| + 1..] == b;
      assert SplitOn(s, sep) == [a] + SplitOn(b, sep);
    } else {
      var rest := a[|l| + 1..];
      var tail := rest + [sep] + b;
      assert SplitOn(a, sep) == [l] + SplitOn(rest, sep);
      AppendIsAssociative(l, [sep], tail);
      assert s == l + [sep] + tail;
      LineOfJoin(l, sep, tail);
      assert s[|l| + 1..] == tail;
      assert SplitOn(s, sep) == [l] + SplitOn(tail, sep);
      SplitOnAround(rest, b, sep);
      AppendIsAssociative([l], SplitOn(rest, sep), SplitOn(b, sep));
    }
  }

  // ---------------------------------------------------------------------
  // `str(n)` for an integer.

  function DigitChar(d: nat): (c: char)
    requires d < 10
    ensures '0' <= c <= '9' && (c as int) - ('0' as int) == d
  {
    (('0' as int) + d) as char
  }

  predicate IsDigit(c: char) {
    '0' <= c <= '9'
  }

  /** A string of decimal digits (read from the right, as its value is computed). */
  predicate IsDigits(s: string) {
    s == [] || (IsDigit(s[|s| - 1]) && IsDigits(s[..|s| - 1]))
  }

  lemma {:induction false} DigitsAt(s: string, i: int)
    requires IsDigits(s) && 0 <= i < |s|
    ensures IsDigit(s[i])
  {
    if i < |s| - 1 {
      DigitsAt(s[..|s| - 1], i);
    }
  }

  /** Decimal digits of a natural number, without leading zeros. */
  function NatText(n: nat): (s: string)
    ensures s != [] && IsDigits(s)
    ensures |s| > 1 ==> s[0] != '0'
  {
    if n < 10 then [DigitChar(n)] else NatText(n / 10) + [DigitChar(n % 10)]
  }

  /** `str(i)` for a Python int. */
  function IntText(i: int): (s: string)
    ensures s != [] && NoSpace(s)
    ensures IsStripped(s)
    ensures i >= 0 ==> IsDigits(s)
    ensures i < 0 ==> s[0] == '-' && IsDigits(s[1..])
  {
    var ds := NatText(if i >= 0 then i else -i);
    forall k | 0 <= k < |ds| ensures !IsSpace(ds[k]) {
      DigitsAt(ds, k);
    }
    if i >= 0 then ds else "-" + ds
  }

  // ---------------------------------------------------------------------
  // The order `sorted()` puts strings in: lexicographic by code point.

  predicate LessEq(a: string, b: string) {
    a == [] || (b != [] && (a[0] < b[0] || (a[0] == b[0] && LessEq(a[1..], b[1..]))))
  }

  lemma {:induction false} LessEqTotal(a: string, b: string)
    ensures LessEq(a, b) || LessEq(b, a)
  {
    if a != [] && b != [] && a[0] == b[0] {
      LessEqTotal(a[1..], b[1..]);
    }
  }

  lemma {:induction false} LessEqTransitive(a: string, b: string, c: string)
    requires LessEq(a, b) && LessEq(b, c)
    ensures LessEq(a, c)
  {
    if a != [] && b != [] && c != [] && a[0] == b[0] == c[0] {
      LessEqTransitive(a[1..], b[1..], c[1..]);
    }
  }

  lemma {:induction false} LessEqAntisymmetric(a: string, b: string)
    requires LessEq(a, b) && LessEq(b, a)
    ensures a == b
  {
    if a != [] && b != [] {
      LessEqAntisymmetric(a[1..], b[1..]);
      assert a == [a[0]] + a[1..] && b == [b[0]] + b[1..];
    }
  }
}
