/**
 * Facts about sequences of any element type, stated once so that proofs
 * over sequences of strings or of elements can use them without looking
 * inside the elements.
 */
module Sequences {

  lemma InitAndLast<T>(s: seq<T>)
    requires s != []
    ensures s == s[..|s| - 1] + [s[|s| - 1]]
  {
  }

  lemma HeadAndTail<T>(s: seq<T>)
    requires s != []
    ensures s == [s[0]] + s[1..]
  {
  }

  lemma AppendIsAssociative<T>(a: seq<T>, b: seq<T>, c: seq<T>)
    ensures a + b + c == a + (b + c)
  {
  }

  lemma AppendEmpty<T>(a: seq<T>)
    ensures a + [] == a && [] + a == a
  {
  }

  lemma TakeOfTake<T>(s: seq<T>, i: nat, j: nat)
    requires i <= j <= |s|
    ensures s[..j][..i] == s[..i]
  {
  }

  lemma TakeAll<T>(s: seq<T>)
    ensures s[..|s|] == s
  {
  }

  /** A prefix of a suffix is a slice. */
  lemma SliceOfSlice<T>(s: seq<T>, t: seq<T>, r: seq<T>, k: nat)
    requires k <= |s| && t == s[k..] && |r| <= |t| && r == t[..|r|]
    ensures k + |r| <= |s| && r == s[k..k + |r|]
  {
  }

  lemma NotInSlice<T>(s: seq<T>, x: T, i: nat, j: nat)
    requires i <= j <= |s| && x !in s
    ensures x !in s[i..j]
  {
    forall k | 0 <= k < j - i ensures s[i..j][k] != x {
      assert s[i..j][k] == s[i + k];
    }
  }

  lemma FrontOfAppend<T>(a: seq<T>, b: seq<T>)
    ensures (a + b)[..|a|] == a
  {
  }

  lemma InitOfAppend<T>(a: seq<T>, b: seq<T>)
    requires b != []
    ensures (a + b)[..|a + b| - 1] == a + b[..|b| - 1] && (a + b)[|a + b| - 1] == b[|b| - 1]
  {
  }

  lemma Singleton<T>(x: T)
    ensures [x][..0] == [] && [x][1..] == []
  {
  }
}
