/**
 * Facts about concatenation and slicing, stated for any element type so that
 * using them on strings or on sequences of messages never compares elements.
 */
module Seqs {
  lemma AppendAssociative<T>(a: seq<T>, b: seq<T>, c: seq<T>)
    ensures (a + b) + c == a + (b + c)
  {
  }

  lemma ConsTail<T>(xs: seq<T>)
    requires xs != []
    ensures [xs[0]] + xs[1..] == xs
  {
  }

  lemma DropTake<T>(s: seq<T>, i: nat, j: nat)
    requires i <= j <= |s|
    ensures s[i..][..j - i] == s[i..j]
  {
  }

  lemma DropDrop<T>(s: seq<T>, a: nat, b: nat)
    requires a + b <= |s|
    ensures s[a..][b..] == s[a + b..]
  {
  }

  lemma TakeTake<T>(s: seq<T>, m: nat, n: nat)
    requires n <= m <= |s|
    ensures s[..m][..n] == s[..n]
  {
  }

  lemma DropAppend<T>(x: seq<T>, t: seq<T>, n: nat)
    requires n <= |x|
    ensures (x + t)[n..] == x[n..] + t
  {
  }

  lemma TakeAppend<T>(x: seq<T>, t: seq<T>)
    ensures (x + t)[..|x|] == x
  {
  }

  lemma DropPrefix<T>(x: seq<T>, t: seq<T>)
    ensures (x + t)[|x|..] == t
  {
  }
}
