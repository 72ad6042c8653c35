/**
 * The three operations of Go's `strings` package that the line filter uses:
 * `TrimSpace`, `IndexByte` (behind `SplitN` with a one-character separator)
 * and `SplitN(s, sep, 2)`. Strings are sequences of already-decoded characters.
 */
module GoStrings {
  import opened Seqs

  /**
   * Go's `unicode.IsSpace`: the ASCII spaces '\t', '\n', '\v', '\f', '\r', ' ',
   * the Latin-1 spaces U+0085 and U+00A0, and the rest of Unicode's White_Space
   * table. `strings.TrimSpace` trims exactly the characters this predicate accepts.
   */
  predicate IsSpace(c: char) {
    c == ' ' || ('\t' <= c <= '\r') || c == '\U{0085}' || c == '\U{00A0}'
    || c == '\U{1680}' || ('\U{2000}' <= c <= '\U{200A}') || c == '\U{2028}'
    || c == '\U{2029}' || c == '\U{202F}' || c == '\U{205F}' || c == '\U{3000}'
  }

  /** Drops the leading white space of `s`. */
  function TrimLeft(s: string): (r: string)
    ensures |r| <= |s| && r == s[|s| - |r|..]
    ensures forall k :: 0 <= k < |s| - |r| ==> IsSpace(s[k])
    ensures r == [] || !IsSpace(r[0])
  {
    if s != [] && IsSpace(s[0]) then TrimLeft(s[1..]) else s
  }

  /** Drops the trailing white space of `s`. */
  function TrimRight(s: string): (r: string)
    ensures |r| <= |s| && r == s[..|r|]
    ensures forall k :: |r| <= k < |s| ==> IsSpace(s[k])
    ensures r == [] || !IsSpace(r[|r| - 1])
  {
    if s != [] && IsSpace(s[|s| - 1]) then TrimRight(s[..|s| - 1]) else s
  }

  /** `strings.TrimSpace`: drops the leading and the trailing white space. */
  function TrimSpace(s: string): string {
    TrimRight(TrimLeft(s))
  }

  /**
   * The trimmed text starts and ends with a character that is not white space,
   * and it is empty exactly when `s` is white space only. TrimSpaceUnique below
   * shows that it is the one slice of `s` with these ends and with only white
   * space around it.
   */
  lemma TrimSpaceTrims(s: string)
    ensures TrimSpace(s) == [] || (!IsSpace(TrimSpace(s)[0]) && !IsSpace(TrimSpace(s)[|TrimSpace(s)| - 1]))
    ensures TrimSpace(s) == [] <==> forall k :: 0 <= k < |s| ==> IsSpace(s[k])
  {
    var l := TrimLeft(s);
    var r := TrimRight(l);
    var i := |s| - |l|;
    assert TrimSpace(s) == r;
    if r != [] {
      // The first kept character is not white space.
      assert s[i] == l[0] == r[0];
      assert !IsSpace(s[i]);
    } else {
      TrimmedAwayIsSpace(s);
    }
  }

  /** When nothing is left after trimming, every character was white space. */
  lemma TrimmedAwayIsSpace(s: string)
    requires TrimSpace(s) == []
    ensures forall k :: 0 <= k < |s| ==> IsSpace(s[k])
  {
    // A non-space first character left by TrimLeft would survive TrimRight.
    assert TrimLeft(s) == [];
  }

  /**
   * Any slice `s[i..j]` that has only white space before and after it in `s`,
   * and that does not itself start or end with white space, is `TrimSpace(s)`.
   */
  lemma TrimSpaceUnique(s: string, i: nat, j: nat)
    requires i <= j <= |s|
    requires forall k :: 0 <= k < i ==> IsSpace(s[k])
    requires forall k :: j <= k < |s| ==> IsSpace(s[k])
    requires i < j ==> !IsSpace(s[i]) && !IsSpace(s[j - 1])
    ensures TrimSpace(s) == s[i..j]
  {
    if i < j {
      TrimLeftAt(s, i);
      SpaceAfterInSuffix(s, i, j);
      TrimRightAt(s[i..], j - i);
      DropTake(s, i, j);
    } else {
      AllSpace(s, i);
      TrimSpaceTrims(s);
    }
  }

  lemma SpaceAfterInSuffix(s: string, i: nat, j: nat)
    requires i <= j <= |s|
    requires forall k :: j <= k < |s| ==> IsSpace(s[k])
    ensures forall k :: j - i <= k < |s[i..]| ==> IsSpace(s[i..][k])
  {
    forall k | j - i <= k < |s[i..]| ensures IsSpace(s[i..][k]) { assert s[i..][k] == s[i + k]; }
  }

  lemma AllSpace(s: string, i: nat)
    requires i <= |s|
    requires forall k :: 0 <= k < i ==> IsSpace(s[k])
    requires forall k :: i <= k < |s| ==> IsSpace(s[k])
    ensures forall k :: 0 <= k < |s| ==> IsSpace(s[k])
  {
    forall k | 0 <= k < |s| ensures IsSpace(s[k]) { if k < i { } }
  }

  /** TrimLeft stops at the first character that is not white space. */
  lemma {:induction false} TrimLeftAt(s: string, i: nat)
    requires i < |s| && !IsSpace(s[i])
    requires forall k :: 0 <= k < i ==> IsSpace(s[k])
    ensures TrimLeft(s) == s[i..]
  {
    if i > 0 {
      assert forall k :: 0 <= k < i - 1 ==> IsSpace(s[1..][k]) by {
        forall k | 0 <= k < i - 1 ensures IsSpace(s[1..][k]) { assert s[1..][k] == s[k + 1]; }
      }
      TrimLeftAt(s[1..], i - 1);
      DropDrop(s, 1, i - 1);
    }
  }

  /** TrimRight stops after the last character that is not white space. */
  lemma {:induction false} TrimRightAt(s: string, j: nat)
    requires 0 < j <= |s| && !IsSpace(s[j - 1])
    requires forall k :: j <= k < |s| ==> IsSpace(s[k])
    ensures TrimRight(s) == s[..j]
    decreases |s|
  {
    if j < |s| {
      var t := s[..|s| - 1];
      assert forall k :: j <= k < |t| ==> IsSpace(t[k]) by {
        forall k | j <= k < |t| ensures IsSpace(t[k]) { assert t[k] == s[k]; }
      }
      TrimRightAt(t, j);
      TakeTake(s, |s| - 1, j);
    }
  }

  /**
   * The '\n' that ends a line read by `ReadString` is white space, so trimming
   * the line with or without its terminator gives the same text.
   */
  lemma TrimSpaceDropsNewline(x: string)
    ensures TrimSpace(x + "\n") == TrimSpace(x)
  {
    var l := TrimLeft(x);
    if l == [] {
      AllSpaceAppendNewline(x);
      TrimSpaceTrims(x + "\n");
    } else {
      TrimLeftAppend(x, "\n");
      TrimRightDropsNewline(l);
    }
  }

  lemma AllSpaceAppendNewline(x: string)
    requires forall k :: 0 <= k < |x| ==> IsSpace(x[k])
    ensures forall k :: 0 <= k < |x + "\n"| ==> IsSpace((x + "\n")[k])
  {
    forall k | 0 <= k < |x + "\n"| ensures IsSpace((x + "\n")[k]) {
      if k < |x| { assert (x + "\n")[k] == x[k]; }
    }
  }

  lemma TrimRightDropsNewline(y: string)
    ensures TrimRight(y + "\n") == TrimRight(y)
  {
    TakeAppend(y, "\n");
  }

  /** Once a non-space character is reached, what follows is kept as it is. */
  lemma {:induction false} TrimLeftAppend(x: string, t: string)
    requires TrimLeft(x) != []
    ensures TrimLeft(x + t) == TrimLeft(x) + t
  {
    if IsSpace(x[0]) {
      DropAppend(x, t, 1);
      TrimLeftAppend(x[1..], t);
    }
  }

  /** The position of the first `c` in `s`, or `|s|` when `s` holds none (Go's `IndexByte`, with -1 as `|s|`). */
  function IndexOf(s: string, c: char): (i: nat)
    ensures i <= |s|
    ensures i < |s| ==> s[i] == c
    ensures forall k :: 0 <= k < i ==> s[k] != c
  {
    if s == [] then 0
    else if s[0] == c then 0
    else 1 + IndexOf(s[1..], c)
  }

  /**
   * `strings.SplitN(s, string(sep), 2)`: the text before the first `sep`, and,
   * when there is one, the text after it. There is always at least one part,
   * also for the empty string.
   */
  function SplitN2(s: string, sep: char): (parts: seq<string>)
    ensures 1 <= |parts| <= 2
    ensures sep !in parts[0]
    ensures |parts| == 1 ==> parts[0] == s && sep !in s
    ensures |parts| == 2 ==> s == parts[0] + [sep] + parts[1]
  {
    var i := IndexOf(s, sep);
    if i == |s| then [s]
    else
      assert s == s[..i] + [sep] + s[i + 1..];
      [s[..i], s[i + 1..]]
  }
}
