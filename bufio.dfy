/**
 * `bufio.Reader.ReadString('\n')` over a response body that is read from the
 * front, and what repeated calls of it deliver before the first error: the
 * body's complete ('\n'-terminated) lines, in order, and then the unterminated
 * rest, which comes back together with the error.
 */
module Bufio {
  import opened GoStrings
  import opened Seqs

  /**
   * The outcome of one `ReadString('\n')`: a line up to and including the
   * delimiter with a nil error, or, when no delimiter is left, everything that
   * is left together with a non-nil error (io.EOF at the end of the body).
   */
  datatype ReadResult = Segment(line: string) | Eof(partial: string)

  /** A complete line: it ends with '\n' and holds no other '\n'. */
  predicate IsLine(l: string) {
    |l| > 0 && l[|l| - 1] == '\n' && '\n' !in l[..|l| - 1]
  }

  /** One `ReadString('\n')` on the unread part `rest` of the body. */
  function ReadString(rest: string): (r: ReadResult)
    ensures r.Eof? <==> '\n' !in rest
    ensures r.Eof? ==> r.partial == rest
    ensures r.Segment? ==> IsLine(r.line) && |r.line| <= |rest| && r.line == rest[..|r.line|]
  {
    var i := IndexOf(rest, '\n');
    if i == |rest| then Eof(rest)
    else
      assert rest[..i + 1][..i] == rest[..i];
      Segment(rest[..i + 1])
  }

  /** The lines that successive `ReadString` calls return with a nil error. */
  function CompleteLines(s: string): seq<string>
    decreases |s|
  {
    match ReadString(s)
    case Eof(_) => []
    case Segment(l) => [l] + CompleteLines(s[|l|..])
  }

  /** Every line handed to the loop ends with '\n' and holds no other '\n'. */
  lemma {:induction false} CompleteLinesAreLines(s: string)
    ensures forall k :: 0 <= k < |CompleteLines(s)| ==> IsLine(CompleteLines(s)[k])
    decreases |s|
  {
    match ReadString(s)
    case Eof(_) =>
    case Segment(l) =>
      var rest := CompleteLines(s[|l|..]);
      CompleteLinesAreLines(s[|l|..]);
      assert CompleteLines(s) == [l] + rest;
      forall k | 0 <= k < |[l] + rest| ensures IsLine(([l] + rest)[k]) {
        if k > 0 { assert ([l] + rest)[k] == rest[k - 1]; }
      }
  }

  /** What the last `ReadString` returns together with its error: the text after the last '\n'. */
  function Unterminated(s: string): (t: string)
    ensures '\n' !in t
    decreases |s|
  {
    match ReadString(s)
    case Eof(p) => p
    case Segment(l) => Unterminated(s[|l|..])
  }

  function Concat(lines: seq<string>): string {
    if lines == [] then [] else lines[0] + Concat(lines[1..])
  }

  /** A body is its complete lines followed by its unterminated rest. */
  lemma {:induction false} CompleteLinesPartition(s: string)
    ensures Concat(CompleteLines(s)) + Unterminated(s) == s
    decreases |s|
  {
    match ReadString(s)
    case Eof(_) =>
    case Segment(l) =>
      var rest := s[|l|..];
      var lines, u := CompleteLines(rest), Unterminated(rest);
      assert CompleteLines(s) == [l] + lines;
      assert Unterminated(s) == u;
      assert Concat([l] + lines) == l + Concat(lines) by {
        DropPrefix([l], lines);
      }
      assert Concat(lines) + u == rest by { CompleteLinesPartition(rest); }
      assert s == l + rest;
      AppendAssociative(l, Concat(lines), u);
  }

  /** The first '\n' of `l + rest`, when `l` is a line, is the one that ends `l`. */
  lemma ReadStringOfLine(l: string, rest: string)
    requires IsLine(l)
    ensures ReadString(l + rest) == Segment(l)
  {
    var s := l + rest;
    assert s[|l| - 1] == '\n';
    var r := ReadString(s);
    assert r.line == s[..|l|] == l;
  }

  /**
   * The converse of CompleteLinesPartition: ANY split of a body into complete
   * lines and a rest without '\n' is the one the reader finds.
   */
  lemma {:induction false} CompleteLinesOfConcat(lines: seq<string>, tail: string)
    requires forall k :: 0 <= k < |lines| ==> IsLine(lines[k])
    requires '\n' !in tail
    ensures CompleteLines(Concat(lines) + tail) == lines
    ensures Unterminated(Concat(lines) + tail) == tail
  {
    if lines == [] {
      assert Concat(lines) + tail == tail;
    } else {
      var s := Concat(lines) + tail;
      var rest := Concat(lines[1..]) + tail;
      assert s == lines[0] + rest;
      ReadStringOfLine(lines[0], rest);
      assert s[|lines[0]|..] == rest;
      CompleteLinesOfConcat(lines[1..], tail);
      ConsTail(lines);
    }
  }

  /** Appending text without '\n' to a body adds no complete line. */
  lemma CompleteLinesIgnoreTail(s: string, t: string)
    requires '\n' !in t
    ensures CompleteLines(s + t) == CompleteLines(s)
  {
    var lines, u := CompleteLines(s), Unterminated(s);
    CompleteLinesPartition(s);
    CompleteLinesAreLines(s);
    AppendAssociative(Concat(lines), u, t);
    CompleteLinesOfConcat(lines, u + t);
  }

  /**
   * Reading a body whose first part `a` ends at a line boundary yields the
   * lines of `a` and then the lines of the rest.
   */
  lemma CompleteLinesAppend(a: string, b: string)
    requires a == [] || a[|a| - 1] == '\n'
    ensures CompleteLines(a + b) == CompleteLines(a) + CompleteLines(b)
  {
    var la, u := CompleteLines(a), Unterminated(a);
    assert a == Concat(la) + u by { CompleteLinesPartition(a); }
    // `a` ends at a line boundary, so nothing of it is left unterminated.
    assert u == [];
    CompleteLinesAreLines(a);
    assert a == Concat(la);
    CompleteLinesAfterLines(la, b);
  }

  /** Complete lines at the front of a body are read back one by one, whatever follows them. */
  lemma {:induction false} CompleteLinesAfterLines(ls: seq<string>, b: string)
    requires forall k :: 0 <= k < |ls| ==> IsLine(ls[k])
    ensures CompleteLines(Concat(ls) + b) == ls + CompleteLines(b)
  {
    if ls == [] {
      assert Concat(ls) + b == b;
    } else {
      var rest := Concat(ls[1..]) + b;
      assert Concat(ls) + b == ls[0] + rest;
      assert CompleteLines(ls[0] + rest) == [ls[0]] + CompleteLines(rest) by {
        CompleteLinesCons(ls[0], rest);
      }
      assert CompleteLines(rest) == ls[1..] + CompleteLines(b) by {
        CompleteLinesAfterLines(ls[1..], b);
      }
      AppendAssociative([ls[0]], ls[1..], CompleteLines(b));
      ConsTail(ls);
    }
  }

  /** A body that starts with a complete line yields that line first. */
  lemma CompleteLinesCons(l: string, rest: string)
    requires IsLine(l)
    ensures CompleteLines(l + rest) == [l] + CompleteLines(rest)
  {
    ReadStringOfLine(l, rest);
    DropPrefix(l, rest);
  }

  /** The complete lines of a prefix of a body are a prefix of the body's complete lines. */
  lemma CompleteLinesOfPrefix(d: string, e: string)
    ensures CompleteLines(d + e) == CompleteLines(d) + CompleteLines(Unterminated(d) + e)
  {
    var lines, u := CompleteLines(d), Unterminated(d);
    CompleteLinesAreLines(d);
    var p := Concat(lines);
    assert d == p + u by { CompleteLinesPartition(d); }
    assert d + e == p + (u + e);
    assert CompleteLines(p) == lines by {
      CompleteLinesOfConcat(lines, []);
      assert p + [] == p;
    }
    assert p == [] || p[|p| - 1] == '\n' by {
      if p != [] {
        ConcatEndsWithNewline(lines);
      }
    }
    CompleteLinesAppend(p, u + e);
  }

  lemma {:induction false} ConcatEndsWithNewline(lines: seq<string>)
    requires forall k :: 0 <= k < |lines| ==> IsLine(lines[k])
    requires Concat(lines) != []
    ensures Concat(lines)[|Concat(lines)| - 1] == '\n'
  {
    if Concat(lines[1..]) == [] {
      assert Concat(lines) == lines[0] + [];
    } else {
      ConcatEndsWithNewline(lines[1..]);
    }
  }
}
