/**
 * Python's `str.split(sep)` and `sep.join(pieces)` for a one-character
 * separator, the two string operations the rates parser is built from.
 */
module Strings {

  /**
   * `sep.join(pieces)`: the pieces with one `sep` between neighbours, so the
   * text starts with the first piece, followed by a separator when more follow.
   */
  function Join(pieces: seq<string>, sep: char): (r: string)
  {
    if |pieces| == 0 then ""
    else if |pieces| == 1 then pieces[0]
    else pieces[0] + [sep] + Join(pieces[1..], sep)
  }

  /**
   * `s.split(sep)`: the maximal runs of `s` between separators. There is
   * always at least one piece (the empty string splits into `[""]`), no piece
   * contains the separator, and joining the pieces gives `s` back.
   */
  function Split(s: string, sep: char): (r: seq<string>)
    ensures |r| >= 1
    ensures forall i :: 0 <= i < |r| ==> sep !in r[i]
    ensures Join(r, sep) == s
    decreases |s|
  {
    if |s| == 0 then [""]
    else
      var rest := Split(s[1..], sep);
      if s[0] == sep then
        assert s == [sep] + s[1..];
        [""] + rest
      else
        var r := [[s[0]] + rest[0]] + rest[1..];
        assert r[1..] == rest[1..];
        assert s == [s[0]] + s[1..];
        r
  }

  lemma JoinCons(a: string, pieces: seq<string>, sep: char)
    requires |pieces| >= 1
    ensures Join([a] + pieces, sep) == a + [sep] + Join(pieces, sep)
  {
    assert ([a] + pieces)[1..] == pieces;
  }

  lemma {:induction false} JoinSnoc(pieces: seq<string>, b: string, sep: char)
    requires |pieces| >= 1
    ensures Join(pieces + [b], sep) == Join(pieces, sep) + [sep] + b
    decreases |pieces|
  {
    if |pieces| == 1 {
      assert pieces + [b] == [pieces[0]] + [b];
      JoinCons(pieces[0], [b], sep);
    } else {
      assert pieces + [b] == [pieces[0]] + (pieces[1..] + [b]);
      JoinCons(pieces[0], pieces[1..] + [b], sep);
      JoinSnoc(pieces[1..], b, sep);
      JoinCons(pieces[0], pieces[1..], sep);
      assert pieces == [pieces[0]] + pieces[1..];
    }
  }

  /** Position of the first occurrence of `c` in `s`. */
  function IndexOf(s: string, c: char): nat
    requires c in s
  {
    if s[0] == c then 0 else 1 + IndexOf(s[1..], c)
  }

  lemma {:induction false} IndexOfAfter(a: string, x: string, sep: char)
    requires sep !in a
    ensures IndexOf(a + [sep] + x, sep) == |a|
  {
    if a != [] {
      assert (a + [sep] + x)[1..] == a[1..] + [sep] + x;
      IndexOfAfter(a[1..], x, sep);
    }
  }

  /** Two strings cut at their first separator agree on both sides of it. */
  lemma FirstSeparator(a: string, x: string, b: string, y: string, sep: char)
    requires sep !in a && sep !in b
    requires a + [sep] + x == b + [sep] + y
    ensures a == b && x == y
  {
    var u := a + [sep] + x;
    IndexOfAfter(a, x, sep);
    IndexOfAfter(b, y, sep);
    assert a == u[..|a|];
    assert x == u[|a| + 1..];
  }

  /**
   * Joining is injective on separator-free, non-empty piece lists, so `Split`
   * is the only such list that joins back to its input.
   */
  lemma {:induction false} JoinInjective(p: seq<string>, q: seq<string>, sep: char)
    requires |p| >= 1 && |q| >= 1
    requires forall i :: 0 <= i < |p| ==> sep !in p[i]
    requires forall i :: 0 <= i < |q| ==> sep !in q[i]
    requires Join(p, sep) == Join(q, sep)
    ensures p == q
    decreases |p|
  {
    if |p| == 1 && |q| == 1 {
    } else if |p| == 1 || |q| == 1 {
      assert false;
    } else {
      FirstSeparator(p[0], Join(p[1..], sep), q[0], Join(q[1..], sep), sep);
      JoinInjective(p[1..], q[1..], sep);
      assert p == [p[0]] + p[1..];
      assert q == [q[0]] + q[1..];
    }
  }

  /** Splitting undoes joining: `sep.join(ps).split(sep) == ps`. */
  lemma SplitJoin(pieces: seq<string>, sep: char)
    requires |pieces| >= 1
    requires forall i :: 0 <= i < |pieces| ==> sep !in pieces[i]
    ensures Split(Join(pieces, sep), sep) == pieces
  {
    JoinInjective(Split(Join(pieces, sep), sep), pieces, sep);
  }

  /** A string splits into more than one piece exactly when it holds the separator. */
  lemma SplitCount(s: string, sep: char)
    ensures |Split(s, sep)| >= 2 <==> sep in s
  {
    var r := Split(s, sep);
    if |r| >= 2 {
      assert s[|r[0]|] == sep;
    } else {
      assert s == r[0];
    }
  }

  /** A piece in front of the first separator is split off unchanged. */
  lemma SplitAfterFirst(a: string, b: string, sep: char)
    requires sep !in a
    ensures Split(a + [sep] + b, sep) == [a] + Split(b, sep)
  {
    var r := [a] + Split(b, sep);
    JoinCons(a, Split(b, sep), sep);
    JoinInjective(Split(a + [sep] + b, sep), r, sep);
  }

  /** A piece behind the last separator is split off unchanged. */
  lemma SplitBeforeLast(a: string, b: string, sep: char)
    requires sep !in b
    ensures Split(a + [sep] + b, sep) == Split(a, sep) + [b]
  {
    var r := Split(a, sep) + [b];
    JoinSnoc(Split(a, sep), b, sep);
    JoinInjective(Split(a + [sep] + b, sep), r, sep);
  }
}
