/** Sequence-of-text helpers shared by the converter: Python's `str.join`,
    the concatenation of everything written to a file, and prefix/suffix tests. */
module Text {

  /** `sep.join(xs)` */
  function Join(sep: string, xs: seq<string>): string
  {
    if |xs| == 0 then ""
    else if |xs| == 1 then xs[0]
    else xs[0] + sep + Join(sep, xs[1..])
  }

  /** The text of a file after writing each element of `ws` in turn. */
  function Flatten(ws: seq<string>): string
  {
    if ws == [] then "" else ws[0] + Flatten(ws[1..])
  }

  predicate StartsWith(s: string, p: string)
  {
    |p| <= |s| && s[..|p|] == p
  }

  predicate EndsWith(s: string, p: string)
  {
    |p| <= |s| && s[|s| - |p|..] == p
  }

  /** Total length of the elements of `xs`. */
  function TotalLength(xs: seq<string>): nat
  {
    if xs == [] then 0 else |xs[0]| + TotalLength(xs[1..])
  }

  /** Where element `i` of `xs` begins in `sep.join(xs)`. */
  function JoinOffset(sep: string, xs: seq<string>, i: nat): nat
    requires i <= |xs|
  {
    if i == 0 then 0 else |xs[0]| + |sep| + JoinOffset(sep, xs[1..], i - 1)
  }

  /** Appending one more element to a join adds the separator and that element. */
  lemma {:induction false} JoinSnoc(sep: string, xs: seq<string>, x: string)
    ensures Join(sep, xs + [x]) == if xs == [] then x else Join(sep, xs) + sep + x
  {
    if |xs| == 0 {
      assert xs + [x] == [x];
    } else if |xs| == 1 {
      assert xs + [x] == [xs[0], x];
      assert (xs + [x])[1..] == [x];
    } else {
      assert (xs + [x])[1..] == xs[1..] + [x];
      JoinSnoc(sep, xs[1..], x);
    }
  }

  /** A join is one separator shorter per gap than the elements and separators together. */
  lemma {:induction false} JoinLength(sep: string, xs: seq<string>)
    requires xs != []
    ensures |Join(sep, xs)| == TotalLength(xs) + (|xs| - 1) * |sep|
  {
    if |xs| > 1 {
      JoinLength(sep, xs[1..]);
    }
  }

  lemma {:induction false} TotalLengthAppend(xs: seq<string>, ys: seq<string>)
    ensures TotalLength(xs + ys) == TotalLength(xs) + TotalLength(ys)
  {
    if xs == [] {
      assert xs + ys == ys;
    } else {
      assert (xs + ys)[1..] == xs[1..] + ys;
      TotalLengthAppend(xs[1..], ys);
    }
  }

  /** `x` occurs in `s` starting at offset `o`. */
  predicate OccursAt(s: string, o: int, x: string)
  {
    0 <= o && o + |x| <= |s| && s[o..o + |x|] == x
  }

  /** Element `i` of `xs` sits in `sep.join(xs)` at `JoinOffset(sep, xs, i)`, and,
      unless it is the last one, the separator follows it. */
  lemma {:induction false} JoinAt(sep: string, xs: seq<string>, i: nat)
    requires i < |xs|
    ensures OccursAt(Join(sep, xs), JoinOffset(sep, xs, i), xs[i])
    ensures i + 1 < |xs| ==> OccursAt(Join(sep, xs), JoinOffset(sep, xs, i) + |xs[i]|, sep)
  {
    if i == 0 {
      if |xs| > 1 {
        HeadSlices(xs[0], sep, Join(sep, xs[1..]));
      } else {
        assert xs[0][0..|xs[0]|] == xs[0];
      }
    } else {
      var rest := Join(sep, xs[1..]);
      var o := JoinOffset(sep, xs[1..], i - 1);
      JoinAt(sep, xs[1..], i - 1);
      assert Join(sep, xs) == (xs[0] + sep) + rest;
      SliceAfter(xs[0] + sep, rest, o, o + |xs[i]|);
      if i + 1 < |xs| {
        SliceAfter(xs[0] + sep, rest, o + |xs[i]|, o + |xs[i]| + |sep|);
      }
    }
  }

  lemma HeadSlices(a: string, b: string, c: string)
    ensures (a + b + c)[0..|a|] == a && (a + b + c)[|a|..|a| + |b|] == b
  {
    assert (a + b + c)[0..|a|] == a;
    assert (a + b + c)[|a|..|a| + |b|] == b;
  }

  /** A slice taken past a prefix is a slice of what follows the prefix. */
  lemma SliceAfter(a: string, b: string, x: nat, y: nat)
    requires x <= y <= |b|
    ensures (a + b)[|a| + x..|a| + y] == b[x..y]
  {
    assert forall n :: 0 <= n < y - x ==> (a + b)[|a| + x..|a| + y][n] == b[x..y][n];
  }

  lemma {:induction false} FlattenAppend(xs: seq<string>, ys: seq<string>)
    ensures Flatten(xs + ys) == Flatten(xs) + Flatten(ys)
  {
    if xs == [] {
      assert xs + ys == ys;
    } else {
      assert (xs + ys)[1..] == xs[1..] + ys;
      FlattenAppend(xs[1..], ys);
    }
  }

  lemma FlattenSnoc(ws: seq<string>, w: string)
    ensures Flatten(ws + [w]) == Flatten(ws) + w
  {
    FlattenAppend(ws, [w]);
    FlattenSingleton(w);
  }

  lemma FlattenFour(a: string, b: string, c: string, d: string)
    ensures Flatten([a, b, c, d]) == a + b + c + d
  {
    assert [a, b, c, d][1..] == [b, c, d];
    assert [b, c, d][1..] == [c, d];
    assert [c, d][1..] == [d];
    FlattenSingleton(d);
    assert Flatten([c, d]) == c + d;
    assert Flatten([b, c, d]) == b + (c + d);
    assert Flatten([a, b, c, d]) == a + (b + (c + d));
  }

  lemma FlattenSingleton(x: string)
    ensures Flatten([x]) == x
  {
    assert [x][1..] == [];
  }

  /** A join of at least one element begins with the first element. */
  lemma JoinStartsWithFirst(sep: string, xs: seq<string>)
    requires xs != []
    ensures StartsWith(Join(sep, xs), xs[0])
  {
  }

  /** Joining five elements, written out. */
  lemma JoinFive(sep: string, a: string, b: string, c: string, d: string, e: string)
    ensures Join(sep, [a, b, c, d, e]) == a + sep + b + sep + c + sep + d + sep + e
  {
    JoinSnoc(sep, [a], b);
    assert [a] + [b] == [a, b];
    JoinSnoc(sep, [a, b], c);
    assert [a, b] + [c] == [a, b, c];
    JoinSnoc(sep, [a, b, c], d);
    assert [a, b, c] + [d] == [a, b, c, d];
    JoinSnoc(sep, [a, b, c, d], e);
    assert [a, b, c, d] + [e] == [a, b, c, d, e];
  }
}
