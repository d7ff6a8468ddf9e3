/** Sequences of sequences: batches of requests and chunks of a listing. */
module Seqs {

  /** All elements of all parts, part after part. */
  function Flatten<T>(parts: seq<seq<T>>): seq<T>
  {
    if parts == [] then [] else Flatten(parts[..|parts| - 1]) + parts[|parts| - 1]
  }

  lemma {:induction false} FlattenAppend<T>(a: seq<seq<T>>, b: seq<seq<T>>)
    ensures Flatten(a + b) == Flatten(a) + Flatten(b)
    decreases |b|
  {
    if b == [] {
      assert a + b == a;
    } else {
      var n := |b|;
      assert (a + b)[..|a + b| - 1] == a + b[..n - 1];
      assert (a + b)[|a + b| - 1] == b[n - 1];
      FlattenAppend(a, b[..n - 1]);
      calc {
        Flatten(a + b);
        Flatten(a + b[..n - 1]) + b[n - 1];
        Flatten(a) + Flatten(b[..n - 1]) + b[n - 1];
        Flatten(a) + Flatten(b);
      }
    }
  }

  lemma FlattenCons<T>(x: seq<T>, rest: seq<seq<T>>)
    ensures Flatten([x] + rest) == x + Flatten(rest)
  {
    FlattenAppend([x], rest);
    assert [x][..0] == [];
  }

  /** The results of f on each element, concatenated in order. */
  function FlatMap<A, B>(f: A -> seq<B>, xs: seq<A>): seq<B>
  {
    if xs == [] then [] else FlatMap(f, xs[..|xs| - 1]) + f(xs[|xs| - 1])
  }

  lemma {:induction false} FlatMapAppend<A, B>(f: A -> seq<B>, a: seq<A>, b: seq<A>)
    ensures FlatMap(f, a + b) == FlatMap(f, a) + FlatMap(f, b)
    decreases |b|
  {
    if b == [] {
      assert a + b == a;
    } else {
      var n := |b|;
      assert (a + b)[..|a + b| - 1] == a + b[..n - 1];
      FlatMapAppend(f, a, b[..n - 1]);
    }
  }

  lemma FlatMapPush<A, B>(f: A -> seq<B>, xs: seq<A>, k: nat)
    requires k < |xs|
    ensures FlatMap(f, xs[..k + 1]) == FlatMap(f, xs[..k]) + f(xs[k])
  {
    assert xs[..k + 1][..k] == xs[..k];
  }

  /** When f yields at most one result per element, so does FlatMap. */
  lemma {:induction false} FlatMapAtMostOne<A, B>(f: A -> seq<B>, xs: seq<A>)
    requires forall i :: 0 <= i < |xs| ==> |f(xs[i])| <= 1
    ensures |FlatMap(f, xs)| <= |xs|
  {
    if xs != [] {
      FlatMapAtMostOne(f, xs[..|xs| - 1]);
    }
  }

  lemma {:induction false} FlatMapNone<A, B>(f: A -> seq<B>, xs: seq<A>)
    requires forall i :: 0 <= i < |xs| ==> f(xs[i]) == []
    ensures FlatMap(f, xs) == []
  {
    if xs != [] {
      FlatMapNone(f, xs[..|xs| - 1]);
    }
  }

  /** One FlatMap per part. */
  function MapParts<A, B>(f: A -> seq<B>, parts: seq<seq<A>>): seq<seq<B>>
  {
    if parts == [] then [] else MapParts(f, parts[..|parts| - 1]) + [FlatMap(f, parts[|parts| - 1])]
  }

  lemma MapPartsPush<A, B>(f: A -> seq<B>, parts: seq<seq<A>>, k: nat)
    requires k < |parts|
    ensures MapParts(f, parts[..k + 1]) == MapParts(f, parts[..k]) + [FlatMap(f, parts[k])]
  {
    assert parts[..k + 1][..k] == parts[..k];
  }

  lemma {:induction false} MapPartsShape<A, B>(f: A -> seq<B>, parts: seq<seq<A>>)
    ensures |MapParts(f, parts)| == |parts|
    ensures forall i :: 0 <= i < |parts| ==> MapParts(f, parts)[i] == FlatMap(f, parts[i])
    ensures Flatten(MapParts(f, parts)) == FlatMap(f, Flatten(parts))
  {
    if parts != [] {
      var n := |parts|;
      var pre := parts[..n - 1];
      MapPartsShape(f, pre);
      FlattenAppend(MapParts(f, pre), [FlatMap(f, parts[n - 1])]);
      FlattenAppend(pre, [parts[n - 1]]);
      assert Flatten([FlatMap(f, parts[n - 1])]) == FlatMap(f, parts[n - 1]) by {
        assert [FlatMap(f, parts[n - 1])][..0] == [];
      }
      assert Flatten([parts[n - 1]]) == parts[n - 1] by { assert [parts[n - 1]][..0] == []; }
      assert pre + [parts[n - 1]] == parts;
      FlatMapAppend(f, Flatten(pre), parts[n - 1]);
    }
  }
}
