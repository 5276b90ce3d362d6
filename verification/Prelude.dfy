// Small vocabulary shared by every module.
module Prelude {
  datatype Option<+T> = None | Some(value: T)

  function Min(a: int, b: int): int {
    if a <= b then a else b
  }

  function Max(a: int, b: int): int {
    if a <= b then b else a
  }

  function Last<T>(s: seq<T>): T
    requires s != []
  {
    s[|s| - 1]
  }

  function Front<T>(s: seq<T>): seq<T>
    requires s != []
  {
    s[..|s| - 1]
  }

  /** Strictly increasing indices below `n`. */
  predicate Increasing(ix: seq<nat>, n: nat) {
    (forall j :: 0 <= j < |ix| ==> ix[j] < n) && forall j, k :: 0 <= j < k < |ix| ==> ix[j] < ix[k]
  }

  lemma IncreasingSnoc(ix: seq<nat>, n: nat)
    requires Increasing(ix, n)
    ensures Increasing(ix, n + 1) && Increasing(ix + [n], n + 1)
  {
  }

  /** One index more is taken or not. */
  lemma NextIndex(f: seq<nat>, n: nat, take: bool) returns (ix: seq<nat>)
    requires Increasing(f, n)
    ensures ix == if take then f + [n] else f
    ensures (forall i :: 0 <= i < n ==> (i in ix <==> i in f)) && (n in ix <==> take)
  {
    ix := if take then f + [n] else f;
  }

  /** `chunk` occurs in `data` at position `pos`. */
  predicate At<T(==)>(data: seq<T>, pos: nat, chunk: seq<T>) {
    pos + |chunk| <= |data| && forall i :: 0 <= i < |chunk| ==> data[pos + i] == chunk[i]
  }

  lemma AtSplit<T>(data: seq<T>, pos: nat, a: seq<T>, b: seq<T>)
    requires At(data, pos, a + b)
    ensures At(data, pos, a) && At(data, pos + |a|, b)
  {
    forall i | 0 <= i < |a| ensures data[pos + i] == a[i] {
      assert (a + b)[i] == a[i];
    }
    forall i | 0 <= i < |b| ensures data[pos + |a| + i] == b[i] {
      assert (a + b)[|a| + i] == b[i];
    }
  }
}
