/** Concatenating sequences. */
module Sequences {

  function Flatten<T>(parts: seq<seq<T>>): seq<T> {
    if parts == [] then [] else Flatten(parts[..|parts| - 1]) + parts[|parts| - 1]
  }

  lemma FlattenStep<T>(parts: seq<seq<T>>, k: nat)
    requires k < |parts|
    ensures Flatten(parts[..k + 1]) == Flatten(parts[..k]) + parts[k]
  {
    assert parts[..k + 1][..k] == parts[..k];
  }

  lemma {:induction false} FlattenConcat<T>(a: seq<seq<T>>, b: seq<seq<T>>)
    ensures Flatten(a + b) == Flatten(a) + Flatten(b)
  {
    if b == [] {
      assert a + b == a;
    } else {
      assert (a + b)[..|a + b| - 1] == a + b[..|b| - 1];
      FlattenConcat(a, b[..|b| - 1]);
    }
  }

  /** What `f` yields for each index below `n`, in order. */
  function Collect<T>(f: nat -> seq<T>, n: nat): seq<T> {
    if n == 0 then [] else Collect(f, n - 1) + f(n - 1)
  }

  lemma {:induction false} CollectsNothing<T>(f: nat -> seq<T>, n: nat)
    ensures Collect(f, n) == [] <==> forall i: nat :: i < n ==> f(i) == []
    decreases n
  {
    if n > 0 {
      CollectsNothing(f, n - 1);
    }
  }
}
