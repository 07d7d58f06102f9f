/**
 * `movies.filter((movie) => movie.id !== id)`, the removal rule shared by the
 * watchlist reducer and the per-user watchlist context, with its properties.
 */
module MovieLists {
  import opened AppActions

  /** The movies of `ms` whose id differs from `k`, in their original order. */
  function WithoutId(ms: seq<Movie>, k: int): (r: seq<Movie>)
    ensures forall m :: m in r <==> m in ms && m.id != k
    ensures |r| <= |ms|
  {
    if ms == [] then []
    else
      assert ms == [ms[0]] + ms[1..];
      (if ms[0].id == k then [] else [ms[0]]) + WithoutId(ms[1..], k)
  }

  /** No entry with id `k` is left. */
  lemma WithoutIdRemovesAll(ms: seq<Movie>, k: int)
    ensures forall i :: 0 <= i < |WithoutId(ms, k)| ==> WithoutId(ms, k)[i].id != k
  {
    var r := WithoutId(ms, k);
    forall i | 0 <= i < |r| ensures r[i].id != k {
      assert r[i] in r;
    }
  }

  /** Filtering distributes over concatenation: the survivors keep their relative order. */
  lemma {:induction false} WithoutIdConcat(a: seq<Movie>, b: seq<Movie>, k: int)
    ensures WithoutId(a + b, k) == WithoutId(a, k) + WithoutId(b, k)
  {
    if a == [] {
      assert a + b == b;
    } else {
      assert (a + b)[0] == a[0];
      assert (a + b)[1..] == a[1..] + b;
      WithoutIdConcat(a[1..], b, k);
    }
  }

  /** Every movie with another id keeps all its occurrences; those with id `k` keep none. */
  lemma {:induction false} WithoutIdCounts(ms: seq<Movie>, k: int, m: Movie)
    ensures multiset(WithoutId(ms, k))[m] == if m.id == k then 0 else multiset(ms)[m]
  {
    if ms != [] {
      assert ms == [ms[0]] + ms[1..];
      WithoutIdCounts(ms[1..], k, m);
    }
  }

  /** Removing an id that no entry carries changes nothing. */
  lemma {:induction false} WithoutIdAbsent(ms: seq<Movie>, k: int)
    requires forall i :: 0 <= i < |ms| ==> ms[i].id != k
    ensures WithoutId(ms, k) == ms
  {
    if ms != [] {
      WithoutIdAbsent(ms[1..], k);
      assert ms == [ms[0]] + ms[1..];
    }
  }

  /** Removing the same id twice is the same as removing it once. */
  lemma WithoutIdIdempotent(ms: seq<Movie>, k: int)
    ensures WithoutId(WithoutId(ms, k), k) == WithoutId(ms, k)
  {
    WithoutIdRemovesAll(ms, k);
    WithoutIdAbsent(WithoutId(ms, k), k);
  }
}
