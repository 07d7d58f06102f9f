/**
 * How the actor screen shapes an actor's movie credits before listing them:
 * each credit becomes a record with a release year (or "N/A"), and the
 * records are sorted newest first with the undated ones last.
 */
module ActorMoviesScreen {
  import opened Wrappers
  import opened StringOrder

  /** One entry of the `cast` array of a person's movie credits (`poster_path`, `release_date` may be null). */
  datatype Credit = Credit(id: int, title: string, posterPath: Option<string>, releaseDate: Option<string>)

  /** The record the screen builds from a credit. */
  datatype FilmEntry = FilmEntry(id: int, title: string, posterPath: Option<string>, releaseYear: string)

  /** The placeholder year of a credit without a release date. */
  const NotAvailable: string := "N/A"

  /** `s.split('-')[0]`: the longest prefix of `s` without a dash. */
  function BeforeDash(s: string): (r: string)
    ensures r <= s
    ensures '-' !in r
    ensures |r| < |s| ==> s[|r|] == '-'
  {
    if s == [] || s[0] == '-' then []
    else
      assert s == [s[0]] + s[1..];
      [s[0]] + BeforeDash(s[1..])
  }

  /**
   * The `releaseYear` of a credit: the text before the first dash of its
   * date, or "N/A" when the date is missing or empty (both falsy).
   */
  function ReleaseYear(date: Option<string>): (r: string)
    ensures date.None? || date.value == "" ==> r == NotAvailable
    ensures date.Some? && date.value != "" ==>
      r <= date.value && '-' !in r && (|r| < |date.value| ==> date.value[|r|] == '-')
  {
    if date.Some? && date.value != "" then BeforeDash(date.value) else NotAvailable
  }

  function ToFilmEntry(c: Credit): FilmEntry {
    FilmEntry(c.id, c.title, c.posterPath, ReleaseYear(c.releaseDate))
  }

  /** The `.map` over the credits: one record per credit, in the same order. */
  function MapCredits(cast: seq<Credit>): (r: seq<FilmEntry>)
    ensures |r| == |cast|
    ensures forall i :: 0 <= i < |cast| ==>
      && r[i].id == cast[i].id
      && r[i].title == cast[i].title
      && r[i].posterPath == cast[i].posterPath
      && r[i].releaseYear == ReleaseYear(cast[i].releaseDate)
  {
    seq(|cast|, i requires 0 <= i < |cast| => ToFilmEntry(cast[i]))
  }

  predicate Undated(e: FilmEntry) {
    e.releaseYear == NotAvailable
  }

  /** `x` may be listed before `y`: `y` is undated, or both are dated and `x` is no older. */
  predicate InOrder(x: FilmEntry, y: FilmEntry) {
    Undated(y) || (!Undated(x) && LexLeq(y.releaseYear, x.releaseYear))
  }

  predicate Sorted(s: seq<FilmEntry>) {
    forall i, j :: 0 <= i < j < |s| ==> InOrder(s[i], s[j])
  }

  lemma InOrderTotal(x: FilmEntry, y: FilmEntry)
    ensures InOrder(x, y) || InOrder(y, x)
  {
    LexLeqTotal(x.releaseYear, y.releaseYear);
  }

  lemma InOrderTransitive(x: FilmEntry, y: FilmEntry, z: FilmEntry)
    requires InOrder(x, y) && InOrder(y, z)
    ensures InOrder(x, z)
  {
    if !Undated(z) {
      LexLeqTransitive(z.releaseYear, y.releaseYear, x.releaseYear);
    }
  }

  /** The comparator passed to `sort`, as written. */
  function CompareAsWritten(a: FilmEntry, b: FilmEntry): int {
    if Undated(a) then 1
    else if Undated(b) then -1
    else LexCompare(b.releaseYear, a.releaseYear)
  }

  /** The comparator with two undated entries reported as equal. */
  function CompareFixed(a: FilmEntry, b: FilmEntry): int {
    if Undated(a) && Undated(b) then 0
    else if Undated(a) then 1
    else if Undated(b) then -1
    else LexCompare(b.releaseYear, a.releaseYear)
  }

  /** As written, two undated entries each claim to belong after the other. */
  lemma CompareAsWrittenInconsistent()
    ensures CompareAsWritten(FilmEntry(1, "", None, NotAvailable), FilmEntry(2, "", None, NotAvailable)) > 0
    ensures CompareAsWritten(FilmEntry(2, "", None, NotAvailable), FilmEntry(1, "", None, NotAvailable)) > 0
  {
  }

  /** When the written comparator puts `a` after `b`, listing `b` first is in order. */
  lemma CompareAsWrittenAfter(a: FilmEntry, b: FilmEntry)
    requires CompareAsWritten(a, b) > 0
    ensures InOrder(b, a)
  {
  }

  /** When the written comparator keeps `a` before `b` (or calls them equal), that is in order. */
  lemma CompareAsWrittenBefore(a: FilmEntry, b: FilmEntry)
    requires CompareAsWritten(a, b) <= 0
    ensures InOrder(a, b)
  {
  }

  /** Everywhere else the two comparators agree. */
  lemma ComparatorsAgreeOnDated(a: FilmEntry, b: FilmEntry)
    requires !Undated(a) || !Undated(b)
    ensures CompareAsWritten(a, b) == CompareFixed(a, b)
  {
  }

  /** The fixed comparator is consistent: swapping its arguments flips its sign. */
  lemma CompareFixedConsistent(a: FilmEntry, b: FilmEntry)
    ensures CompareFixed(a, b) == -CompareFixed(b, a)
  {
    LexCompareFlips(a.releaseYear, b.releaseYear);
  }

  /** The fixed comparator sorts by `InOrder`: it orders `a` first or as equal exactly when `InOrder(a, b)`. */
  lemma CompareFixedMatchesOrder(a: FilmEntry, b: FilmEntry)
    ensures InOrder(a, b) <==> CompareFixed(a, b) <= 0
  {
  }

  /** Every dated entry of a sorted list comes before every undated one. */
  lemma SortedDatedFirst(s: seq<FilmEntry>)
    requires Sorted(s)
    ensures forall i, j :: 0 <= i < j < |s| && Undated(s[i]) ==> Undated(s[j])
  {
  }

  /** Among the dated entries of a sorted list the years never increase. */
  lemma SortedNewestFirst(s: seq<FilmEntry>)
    requires Sorted(s)
    ensures forall i, j :: 0 <= i < j < |s| && !Undated(s[j]) ==> LexLeq(s[j].releaseYear, s[i].releaseYear)
  {
  }

  /**
   * `moviesData.sort(comparator)`, in place, as an insertion sort driven by the
   * program's own comparator.
   */
  method SortFilmography(a: array<FilmEntry>)
    modifies a
    ensures Sorted(a[..])
    ensures multiset(a[..]) == multiset(old(a[..]))
  {
    var i := 0;
    while i < a.Length
      invariant 0 <= i <= a.Length
      invariant forall k, l :: 0 <= k < l < i ==> InOrder(a[k], a[l])
      invariant multiset(a[..]) == multiset(old(a[..]))
    {
      InsertEntry(a, i);
      i := i + 1;
    }
  }

  /**
   * One insertion step: with `a[..i]` in order, move `a[i]` left while the
   * comparator says it belongs before its left neighbour, leaving `a[..i+1]`
   * in order.
   */
  method InsertEntry(a: array<FilmEntry>, i: nat)
    requires i < a.Length
    requires forall k, l :: 0 <= k < l < i ==> InOrder(a[k], a[l])
    modifies a
    ensures forall k, l :: 0 <= k < l <= i ==> InOrder(a[k], a[l])
    ensures forall k :: i < k < a.Length ==> a[k] == old(a[k])
    ensures multiset(a[..]) == multiset(old(a[..]))
  {
    var j := i;
    while j > 0 && CompareAsWritten(a[j - 1], a[j]) > 0
      invariant 0 <= j <= i
      invariant forall k, l :: 0 <= k < l <= i && k != j && l != j ==> InOrder(a[k], a[l])
      invariant forall l :: j < l <= i ==> InOrder(a[j], a[l])
      invariant forall k :: i < k < a.Length ==> a[k] == old(a[k])
      invariant multiset(a[..]) == multiset(old(a[..]))
    {
      CompareAsWrittenAfter(a[j - 1], a[j]);
      a[j - 1], a[j] := a[j], a[j - 1];
      j := j - 1;
    }
    if j > 0 {
      CompareAsWrittenBefore(a[j - 1], a[j]);
      forall k | 0 <= k < j - 1 ensures InOrder(a[k], a[j]) {
        InOrderTransitive(a[k], a[j - 1], a[j]);
      }
    }
  }

  /**
   * The screen's whole transform: map the credits, then sort. The result holds
   * exactly the mapped records, ordered newest first with undated ones last.
   */
  method ShapeFilmography(cast: seq<Credit>) returns (films: seq<FilmEntry>)
    ensures |films| == |cast|
    ensures multiset(films) == multiset(MapCredits(cast))
    ensures Sorted(films)
  {
    var entries := MapCredits(cast);
    var a := new FilmEntry[|entries|](i requires 0 <= i < |entries| => entries[i]);
    assert a[..] == entries;
    SortFilmography(a);
    films := a[..];
    assert |multiset(films)| == |multiset(entries)|;
  }
}
