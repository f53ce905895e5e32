/** `ByUpdateTime` (internal/fetcher/article.go:92-98): the `sort.Interface`
    that orders articles by update time, over an array of articles. */
module ByUpdateTime {
  import opened Wrappers
  import opened GoTime
  import opened Fetcher

  /** `Len`. */
  function Len(u: array<Article>): nat
  {
    u.Length
  }

  /** `Less(i, j)`: article `i` was updated strictly before article `j`; an
      unset update time reads as the epoch. */
  predicate Less(u: array<Article>, i: int, j: int)
    requires 0 <= i < u.Length && 0 <= j < u.Length
    reads u, u[i], u[j]
  {
    Before(OrEpoch(u[i].UpdateTime), OrEpoch(u[j].UpdateTime))
  }

  /** `Less` is a strict weak order, as `sort.Sort` requires: irreflexive,
      transitive, and two articles are incomparable exactly when their
      update times denote the same instant. */
  lemma LessStrictWeakOrder(u: array<Article>, i: int, j: int, k: int)
    requires 0 <= i < u.Length && 0 <= j < u.Length && 0 <= k < u.Length
    ensures !Less(u, i, i)
    ensures Less(u, i, j) && Less(u, j, k) ==> Less(u, i, k)
    ensures !Less(u, i, j) && !Less(u, j, i) <==>
      UnixNanos(OrEpoch(u[i].UpdateTime)) == UnixNanos(OrEpoch(u[j].UpdateTime))
  {
  }

  /** An article without an update time sorts before every article updated
      after 1970-01-01T00:00:00Z. */
  lemma UnsetSortsFirst(u: array<Article>, i: int, j: int)
    requires 0 <= i < u.Length && 0 <= j < u.Length
    requires u[i].UpdateTime.None? && u[j].UpdateTime.Some? && UnixNanos(u[j].UpdateTime.value) > 0
    ensures Less(u, i, j) && !Less(u, j, i)
  {
  }

  /** `Swap(i, j)`: exchanges the two entries in place and changes nothing
      else. */
  method Swap(u: array<Article>, i: int, j: int)
    requires 0 <= i < u.Length && 0 <= j < u.Length
    modifies u
    ensures u[..] == old(u[..])[i := old(u[j])][j := old(u[i])]
    ensures multiset(u[..]) == multiset(old(u[..]))
  {
    u[i], u[j] := u[j], u[i];
  }
}
