/** Counting buckets that expire, and what a full store sheds. */
module Buckets {
  import opened Text

  datatype Bucket = Bucket(count: nat, resetAt: int)

  type Store = map<string, Bucket>

  function Live(s: Store, now: int): set<string> { set id | id in s && s[id].resetAt > now }

  /** The buckets that expire first go, as many as the store is over its size. */
  predicate Sheds(s: Store, gone: set<string>, maxSize: nat) {
    && gone <= s.Keys && |gone| == (if |s| > maxSize then |s| - maxSize else 0)
    && forall d, k :: d in gone && k in s && k !in gone ==> s[d].resetAt <= s[k].resetAt
  }

  method ShedOldest(s: Store, maxSize: nat) returns (gone: set<string>)
    ensures Sheds(s, gone, maxSize)
  {
    gone := {};
    var rest := s.Keys;
    while |rest| > maxSize
      invariant Parted(s, gone, rest)
      invariant gone != {} ==> |rest| >= maxSize
      decreases |rest|
    {
      var oldest := Oldest(s, rest);
      MoveOldest(s, gone, rest, oldest);
      gone, rest := gone + {oldest}, rest - {oldest};
    }
  }

  /** What goes and what stays, the former expiring first. */
  ghost predicate Parted(s: Store, gone: set<string>, rest: set<string>) {
    && gone <= s.Keys && rest == s.Keys - gone && |gone| + |rest| == |s|
    && forall d, k :: d in gone && k in rest ==> s[d].resetAt <= s[k].resetAt
  }

  lemma MoveOldest(s: Store, gone: set<string>, rest: set<string>, oldest: string)
    requires Parted(s, gone, rest) && oldest in rest
    requires forall k :: k in rest ==> s[oldest].resetAt <= s[k].resetAt
    ensures Parted(s, gone + {oldest}, rest - {oldest})
  {
    assert s.Keys - (gone + {oldest}) == rest - {oldest};
  }

  method Oldest(s: Store, ids: set<string>) returns (oldest: string)
    requires ids != {} && ids <= s.Keys
    ensures oldest in ids && forall k :: k in ids ==> s[oldest].resetAt <= s[k].resetAt
  {
    oldest :| oldest in ids;
    var rest := ids - {oldest};
    while rest != {}
      invariant rest <= ids && oldest in ids
      invariant forall k :: k in ids && k !in rest ==> s[oldest].resetAt <= s[k].resetAt
      decreases |rest|
    {
      var k :| k in rest;
      if s[k].resetAt < s[oldest].resetAt { oldest := k; }
      rest := rest - {k};
    }
  }

  /** Shedding takes a live bucket exactly when the live ones are more than the store holds. */
  lemma ShedsLiveExactly(s: Store, gone: set<string>, maxSize: nat, now: int)
    requires Sheds(s, gone, maxSize)
    ensures (exists d :: d in gone && s[d].resetAt > now) <==> |Live(s, now)| > maxSize
  {
    var kept := s.Keys - gone;
    SubsetSize(Live(s, now), s.Keys);
    assert |kept| == if |s| > maxSize then maxSize else |s|;
    if d :| d in gone && s[d].resetAt > now {
      SubsetSize(kept + {d}, Live(s, now));
    } else {
      SubsetSize(Live(s, now), kept);
    }
  }
}
