/**
 * Retention of trusted backup sets: the newest ones, and the newest of each of the latest day,
 * week and month buckets.
 */
module Retention {
  import opened Prelude
  import opened Text

  // ---- creation stamps and the order in which the listing sorts them ----

  // Seconds since the epoch and microseconds within the second.
  datatype Stamp = Stamp(second: int, micro: nat)

  predicate ValidStamp(s: Stamp) {
    s.micro < 1_000_000
  }

  function Micros(s: Stamp): int {
    s.second * 1_000_000 + s.micro
  }

  // What isoformat() prints after the seconds, with the offset rewritten to Z.
  function IsoTail(s: Stamp): string {
    if s.micro == 0 then "Z" else "." + Digits(s.micro, 6) + "Z"
  }

  // ISO strings of two stamps: the part up to the seconds sorts like the second.
  predicate IsoLess(a: Stamp, b: Stamp) {
    a.second < b.second || (a.second == b.second && LexLess(IsoTail(a), IsoTail(b)))
  }

  // The listing order as a number: 'Z' sorts after '.', so a whole second sorts as if it were
  // the end of that second.
  function SortKey(s: Stamp): int {
    if s.micro == 0 then (s.second + 1) * 1_000_000 else Micros(s)
  }

  lemma SortKeyIsIsoOrder(a: Stamp, b: Stamp)
    requires ValidStamp(a) && ValidStamp(b)
    ensures IsoLess(a, b) <==> SortKey(a) < SortKey(b)
    ensures SortKey(a) == SortKey(b) <==> a == b
  {
    assert Pow10(1) == 10 && Pow10(2) == 100 && Pow10(3) == 1000 && Pow10(4) == 10_000 && Pow10(5) == 100_000
        && Pow10(6) == 1_000_000;
    if a.second == b.second && a.micro > 0 && b.micro > 0 {
      var x, y := Digits(a.micro, 6) + "Z", Digits(b.micro, 6) + "Z";
      assert IsoTail(a) == "." + x && IsoTail(b) == "." + y;
      LexLessAfterPrefix(".", x, y);
      if a.micro < b.micro {
        DigitsKeepOrder(a.micro, b.micro, 6);
        LexLessExtends(Digits(a.micro, 6), Digits(b.micro, 6), "Z", "Z");
      } else if b.micro < a.micro {
        DigitsKeepOrder(b.micro, a.micro, 6);
        LexLessExtends(Digits(b.micro, 6), Digits(a.micro, 6), "Z", "Z");
        LexLessAsymmetric(y, x);
      } else {
        LexLessIrreflexive(x);
      }
    } else if a.second == b.second && a.micro == 0 && b.micro == 0 {
      LexLessIrreflexive("Z");
    }
  }

  // The listing puts the later of two stamps first exactly unless a whole second meets a later
  // fraction of the same second.
  lemma {:induction false} ListingFollowsTime(a: Stamp, b: Stamp)
    requires ValidStamp(a) && ValidStamp(b) && Micros(a) < Micros(b)
    ensures IsoLess(a, b) <==> !(a.second == b.second && a.micro == 0)
  {
    SortKeyIsIsoOrder(a, b);
  }

  // The second a sort key belongs to: buckets do not see the detour.
  function SecondOf(key: int): int {
    (key - 1) / 1_000_000
  }

  lemma SecondOfSortKey(s: Stamp)
    requires ValidStamp(s)
    ensures SecondOf(SortKey(s)) == s.second
  {
  }

  // ---- what is kept ----

  datatype Policy = Policy(recent: nat, daily: nat, weekly: nat, monthly: nat)

  // The bucket of a second; day, week and month tuples, numbered in their order.
  datatype Calendar = Calendar(day: int -> int, week: int -> int, month: int -> int)

  function DayOf(cal: Calendar): int -> int { k => cal.day(SecondOf(k)) }

  function WeekOf(cal: Calendar): int -> int { k => cal.week(SecondOf(k)) }

  function MonthOf(cal: Calendar): int -> int { k => cal.month(SecondOf(k)) }

  // Sets listed before k.
  ghost function Newer(s: set<int>, k: int): set<int> {
    set y | y in s && y > k
  }

  // Buckets of s later than the bucket of k.
  ghost function LaterBuckets(s: set<int>, bucket: int -> int, k: int): set<int> {
    set y | y in s && bucket(y) > bucket(k) :: bucket(y)
  }

  ghost predicate AmongNewest(s: set<int>, n: nat, k: int) {
    |Newer(s, k)| < n
  }

  ghost predicate NewestOfBucket(s: set<int>, bucket: int -> int, n: nat, k: int) {
    (forall y | y in s && bucket(y) == bucket(k) :: y <= k) && |LaterBuckets(s, bucket, k)| < n
  }

  ghost predicate Kept(s: set<int>, p: Policy, cal: Calendar, k: int) {
    || AmongNewest(s, MaxInt(1, p.recent), k)
    || NewestOfBucket(s, DayOf(cal), p.daily, k)
    || NewestOfBucket(s, WeekOf(cal), p.weekly, k)
    || NewestOfBucket(s, MonthOf(cal), p.monthly, k)
  }

  ghost function Keep(s: set<int>, p: Policy, cal: Calendar): set<int> {
    set k | k in s && Kept(s, p, cal, k)
  }

  // ---- the same on stamps ----

  ghost predicate NewestStampOf(s: set<Stamp>, bucket: int -> int, n: nat, a: Stamp) {
    && (forall b | b in s && bucket(b.second) == bucket(a.second) :: !IsoLess(a, b))
    && |set b | b in s && bucket(b.second) > bucket(a.second) :: bucket(b.second)| < n
  }

  ghost function ListedBefore(s: set<Stamp>, a: Stamp): set<Stamp> {
    set b | b in s && IsoLess(a, b)
  }

  ghost function KeysOf(s: set<Stamp>): set<int> {
    set b | b in s :: SortKey(b)
  }

  lemma {:induction false} KeysAreApart(s: set<Stamp>)
    requires forall b | b in s :: ValidStamp(b)
    ensures |KeysOf(s)| == |s|
  {
    hide SortKey;
    if s != {} {
      var b := Pick(s);
      var rest := s - {b};
      KeysAreApart(rest);
      forall c | c in rest
        ensures SortKey(c) != SortKey(b)
      {
        SortKeyIsIsoOrder(b, c);
      }
      assert KeysOf(s) == KeysOf(rest) + {SortKey(b)} && SortKey(b) !in KeysOf(rest);
    } else {
      assert KeysOf(s) == {};
    }
  }

  // A bucket rule on keys is the rule on the stamps themselves.
  lemma {:induction false} BucketRuleOnStamps(s: set<Stamp>, bucket: int -> int, n: nat, a: Stamp)
    requires a in s && forall b | b in s :: ValidStamp(b)
    ensures NewestOfBucket(KeysOf(s), k => bucket(SecondOf(k)), n, SortKey(a)) <==> NewestStampOf(s, bucket, n, a)
  {
    var onKey := k => bucket(SecondOf(k));
    forall b | b in s
      ensures onKey(SortKey(b)) == bucket(b.second) && SortKey(b) in KeysOf(s)
      ensures SortKey(b) <= SortKey(a) <==> !IsoLess(a, b)
    {
      SecondOfSortKey(b);
      SortKeyIsIsoOrder(a, b);
    }
    hide SortKey, SecondOf, IsoLess;
    var onKeys, onStamps := LaterBuckets(KeysOf(s), onKey, SortKey(a)),
                            set b | b in s && bucket(b.second) > bucket(a.second) :: bucket(b.second);
    forall x
      ensures x in onKeys <==> x in onStamps
    {
      if x in onStamps {
        var b :| b in s && bucket(b.second) > bucket(a.second) && x == bucket(b.second);
        assert SortKey(b) in KeysOf(s) && onKey(SortKey(b)) == x;
      }
    }
    assert onKeys == onStamps;
  }

  // What is kept, said of the creation stamps: a set is kept for its place in the listing, or as
  // the first listed of its day, week or month when few enough of those are later.
  lemma {:induction false} KeepOnStamps(s: set<Stamp>, p: Policy, cal: Calendar, a: Stamp)
    requires a in s && forall b | b in s :: ValidStamp(b)
    ensures SortKey(a) in Keep(KeysOf(s), p, cal)
       <==> || |ListedBefore(s, a)| < MaxInt(1, p.recent)
            || NewestStampOf(s, cal.day, p.daily, a)
            || NewestStampOf(s, cal.week, p.weekly, a)
            || NewestStampOf(s, cal.month, p.monthly, a)
  {
    BucketRuleOnStamps(s, cal.day, p.daily, a);
    BucketRuleOnStamps(s, cal.week, p.weekly, a);
    BucketRuleOnStamps(s, cal.month, p.monthly, a);
    assert DayOf(cal) == (k => cal.day(SecondOf(k)));
    hide NewestOfBucket, NewestStampOf;
    forall b | b in s
      ensures SortKey(b) > SortKey(a) <==> IsoLess(a, b)
    {
      SortKeyIsIsoOrder(a, b);
    }
    KeysAreApart(ListedBefore(s, a));
    assert Newer(KeysOf(s), SortKey(a)) == KeysOf(ListedBefore(s, a));
  }

  // ---- finite sets of integers ----

  ghost function Pick<T>(s: set<T>): (x: T)
    requires s != {}
    ensures x in s
  {
    var x :| x in s;
    x
  }

  lemma {:induction false} MaxExists(s: set<int>) returns (m: int)
    requires s != {}
    ensures m in s && forall y | y in s :: y <= m
  {
    m := Pick(s);
    var rest := s - {m};
    if rest != {} {
      var r := MaxExists(rest);
      assert forall y | y in s :: y == m || y in rest;
      m := if m < r then r else m;
    } else {
      assert forall y | y in s :: y == m || y in rest;
    }
  }

  lemma {:induction false} SubsetSize<T>(a: set<T>, b: set<T>)
    requires a <= b
    ensures |a| <= |b|
  {
    if a != {} {
      var x := Pick(a);
      SubsetSize(a - {x}, b - {x});
    }
  }

  // If c holds every element of b with fewer than n elements of b above it, then having fewer
  // than n elements of c above v means having fewer than n elements of b above v.
  lemma TopSuffices(b: set<int>, c: set<int>, v: int, n: nat)
    requires c <= b && forall x | x in b && |Newer(b, x)| < n :: x in c
    requires |Newer(c, v)| < n
    ensures |Newer(b, v)| < n
  {
    var missing := Newer(b, v) - c;
    if missing != {} {
      var y := MaxExists(missing);
      forall z | z in Newer(b, y)
        ensures z in Newer(c, v)
      {
        assert z !in missing;
      }
      SubsetSize(Newer(b, y), Newer(c, v));
    } else {
      forall z | z in Newer(b, v)
        ensures z in Newer(c, v)
      {
        assert z !in missing;
      }
      SubsetSize(Newer(b, v), Newer(c, v));
    }
  }

  ghost function Image(s: set<int>, f: int -> int): set<int> {
    set y | y in s :: f(y)
  }

  lemma LaterBucketsAre(s: set<int>, bucket: int -> int, k: int)
    ensures LaterBuckets(s, bucket, k) == Newer(Image(s, bucket), bucket(k))
  {
  }

  // ---- pruning in stages is pruning once ----

  // A set kept among more is kept among fewer.
  lemma KeptAmongFewer(s: set<int>, t: set<int>, p: Policy, cal: Calendar, k: int)
    requires s <= t && Kept(t, p, cal, k)
    ensures Kept(s, p, cal, k)
  {
    SubsetSize(Newer(s, k), Newer(t, k));
    SubsetSize(LaterBuckets(s, DayOf(cal), k), LaterBuckets(t, DayOf(cal), k));
    SubsetSize(LaterBuckets(s, WeekOf(cal), k), LaterBuckets(t, WeekOf(cal), k));
    SubsetSize(LaterBuckets(s, MonthOf(cal), k), LaterBuckets(t, MonthOf(cal), k));
  }

  lemma NewestStable(all: set<int>, cur: set<int>, n: nat, k: int)
    requires cur <= all && forall x | x in all && AmongNewest(all, n, x) :: x in cur
    requires AmongNewest(cur, n, k)
    ensures AmongNewest(all, n, k)
  {
    TopSuffices(all, cur, k, n);
  }

  lemma BucketStable(all: set<int>, cur: set<int>, bucket: int -> int, n: nat, k: int)
    requires cur <= all && forall x | x in all && NewestOfBucket(all, bucket, n, x) :: x in cur
    requires k in cur && NewestOfBucket(cur, bucket, n, k)
    ensures NewestOfBucket(all, bucket, n, k)
  {
    var b, c := Image(all, bucket), Image(cur, bucket);
    LaterBucketsAre(cur, bucket, k);
    forall v | v in b && |Newer(b, v)| < n
      ensures v in c
    {
      var y := NewestIn(all, bucket, v);
      LaterBucketsAre(all, bucket, y);
      assert NewestOfBucket(all, bucket, n, y);
    }
    TopSuffices(b, c, bucket(k), n);
    var y := NewestIn(all, bucket, bucket(k));
    LaterBucketsAre(all, bucket, y);
    LaterBucketsAre(all, bucket, k);
    assert NewestOfBucket(all, bucket, n, y);
    assert y == k;
  }

  lemma NewestIn(all: set<int>, bucket: int -> int, v: int) returns (y: int)
    requires v in Image(all, bucket)
    ensures y in all && bucket(y) == v && forall z | z in all && bucket(z) == v :: z <= y
  {
    var members := set z | z in all && bucket(z) == v;
    var w :| w in all && bucket(w) == v;
    assert w in members;
    y := MaxExists(members);
    forall z | z in all && bucket(z) == v
      ensures z <= y
    {
      assert z in members;
    }
  }

  // Whatever was deleted in between, as long as nothing kept was, the survivors are the same.
  lemma KeepIsStable(all: set<int>, cur: set<int>, p: Policy, cal: Calendar)
    requires Keep(all, p, cal) <= cur <= all
    ensures Keep(cur, p, cal) == Keep(all, p, cal)
  {
    forall k | k in cur
      ensures Kept(cur, p, cal, k) <==> Kept(all, p, cal, k)
    {
      if Kept(all, p, cal, k) {
        KeptAmongFewer(cur, all, p, cal, k);
      }
      if AmongNewest(cur, MaxInt(1, p.recent), k) {
        NewestStable(all, cur, MaxInt(1, p.recent), k);
      }
      if NewestOfBucket(cur, DayOf(cal), p.daily, k) {
        BucketStable(all, cur, DayOf(cal), p.daily, k);
      }
      if NewestOfBucket(cur, WeekOf(cal), p.weekly, k) {
        BucketStable(all, cur, WeekOf(cal), p.weekly, k);
      }
      if NewestOfBucket(cur, MonthOf(cal), p.monthly, k) {
        BucketStable(all, cur, MonthOf(cal), p.monthly, k);
      }
    }
  }

  // A history of the trusted sets of one root.  A prune sees the sets that verify at its time, not
  // those from beyond the tolerance of its clock; an interrupted one deletes only those it reached.
  datatype Op = Create(key: int) | Prune(visible: set<int>, reached: set<int>)

  // The sets a prune of `cur` deletes.
  ghost function Doomed(cur: set<int>, visible: set<int>, reached: set<int>, p: Policy, cal: Calendar): set<int> {
    (cur * visible * reached) - Keep(cur * visible, p, cal)
  }

  // The sets present after n operations, and the sets ever created.
  ghost function Present(ops: seq<Op>, p: Policy, cal: Calendar, n: nat): set<int>
    requires n <= |ops|
  {
    if n == 0 then {}
    else
      match ops[n - 1]
      case Create(k) => Present(ops, p, cal, n - 1) + {k}
      case Prune(visible, reached) =>
        var cur := Present(ops, p, cal, n - 1);
        cur - Doomed(cur, visible, reached, p, cal)
  }

  ghost function Created(ops: seq<Op>, n: nat): set<int>
    requires n <= |ops|
  {
    if n == 0 then {} else Created(ops, n - 1) + if ops[n - 1].Create? then {ops[n - 1].key} else {}
  }

  // Nothing that one prune over all sets ever created would keep is missing.
  lemma {:induction false} NothingKeptIsLost(ops: seq<Op>, p: Policy, cal: Calendar, n: nat)
    requires n <= |ops|
    ensures Keep(Created(ops, n), p, cal) <= Present(ops, p, cal, n) <= Created(ops, n)
  {
    if n > 0 {
      NothingKeptIsLost(ops, p, cal, n - 1);
      var all, cur := Created(ops, n - 1), Present(ops, p, cal, n - 1);
      if !ops[n - 1].Create? {
        assert Created(ops, n) == all;
        PruneKeepsInvariant(all, cur, ops[n - 1].visible, ops[n - 1].reached, p, cal);
      } else {
        CreationKeepsInvariant(all, cur, p, cal, ops[n - 1].key);
      }
    }
  }

  lemma PruneKeepsInvariant(all: set<int>, cur: set<int>, visible: set<int>, reached: set<int>, p: Policy,
                            cal: Calendar)
    requires Keep(all, p, cal) <= cur <= all
    ensures Keep(all, p, cal) <= cur - Doomed(cur, visible, reached, p, cal)
  {
    forall k | k in Keep(all, p, cal) && k in visible
      ensures k in Keep(cur * visible, p, cal)
    {
      KeptAmongFewer(cur * visible, all, p, cal, k);
    }
  }

  // A prune that sees everything and is not interrupted keeps exactly the set to keep.
  lemma WholePrune(cur: set<int>, visible: set<int>, reached: set<int>, p: Policy, cal: Calendar)
    requires cur <= visible && cur <= reached
    ensures cur - Doomed(cur, visible, reached, p, cal) == Keep(cur, p, cal)
  {
    assert cur * visible == cur;
  }

  lemma CreationKeepsInvariant(all: set<int>, cur: set<int>, p: Policy, cal: Calendar, key: int)
    requires Keep(all, p, cal) <= cur <= all
    ensures Keep(all + {key}, p, cal) <= cur + {key} <= all + {key}
  {
    forall k | k in Keep(all + {key}, p, cal)
      ensures k in cur + {key}
    {
      if k in all {
        KeptAmongFewer(all, all + {key}, p, cal, k);
        assert k in Keep(all, p, cal);
      }
    }
  }

  // Pruning after any history leaves exactly what one prune over everything would leave,
  // whatever the order of creations, what the earlier prunes saw and where some of them stopped.
  lemma IncrementalEqualsBatch(ops: seq<Op>, p: Policy, cal: Calendar)
    ensures Keep(Present(ops, p, cal, |ops|), p, cal) == Keep(Created(ops, |ops|), p, cal)
  {
    NothingKeptIsLost(ops, p, cal, |ops|);
    KeepIsStable(Created(ops, |ops|), Present(ops, p, cal, |ops|), p, cal);
  }

  lemma PruneIsIdempotent(s: set<int>, p: Policy, cal: Calendar)
    ensures Keep(Keep(s, p, cal), p, cal) == Keep(s, p, cal)
  {
    KeepIsStable(s, Keep(s, p, cal), p, cal);
  }

  // ---- how much is kept ----

  lemma {:induction false} MinExists(s: set<int>) returns (m: int)
    requires s != {}
    ensures m in s && forall y | y in s :: m <= y
  {
    m := Pick(s);
    var rest := s - {m};
    if rest != {} {
      var r := MinExists(rest);
      assert forall y | y in s :: y == m || y in rest;
      m := if r < m then r else m;
    } else {
      assert forall y | y in s :: y == m || y in rest;
    }
  }

  lemma NewestBound(s: set<int>, u: set<int>, n: nat)
    requires u <= s && forall k | k in u :: |Newer(s, k)| < n
    ensures |u| <= n
  {
    if u != {} {
      var k := MinExists(u);
      SubsetSize(u - {k}, Newer(s, k));
    }
  }

  lemma {:induction false} InjectiveImageSize(u: set<int>, f: int -> int)
    requires forall a, b | a in u && b in u && f(a) == f(b) :: a == b
    ensures |Image(u, f)| == |u|
  {
    if u != {} {
      var x := Pick(u);
      InjectiveImageSize(u - {x}, f);
      assert Image(u, f) == Image(u - {x}, f) + {f(x)};
    }
  }

  lemma BucketBound(s: set<int>, u: set<int>, bucket: int -> int, n: nat)
    requires u <= s && forall k | k in u :: NewestOfBucket(s, bucket, n, k)
    ensures |u| <= n
  {
    InjectiveImageSize(u, bucket);
    forall v | v in Image(u, bucket)
      ensures |Newer(Image(s, bucket), v)| < n
    {
      var k :| k in u && bucket(k) == v;
      LaterBucketsAre(s, bucket, k);
    }
    NewestBound(Image(s, bucket), Image(u, bucket), n);
  }

  lemma UnionSize(a: set<int>, b: set<int>)
    ensures |a + b| <= |a| + |b|
  {
    assert a + b == a + (b - a);
    SubsetSize(b - a, b);
  }

  lemma KeepBound(s: set<int>, p: Policy, cal: Calendar)
    ensures |Keep(s, p, cal)| <= MaxInt(1, p.recent) + p.daily + p.weekly + p.monthly
  {
    hide NewestOfBucket, AmongNewest;
    var a := set k | k in s && AmongNewest(s, MaxInt(1, p.recent), k);
    var b := set k | k in s && NewestOfBucket(s, DayOf(cal), p.daily, k);
    var c := set k | k in s && NewestOfBucket(s, WeekOf(cal), p.weekly, k);
    var d := set k | k in s && NewestOfBucket(s, MonthOf(cal), p.monthly, k);
    AmongNewestBound(s, a, MaxInt(1, p.recent));
    BucketBound(s, b, DayOf(cal), p.daily);
    BucketBound(s, c, WeekOf(cal), p.weekly);
    BucketBound(s, d, MonthOf(cal), p.monthly);
    forall k
      ensures k in Keep(s, p, cal) <==> k in a + b + c + d
    {
    }
    UnionSize(a, b);
    UnionSize(a + b, c);
    UnionSize(a + b + c, d);
    SubsetSize(Keep(s, p, cal), a + b + c + d);
  }

  lemma AmongNewestBound(s: set<int>, u: set<int>, n: nat)
    requires u <= s && forall k | k in u :: AmongNewest(s, n, k)
    ensures |u| <= n
  {
    NewestBound(s, u, n);
  }

  // The first of the listing always survives.
  lemma {:induction false} NewestSurvives(s: set<int>, p: Policy, cal: Calendar, k: int)
    requires k in s && forall y | y in s :: y <= k
    ensures k in Keep(s, p, cal)
  {
    assert Newer(s, k) == {};
  }
}

/** The pruning procedure, as the directory listing and the bucket loops carry it out. */
module BackupPruning {
  import opened Prelude
  import opened Retention

  ghost predicate NewestFirst(l: seq<int>) {
    forall i, j | 0 <= i < j < |l| :: l[i] > l[j]
  }

  ghost predicate Lists(l: seq<int>, s: set<int>) {
    NewestFirst(l) && forall k :: k in l <==> k in s
  }

  // sorted(..., reverse=True)
  method SortDescending(s: set<int>) returns (l: seq<int>)
    ensures Lists(l, s)
  {
    var rest := s;
    l := [];
    while rest != {}
      invariant rest <= s
      invariant NewestFirst(l) && forall k :: k in l <==> k in s && k !in rest
      invariant forall i, k | 0 <= i < |l| && k in rest :: l[i] > k
      decreases |rest|
    {
      ghost var m := MaxExists(rest);
      assert exists k :: k in rest && forall y | y in rest :: y <= k;
      var k :| k in rest && forall y | y in rest :: y <= k;
      l := l + [k];
      rest := rest - {k};
    }
  }

  lemma {:induction false} RankInListing(l: seq<int>, s: set<int>, i: nat)
    requires Lists(l, s) && i < |l|
    ensures |Newer(s, l[i])| == i
  {
    if i == 0 {
      assert Newer(s, l[0]) == {};
    } else {
      RankInListing(l, s, i - 1);
      assert Newer(s, l[i]) == Newer(s, l[i - 1]) + {l[i - 1]};
    }
  }

  // The members of l in bucket b, in order.
  function InBucket(l: seq<int>, bucket: int -> int, b: int): seq<int> {
    if l == [] then [] else InBucket(l[..|l| - 1], bucket, b) + if bucket(l[|l| - 1]) == b then [l[|l| - 1]] else []
  }

  // buckets.setdefault(bucket(item), []).append(item)
  method GroupByBucket(l: seq<int>, bucket: int -> int) returns (buckets: map<int, seq<int>>)
    ensures forall b :: b in buckets <==> InBucket(l, bucket, b) != []
    ensures forall b | b in buckets :: buckets[b] == InBucket(l, bucket, b)
  {
    buckets := map[];
    for i := 0 to |l|
      invariant forall b :: b in buckets <==> InBucket(l[..i], bucket, b) != []
      invariant forall b | b in buckets :: buckets[b] == InBucket(l[..i], bucket, b)
    {
      var b := bucket(l[i]);
      var items := if b in buckets then buckets[b] else [];
      buckets := buckets[b := items + [l[i]]];
      assert l[..i + 1][..i] == l[..i];
    }
    assert l[..|l|] == l;
  }

  // A bucket with a member of s has its newest member at its head.
  ghost predicate HeadOf(s: set<int>, bucket: int -> int, b: int, k: int) {
    k in s && bucket(k) == b && forall y | y in s && bucket(y) == b :: y <= k
  }

  lemma {:induction false} BucketMembers(l: seq<int>, bucket: int -> int, b: int)
    requires NewestFirst(l)
    ensures InBucket(l, bucket, b) != [] <==> exists i :: 0 <= i < |l| && bucket(l[i]) == b
    ensures InBucket(l, bucket, b) != [] ==>
              var head := InBucket(l, bucket, b)[0];
              head in l && bucket(head) == b && forall i | 0 <= i < |l| && bucket(l[i]) == b :: l[i] <= head
  {
    if l != [] {
      var init := l[..|l| - 1];
      BucketMembers(init, bucket, b);
      assert l == init + [l[|l| - 1]];
      assert forall i | 0 <= i < |init| :: init[i] == l[i] > l[|l| - 1];
    }
  }

  lemma HeadIsNewest(l: seq<int>, s: set<int>, bucket: int -> int, b: int)
    requires Lists(l, s)
    ensures InBucket(l, bucket, b) != [] <==> b in Image(s, bucket)
    ensures InBucket(l, bucket, b) != [] ==> HeadOf(s, bucket, b, InBucket(l, bucket, b)[0])
  {
    BucketMembers(l, bucket, b);
    if b in Image(s, bucket) {
      var y :| y in s && bucket(y) == b;
      assert y in l;
    }
    if InBucket(l, bucket, b) != [] {
      forall y | y in s && bucket(y) == b
        ensures y <= InBucket(l, bucket, b)[0]
      {
        assert y in l;
      }
    }
  }

  // One bucket rule: the head of each of the first `limit` buckets, latest first.
  method BucketHeads(candidates: seq<int>, bucket: int -> int, limit: nat, ghost s: set<int>) returns (keep: set<int>)
    requires Lists(candidates, s)
    ensures forall k :: k in keep <==> k in s && NewestOfBucket(s, bucket, limit, k)
  {
    hide InBucket, NewestOfBucket, Image;
    var buckets := GroupByBucket(candidates, bucket);
    var order := SortDescending(buckets.Keys);
    var heads: seq<int> := [];
    var n := if limit < |order| then limit else |order|;
    forall j | 0 <= j < |order|
      ensures order[j] in buckets
    {
      assert order[j] in order;
    }
    for i := 0 to n
      invariant |heads| == i && forall j | 0 <= j < i :: heads[j] == InBucket(candidates, bucket, order[j])[0]
    {
      heads := heads + [buckets[order[i]][0]];
    }
    keep := set k | k in heads;
    HeadsAreNewest(candidates, s, bucket, limit, order, heads);
  }

  lemma HeadsAreNewest(l: seq<int>, s: set<int>, bucket: int -> int, limit: nat, order: seq<int>, heads: seq<int>)
    requires Lists(l, s) && NewestFirst(order) && forall b :: b in order <==> InBucket(l, bucket, b) != []
    requires |heads| == if limit < |order| then limit else |order|
    requires forall j | 0 <= j < |heads| :: heads[j] == InBucket(l, bucket, order[j])[0]
    ensures forall k :: k in heads <==> k in s && NewestOfBucket(s, bucket, limit, k)
  {
    var all := Image(s, bucket);
    forall b
      ensures b in order <==> b in all
    {
      HeadIsNewest(l, s, bucket, b);
    }
    forall k | k in heads
      ensures k in s && NewestOfBucket(s, bucket, limit, k)
    {
      var j :| 0 <= j < |heads| && heads[j] == k;
      HeadIsNewest(l, s, bucket, order[j]);
      RankInListing(order, all, j);
      LaterBucketsAre(s, bucket, k);
    }
    forall k | k in s && NewestOfBucket(s, bucket, limit, k)
      ensures k in heads
    {
      assert bucket(k) in all && bucket(k) in order;
      var j :| 0 <= j < |order| && order[j] == bucket(k);
      HeadIsNewest(l, s, bucket, order[j]);
      RankInListing(order, all, j);
      LaterBucketsAre(s, bucket, k);
      assert heads[j] == k;
    }
  }

  method KeepSet(candidates: seq<int>, p: Policy, cal: Calendar, ghost s: set<int>) returns (keep: set<int>)
    requires Lists(candidates, s) && candidates != []
    ensures forall k :: k in keep <==> k in Keep(s, p, cal)
  {
    keep := {candidates[0]};
    var n := if p.recent < |candidates| then p.recent else |candidates|;
    var recent := candidates[..n];
    keep := keep + set k | k in recent;
    RecentAreNewest(candidates, s, p.recent, recent, keep);
    var day := BucketHeads(candidates, DayOf(cal), p.daily, s);
    var week := BucketHeads(candidates, WeekOf(cal), p.weekly, s);
    var month := BucketHeads(candidates, MonthOf(cal), p.monthly, s);
    keep := keep + day + week + month;
  }

  lemma RecentAreNewest(candidates: seq<int>, s: set<int>, recent: nat, head: seq<int>, keep: set<int>)
    requires Lists(candidates, s) && candidates != []
    requires head == candidates[..(if recent < |candidates| then recent else |candidates|)]
    requires keep == {candidates[0]} + set k | k in head
    ensures forall k :: k in keep <==> k in s && AmongNewest(s, MaxInt(1, recent), k)
  {
    forall k
      ensures k in keep <==> k in s && AmongNewest(s, MaxInt(1, recent), k)
    {
      if k in s {
        assert k in candidates;
        var i :| 0 <= i < |candidates| && candidates[i] == k;
        RankInListing(candidates, s, i);
        assert k in keep <==> i < MaxInt(1, recent);
      }
    }
  }

  // The directory: each set by its sort key, with whether it verifies as trusted.
  class BackupRoot {
    var sets: map<int, bool>

    constructor ()
      ensures sets == map[]
    {
      sets := map[];
    }

    ghost function Trusted(): set<int>
      reads this
    {
      set k | k in sets && sets[k]
    }

    // Removes the trusted sets outside Keep, newest first; nothing else is touched.
    method PruneBackupSets(p: Policy, cal: Calendar) returns (removed: seq<int>)
      modifies this
      ensures sets == old(sets) - (old(Trusted()) - Keep(old(Trusted()), p, cal))
      ensures Trusted() == Keep(old(Trusted()), p, cal)
      ensures Lists(removed, old(Trusted()) - Keep(old(Trusted()), p, cal))
      ensures forall k | k in old(sets) && !old(sets)[k] :: k in sets && sets[k] == old(sets)[k]
    {
      hide Kept;
      ghost var s := Trusted();
      var listed := set k | k in sets && sets[k];
      var candidates := SortDescending(listed);
      removed := [];
      if candidates == [] {
        forall k
          ensures k !in s
        {
          assert k in s ==> k in candidates;
        }
        return;
      }
      var keep := KeepSet(candidates, p, cal, s);
      ghost var before := sets;
      for i := 0 to |candidates|
        invariant sets == before - set k | k in removed
        invariant NewestFirst(removed)
        invariant forall j | 0 <= j < |removed| && i < |candidates| :: removed[j] > candidates[i]
        invariant forall k :: k in removed ==> k in s && k !in keep
        invariant forall h | 0 <= h < i && candidates[h] !in keep :: candidates[h] in removed
      {
        var k := candidates[i];
        assert k in candidates;
        if k !in keep {
          sets := sets - {k};
          removed := removed + [k];
        }
      }
      forall k
        ensures k in removed <==> k in s && k !in Keep(s, p, cal)
      {
        assert k in s <==> k in candidates;
      }
    }
  }
}
