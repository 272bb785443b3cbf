/** Complete-window resampling of OHLCV bars.  Times are integers, zero being the epoch. */
module Resampling {
  import opened Prelude
  import Rounding

  datatype Bar = Bar(at: int, open: real, high: real, low: real, close: real, volume: real)

  // A frame built from no window at all carries no time index.
  datatype Frame = Indexed(rows: seq<Bar>) | NoIndex

  datatype ResampleError = NotATimeIndex | BadFrequency | StructurallyInvalid | TooShort | NotMultiple

  // ---- cadence ----

  ghost predicate Ascending(rows: seq<Bar>) {
    forall i, j | 0 <= i < j < |rows| :: rows[i].at < rows[j].at
  }

  // No duplicate, nothing out of order, everything on the grid; gaps are allowed.
  ghost predicate Structured(rows: seq<Bar>, delta: int)
    requires delta > 0
  {
    Ascending(rows) && forall i | 0 <= i < |rows| :: rows[i].at % delta == 0
  }

  method CheckStructure(rows: seq<Bar>, delta: int) returns (ok: bool)
    requires delta > 0
    ensures ok <==> Structured(rows, delta)
  {
    for i := 0 to |rows|
      invariant Structured(rows[..i], delta)
    {
      if rows[i].at % delta != 0 || (i > 0 && rows[i - 1].at >= rows[i].at) {
        return false;
      }
      assert rows[..i + 1] == rows[..i] + [rows[i]];
      assert i > 0 ==> rows[..i][i - 1] == rows[i - 1];
    }
    assert rows[..|rows|] == rows;
    ok := true;
  }

  // ---- what a window should be ----

  // Two consecutive stretches as one bar.
  function Join(a: Bar, b: Bar): Bar {
    Bar(a.at, a.open, MaxReal(a.high, b.high), MinReal(a.low, b.low), b.close, a.volume + b.volume)
  }

  // Grid time number k from w.
  function Tick(w: int, delta: int, k: int): int {
    w + k * delta
  }

  // The bars by time.
  ghost function ByTime(rows: seq<Bar>): map<int, Bar>
    requires Ascending(rows)
  {
    map i | 0 <= i < |rows| :: rows[i].at := rows[i]
  }

  // All n bars of the window that starts at w are there.
  ghost predicate Complete(m: map<int, Bar>, w: int, delta: int, n: nat) {
    forall k | 0 <= k < n :: Tick(w, delta, k) in m
  }

  // Their aggregate.
  ghost function Aggregated(m: map<int, Bar>, w: int, delta: int, n: nat): Bar
    requires n > 0 && Complete(m, w, delta, n)
  {
    if n == 1 then m[Tick(w, delta, 0)] else Join(Aggregated(m, w, delta, n - 1), m[Tick(w, delta, n - 1)])
  }

  // mid holds exactly the complete windows of n bars at multiples of `window`, aggregated.
  ghost predicate Coarsened(m: map<int, Bar>, mid: map<int, Bar>, delta: int, n: nat, window: int)
    requires delta > 0 && window > 0
  {
    && n > 0
    && (forall w :: w in mid <==> w % window == 0 && Complete(m, w, delta, n))
    && (forall w | w in mid :: Complete(m, w, delta, n) && mid[w] == Aggregated(m, w, delta, n))
  }

  // out holds exactly the aggregates of the complete windows, in order; dropped the other
  // windows between the first and the last bar.
  ghost predicate IsResampled(rows: seq<Bar>, delta: int, window: int, out: seq<Bar>, dropped: seq<int>)
    requires delta > 0 && window > 0 && window % delta == 0
  {
    && Structured(rows, delta) && Structured(out, window)
    && Coarsened(ByTime(rows), ByTime(out), delta, window / delta, window)
    && (forall w :: w in dropped <==> InRange(rows, window, w) && !Complete(ByTime(rows), w, delta, window / delta))
    && forall i, j | 0 <= i < j < |dropped| :: dropped[i] < dropped[j]
  }

  // A window start between the floor of the first bar and the last bar.
  predicate InRange(rows: seq<Bar>, window: int, w: int)
    requires window > 0
  {
    rows != [] && w % window == 0 && (rows[0].at / window) * window <= w <= rows[|rows| - 1].at
  }

  // ---- composition ----

  lemma JoinAssociates(a: Bar, b: Bar, c: Bar)
    ensures Join(Join(a, b), c) == Join(a, Join(b, c))
  {
  }

  lemma TickShift(w: int, delta: int, n: int, k: int)
    ensures Tick(Tick(w, delta, n), delta, k) == Tick(w, delta, n + k)
  {
  }

  lemma CompleteSplits(m: map<int, Bar>, w: int, delta: int, a: nat, b: nat)
    ensures Complete(m, w, delta, a + b) <==> Complete(m, w, delta, a) && Complete(m, Tick(w, delta, a), delta, b)
  {
    hide Tick;
    if Complete(m, w, delta, a + b) {
      forall k | 0 <= k < b
        ensures Tick(Tick(w, delta, a), delta, k) in m
      {
        TickShift(w, delta, a, k);
      }
    }
    if Complete(m, w, delta, a) && Complete(m, Tick(w, delta, a), delta, b) {
      forall k | 0 <= k < a + b
        ensures Tick(w, delta, k) in m
      {
        if k >= a {
          TickShift(w, delta, a, k - a);
        }
      }
    }
  }

  // The aggregate of two adjacent stretches joins their aggregates.
  lemma {:induction false} AggregateSplits(m: map<int, Bar>, w: int, delta: int, a: nat, b: nat)
    requires a > 0 && b > 0 && Complete(m, w, delta, a + b)
    ensures Complete(m, w, delta, a) && Complete(m, Tick(w, delta, a), delta, b)
    ensures Aggregated(m, w, delta, a + b)
         == Join(Aggregated(m, w, delta, a), Aggregated(m, Tick(w, delta, a), delta, b))
  {
    hide Tick, Join;
    CompleteSplits(m, w, delta, a, b);
    TickShift(w, delta, a, b - 1);
    if b > 1 {
      CompleteSplits(m, w, delta, a, b - 1);
      AggregateSplits(m, w, delta, a, b - 1);
      JoinAssociates(Aggregated(m, w, delta, a), Aggregated(m, Tick(w, delta, a), delta, b - 1),
                     m[Tick(w, delta, a + b - 1)]);
    }
  }

  lemma StepOfMultiple(delta: int, p: int, w: int, j: int, a: int, k: int)
    requires a == p * delta && k == j * p
    ensures Tick(w, a, j) == Tick(w, delta, k)
  {
    assert j * (p * delta) == (j * p) * delta;
  }

  lemma AlignedTick(w: int, a: int, j: int)
    requires a > 0 && w % a == 0
    ensures Tick(w, a, j) % a == 0
  {
    var q := w / a;
    assert w == q * a;
    assert Tick(w, a, j) == (q + j) * a;
    Rounding.ExactMultiple(q + j, a);
  }

  lemma TimesSucc(q: nat, p: nat)
    requires q > 0
    ensures q * p == (q - 1) * p + p
    ensures p > 0 ==> (q * p > 0 && (q > 1 ==> (q - 1) * p > 0))
  {
    if p > 0 && q > 1 {
      assert (q - 1) * p >= p by { Rounding.MulLeft(1, q - 1, p); }
    }
  }

  // A window of q coarse bars is complete exactly when its n = q * p fine bars are, and
  // aggregates to the same bar.
  lemma {:induction false} CoarseWindow(m: map<int, Bar>, mid: map<int, Bar>, delta: int, p: nat, a: int, w: int,
                                        q: nat, n: nat)
    requires delta > 0 && p > 0 && a > 0 && a == p * delta && n == q * p
    requires Coarsened(m, mid, delta, p, a) && w % a == 0
    ensures Complete(mid, w, a, q) <==> Complete(m, w, delta, n)
    ensures q > 0 ==> n > 0
    ensures q > 0 && Complete(mid, w, a, q) ==> Aggregated(mid, w, a, q) == Aggregated(m, w, delta, n)
  {
    hide Tick, Join;
    if q > 0 {
      TimesSucc(q, p);
      var n' := n - p;
      CoarseWindow(m, mid, delta, p, a, w, q - 1, n');
      var t := Tick(w, a, q - 1);
      StepOfMultiple(delta, p, w, q - 1, a, n');
      AlignedTick(w, a, q - 1);
      CompleteSplits(mid, w, a, q - 1, 1);
      OneTick(mid, t, a);
      OneTick(mid, w, a);
      CompleteSplits(m, w, delta, n', p);
      if Complete(mid, w, a, q) && q > 1 {
        AggregateSplits(m, w, delta, n', p);
      }
    }
  }

  lemma OneTick(m: map<int, Bar>, w: int, delta: int)
    ensures Complete(m, w, delta, 1) <==> w in m
    ensures Tick(w, delta, 0) == w
  {
    assert Tick(w, delta, 0) == w;
  }

  // ---- ordered sequences are their maps ----

  lemma ByTimeMembers(rows: seq<Bar>, x: Bar)
    requires Ascending(rows)
    ensures x in rows <==> x.at in ByTime(rows) && ByTime(rows)[x.at] == x
  {
  }

  ghost predicate AscendingBy<T(!new)>(a: seq<T>, key: T -> int) {
    forall i, j | 0 <= i < j < |a| :: key(a[i]) < key(a[j])
  }

  // An ascending sequence is determined by its members.
  lemma {:induction false} SameMembers<T(!new)>(a: seq<T>, b: seq<T>, key: T -> int)
    requires AscendingBy(a, key) && AscendingBy(b, key) && forall x :: x in a <==> x in b
    ensures a == b
  {
    hide AscendingBy;
    HasMember(a);
    HasMember(b);
    if a != [] {
      var x, y := a[|a| - 1], b[|b| - 1];
      assert x in a && y in b;
      InitMembers(a, key, y);
      InitMembers(b, key, x);
      var a', b' := a[..|a| - 1], b[..|b| - 1];
      assert a == a' + [x] && b == b' + [y];
      forall z
        ensures z in a' <==> z in b'
      {
        InitMembers(a, key, z);
        InitMembers(b, key, z);
      }
      SameMembers(a', b', key);
    }
  }

  lemma HasMember<T>(a: seq<T>)
    ensures a == [] || exists x :: x in a
  {
    if a != [] {
      assert a[0] in a;
    }
  }

  lemma InitMembers<T(!new)>(a: seq<T>, key: T -> int, z: T)
    requires a != [] && AscendingBy(a, key)
    ensures AscendingBy(a[..|a| - 1], key)
    ensures z in a[..|a| - 1] <==> z in a && z != a[|a| - 1]
    ensures z in a ==> z == a[|a| - 1] || key(z) < key(a[|a| - 1])
  {
    if z in a {
      var i :| 0 <= i < |a| && a[i] == z;
      if i < |a| - 1 {
        assert a[..|a| - 1][i] == z;
      }
    }
    if z in a[..|a| - 1] {
      var i :| 0 <= i < |a| - 1 && a[..|a| - 1][i] == z;
      assert a[i] == z && key(a[i]) < key(a[|a| - 1]);
    }
  }

  lemma SameBars(a: seq<Bar>, b: seq<Bar>)
    requires Ascending(a) && Ascending(b) && ByTime(a) == ByTime(b)
    ensures a == b
  {
    forall x
      ensures x in a <==> x in b
    {
      ByTimeMembers(a, x);
      ByTimeMembers(b, x);
    }
    hide ByTime;
    SameMembers(a, b, (x: Bar) => x.at);
  }

  lemma DividesThrough(delta: int, a: int, b: int)
    requires delta > 0 && a > 0 && b > 0 && a % delta == 0 && b % a == 0
    ensures a == (a / delta) * delta && a / delta > 0 && b / a > 0
    ensures b % delta == 0 && b / delta == (b / a) * (a / delta)
  {
    var p, q := a / delta, b / a;
    assert a == p * delta && b == q * a;
    assert q * (p * delta) == (q * p) * delta;
    Rounding.ExactMultiple(q * p, delta);
    if p <= 0 {
      Rounding.MulLeft(p, 0, delta);
    }
    if q <= 0 {
      Rounding.MulLeft(q, 0, a);
    }
  }

  lemma CoarserIsAligned(w: int, a: int, b: int)
    requires a > 0 && b > 0 && b % a == 0 && w % b == 0
    ensures w % a == 0
  {
    var q, k := b / a, w / b;
    assert b == q * a && w == k * b;
    assert k * (q * a) == (k * q) * a;
    Rounding.ExactMultiple(k * q, a);
  }

  lemma CoarsenTwice(m: map<int, Bar>, c: map<int, Bar>, twice: map<int, Bar>, once: map<int, Bar>,
                     delta: int, p: nat, a: int, q: nat, b: int, n: nat)
    requires delta > 0 && a > 0 && b > 0 && a == p * delta && b % a == 0 && n == q * p
    requires Coarsened(m, c, delta, p, a) && Coarsened(c, twice, a, q, b) && Coarsened(m, once, delta, n, b)
    ensures twice == once
  {
    forall w | w % b == 0
      ensures Complete(c, w, a, q) <==> Complete(m, w, delta, n)
      ensures Complete(c, w, a, q) ==> Aggregated(c, w, a, q) == Aggregated(m, w, delta, n)
    {
      CoarserIsAligned(w, a, b);
      CoarseWindow(m, c, delta, p, a, w, q, n);
    }
    hide Complete, Aggregated;
    forall w
      ensures w in twice <==> w in once
      ensures w in twice ==> twice[w] == once[w]
    {
      if w % b == 0 {
        assert w in twice <==> Complete(c, w, a, q);
      }
    }
  }

  // Resampling in two stages emits the same windows with the same values as in one.
  lemma ResamplingComposes(rows: seq<Bar>, delta: int, a: int, b: int, mid: seq<Bar>, twice: seq<Bar>, once: seq<Bar>,
                           d0: seq<int>, d1: seq<int>, d2: seq<int>)
    requires delta > 0 && a > 0 && b > 0 && a % delta == 0 && b % a == 0 && b % delta == 0
    requires IsResampled(rows, delta, a, mid, d0) && IsResampled(mid, a, b, twice, d1)
    requires IsResampled(rows, delta, b, once, d2)
    ensures twice == once
  {
    DividesThrough(delta, a, b);
    hide Coarsened, ByTime, InRange, Complete;
    CoarsenTwice(ByTime(rows), ByTime(mid), ByTime(twice), ByTime(once), delta, a / delta, a, b / a, b, b / delta);
    SameBars(twice, once);
  }

  // ---- the procedure ----

  // The rows inside one window.
  method WindowRows(rows: seq<Bar>, lo: int, hi: int) returns (group: seq<Bar>)
    requires Ascending(rows)
    ensures Ascending(group)
    ensures forall x :: x in group <==> x in rows && lo <= x.at < hi
  {
    group := [];
    for i := 0 to |rows|
      invariant Ascending(group)
      invariant forall x :: x in group <==> x in rows[..i] && lo <= x.at < hi
    {
      assert rows[..i + 1] == rows[..i] + [rows[i]];
      if lo <= rows[i].at < hi {
        forall j | 0 <= j < |group|
          ensures group[j].at < rows[i].at
        {
          assert group[j] in group;
        }
        group := group + [rows[i]];
      }
    }
    assert rows[..|rows|] == rows;
  }

  // The expected index of the window, compared position by position.
  predicate OnTicks(group: seq<Bar>, w: int, delta: int, n: nat) {
    |group| == n && forall i | 0 <= i < n :: group[i].at == Tick(w, delta, i)
  }

  method MatchesTicks(group: seq<Bar>, w: int, delta: int, n: nat) returns (ok: bool)
    ensures ok <==> OnTicks(group, w, delta, n)
  {
    if |group| != n {
      return false;
    }
    for i := 0 to n
      invariant forall j | 0 <= j < i :: group[j].at == Tick(w, delta, j)
    {
      if group[i].at != w + i * delta {
        return false;
      }
    }
    ok := true;
  }

  // First, max, min, last and sum.
  method AggregateGroup(group: seq<Bar>, w: int, delta: int, n: nat, ghost m: map<int, Bar>) returns (bar: Bar)
    requires n > 0 && OnTicks(group, w, delta, n) && forall x | x in group :: x.at in m && m[x.at] == x
    ensures Complete(m, w, delta, n) && bar == Aggregated(m, w, delta, n)
  {
    assert forall i | 0 <= i < n :: group[i] in group;
    var high, low, volume := group[0].high, group[0].low, group[0].volume;
    assert Complete(m, w, delta, 1);
    for i := 1 to n
      invariant Complete(m, w, delta, i)
      invariant Aggregated(m, w, delta, i) == Bar(group[0].at, group[0].open, high, low, group[i - 1].close, volume)
    {
      assert Tick(w, delta, i) in m;
      high, low, volume := MaxReal(high, group[i].high), MinReal(low, group[i].low), volume + group[i].volume;
    }
    bar := Bar(w, group[0].open, high, low, group[n - 1].close, volume);
    assert group[0].at == w by {
      assert Tick(w, delta, 0) == w;
    }
  }

  lemma TickOrder(w: int, delta: int, i: int, j: int)
    requires delta > 0
    ensures i < j <==> Tick(w, delta, i) < Tick(w, delta, j)
    ensures i < j ==> Tick(w, delta, i) + delta <= Tick(w, delta, j)
  {
    if i < j {
      Rounding.MulLeft(i + 1, j, delta);
    } else {
      Rounding.MulLeft(j, i, delta);
    }
  }

  // Grid times at or after w, in strict order, never fall behind the ticks.
  lemma {:induction false} NotBehindTicks(group: seq<Bar>, w: int, delta: int, i: nat)
    requires delta > 0 && Structured(group, delta) && w % delta == 0 && i < |group|
    requires forall x | x in group :: x.at >= w
    ensures group[i].at >= Tick(w, delta, i)
  {
    if i == 0 {
      assert group[0] in group && Tick(w, delta, 0) == w;
    } else {
      NotBehindTicks(group, w, delta, i - 1);
      GridStep(group[i - 1].at, group[i].at, delta);
      assert Tick(w, delta, i) == Tick(w, delta, i - 1) + delta;
    }
  }

  lemma GridStep(a: int, b: int, delta: int)
    requires delta > 0 && a % delta == 0 && b % delta == 0 && a < b
    ensures a + delta <= b
  {
    var p, q := a / delta, b / delta;
    assert a == p * delta && b == q * delta;
    if q <= p {
      Rounding.MulLeft(q, p, delta);
    }
    Rounding.MulLeft(p + 1, q, delta);
  }

  ghost predicate HasBarAt(group: seq<Bar>, t: int) {
    exists x :: x in group && x.at == t
  }

  // A bar at each of the n ticks, and nothing outside the window.
  ghost predicate Filled(group: seq<Bar>, w: int, delta: int, n: nat)
    requires delta > 0
  {
    && Structured(group, delta)
    && (forall x | x in group :: w <= x.at < Tick(w, delta, n))
    && forall k | 0 <= k < n :: HasBarAt(group, Tick(w, delta, k))
  }

  lemma BarOfTick(group: seq<Bar>, w: int, delta: int, n: nat, k: nat) returns (j: nat)
    requires delta > 0 && w % delta == 0 && Filled(group, w, delta, n) && k < n
    ensures j <= k && j < |group| && group[j].at == Tick(w, delta, k)
  {
    assert HasBarAt(group, Tick(w, delta, k));
    var x :| x in group && x.at == Tick(w, delta, k);
    j :| 0 <= j < |group| && group[j] == x;
    hide Filled;
    NotBehindTicks(group, w, delta, j);
    TickOrder(w, delta, k, j);
  }

  // Such a group is exactly the ticks.
  lemma {:induction false} TicksInPlace(group: seq<Bar>, w: int, delta: int, n: nat, i: nat)
    requires delta > 0 && w % delta == 0 && Filled(group, w, delta, n) && i <= n
    ensures i <= |group| && forall j | 0 <= j < i :: group[j].at == Tick(w, delta, j)
  {
    hide Tick, Filled;
    if i > 0 {
      TicksInPlace(group, w, delta, n, i - 1);
      var j := BarOfTick(group, w, delta, n, i - 1);
      TickOrder(w, delta, j, i - 1);
    }
  }

  // The positional test recognises exactly the complete windows.
  lemma GroupIsComplete(rows: seq<Bar>, group: seq<Bar>, w: int, delta: int, n: nat)
    requires delta > 0 && n > 0 && Structured(rows, delta) && w % delta == 0 && Ascending(group)
    requires forall x :: x in group <==> x in rows && w <= x.at < Tick(w, delta, n)
    ensures OnTicks(group, w, delta, n) <==> Complete(ByTime(rows), w, delta, n)
    ensures forall x | x in group :: x.at in ByTime(rows) && ByTime(rows)[x.at] == x
  {
    forall x | x in group
      ensures x.at in ByTime(rows) && ByTime(rows)[x.at] == x
      ensures x.at % delta == 0
    {
      ByTimeMembers(rows, x);
    }
    if OnTicks(group, w, delta, n) {
      forall k | 0 <= k < n
        ensures Tick(w, delta, k) in ByTime(rows)
      {
        assert group[k] in group;
      }
    }
    if Complete(ByTime(rows), w, delta, n) {
      CompleteGroup(rows, group, w, delta, n);
    }
  }

  lemma CompleteGroup(rows: seq<Bar>, group: seq<Bar>, w: int, delta: int, n: nat)
    requires delta > 0 && Structured(rows, delta) && w % delta == 0 && Ascending(group)
    requires forall x :: x in group <==> x in rows && w <= x.at < Tick(w, delta, n)
    requires Complete(ByTime(rows), w, delta, n)
    ensures OnTicks(group, w, delta, n)
  {
    forall i | 0 <= i < |group|
      ensures group[i].at % delta == 0
    {
      assert group[i] in group;
    }
    forall k | 0 <= k < n
      ensures HasBarAt(group, Tick(w, delta, k))
    {
      assert Tick(w, delta, k) in ByTime(rows);
      var x := ByTime(rows)[Tick(w, delta, k)];
      TickOrder(w, delta, k, n);
      if k > 0 {
        TickOrder(w, delta, 0, k);
      }
      assert Tick(w, delta, 0) == w;
      assert x in rows && x.at == Tick(w, delta, k);
    }
    assert Filled(group, w, delta, n);
    TicksInPlace(group, w, delta, n, n);
    if |group| > n {
      assert group[n] in group;
      NotBehindTicks(group, w, delta, n);
    }
  }

  lemma ByTimeExtends(out: seq<Bar>, bar: Bar)
    requires Ascending(out) && forall x | x in out :: x.at < bar.at
    ensures Ascending(out + [bar]) && ByTime(out + [bar]) == ByTime(out)[bar.at := bar]
  {
    var next := out + [bar];
    forall i | 0 <= i < |out|
      ensures next[i] == out[i] && out[i].at < bar.at
    {
      assert out[i] in out;
    }
    assert next[|out|] == bar;
    forall t
      ensures t in ByTime(next) <==> t in ByTime(out) || t == bar.at
      ensures t in ByTime(next) && t != bar.at ==> ByTime(next)[t] == ByTime(out)[t]
    {
      ExtendedAt(out, bar, t);
    }
    ByTimeMembers(next, bar);
    assert bar in next;
    hide ByTime;
    assert ByTime(next) == ByTime(out)[bar.at := bar];
  }

  lemma ExtendedAt(out: seq<Bar>, bar: Bar, t: int)
    requires Ascending(out) && Ascending(out + [bar])
    ensures t in ByTime(out + [bar]) <==> t in ByTime(out) || t == bar.at
    ensures t in ByTime(out + [bar]) && t != bar.at ==> ByTime(out + [bar])[t] == ByTime(out)[t]
  {
    var next := out + [bar];
    if t in ByTime(next) && t != bar.at {
      var i :| 0 <= i < |next| && next[i].at == t;
      assert out[i].at == t;
    }
    if t in ByTime(out) {
      var x := ByTime(out)[t];
      assert x in out && x.at == t;
      assert x in next;
      ByTimeMembers(next, x);
    }
    if t == bar.at {
      assert bar in next;
      ByTimeMembers(next, bar);
    }
  }

  // Of the windows before hi, the complete ones are emitted ...
  ghost predicate EmittedBelow(rows: seq<Bar>, delta: int, window: int, n: nat, hi: int, out: map<int, Bar>)
    requires window > 0 && n > 0 && Ascending(rows)
  {
    && (forall v :: v in out <==> InRange(rows, window, v) && v < hi && Complete(ByTime(rows), v, delta, n))
    && forall v | v in out :: Complete(ByTime(rows), v, delta, n) && out[v] == Aggregated(ByTime(rows), v, delta, n)
  }

  // ... and the others listed.
  ghost predicate DroppedBelow(rows: seq<Bar>, delta: int, window: int, n: nat, hi: int, dropped: seq<int>)
    requires window > 0 && Ascending(rows)
  {
    && (forall v :: v in dropped <==> InRange(rows, window, v) && v < hi && !Complete(ByTime(rows), v, delta, n))
    && forall i, j | 0 <= i < j < |dropped| :: dropped[i] < dropped[j]
  }

  ghost predicate SettledBelow(rows: seq<Bar>, delta: int, window: int, n: nat, hi: int, out: seq<Bar>,
                               dropped: seq<int>)
    requires delta > 0 && window > 0 && n > 0 && Ascending(rows)
  {
    && Structured(out, window) && (forall x | x in out :: x.at < hi)
    && EmittedBelow(rows, delta, window, n, hi, ByTime(out))
    && DroppedBelow(rows, delta, window, n, hi, dropped)
  }

  lemma WindowPassed(rows: seq<Bar>, delta: int, window: int, n: nat, w: int, out: map<int, Bar>, dropped: seq<int>)
    requires window > 0 && n > 0 && Ascending(rows) && InRange(rows, window, w)
    ensures DroppedBelow(rows, delta, window, n, w, dropped) && Complete(ByTime(rows), w, delta, n)
            ==> DroppedBelow(rows, delta, window, n, w + window, dropped)
    ensures EmittedBelow(rows, delta, window, n, w, out) && !Complete(ByTime(rows), w, delta, n)
            ==> EmittedBelow(rows, delta, window, n, w + window, out)
  {
    NoWindowBetween(rows, window, w);
    hide Complete, Aggregated, ByTime, InRange;
  }

  lemma WindowEmitted(rows: seq<Bar>, delta: int, window: int, n: nat, w: int, out: map<int, Bar>)
    requires window > 0 && n > 0 && Ascending(rows) && InRange(rows, window, w)
    requires EmittedBelow(rows, delta, window, n, w, out) && Complete(ByTime(rows), w, delta, n)
    ensures EmittedBelow(rows, delta, window, n, w + window, out[w := Aggregated(ByTime(rows), w, delta, n)])
  {
    NoWindowBetween(rows, window, w);
    hide Complete, Aggregated, ByTime, InRange;
    var out' := out[w := Aggregated(ByTime(rows), w, delta, n)];
    forall v
      ensures v in out' <==> InRange(rows, window, v) && v < w + window && Complete(ByTime(rows), v, delta, n)
      ensures v in out' ==> Complete(ByTime(rows), v, delta, n) && out'[v] == Aggregated(ByTime(rows), v, delta, n)
    {
      assert v in out <==> InRange(rows, window, v) && v < w && Complete(ByTime(rows), v, delta, n);
    }
  }

  lemma StructuredExtends(rows: seq<Bar>, out: seq<Bar>, bar: Bar, window: int)
    requires window > 0 && Structured(out, window) && InRange(rows, window, bar.at)
    requires forall x | x in out :: x.at < bar.at
    ensures Structured(out + [bar], window)
    ensures forall x | x in out + [bar] :: x.at < bar.at + window
  {
    forall i | 0 <= i < |out|
      ensures out[i].at < bar.at
    {
      assert out[i] in out;
    }
  }

  lemma SettleEmitted(rows: seq<Bar>, delta: int, window: int, n: nat, w: int, out: seq<Bar>, dropped: seq<int>,
                      bar: Bar)
    requires delta > 0 && window > 0 && n > 0 && Ascending(rows)
    requires SettledBelow(rows, delta, window, n, w, out, dropped) && InRange(rows, window, w)
    requires Complete(ByTime(rows), w, delta, n) && bar == Aggregated(ByTime(rows), w, delta, n) && bar.at == w
    ensures SettledBelow(rows, delta, window, n, w + window, out + [bar], dropped)
  {
    ByTimeExtends(out, bar);
    NoWindowBetween(rows, window, w);
    StructuredExtends(rows, out, bar, window);
    WindowPassed(rows, delta, window, n, w, ByTime(out), dropped);
    WindowEmitted(rows, delta, window, n, w, ByTime(out));
    hide Aggregated, Complete, ByTime, InRange, DroppedBelow, EmittedBelow, Structured;
  }

  lemma SettleDropped(rows: seq<Bar>, delta: int, window: int, n: nat, w: int, out: seq<Bar>, dropped: seq<int>)
    requires delta > 0 && window > 0 && n > 0 && Ascending(rows)
    requires SettledBelow(rows, delta, window, n, w, out, dropped) && InRange(rows, window, w)
    requires !Complete(ByTime(rows), w, delta, n)
    ensures SettledBelow(rows, delta, window, n, w + window, out, dropped + [w])
  {
    NoWindowBetween(rows, window, w);
    WindowPassed(rows, delta, window, n, w, ByTime(out), dropped);
    hide Aggregated, Complete, ByTime, InRange, EmittedBelow;
    forall i | 0 <= i < |dropped|
      ensures dropped[i] < w
    {
      assert dropped[i] in dropped;
    }
  }

  lemma NoWindowBetween(rows: seq<Bar>, window: int, w: int)
    requires window > 0 && w % window == 0
    ensures forall v | InRange(rows, window, v) && v < w + window :: v <= w
  {
    forall v | InRange(rows, window, v) && v < w + window
      ensures v <= w
    {
      if v > w {
        GridStep(w, v, window);
      }
    }
  }

  lemma CompleteIsInRange(rows: seq<Bar>, delta: int, window: int, n: nat, v: int)
    requires n > 0 && window > 0 && rows != [] && Ascending(rows)
    requires v % window == 0 && Complete(ByTime(rows), v, delta, n)
    ensures InRange(rows, window, v) && v <= rows[|rows| - 1].at
  {
    OneTick(ByTime(rows), v, delta);
    assert Tick(v, delta, 0) in ByTime(rows);
    hide Complete, ByTime, Tick;
    var i := RowAt(rows, v);
    assert rows[0].at <= v <= rows[|rows| - 1].at;
  }

  // Once every window up to the last bar is settled, nothing is missing.
  lemma AllSettled(rows: seq<Bar>, delta: int, window: int, n: nat, w: int, out: seq<Bar>, dropped: seq<int>)
    requires delta > 0 && window > 0 && window % delta == 0 && n == window / delta && n > 0 && rows != []
    requires Structured(rows, delta)
    requires SettledBelow(rows, delta, window, n, w, out, dropped) && w > rows[|rows| - 1].at
    ensures IsResampled(rows, delta, window, out, dropped)
  {
    hide Complete, Aggregated, ByTime;
    forall v
      ensures v % window == 0 && Complete(ByTime(rows), v, delta, n) ==> InRange(rows, window, v) && v < w
      ensures InRange(rows, window, v) ==> v % window == 0 && v < w
    {
      if v % window == 0 && Complete(ByTime(rows), v, delta, n) {
        CompleteIsInRange(rows, delta, window, n, v);
      }
    }
  }

  // The aggregate carries the window's start.
  lemma {:induction false} AggregatedAt(m: map<int, Bar>, w: int, delta: int, n: nat)
    requires n > 0 && Complete(m, w, delta, n) && forall t | t in m :: m[t].at == t
    ensures Aggregated(m, w, delta, n).at == w
  {
    if n > 1 {
      AggregatedAt(m, w, delta, n - 1);
    } else {
      assert Tick(w, delta, 0) == w;
    }
  }

  // ---- what an emitted bar says ----

  lemma RowAt(rows: seq<Bar>, at: int) returns (i: nat)
    requires Ascending(rows) && at in ByTime(rows)
    ensures i < |rows| && rows[i].at == at
  {
    i :| i < |rows| && rows[i].at == at;
  }

  // The rows of a complete window lie side by side, one at each tick.
  lemma {:induction false} WindowIndices(rows: seq<Bar>, w: int, delta: int, n: nat) returns (f: nat)
    requires delta > 0 && n > 0 && Structured(rows, delta) && Complete(ByTime(rows), w, delta, n)
    ensures f + n <= |rows| && forall k | 0 <= k < n :: rows[f + k].at == Tick(w, delta, k)
  {
    hide Tick, ByTime;
    var g := RowAt(rows, Tick(w, delta, n - 1));
    if n == 1 {
      f := g;
    } else {
      f := WindowIndices(rows, w, delta, n - 1);
      NextTick(w, delta, n - 1);
      NextRow(rows, delta, f + (n - 2), g);
    }
  }

  lemma NextRow(rows: seq<Bar>, delta: int, i: nat, g: nat)
    requires delta > 0 && Structured(rows, delta) && i < |rows| && g < |rows| && rows[g].at == rows[i].at + delta
    ensures g == i + 1
  {
    if g > i + 1 {
      GridStep(rows[i].at, rows[i + 1].at, delta);
    }
  }

  lemma NextTick(w: int, delta: int, k: int)
    requires delta > 0
    ensures Tick(w, delta, k) == Tick(w, delta, k - 1) + delta
  {
  }

  // The volumes of the rows from <= i < to.
  function VolumeOf(rows: seq<Bar>, from: nat, to: nat): real
    requires from <= to <= |rows|
  {
    if to == from then 0.0 else VolumeOf(rows, from, to - 1) + rows[to - 1].volume
  }

  // First open, highest high, lowest low, last close and whole volume of n rows from f on.
  ghost predicate SumsUp(rows: seq<Bar>, f: nat, n: nat, x: Bar)
    requires 0 < n && f + n <= |rows|
  {
    && x.open == rows[f].open && x.close == rows[f + n - 1].close
    && (forall i | f <= i < f + n :: x.low <= rows[i].low && rows[i].high <= x.high)
    && (exists i :: f <= i < f + n && x.high == rows[i].high)
    && (exists i :: f <= i < f + n && x.low == rows[i].low)
    && x.volume == VolumeOf(rows, f, f + n)
  }

  lemma {:induction false} AggregateSumsUp(rows: seq<Bar>, w: int, delta: int, f: nat, n: nat)
    requires n > 0 && Ascending(rows) && Complete(ByTime(rows), w, delta, n)
    requires f + n <= |rows| && forall k | 0 <= k < n :: ByTime(rows)[Tick(w, delta, k)] == rows[f + k]
    ensures SumsUp(rows, f, n, Aggregated(ByTime(rows), w, delta, n))
  {
    hide ByTime, Tick;
    if n == 1 {
      var x := Aggregated(ByTime(rows), w, delta, 1);
      assert rows[f + 0] == rows[f] == x;
      assert VolumeOf(rows, f, f + 1) == VolumeOf(rows, f, f) + rows[f].volume;
      assert x.high == rows[f].high && x.low == rows[f].low;
    } else {
      AggregateSumsUp(rows, w, delta, f, n - 1);
      var m, last := ByTime(rows), rows[f + n - 1];
      assert Aggregated(m, w, delta, n) == Join(Aggregated(m, w, delta, n - 1), last);
      hide Aggregated;
      OneMoreRow(rows, f, n, Aggregated(m, w, delta, n - 1));
    }
  }

  lemma OneMoreRow(rows: seq<Bar>, f: nat, n: nat, x: Bar)
    requires 1 < n && f + n <= |rows| && SumsUp(rows, f, n - 1, x)
    ensures SumsUp(rows, f, n, Join(x, rows[f + n - 1]))
  {
    var last := f + n - 1;
    var h :| f <= h < last && x.high == rows[h].high;
    var l :| f <= l < last && x.low == rows[l].low;
    var y := Join(x, rows[last]);
    var h', l' := if rows[h].high < rows[last].high then last else h, if rows[last].low < rows[l].low then last else l;
    assert y.high == rows[h'].high && y.low == rows[l'].low;
    assert VolumeOf(rows, f, f + n) == VolumeOf(rows, f, f + (n - 1)) + rows[last].volume;
  }

  // The rows inside [lo, hi) are the n from f on.
  ghost predicate LieIn(rows: seq<Bar>, lo: int, hi: int, f: nat, n: nat) {
    f + n <= |rows| && forall i | 0 <= i < |rows| :: lo <= rows[i].at < hi <==> f <= i < f + n
  }

  lemma IndicesLieIn(rows: seq<Bar>, delta: int, lo: int, hi: int, f: nat, n: nat)
    requires delta > 0 && n > 0 && Structured(rows, delta) && f + n <= |rows|
    requires rows[f].at == lo && rows[f + n - 1].at == hi - delta
    ensures LieIn(rows, lo, hi, f, n)
  {
    forall i | 0 <= i < |rows|
      ensures lo <= rows[i].at < hi <==> f <= i < f + n
    {
      if i >= f + n {
        GridStep(rows[f + n - 1].at, rows[i].at, delta);
      }
    }
  }

  // x is the bar of the rows in its window: they begin and end with it, and it sums them up.
  ghost predicate IsBarOf(rows: seq<Bar>, delta: int, window: int, x: Bar) {
    exists f: nat, n: nat ::
      && 0 < n && LieIn(rows, x.at, x.at + window, f, n)
      && rows[f].at == x.at && rows[f + n - 1].at == x.at + window - delta
      && SumsUp(rows, f, n, x)
  }

  lemma EmittedBar(rows: seq<Bar>, delta: int, window: int, n: nat, w: int)
    requires delta > 0 && window > 0 && window % delta == 0 && n == window / delta && n > 0
    requires Structured(rows, delta) && Complete(ByTime(rows), w, delta, n)
    ensures IsBarOf(rows, delta, window, Aggregated(ByTime(rows), w, delta, n))
  {
    var f := WindowIndices(rows, w, delta, n);
    RowsByTime(rows, w, delta, f, n);
    AggregateSumsUp(rows, w, delta, f, n);
    AggregateStart(rows, w, delta, n);
    TickAt(w, delta, n, window);
    NextTick(w, delta, n);
    OneTick(ByTime(rows), w, delta);
    hide ByTime, Tick, Complete, Aggregated, SumsUp, Ascending;
    assert rows[f + 0].at == w;
    assert rows[f + (n - 1)].at == w + window - delta;
    IndicesLieIn(rows, delta, w, w + window, f, n);
  }

  lemma RowsByTime(rows: seq<Bar>, w: int, delta: int, f: nat, n: nat)
    requires Ascending(rows) && Complete(ByTime(rows), w, delta, n)
    requires f + n <= |rows| && forall k | 0 <= k < n :: rows[f + k].at == Tick(w, delta, k)
    ensures forall k | 0 <= k < n :: ByTime(rows)[Tick(w, delta, k)] == rows[f + k]
  {
    forall k | 0 <= k < n
      ensures ByTime(rows)[Tick(w, delta, k)] == rows[f + k]
    {
      ByTimeMembers(rows, rows[f + k]);
    }
  }

  // Every time on the grid of delta inside the window has a row.
  ghost predicate NothingMissing(rows: seq<Bar>, delta: int, window: int, w: int)
    requires delta > 0
  {
    forall t | w <= t < w + window && t % delta == 0 :: HasBarAt(rows, t)
  }

  lemma CompleteMeans(rows: seq<Bar>, delta: int, window: int, n: nat, w: int)
    requires delta > 0 && window > 0 && window % delta == 0 && n == window / delta
    requires Structured(rows, delta) && w % delta == 0
    ensures Complete(ByTime(rows), w, delta, n) <==> NothingMissing(rows, delta, window, w)
  {
    TickAt(w, delta, n, window);
    if Complete(ByTime(rows), w, delta, n) {
      forall t | w <= t < w + window && t % delta == 0
        ensures HasBarAt(rows, t)
      {
        var k := TickOf(w, delta, n, t);
        assert t in ByTime(rows);
        assert ByTime(rows)[t] in rows;
      }
    }
    if NothingMissing(rows, delta, window, w) {
      forall k | 0 <= k < n
        ensures Tick(w, delta, k) in ByTime(rows)
      {
        AlignedTick(w, delta, k);
        TickOrder(w, delta, k, n);
        TickOrder(w, delta, 0, k + 1);
        TickOrder(w, delta, k, 0);
        assert Tick(w, delta, 0) == w;
        assert HasBarAt(rows, Tick(w, delta, k));
      }
    }
  }

  // A grid time in the window is one of its ticks.
  lemma TickOf(w: int, delta: int, n: nat, t: int) returns (k: nat)
    requires delta > 0 && w % delta == 0 && t % delta == 0 && w <= t < Tick(w, delta, n)
    ensures k < n && Tick(w, delta, k) == t
  {
    var a, b := w / delta, t / delta;
    assert w == a * delta && t == b * delta;
    if b < a {
      Rounding.MulLeft(b + 1, a, delta);
    }
    k := b - a;
    assert k * delta == b * delta - a * delta;
    if k >= n {
      Rounding.MulLeft(n, k, delta);
    }
  }

  // Some of the window lies between the first row and the last.
  predicate Overlaps(rows: seq<Bar>, window: int, w: int) {
    rows != [] && rows[0].at < w + window && w <= rows[|rows| - 1].at
  }

  // Each emitted bar is the bar of its rows; the windows with nothing missing are emitted, the others
  // that overlap the rows are listed.
  ghost predicate EmitsWindows(rows: seq<Bar>, delta: int, window: int, out: seq<Bar>, dropped: seq<int>)
    requires delta > 0 && window > 0
  {
    && (forall x | x in out :: IsBarOf(rows, delta, window, x))
    && (forall w :: HasBarAt(out, w) <==> w % window == 0 && NothingMissing(rows, delta, window, w))
    && (forall w :: w in dropped <==>
          w % window == 0 && Overlaps(rows, window, w) && !NothingMissing(rows, delta, window, w))
  }

  lemma RangeOverlaps(rows: seq<Bar>, window: int, w: int)
    requires window > 0 && w % window == 0
    ensures InRange(rows, window, w) <==> Overlaps(rows, window, w)
  {
    if rows != [] {
      var a, q := rows[0].at / window, w / window;
      assert w == q * window && a * window <= rows[0].at < a * window + window;
      if q < a {
        Rounding.MulLeft(q + 1, a, window);
      } else {
        Rounding.MulLeft(a, q, window);
      }
    }
  }

  // What IsResampled comes to.
  lemma EmitsItsWindows(rows: seq<Bar>, delta: int, window: int, out: seq<Bar>, dropped: seq<int>)
    requires delta > 0 && window > 0 && window % delta == 0 && IsResampled(rows, delta, window, out, dropped)
    ensures EmitsWindows(rows, delta, window, out, dropped)
  {
    var n := window / delta;
    DividesThrough(delta, window, window);
    forall x | x in out
      ensures IsBarOf(rows, delta, window, x)
    {
      ByTimeMembers(out, x);
      EmittedBar(rows, delta, window, n, x.at);
    }
    forall w
      ensures HasBarAt(out, w) <==> w % window == 0 && NothingMissing(rows, delta, window, w)
      ensures w in dropped <==>
                w % window == 0 && Overlaps(rows, window, w) && !NothingMissing(rows, delta, window, w)
    {
      InByTime(out, w);
      if w % window == 0 {
        CoarserIsAligned(w, delta, window);
        CompleteMeans(rows, delta, window, n, w);
        RangeOverlaps(rows, window, w);
      }
    }
  }

  lemma InByTime(rows: seq<Bar>, w: int)
    requires Ascending(rows)
    ensures w in ByTime(rows) <==> HasBarAt(rows, w)
  {
    if w in ByTime(rows) {
      var i := RowAt(rows, w);
      assert rows[i] in rows;
    }
  }

  datatype Resampled = Resampled(frame: Frame, dropped: seq<int>)

  function Bars(f: Frame): seq<Bar> {
    if f.NoIndex? then [] else f.rows
  }

  // Everything a call may return.
  ghost predicate Resamples(frame: Frame, delta: int, window: int, r: Result<Resampled, ResampleError>) {
    if delta <= 0 then r == Failure(BadFrequency)
    else if frame.NoIndex? then r == Failure(NotATimeIndex)
    else if frame.rows == [] then r == Success(Resampled(frame, []))
    else if !Structured(frame.rows, delta) then r == Failure(StructurallyInvalid)
    else if |frame.rows| < 2 then r == Failure(TooShort)
    else if window <= 0 then r == Failure(BadFrequency)
    else if window % delta != 0 then r == Failure(NotMultiple)
    else
      && r.Success?
      && (r.value.frame.NoIndex? <==> Bars(r.value.frame) == [])
      && IsResampled(frame.rows, delta, window, Bars(r.value.frame), r.value.dropped)
  }

  lemma {:induction false} ConsecutiveOrder(rows: seq<Bar>, i: nat, j: nat)
    requires i < j < |rows| && forall k | 0 < k < |rows| :: rows[k - 1].at < rows[k].at
    ensures rows[i].at < rows[j].at
  {
    if i < j - 1 {
      ConsecutiveOrder(rows, i, j - 1);
    }
  }

  // A call succeeds exactly on a frame with a time index that is empty, or has two rows or more, each
  // on the grid and later than the one before, when the window is a positive multiple of the step.
  lemma {:induction false} ResampleSucceedsExactly(frame: Frame, delta: int, window: int,
                                                   r: Result<Resampled, ResampleError>)
    requires Resamples(frame, delta, window, r)
    ensures r.Success? <==>
              && delta > 0 && frame.Indexed?
              && (frame.rows == []
                  || (|frame.rows| >= 2 && window > 0 && window % delta == 0
                      && (forall x | x in frame.rows :: x.at % delta == 0)
                      && forall i | 0 < i < |frame.rows| :: frame.rows[i - 1].at < frame.rows[i].at))
    ensures r.Success? && frame.rows == [] ==> r.value == Resampled(frame, [])
  {
    hide IsResampled;
    if frame.Indexed? && forall i | 0 < i < |frame.rows| :: frame.rows[i - 1].at < frame.rows[i].at {
      forall i, j | 0 <= i < j < |frame.rows|
        ensures frame.rows[i].at < frame.rows[j].at
      {
        ConsecutiveOrder(frame.rows, i, j);
      }
    }
  }

  method Resample(frame: Frame, delta: int, window: int) returns (r: Result<Resampled, ResampleError>)
    ensures Resamples(frame, delta, window, r)
    ensures r.Success? && Bars(frame) != [] ==>
              delta > 0 && window > 0
              && EmitsWindows(Bars(frame), delta, window, Bars(r.value.frame), r.value.dropped)
  {
    if delta <= 0 {
      return Failure(BadFrequency);
    }
    if frame.NoIndex? {
      return Failure(NotATimeIndex);
    }
    if frame.rows == [] {
      return Success(Resampled(frame, []));
    }
    var ok := CheckStructure(frame.rows, delta);
    if !ok {
      return Failure(StructurallyInvalid);
    }
    if |frame.rows| < 2 {
      return Failure(TooShort);
    }
    if window <= 0 {
      return Failure(BadFrequency);
    }
    if window % delta != 0 {
      return Failure(NotMultiple);
    }
    var out, dropped := ResampleWindows(frame.rows, delta, window);
    EmitsItsWindows(frame.rows, delta, window, out, dropped);
    r := Success(Resampled(if out == [] then NoIndex else Indexed(out), dropped));
  }

  method ResampleWindows(rows: seq<Bar>, delta: int, window: int) returns (out: seq<Bar>, dropped: seq<int>)
    requires delta > 0 && window > 0 && window % delta == 0 && rows != [] && Structured(rows, delta)
    ensures IsResampled(rows, delta, window, out, dropped)
  {
    hide Aggregated, Complete, ByTime, OnTicks, SettledBelow, IsResampled, Tick;
    DividesThrough(delta, window, window);
    var n := window / delta;
    var w := (rows[0].at / window) * window;
    Rounding.ExactMultiple(rows[0].at / window, window);
    out, dropped := [], [];
    NothingSettled(rows, delta, window, n, w);
    while w <= rows[|rows| - 1].at
      invariant w % window == 0 && (rows[0].at / window) * window <= w
      invariant SettledBelow(rows, delta, window, n, w, out, dropped)
      decreases rows[|rows| - 1].at - w
    {
      var group := WindowRows(rows, w, w + window);
      TickAt(w, delta, n, window);
      CoarserIsAligned(w, delta, window);
      GroupIsComplete(rows, group, w, delta, n);
      var matches := MatchesTicks(group, w, delta, n);
      if matches {
        var bar := AggregateGroup(group, w, delta, n, ByTime(rows));
        AggregateStart(rows, w, delta, n);
        SettleEmitted(rows, delta, window, n, w, out, dropped, bar);
        out := out + [bar];
      } else {
        SettleDropped(rows, delta, window, n, w, out, dropped);
        dropped := dropped + [w];
      }
      NextAligned(w, window);
      w := w + window;
    }
    AllSettled(rows, delta, window, n, w, out, dropped);
  }

  lemma NothingSettled(rows: seq<Bar>, delta: int, window: int, n: nat, w: int)
    requires delta > 0 && window > 0 && n > 0 && rows != [] && Ascending(rows)
    requires w == (rows[0].at / window) * window
    ensures SettledBelow(rows, delta, window, n, w, [], [])
  {
  }

  lemma TickAt(w: int, delta: int, n: nat, window: int)
    requires delta > 0 && window % delta == 0 && n == window / delta
    ensures Tick(w, delta, n) == w + window
  {
  }

  lemma AggregateStart(rows: seq<Bar>, w: int, delta: int, n: nat)
    requires n > 0 && Ascending(rows) && Complete(ByTime(rows), w, delta, n)
    ensures Aggregated(ByTime(rows), w, delta, n).at == w
  {
    AggregatedAt(ByTime(rows), w, delta, n);
  }

  lemma NextAligned(w: int, window: int)
    requires window > 0 && w % window == 0
    ensures (w + window) % window == 0
  {
    Rounding.ExactMultiple(w / window + 1, window);
    assert (w / window + 1) * window == w + window;
  }

  // ---- what two calls give ----

  lemma SameCoarsening(m: map<int, Bar>, x: map<int, Bar>, y: map<int, Bar>, delta: int, n: nat, window: int)
    requires delta > 0 && window > 0 && Coarsened(m, x, delta, n, window) && Coarsened(m, y, delta, n, window)
    ensures x == y
  {
    hide Complete, Aggregated;
    forall w
      ensures w in x <==> w in y
      ensures w in x ==> x[w] == y[w]
    {
      assert w in x <==> w % window == 0 && Complete(m, w, delta, n);
    }
  }

  lemma SameWindows(rows: seq<Bar>, delta: int, window: int, out: seq<Bar>, dropped: seq<int>, out': seq<Bar>,
                    dropped': seq<int>)
    requires delta > 0 && window > 0 && window % delta == 0
    requires IsResampled(rows, delta, window, out, dropped) && IsResampled(rows, delta, window, out', dropped')
    ensures out == out' && dropped == dropped'
  {
    hide Complete, Aggregated, ByTime, InRange;
    SameCoarsening(ByTime(rows), ByTime(out), ByTime(out'), delta, window / delta, window);
    hide Coarsened;
    SameBars(out, out');
    forall t
      ensures t in dropped <==> t in dropped'
    {
    }
    SameMembers(dropped, dropped', (t: int) => t);
  }

  // The contract of Resample leaves one answer.
  lemma ResampleIsDetermined(frame: Frame, delta: int, window: int, r: Result<Resampled, ResampleError>,
                             s: Result<Resampled, ResampleError>)
    requires Resamples(frame, delta, window, r) && Resamples(frame, delta, window, s)
    ensures r == s
  {
    hide IsResampled, Structured;
    if r.Success? && s.Success? && delta > 0 && frame.Indexed? && frame.rows != []
       && window > 0 && window % delta == 0 {
      SameWindows(frame.rows, delta, window, Bars(r.value.frame), r.value.dropped, Bars(s.value.frame),
                  s.value.dropped);
    }
  }

  ghost predicate IsWindow(rows: seq<Bar>, delta: int, a: int, w: int)
    requires delta > 0 && a > 0 && Ascending(rows)
  {
    w % a == 0 && Complete(ByTime(rows), w, delta, a / delta)
  }

  // Resampling to a and then to b either is resampling to b, or fails because the first stage
  // emitted no window, and lost the time index, or a single one, too short a frame to accept:
  // exactly when the input has rows but fewer than two complete windows of a.
  lemma {:induction false} TwoStagesAreOne(frame: Frame, delta: int, a: int, b: int,
                                           mid: Result<Resampled, ResampleError>,
                        twice: Result<Resampled, ResampleError>, once: Result<Resampled, ResampleError>)
    requires delta > 0 && a > 0 && b > 0 && b % a == 0
    requires Resamples(frame, delta, a, mid) && mid.Success?
    requires Resamples(mid.value.frame, a, b, twice) && Resamples(frame, delta, b, once)
    ensures frame.Indexed? && Ascending(frame.rows)
    ensures twice.Success? <==>
              || frame.rows == []
              || exists w, w' :: w < w' && IsWindow(frame.rows, delta, a, w) && IsWindow(frame.rows, delta, a, w')
    ensures twice.Success? ==> once.Success? && twice.value.frame == once.value.frame
    ensures twice.Failure? ==> twice.error == NotATimeIndex || twice.error == TooShort
  {
    if frame.rows != [] {
      DividesThrough(delta, a, b);
      var m := Bars(mid.value.frame);
      forall w
        ensures w in ByTime(m) <==> IsWindow(frame.rows, delta, a, w)
      {
      }
      hide IsWindow;
      TwoTimes(m);
      if |m| >= 2 {
        ResamplingComposes(frame.rows, delta, a, b, m, Bars(twice.value.frame), Bars(once.value.frame),
                           mid.value.dropped, twice.value.dropped, once.value.dropped);
      }
    }
  }

  lemma TwoTimes(m: seq<Bar>)
    requires Ascending(m)
    ensures |m| >= 2 <==> exists w, w' :: w < w' && w in ByTime(m) && w' in ByTime(m)
  {
    if |m| >= 2 {
      var w, w' := m[0].at, m[1].at;
      assert w < w' && w in ByTime(m) && w' in ByTime(m);
    } else {
      forall w, w' | w in ByTime(m) && w' in ByTime(m)
        ensures w == w'
      {
        var i :| 0 <= i < |m| && m[i].at == w;
        var j :| 0 <= j < |m| && m[j].at == w';
        assert i == j;
      }
    }
  }
}
