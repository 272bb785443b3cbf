/** Exactly-once reconciliation under crashes, and what the corrected funding amounts to. */
module ReconciliationProofs {
  import opened Prelude
  import opened Reconciliation

  // ---- keys ----

  lemma CorrectionKeyIsNotAPayment(k: string)
    ensures !StartsWith(PREFIX + k, TREND)
  {
    var key := PREFIX + k;
    assert key[5] == '-' && TREND[5] == '|' && key[..|TREND|][5] == key[5];
  }

  lemma PrefixIsInjective(a: string, b: string)
    requires PREFIX + a == PREFIX + b
    ensures a == b
  {
    assert (PREFIX + a)[|PREFIX|..] == a && (PREFIX + b)[|PREFIX|..] == b;
  }

  lemma PrefixLengthens(k: string)
    ensures PREFIX + k != k
  {
    assert |PREFIX + k| > |k|;
  }

  // The store writes an event in the transaction of its ledger row, whose key is unique.
  ghost predicate DistinctPayments(events: seq<Payment>) {
    forall i, j | 0 <= i < j < |events| && StartsWith(events[i].key, TREND) && StartsWith(events[j].key, TREND) ::
      events[i].key != events[j].key
  }

  // ---- repairing twice ----

  ghost predicate SameTimelines(a: State, b: State) {
    a.Keys == b.Keys && forall name | name in a :: a[name].timeline == b[name].timeline && a[name].flat == b[name].flat
  }

  ghost predicate Settled(s: State, stop: Stop) {
    stop.intact && stop.slot in s && Knows(s[stop.slot].timeline, stop.intent)
  }

  lemma KnowsSame(a: seq<Transition>, b: seq<Transition>, intent: int)
    requires forall y :: y in a <==> y in b
    ensures Knows(a, intent) ==> Knows(b, intent)
  {
    if i :| 0 <= i < |a| && a[i].intent == intent {
      assert a[i] in b;
    }
  }

  lemma KnowsAfterSort(t: seq<Transition>, added: Transition, intent: int)
    ensures Knows(SortTimeline(t + [added]), intent) <==> Knows(t, intent) || added.intent == intent
  {
    var all := t + [added];
    SortTimelineSorts(all);
    SameMembers(SortTimeline(all), all);
    KnowsSame(SortTimeline(all), all, intent);
    KnowsSame(all, SortTimeline(all), intent);
    hide SortTimeline;
    assert all[|t|] == added;
    if i :| 0 <= i < |t| && t[i].intent == intent {
      assert all[i] == t[i];
    }
  }

  lemma RepairOneSettles(s: State, stop: Stop)
    requires RepairOne(s, stop).Success?
    ensures var r := RepairOne(s, stop).value;
            && r.0.Keys == s.Keys && Settled(r.0, stop)
            && (forall name | name in s :: r.0[name].cash == s[name].cash && r.0[name].flat == s[name].flat)
            && (forall other: Stop | Settled(s, other) :: Settled(r.0, other))
            && (r.1 == [] <==> Settled(s, stop)) && (r.1 == [] ==> r.0 == s)
  {
    var r := RepairOne(s, stop).value;
    if r.1 != [] {
      var t := s[stop.slot].timeline;
      forall other: Stop | Settled(s, other)
        ensures Settled(r.0, other)
      {
        if other.slot == stop.slot {
          KnowsAfterSort(t, r.1[0], other.intent);
        }
      }
      KnowsAfterSort(t, r.1[0], stop.intent);
    }
  }

  lemma {:induction false} RepairSettles(s: State, stops: seq<Stop>, n: nat)
    requires n <= |stops| && Repair(s, stops, n).Success?
    ensures var r := Repair(s, stops, n).value;
            && r.0.Keys == s.Keys
            && (forall name | name in s :: r.0[name].cash == s[name].cash && r.0[name].flat == s[name].flat)
            && (forall i | 0 <= i < n :: Settled(r.0, stops[i]))
            && (r.1 == [] ==> r.0 == s)
  {
    hide Settled, RepairOne;
    if n > 0 {
      RepairSettles(s, stops, n - 1);
      RepairOneSettles(Repair(s, stops, n - 1).value.0, stops[n - 1]);
    }
  }

  // On rebuilt timelines every stop is already known.
  lemma {:induction false} RepairIsIdempotent(s: State, stops: seq<Stop>, n: nat)
    requires n <= |stops| && forall i | 0 <= i < n :: Settled(s, stops[i])
    ensures Repair(s, stops, n) == Success((s, []))
  {
    if n > 0 {
      RepairIsIdempotent(s, stops, n - 1);
      assert Settled(s, stops[n - 1]);
      var none: seq<Transition> := [];
      assert none + none == none;
    }
  }

  lemma SettledByTimelines(a: State, b: State, stop: Stop)
    requires SameTimelines(a, b) && Settled(a, stop)
    ensures Settled(b, stop)
  {
  }

  // Insertion keeps timelines in order, so what exposure_at returns on them is the latest.
  lemma {:induction false} RepairKeepsOrder(s: State, stops: seq<Stop>, n: nat)
    requires n <= |stops| && Repair(s, stops, n).Success?
    requires forall name | name in s :: InOrder(s[name].timeline)
    ensures forall name | name in Repair(s, stops, n).value.0 :: InOrder(Repair(s, stops, n).value.0[name].timeline)
  {
    if n > 0 {
      RepairKeepsOrder(s, stops, n - 1);
      var r := Repair(s, stops, n - 1).value.0;
      var stop := stops[n - 1];
      if !Knows(r[stop.slot].timeline, stop.intent) {
        var previous := ExposureAt(r[stop.slot].timeline, stop.exitAt).value;
        SortTimelineSorts(r[stop.slot].timeline + [StopTransition(stop, previous)]);
      }
    }
  }

  // ---- what a repaired stop changes ----

  lemma {:induction false} SortedStays(t: seq<Transition>)
    requires InOrder(t)
    ensures SortTimeline(t) == t
  {
    if t != [] {
      var init, last := t[..|t| - 1], t[|t| - 1];
      SortedStays(init);
      assert init != [] ==> AtMost(t[|t| - 2], last);
      assert t == init + [last];
    }
  }

  // Transition i is the exposure the stop ends: not zero, less the fill the remainder, and begun with
  // the entry of its trade.
  ghost predicate Ends(t: seq<Transition>, i: int, stop: Stop) {
    && InForce(t, i, stop.exitAt) && t[i].qty != 0.0
    && IsClose(t[i].qty - stop.filled, stop.remaining, QTY_TOLERANCE)
    && StartsWith(t[i].generation, "entry=" + stop.entryStamp + "|")
  }

  predicate Provable(e: Option<Transition>, stop: Stop) {
    && e.Some? && e.value.qty != 0.0
    && IsClose(e.value.qty - stop.filled, stop.remaining, QTY_TOLERANCE)
    && StartsWith(e.value.generation, "entry=" + stop.entryStamp + "|")
  }

  lemma ProvableMeans(t: seq<Transition>, stop: Stop)
    ensures Provable(ExposureAt(t, stop.exitAt), stop) <==> exists i :: Ends(t, i, stop)
  {
    hide IsClose, StartsWith;
    ExposureIsInForce(t, stop.exitAt);
    hide ExposureAt;
    if Provable(ExposureAt(t, stop.exitAt), stop) {
      var i :| InForce(t, i, stop.exitAt) && t[i] == ExposureAt(t, stop.exitAt).value;
      assert Ends(t, i, stop);
    }
  }

  // A stop is accepted exactly when its checkpoint is intact, its slot known and, unless its intent is
  // on the timeline already, it ends an exposure there.
  lemma {:induction false} StopAcceptedExactly(s: State, stop: Stop)
    ensures RepairOne(s, stop).Success? <==>
              && stop.intact && stop.slot in s
              && var t := s[stop.slot].timeline;
              && ((exists y :: y in t && y.intent == stop.intent) || exists i :: Ends(t, i, stop))
  {
    hide IsClose, StartsWith, SortTimeline, ExposureAt, Ends;
    if stop.slot in s {
      ProvableMeans(s[stop.slot].timeline, stop);
    }
  }

  // A sort puts the new transition behind those at or before it.
  lemma {:induction false} InsertSplits(x: Transition, t: seq<Transition>) returns (k: nat)
    requires InOrder(t)
    ensures k <= |t| && Insert(x, t) == t[..k] + [x] + t[k..]
    ensures (forall i | 0 <= i < k :: AtMost(t[i], x)) && forall i | k <= i < |t| :: !AtMost(t[i], x)
  {
    if t == [] || AtMost(t[|t| - 1], x) {
      k := |t|;
      assert forall i | 0 <= i < |t| - 1 :: AtMost(t[i], t[|t| - 1]);
    } else {
      var init, last := t[..|t| - 1], t[|t| - 1];
      k := InsertSplits(x, init);
      assert t[..k] == init[..k] && t[k..] == init[k..] + [last];
      assert Insert(x, t) == init[..k] + [x] + init[k..] + [last];
    }
  }

  lemma SignedInForce(t: seq<Transition>, i: int, point: int)
    requires InForce(t, i, point)
    ensures SignedAt(t, point) == Signed(t[i].qty, t[i].direction)
  {
  }

  function Inserted(t: seq<Transition>, x: Transition, k: nat): seq<Transition>
    requires k <= |t|
  {
    t[..k] + [x] + t[k..]
  }

  lemma InsertedAt(t: seq<Transition>, x: Transition, k: nat, j: int)
    requires k <= |t| && 0 <= j <= |t|
    ensures |Inserted(t, x, k)| == |t| + 1
    ensures Inserted(t, x, k)[j] == if j < k then t[j] else if j == k then x else t[j - 1]
  {
  }

  lemma StillInForce(t: seq<Transition>, x: Transition, k: nat, i: int, point: int)
    requires k <= |t| && InForce(t, i, point) && (i >= k || x.at > point)
    ensures SignedAt(Inserted(t, x, k), point) == SignedAt(t, point)
  {
    hide SignedAt, Inserted, Signed;
    var t', i' := Inserted(t, x, k), if i < k then i else i + 1;
    InsertedAt(t, x, k, i');
    forall j | i' < j < |t'|
      ensures t'[j].at > point
    {
      InsertedAt(t, x, k, j);
    }
    SignedInForce(t, i, point);
    SignedInForce(t', i', point);
    hide InForce;
  }

  // Before the new transition takes effect, and after a later one has, nothing changes.
  lemma SameOutside(t: seq<Transition>, x: Transition, k: nat, point: int)
    requires k <= |t| && forall i | k <= i < |t| :: !AtMost(t[i], x)
    requires x.at > point || exists j :: k <= j < |t| && t[j].at <= point
    ensures SignedAt(Inserted(t, x, k), point) == SignedAt(t, point)
  {
    hide SignedAt;
    ExposureIsInForce(t, point);
    if ExposureAt(t, point).Some? {
      var i :| InForce(t, i, point);
      StillInForce(t, x, k, i, point);
    } else {
      NothingInForce(t, point);
      NothingInForce(Inserted(t, x, k), point);
    }
  }

  lemma InForceUntilNext(t: seq<Transition>, x: Transition, k: nat, point: int)
    requires k <= |t| && x.at <= point && forall j | k <= j < |t| :: t[j].at > point
    ensures SignedAt(Inserted(t, x, k), point) == x.qty * x.direction as real
  {
    var t' := Inserted(t, x, k);
    assert t'[k] == x && forall j | k < j < |t'| :: t'[j] == t[j - 1];
    SignedInForce(t', k, point);
    hide SignedAt;
  }

  // Where the stop goes on the timeline, and what it ends.
  lemma RepairedTimeline(s: State, stop: Stop) returns (i: int, x: Transition, k: nat)
    requires RepairOne(s, stop).Success? && !Knows(s[stop.slot].timeline, stop.intent)
    requires InOrder(s[stop.slot].timeline)
    ensures var t := s[stop.slot].timeline;
            && 0 <= i < |t| && InForce(t, i, stop.exitAt) && t[i].qty != 0.0
            && IsClose(t[i].qty - stop.filled, stop.remaining, QTY_TOLERANCE)
            && x.at == stop.exitAt && x.intent == stop.intent && x.qty == stop.remaining
            && x.direction == t[i].direction
            && k <= |t| && stop.slot in RepairOne(s, stop).value.0
            && RepairOne(s, stop).value.0[stop.slot].timeline == Inserted(t, x, k)
            && (forall j | 0 <= j < k :: AtMost(t[j], x)) && forall j | k <= j < |t| :: !AtMost(t[j], x)
  {
    var t := s[stop.slot].timeline;
    ExposureIsInForce(t, stop.exitAt);
    hide InForce, InOrder, IsClose, StartsWith;
    i :| InForce(t, i, stop.exitAt) && t[i] == ExposureAt(t, stop.exitAt).value;
    x := StopTransition(stop, t[i]);
    SortedStays(t);
    k := InsertSplits(x, t);
    assert (t + [x])[..|t|] == t;
  }

  lemma RepairedSlot(s: State, stop: Stop)
    requires RepairOne(s, stop).Success?
    ensures stop.slot in s
  {
    hide IsClose, ExposureAt, Knows, StartsWith, SortTimeline;
  }

  // Another transition comes between the stop and the point.
  ghost predicate Followed(t: seq<Transition>, stop: Stop, point: int) {
    exists y :: y in t && y.at <= point
                && (y.at > stop.exitAt || (y.at == stop.exitAt && y.intent > stop.intent))
  }

  lemma FollowedBehind(t: seq<Transition>, stop: Stop, x: Transition, k: nat, point: int)
    requires k <= |t| && x.at == stop.exitAt && x.intent == stop.intent && x.at <= point
    requires (forall j | 0 <= j < k :: AtMost(t[j], x)) && forall j | k <= j < |t| :: !AtMost(t[j], x)
    ensures Followed(t, stop, point) <==> exists j :: k <= j < |t| && t[j].at <= point
  {
  }

  // A stop that is filled in holds from its exit until the next transition: there the slot has the
  // remaining quantity in the direction it had, everywhere else what it had.
  lemma StopIsFilledIn(s: State, stop: Stop, point: int)
    returns (i: int, t: seq<Transition>, t': seq<Transition>)
    requires RepairOne(s, stop).Success?
    requires stop.slot in s ==> !Knows(s[stop.slot].timeline, stop.intent) && InOrder(s[stop.slot].timeline)
    ensures stop.slot in s && t == s[stop.slot].timeline
    ensures stop.slot in RepairOne(s, stop).value.0 && t' == RepairOne(s, stop).value.0[stop.slot].timeline
    ensures InForce(t, i, stop.exitAt) && t[i].qty != 0.0
    ensures IsClose(t[i].qty - stop.filled, stop.remaining, QTY_TOLERANCE)
    ensures SignedAt(t', point) == if point < stop.exitAt || Followed(t, stop, point) then SignedAt(t, point)
                                   else stop.remaining * t[i].direction as real
  {
    RepairedSlot(s, stop);
    hide *;
    t := s[stop.slot].timeline;
    var x, k;
    i, x, k := RepairedTimeline(s, stop);
    t' := Inserted(t, x, k);
    SignedAfterStop(t, stop, x, k, stop.remaining * t[i].direction as real, point);
  }

  lemma SignedAfterStop(t: seq<Transition>, stop: Stop, x: Transition, k: nat, left: real, point: int)
    requires k <= |t| && x.at == stop.exitAt && x.intent == stop.intent && left == x.qty * x.direction as real
    requires (forall j | 0 <= j < k :: AtMost(t[j], x)) && forall j | k <= j < |t| :: !AtMost(t[j], x)
    ensures SignedAt(Inserted(t, x, k), point)
         == if point < stop.exitAt || Followed(t, stop, point) then SignedAt(t, point) else left
  {
    hide SignedAt, Followed, Inserted;
    if point >= stop.exitAt {
      FollowedBehind(t, stop, x, k, point);
    }
    if point < stop.exitAt || exists j :: k <= j < |t| && t[j].at <= point {
      SameOutside(t, x, k, point);
    } else {
      InForceUntilNext(t, x, k, point);
    }
  }

  lemma NothingInForce(t: seq<Transition>, point: int)
    requires forall j | 0 <= j < |t| :: t[j].at > point
    ensures SignedAt(t, point) == 0.0
  {
  }

  // ---- adjustments look at timelines, not at cash ----

  lemma LegIgnoresCash(a: State, b: State, p: Payment, leg: Leg)
    requires SameTimelines(a, b)
    ensures LegFault(a, p, leg) == LegFault(b, p, leg)
    ensures leg.slot in a ==> leg.slot in b && LegDelta(a, p, leg) == LegDelta(b, p, leg)
  {
    hide IsClose, ExposureAt;
  }

  lemma {:induction false} CorrectionsIgnoreCash(a: State, b: State, p: Payment, n: nat)
    requires SameTimelines(a, b) && n <= |p.legs|
    ensures Corrections(a, p, n) == Corrections(b, p, n)
  {
    if n > 0 {
      CorrectionsIgnoreCash(a, b, p, n - 1);
      LegIgnoresCash(a, b, p, p.legs[n - 1]);
      FaultlessLegIsKnown(a, p, p.legs[n - 1]);
      hide SameTimelines, LegFault, LegDelta;
    }
  }

  lemma FaultlessLegIsKnown(s: State, p: Payment, leg: Leg)
    ensures LegFault(s, p, leg).None? ==> leg.slot in s
  {
    hide IsClose, NeedsReference;
  }

  lemma AdjustOneIgnoresCash(a: State, b: State, ledger: map<string, real>, p: Payment)
    requires SameTimelines(a, b)
    ensures AdjustOne(a, ledger, p) == AdjustOne(b, ledger, p)
  {
    CorrectionsIgnoreCash(a, b, p, |p.legs|);
    hide SameTimelines, Corrections, IsClose, StartsWith, Total;
  }

  lemma {:induction false} AdjustIgnoresCash(a: State, b: State, ledger: map<string, real>, events: seq<Payment>,
                                             n: nat)
    requires SameTimelines(a, b) && n <= |events|
    ensures Adjust(a, ledger, events, n) == Adjust(b, ledger, events, n)
  {
    hide SameTimelines, AdjustOne;
    if n > 0 {
      AdjustIgnoresCash(a, b, ledger, events, n - 1);
      AdjustOneIgnoresCash(a, b, ledger, events[n - 1]);
    }
  }

  lemma {:induction false} PayAllKeepsTimelines(s: State, c: seq<Correction>)
    ensures SameTimelines(PayAll(s, c), s)
  {
    if c != [] {
      PayAllKeepsTimelines(s, c[..|c| - 1]);
    }
  }

  lemma {:induction false} PayPlanKeepsTimelines(s: State, a: seq<Adjustment>)
    ensures SameTimelines(PayPlan(s, a), s)
  {
    if a != [] {
      PayPlanKeepsTimelines(s, a[..|a| - 1]);
      PayAllKeepsTimelines(PayPlan(s, a[..|a| - 1]), a[|a| - 1].amounts);
    }
  }

  // ---- adjustments already in the ledger drop out ----

  ghost predicate FreshKeys(a: seq<Adjustment>, ledger: map<string, real>) {
    && (forall i | 0 <= i < |a| :: a[i].key == PREFIX + a[i].original && a[i].key !in ledger)
    && (forall i, j | 0 <= i < j < |a| :: a[i].key != a[j].key)
  }

  ghost predicate FromEvents(a: seq<Adjustment>, events: seq<Payment>, n: nat)
    requires n <= |events|
  {
    forall i | 0 <= i < |a| ::
      exists j :: 0 <= j < n && StartsWith(events[j].key, TREND) && events[j].key == a[i].original
  }

  lemma OneAdjustmentIsFresh(s: State, ledger: map<string, real>, p: Payment)
    requires AdjustOne(s, ledger, p).Success? && AdjustOne(s, ledger, p).value != []
    ensures StartsWith(p.key, TREND) && |AdjustOne(s, ledger, p).value| == 1
    ensures var a := AdjustOne(s, ledger, p).value[0];
            a.original == p.key && a.key == PREFIX + p.key && a.key !in ledger
  {
    hide Corrections, IsClose, StartsWith, Total;
  }

  lemma {:induction false} AdjustmentsAreFresh(s: State, ledger: map<string, real>, events: seq<Payment>, n: nat)
    requires DistinctPayments(events) && n <= |events| && Adjust(s, ledger, events, n).Success?
    ensures FreshKeys(Adjust(s, ledger, events, n).value, ledger)
    ensures FromEvents(Adjust(s, ledger, events, n).value, events, n)
  {
    if n > 0 {
      LastEventAdjusts(s, ledger, events, n);
      hide Adjust, AdjustOne, StartsWith;
      AdjustmentsAreFresh(s, ledger, events, n - 1);
      var a, b := Adjust(s, ledger, events, n - 1).value, AdjustOne(s, ledger, events[n - 1]).value;
      if b == [] {
        assert a + b == a;
      } else {
        OneAdjustmentIsFresh(s, ledger, events[n - 1]);
        assert b == [b[0]];
        FreshAfter(events, n, a, b[0], ledger);
      }
    }
  }

  lemma FreshAfter(events: seq<Payment>, n: nat, a: seq<Adjustment>, b: Adjustment, ledger: map<string, real>)
    requires DistinctPayments(events) && 0 < n <= |events| && FreshKeys(a, ledger) && FromEvents(a, events, n - 1)
    requires StartsWith(events[n - 1].key, TREND) && b.original == events[n - 1].key
    requires b.key == PREFIX + b.original && b.key !in ledger
    ensures FreshKeys(a + [b], ledger) && FromEvents(a + [b], events, n)
  {
    hide StartsWith;
    forall i | 0 <= i < |a|
      ensures a[i].key != b.key
    {
      if a[i].key == b.key {
        PrefixIsInjective(a[i].original, b.original);
      }
    }
  }

  lemma {:induction false} AdjustGrows(s: State, ledger: map<string, real>, events: seq<Payment>, n: nat, m: nat)
    requires n <= m <= |events| && Adjust(s, ledger, events, m).Success?
    ensures Adjust(s, ledger, events, n).Success?
    ensures Adjust(s, ledger, events, n).value <= Adjust(s, ledger, events, m).value
  {
    if n < m {
      AdjustGrows(s, ledger, events, n, m - 1);
    }
  }

  lemma {:induction false} LedgerWithHolds(ledger: map<string, real>, a: seq<Adjustment>)
    requires FreshKeys(a, ledger)
    ensures forall k :: k in LedgerWith(ledger, a) <==> k in ledger || exists i :: 0 <= i < |a| && a[i].key == k
    ensures forall k | k in ledger :: LedgerWith(ledger, a)[k] == ledger[k]
    ensures forall i | 0 <= i < |a| :: LedgerWith(ledger, a)[a[i].key] == a[i].total
  {
    if a != [] {
      var init, last := a[..|a| - 1], a[|a| - 1];
      FreshPrefix(ledger, a);
      LedgerWithLast(ledger, init, last);
      assert a == init + [last];
      hide FreshKeys, LedgerWith;
      LedgerWithHolds(ledger, init);
      LedgerWithOneMore(ledger, LedgerWith(ledger, init), init, last);
    }
  }

  lemma LedgerWithLast(ledger: map<string, real>, a: seq<Adjustment>, last: Adjustment)
    ensures LedgerWith(ledger, a + [last]) == LedgerWith(ledger, a)[last.key := last.total]
  {
    assert (a + [last])[..|a|] == a;
  }

  lemma FreshPrefix(ledger: map<string, real>, a: seq<Adjustment>)
    requires a != [] && FreshKeys(a, ledger)
    ensures FreshKeys(a[..|a| - 1], ledger) && a[|a| - 1].key !in ledger
    ensures var init := a[..|a| - 1]; forall i | 0 <= i < |init| :: init[i].key != a[|a| - 1].key
  {
  }

  lemma LedgerWithOneMore(ledger: map<string, real>, mid: map<string, real>, a: seq<Adjustment>, last: Adjustment)
    requires forall k :: k in mid <==> k in ledger || exists i :: 0 <= i < |a| && a[i].key == k
    requires (forall k | k in ledger :: mid[k] == ledger[k]) && forall i | 0 <= i < |a| :: mid[a[i].key] == a[i].total
    requires last.key !in ledger && forall i | 0 <= i < |a| :: a[i].key != last.key
    ensures var all, after := a + [last], mid[last.key := last.total];
            && (forall k :: k in after <==> k in ledger || exists i :: 0 <= i < |all| && all[i].key == k)
            && (forall k | k in ledger :: after[k] == ledger[k])
            && forall i | 0 <= i < |all| :: after[all[i].key] == all[i].total
  {
    var all, after := a + [last], mid[last.key := last.total];
    assert all[|a|] == last;
    forall k
      ensures k in after <==> k in ledger || exists i :: 0 <= i < |all| && all[i].key == k
    {
      if i :| 0 <= i < |a| && a[i].key == k {
        assert all[i].key == k;
      }
      if i :| 0 <= i < |all| && all[i].key == k {
        assert i < |a| ==> a[i].key == k;
      }
    }
  }

  lemma CloseToItself(x: real)
    ensures IsClose(x, x, EXACT)
  {
  }

  // One event against a ledger that holds the corrections of `done` as well.
  lemma AdjustOneAfter(s: State, ledger: map<string, real>, done: seq<Adjustment>, p: Payment)
    requires FreshKeys(done, ledger) && AdjustOne(s, ledger, p).Success?
    requires forall i | 0 <= i < |done| && done[i].key == PREFIX + p.key :: AdjustOne(s, ledger, p).value == [done[i]]
    ensures var b := AdjustOne(s, ledger, p).value;
            AdjustOne(s, LedgerWith(ledger, done), p)
            == Success(if b != [] && exists i :: 0 <= i < |done| && done[i] == b[0] then [] else b)
  {
    LedgerWithHolds(ledger, done);
    var b := AdjustOne(s, ledger, p).value;
    hide Corrections, LedgerWith, Total, IsClose;
    if b != [] {
      CloseToItself(b[0].total);
    }
  }

  // What is left of the first i adjustments when the first k are done.
  function Rest(all: seq<Adjustment>, k: nat, i: nat): seq<Adjustment>
    requires i <= |all|
  {
    if i <= k then [] else all[k..i]
  }

  lemma {:induction false} AdjustAfter(s: State, ledger: map<string, real>, events: seq<Payment>, all: seq<Adjustment>,
                                       k: nat, n: nat)
    requires DistinctPayments(events) && n <= |events|
    requires Adjust(s, ledger, events, |events|) == Success(all) && k <= |all|
    ensures Adjust(s, ledger, events, n).Success? && |Adjust(s, ledger, events, n).value| <= |all|
    ensures Adjust(s, LedgerWith(ledger, all[..k]), events, n)
         == Success(Rest(all, k, |Adjust(s, ledger, events, n).value|))
  {
    hide Adjust, AdjustOne, LedgerWith, DistinctPayments, Rest;
    AdjustGrows(s, ledger, events, n, |events|);
    var later := LedgerWith(ledger, all[..k]);
    if n == 0 {
      NothingAdjusted(s, ledger, events);
      NothingAdjusted(s, later, events);
      NoRest(all, k);
    } else {
      AdjustAfter(s, ledger, events, all, k, n - 1);
      EventAfter(s, ledger, events, all, k, n);
      var a, b := Adjust(s, ledger, events, n - 1).value, AdjustOne(s, ledger, events[n - 1]).value;
      AdjustUnfolds(s, ledger, events, n, a, b);
      RestAfterOne(s, later, events, all, k, n, a, b);
    }
  }

  lemma NothingAdjusted(s: State, ledger: map<string, real>, events: seq<Payment>)
    ensures Adjust(s, ledger, events, 0) == Success([])
  {
  }

  lemma NoRest(all: seq<Adjustment>, k: nat)
    ensures Rest(all, k, 0) == []
  {
  }

  lemma RestAfterOne(s: State, later: map<string, real>, events: seq<Payment>, all: seq<Adjustment>, k: nat, n: nat,
                     a: seq<Adjustment>, b: seq<Adjustment>)
    requires 0 < n <= |events| && a + b <= all && |b| <= 1 && k <= |all|
    requires Adjust(s, later, events, n - 1) == Success(Rest(all, k, |a|))
    requires AdjustOne(s, later, events[n - 1]) == Success(if b != [] && |a| < k then [] else b)
    ensures Adjust(s, later, events, n) == Success(Rest(all, k, |a + b|))
  {
    hide Adjust, AdjustOne, Rest;
    AdjustUnfolds(s, later, events, n, Rest(all, k, |a|), if b != [] && |a| < k then [] else b);
    RemainingAfterOne(all, k, a, b);
  }

  lemma AdjustUnfolds(s: State, ledger: map<string, real>, events: seq<Payment>, n: nat, a: seq<Adjustment>,
                      b: seq<Adjustment>)
    requires 0 < n <= |events|
    requires Adjust(s, ledger, events, n - 1) == Success(a) && AdjustOne(s, ledger, events[n - 1]) == Success(b)
    ensures Adjust(s, ledger, events, n) == Success(a + b)
  {
    hide AdjustOne;
  }

  lemma EventAfter(s: State, ledger: map<string, real>, events: seq<Payment>, all: seq<Adjustment>, k: nat, n: nat)
    requires DistinctPayments(events) && 0 < n <= |events|
    requires Adjust(s, ledger, events, |events|) == Success(all) && k <= |all|
    ensures Adjust(s, ledger, events, n - 1).Success? && AdjustOne(s, ledger, events[n - 1]).Success?
    ensures var a, b := Adjust(s, ledger, events, n - 1).value, AdjustOne(s, ledger, events[n - 1]).value;
            && |b| <= 1 && a + b <= all
            && AdjustOne(s, LedgerWith(ledger, all[..k]), events[n - 1])
               == Success(if b != [] && |a| < k then [] else b)
  {
    AdjustGrows(s, ledger, events, n, |events|);
    KeyBelongsToItsEvent(s, ledger, events, all, k, n);
    AdjustOneAfter(s, ledger, all[..k], events[n - 1]);
    AtMostOne(s, ledger, events[n - 1]);
    AdjustmentsAreFresh(s, ledger, events, |events|);
    var a, b := Adjust(s, ledger, events, n - 1).value, AdjustOne(s, ledger, events[n - 1]).value;
    hide AdjustOne, LedgerWith, FreshKeys, FromEvents, DistinctPayments;
    if b != [] {
      assert b[0] == (a + b)[|a|] == all[|a|];
      DoneIffEarlier(all, ledger, k, |a|);
    }
  }

  lemma AtMostOne(s: State, ledger: map<string, real>, p: Payment)
    ensures AdjustOne(s, ledger, p).Success? ==> |AdjustOne(s, ledger, p).value| <= 1
  {
  }

  lemma RestOfAll(all: seq<Adjustment>, k: nat)
    requires k <= |all|
    ensures Rest(all, k, |all|) == all[k..]
  {
  }

  lemma RemainingAfterOne(all: seq<Adjustment>, k: nat, a: seq<Adjustment>, b: seq<Adjustment>)
    requires a + b <= all && |b| <= 1 && k <= |all|
    ensures Rest(all, k, |a|) + (if b != [] && |a| < k then [] else b) == Rest(all, k, |a + b|)
  {
    if b != [] {
      assert b[0] == (a + b)[|a|] == all[|a|];
    }
  }

  lemma DoneIffEarlier(all: seq<Adjustment>, ledger: map<string, real>, k: nat, i: nat)
    requires FreshKeys(all, ledger) && k <= |all| && i < |all|
    ensures (exists j :: 0 <= j < |all[..k]| && all[..k][j] == all[i]) <==> i < k
  {
    if i < k {
      assert all[..k][i] == all[i];
    }
  }

  // A correction carrying the key of event n - 1 is the one that event gives rise to.
  lemma KeyBelongsToItsEvent(s: State, ledger: map<string, real>, events: seq<Payment>, all: seq<Adjustment>, k: nat,
                             n: nat)
    requires DistinctPayments(events) && 0 < n <= |events|
    requires Adjust(s, ledger, events, |events|) == Success(all) && k <= |all|
    ensures AdjustOne(s, ledger, events[n - 1]).Success?
    ensures forall i | 0 <= i < k && all[i].key == PREFIX + events[n - 1].key ::
              AdjustOne(s, ledger, events[n - 1]).value == [all[i]]
    ensures FreshKeys(all[..k], ledger)
  {
    AdjustGrows(s, ledger, events, n, |events|);
    AdjustmentsAreFresh(s, ledger, events, |events|);
    FreshTake(all, ledger, k);
    LastEventAdjusts(s, ledger, events, n);
    hide Adjust, AdjustOne, DistinctPayments, FromEvents;
    forall i | 0 <= i < k && all[i].key == PREFIX + events[n - 1].key
      ensures AdjustOne(s, ledger, events[n - 1]).value == [all[i]]
    {
      PrefixIsInjective(all[i].original, events[n - 1].key);
      var j := SourceOf(s, ledger, events, |events|, i);
      SameKeySameEvent(events, j, n - 1);
    }
  }

  lemma FreshTake(all: seq<Adjustment>, ledger: map<string, real>, k: nat)
    requires FreshKeys(all, ledger) && k <= |all|
    ensures FreshKeys(all[..k], ledger)
    ensures forall i | 0 <= i < k :: all[i].key == PREFIX + all[i].original
  {
  }

  lemma LastEventAdjusts(s: State, ledger: map<string, real>, events: seq<Payment>, n: nat)
    requires 0 < n <= |events| && Adjust(s, ledger, events, n).Success?
    ensures Adjust(s, ledger, events, n - 1).Success? && AdjustOne(s, ledger, events[n - 1]).Success?
    ensures Adjust(s, ledger, events, n).value
         == Adjust(s, ledger, events, n - 1).value + AdjustOne(s, ledger, events[n - 1]).value
  {
    hide AdjustOne;
  }

  lemma SameKeySameEvent(events: seq<Payment>, i: nat, j: nat)
    requires DistinctPayments(events) && i < |events| && j < |events|
    requires StartsWith(events[i].key, TREND) && events[i].key == events[j].key
    ensures i == j
  {
  }

  // The event that gave rise to adjustment i.
  lemma {:induction false} SourceOf(s: State, ledger: map<string, real>, events: seq<Payment>, n: nat, i: nat)
    returns (j: nat)
    requires n <= |events| && Adjust(s, ledger, events, n).Success? && i < |Adjust(s, ledger, events, n).value|
    ensures j < n && AdjustOne(s, ledger, events[j]).Success?
    ensures AdjustOne(s, ledger, events[j]).value == [Adjust(s, ledger, events, n).value[i]]
    ensures StartsWith(events[j].key, TREND) && events[j].key == Adjust(s, ledger, events, n).value[i].original
  {
    hide Corrections, IsClose;
    if i < |Adjust(s, ledger, events, n - 1).value| {
      j := SourceOf(s, ledger, events, n - 1, i);
    } else {
      j := n - 1;
    }
  }

  // ---- the correction events are not payments ----

  lemma {:induction false} EventsOfPrefix(s: State, ledger: map<string, real>, events: seq<Payment>, more: seq<Payment>,
                                          n: nat)
    requires n <= |events|
    ensures Adjust(s, ledger, events + more, n) == Adjust(s, ledger, events, n)
  {
    if n > 0 {
      EventsOfPrefix(s, ledger, events, more, n - 1);
      assert (events + more)[n - 1] == events[n - 1];
    }
  }

  // An event of another kind adds nothing.
  lemma OtherEventAdjustsNothing(s: State, ledger: map<string, real>, events: seq<Payment>, other: Payment)
    requires !StartsWith(other.key, TREND)
    ensures Adjust(s, ledger, events + [other], |events| + 1) == Adjust(s, ledger, events, |events|)
  {
    EventsOfPrefix(s, ledger, events, [other], |events|);
    assert (events + [other])[|events|] == other;
    assert AdjustOne(s, ledger, other) == Success([]);
    hide AdjustOne, StartsWith;
    var r := Adjust(s, ledger, events, |events|);
    assert r.Success? ==> r.value + [] == r.value;
  }

  lemma {:induction false} CorrectionEventsAreIgnored(s: State, ledger: map<string, real>, events: seq<Payment>,
                                                      done: seq<Adjustment>)
    requires forall i | 0 <= i < |done| :: done[i].key == PREFIX + done[i].original
    ensures Adjust(s, ledger, EventsWith(events, done), |EventsWith(events, done)|)
         == Adjust(s, ledger, events, |events|)
  {
    hide Adjust, StartsWith;
    if done != [] {
      var init, last := done[..|done| - 1], done[|done| - 1];
      CorrectionEventsAreIgnored(s, ledger, events, init);
      CorrectionKeyIsNotAPayment(last.original);
      OtherEventAdjustsNothing(s, ledger, EventsWith(events, init), CorrectionEvent(last));
    }
  }

  // ---- the plan after any number of writes ----

  function PlanAfter(p: Plan, m: nat): Plan
    requires m <= Writes(p)
  {
    if m == 0 then p
    else
      var k := m - WritesBefore(p);
      Plan(PayPlan(p.after, p.adjustments[..k]), PayPlan(p.after, p.adjustments[..k]), [], p.adjustments[k..])
  }

  // Inspecting again after m writes plans exactly the remaining ones.
  lemma PlanAfterWrites(db: Db, p: Plan, m: nat)
    requires BuildPlan(db) == Success(p) && DistinctPayments(db.events) && m <= Writes(p)
    ensures BuildPlan(AfterWrites(db, p, m)) == Success(PlanAfter(p, m))
  {
    hide BuildPlan, Repair, EndsFlat, Adjust, PayPlan, LedgerWith, EventsWith, FromEvents, DistinctPayments, Rest;
    if m > 0 {
      var k := m - WritesBefore(p);
      var done := p.adjustments[..k];
      var db', s' := AfterWrites(db, p, m), PayPlan(p.after, done);
      PartsOfPlan(db, p);
      TimelinesStayRepaired(db, p, k);
      AdjustmentsAreFresh(p.after, db.ledger, db.events, |db.events|);
      AdjustAfter(p.after, db.ledger, db.events, p.adjustments, k, |db.events|);
      AdjustIgnoresCash(s', p.after, db'.ledger, db.events, |db.events|);
      CorrectionEventsAreIgnored(s', db'.ledger, db.events, done);
      var all := p.adjustments;
      RestOfAll(all, k);
      PlanFromParts(db', all[k..]);
    }
  }

  lemma PartsOfPlan(db: Db, p: Plan)
    requires BuildPlan(db) == Success(p)
    ensures db.clear && Adjust(p.after, db.ledger, db.events, |db.events|) == Success(p.adjustments)
    ensures p.after.Keys == db.state.Keys
  {
    RepairSettles(db.state, db.stops, |db.stops|);
    hide Repair, Adjust, EndsFlat;
  }

  lemma PlanFromParts(db: Db, a: seq<Adjustment>)
    requires db.clear && forall name | name in db.state :: db.state[name].flat
    requires Repair(db.state, db.stops, |db.stops|) == Success((db.state, [])) && EndsFlat(db.state)
    requires Adjust(db.state, db.ledger, db.events, |db.events|) == Success(a)
    ensures BuildPlan(db) == Success(Plan(db.state, db.state, [], a))
  {
    hide Repair, Adjust, EndsFlat;
  }

  lemma TimelinesStayRepaired(db: Db, p: Plan, k: nat)
    requires BuildPlan(db) == Success(p) && k <= |p.adjustments|
    ensures var s' := PayPlan(p.after, p.adjustments[..k]);
            && SameTimelines(s', p.after) && EndsFlat(s')
            && Repair(s', db.stops, |db.stops|) == Success((s', []))
            && forall name | name in s' :: s'[name].flat
  {
    var s' := PayPlan(p.after, p.adjustments[..k]);
    PlanIsSettled(db, p);
    PayPlanKeepsTimelines(p.after, p.adjustments[..k]);
    hide BuildPlan, Repair, Settled, PayPlan, EndsFlat, SameTimelines;
    SameTimelinesEndFlat(p.after, s');
    forall i | 0 <= i < |db.stops|
      ensures Settled(s', db.stops[i])
    {
      SettledByTimelines(p.after, s', db.stops[i]);
    }
    RepairIsIdempotent(s', db.stops, |db.stops|);
  }

  lemma SameTimelinesEndFlat(s: State, s': State)
    requires SameTimelines(s', s) && EndsFlat(s) && forall name | name in s :: s[name].flat
    ensures SameTimelines(s, s') && EndsFlat(s') && forall name | name in s' :: s'[name].flat
  {
  }

  // Every stop is on the planned timelines, which end flat.
  lemma PlanIsSettled(db: Db, p: Plan)
    requires BuildPlan(db) == Success(p)
    ensures EndsFlat(p.after) && forall name | name in p.after :: p.after[name].flat
    ensures forall i | 0 <= i < |db.stops| :: Settled(p.after, db.stops[i])
  {
    hide Repair, Adjust, Settled, EndsFlat;
    RepairSettles(db.state, db.stops, |db.stops|);
  }

  lemma {:induction false} PayPlanAppends(s: State, a: seq<Adjustment>, b: seq<Adjustment>)
    ensures PayPlan(PayPlan(s, a), b) == PayPlan(s, a + b)
  {
    if b == [] {
      assert a + b == a;
    } else {
      PayPlanAppends(s, a, b[..|b| - 1]);
      assert (a + b)[..|a + b| - 1] == a + b[..|b| - 1];
    }
  }

  lemma {:induction false} LedgerWithAppends(l: map<string, real>, a: seq<Adjustment>, b: seq<Adjustment>)
    ensures LedgerWith(LedgerWith(l, a), b) == LedgerWith(l, a + b)
  {
    if b == [] {
      assert a + b == a;
    } else {
      LedgerWithAppends(l, a, b[..|b| - 1]);
      assert (a + b)[..|a + b| - 1] == a + b[..|b| - 1];
    }
  }

  lemma {:induction false} EventsWithAppends(e: seq<Payment>, a: seq<Adjustment>, b: seq<Adjustment>)
    ensures EventsWith(EventsWith(e, a), b) == EventsWith(e, a + b)
  {
    if b == [] {
      assert a + b == a;
    } else {
      EventsWithAppends(e, a, b[..|b| - 1]);
      assert (a + b)[..|a + b| - 1] == a + b[..|b| - 1];
    }
  }

  // Going on from there writes what the interrupted run would have written next.
  lemma WritesCompose(db: Db, p: Plan, m: nat, j: nat)
    requires BuildPlan(db) == Success(p) && m + j <= Writes(p)
    ensures j <= Writes(PlanAfter(p, m))
    ensures AfterWrites(AfterWrites(db, p, m), PlanAfter(p, m), j) == AfterWrites(db, p, m + j)
  {
    hide BuildPlan, PayPlan, LedgerWith, EventsWith;
    if m > 0 && j > 0 {
      var k := m - WritesBefore(p);
      var a, b := p.adjustments[..k], p.adjustments[k..][..j];
      SlicesJoin(p.adjustments, k, j);
      PayPlanAppends(p.after, a, b);
      LedgerWithAppends(db.ledger, a, b);
      EventsWithAppends(db.events, a, b);
    }
  }

  lemma SlicesJoin<T>(s: seq<T>, k: nat, j: nat)
    requires k + j <= |s|
    ensures s[..k] + s[k..][..j] == s[..k + j]
  {
  }

  // ---- any sequence of crashes ----

  // An attempt inspects the durable state afresh and gets through at most c writes.
  ghost function Attempt(db: Db, c: nat): Db {
    match BuildPlan(db)
    case Failure(_) => db
    case Success(p) => AfterWrites(db, p, if c < Writes(p) then c else Writes(p))
  }

  ghost function Attempts(db: Db, crashes: seq<nat>): Db {
    if crashes == [] then db else Attempt(Attempts(db, crashes[..|crashes| - 1]), crashes[|crashes| - 1])
  }

  function Progress(p: Plan, crashes: seq<nat>): (m: nat)
    ensures m <= Writes(p)
  {
    if crashes == [] then 0
    else
      var m := Progress(p, crashes[..|crashes| - 1]) + crashes[|crashes| - 1];
      if m < Writes(p) then m else Writes(p)
  }

  // Every durable state any sequence of interrupted attempts can reach is one the
  // uninterrupted run passes through, and each attempt only moves it forward.
  lemma {:induction false} CrashesOnlyDelay(db: Db, p: Plan, crashes: seq<nat>)
    requires BuildPlan(db) == Success(p) && DistinctPayments(db.events)
    ensures Attempts(db, crashes) == AfterWrites(db, p, Progress(p, crashes))
  {
    hide BuildPlan, AfterWrites, PlanAfter, DistinctPayments;
    if crashes == [] {
      NoWrites(db, p);
    } else {
      var earlier, c := crashes[..|crashes| - 1], crashes[|crashes| - 1];
      CrashesOnlyDelay(db, p, earlier);
      var m := Progress(p, earlier);
      PlanAfterWrites(db, p, m);
      var w := Writes(PlanAfter(p, m));
      RemainingWrites(p, m);
      WritesCompose(db, p, m, if c < w then c else w);
    }
  }

  lemma NoWrites(db: Db, p: Plan)
    ensures AfterWrites(db, p, 0) == db
  {
  }

  lemma RemainingWrites(p: Plan, m: nat)
    requires m <= Writes(p)
    ensures Writes(PlanAfter(p, m)) == Writes(p) - m
  {
  }

  // Once an attempt gets through, the durable state is that of a single uninterrupted run and
  // the next inspection finds nothing to do.
  lemma ExactlyOnce(db: Db, p: Plan, crashes: seq<nat>, c: nat)
    requires BuildPlan(db) == Success(p) && DistinctPayments(db.events) && c >= Writes(p)
    ensures Attempts(db, crashes + [c]) == Finished(db, p)
    ensures BuildPlan(Finished(db, p)).Success?
    ensures var next := BuildPlan(Finished(db, p)).value;
            next.adjustments == [] && next.evidence == [] && Attempt(Finished(db, p), c) == Finished(db, p)
  {
    assert (crashes + [c])[..|crashes|] == crashes;
    CrashesOnlyDelay(db, p, crashes + [c]);
    PlanAfterWrites(db, p, Writes(p));
    RemainingWrites(p, Writes(p));
  }

  // Each planned correction key is new, and present once it is finished with the planned total.
  lemma EveryCorrectionIsRecordedOnce(db: Db, p: Plan, i: nat)
    requires BuildPlan(db) == Success(p) && DistinctPayments(db.events) && i < |p.adjustments|
    ensures p.adjustments[i].key !in db.ledger
    ensures p.adjustments[i].key in Finished(db, p).ledger
    ensures Finished(db, p).ledger[p.adjustments[i].key] == p.adjustments[i].total
    ensures forall j: nat | j < |p.adjustments| && j != i :: p.adjustments[j].key != p.adjustments[i].key
  {
    hide BuildPlan, Adjust, LedgerWith, PayPlan, EventsWith;
    PartsOfPlan(db, p);
    AdjustmentsAreFresh(p.after, db.ledger, db.events, |db.events|);
    LedgerWithHolds(db.ledger, p.adjustments);
    assert p.adjustments[..|p.adjustments|] == p.adjustments;
  }

  // ---- the money ----

  function DeltaOf(c: seq<Correction>, slot: string): real {
    if c == [] then 0.0 else DeltaOf(c[..|c| - 1], slot) + if c[|c| - 1].slot == slot then c[|c| - 1].delta else 0.0
  }

  function PlannedDelta(a: seq<Adjustment>, slot: string): real {
    if a == [] then 0.0 else PlannedDelta(a[..|a| - 1], slot) + DeltaOf(a[|a| - 1].amounts, slot)
  }

  lemma {:induction false} PayAllPays(s: State, c: seq<Correction>, slot: string)
    requires slot in s
    ensures slot in PayAll(s, c) && PayAll(s, c)[slot].cash == s[slot].cash + DeltaOf(c, slot)
  {
    PayAllKeepsTimelines(s, c);
    if c != [] {
      PayAllPays(s, c[..|c| - 1], slot);
      PayAllKeepsTimelines(s, c[..|c| - 1]);
    }
  }

  lemma {:induction false} PayPlanPays(s: State, a: seq<Adjustment>, slot: string)
    requires slot in s
    ensures slot in PayPlan(s, a) && PayPlan(s, a)[slot].cash == s[slot].cash + PlannedDelta(a, slot)
  {
    if a != [] {
      PayPlanPays(s, a[..|a| - 1], slot);
      PayAllPays(PayPlan(s, a[..|a| - 1]), a[|a| - 1].amounts, slot);
    }
  }

  lemma FinalCash(db: Db, p: Plan, slot: string)
    requires BuildPlan(db) == Success(p) && slot in db.state
    ensures slot in Finished(db, p).state
    ensures Finished(db, p).state[slot].cash == db.state[slot].cash + PlannedDelta(p.adjustments, slot)
  {
    RepairSettles(db.state, db.stops, |db.stops|);
    PayPlanPays(p.after, p.adjustments, slot);
    assert p.adjustments[..|p.adjustments|] == p.adjustments;
    hide PayPlan, Repair, Adjust;
    if Writes(p) == 0 {
      assert p.adjustments == [];
    }
  }

  // ---- what a correction should be ----

  // What a slot owes at a payment: the quantity its timeline holds, times price, times rate.
  ghost function Owes(s: State, p: Payment, slot: string): real
    requires slot in s
  {
    if p.reference.None? then 0.0 else SignedAt(s[slot].timeline, p.at) * p.reference.value * p.rate
  }

  lemma SignedExposure(t: seq<Transition>, point: int)
    ensures SignedAt(t, point)
         == match ExposureAt(t, point) case None => 0.0 case Some(e) => Signed(e.qty, e.direction)
  {
    ExposureIsInForce(t, point);
    hide ExposureAt, Signed;
  }

  lemma NoFunding(direction: int, price: real, rate: real)
    ensures Signed(0.0, direction) == 0.0 && FundingOn(0.0, price, rate) == 0.0
  {
  }

  lemma OwedFunding(s: State, p: Payment, slot: string)
    requires slot in s && p.reference.Some?
    ensures Owes(s, p, slot) == FundingOn(SignedAt(s[slot].timeline, p.at), p.reference.value, p.rate)
  {
    hide SignedAt;
  }

  lemma ExpectedIsOwed(s: State, p: Payment, slot: string)
    requires slot in s
    ensures ExpectedAmount(s, p, slot) == Owes(s, p, slot)
  {
    SignedExposure(s[slot].timeline, p.at);
    if p.reference.Some? {
      var e := ExposureAt(s[slot].timeline, p.at);
      NoFunding(if e.Some? then e.value.direction else 0, p.reference.value, p.rate);
      OwedFunding(s, p, slot);
    }
    hide SignedAt, ExposureAt, Signed, FundingOn, Owes;
  }

  // A leg is accepted exactly when its slot is known, its charge, if it had a quantity, is that quantity
  // times price times rate, and there is a price unless its timeline holds nothing.
  lemma {:induction false} LegAcceptedExactly(s: State, p: Payment, leg: Leg)
    ensures LegFault(s, p, leg).None? <==>
              && leg.slot in s
              && (leg.qty == 0.0
                  || (p.reference.Some?
                      && IsClose(leg.amount, leg.qty * leg.direction as real * p.reference.value * p.rate, EXACT)))
              && (p.reference.None? ==>
                    forall i | InForce(s[leg.slot].timeline, i, p.at) :: s[leg.slot].timeline[i].qty == 0.0)
  {
    hide IsClose;
    if leg.slot in s {
      HeldAtPayment(s[leg.slot].timeline, p.at);
    }
    if p.reference.Some? {
      assert FundingOn(Signed(leg.qty, leg.direction), p.reference.value, p.rate)
          == leg.qty * leg.direction as real * p.reference.value * p.rate;
    }
    hide FundingOn, Signed, InForce, ExposureAt;
  }

  lemma HeldAtPayment(t: seq<Transition>, point: int)
    ensures (ExposureAt(t, point).None? || ExposureAt(t, point).value.qty == 0.0)
       <==> forall i | InForce(t, i, point) :: t[i].qty == 0.0
  {
    ExposureIsInForce(t, point);
    hide ExposureAt;
  }

  lemma DeltaIsOwed(s: State, p: Payment, leg: Leg)
    requires leg.slot in s
    ensures LegDelta(s, p, leg) == leg.amount - Owes(s, p, leg.slot)
  {
    ExpectedIsOwed(s, p, leg.slot);
    hide ExpectedAmount, Owes;
  }

  // The leg was charged its own quantity, times price, times rate.
  ghost predicate ChargedExactly(p: Payment, leg: Leg) {
    p.reference.Some? && leg.amount == leg.qty * leg.direction as real * p.reference.value * p.rate
  }

  lemma ExactLegIsSound(s: State, p: Payment, leg: Leg)
    requires leg.slot in s && ChargedExactly(p, leg)
    ensures LegFault(s, p, leg).None?
  {
    CloseToItself(leg.amount);
    assert leg.amount == FundingOn(Signed(leg.qty, leg.direction), p.reference.value, p.rate);
    hide IsClose, ExposureAt, FundingOn, Signed, ChargedExactly;
  }

  // A leg charged its own quantity exactly is off by the funding on what its timeline did not hold.
  lemma ExactChargeIsCorrected(s: State, p: Payment, leg: Leg)
    requires leg.slot in s && ChargedExactly(p, leg)
    ensures LegFault(s, p, leg).None?
    ensures LegDelta(s, p, leg)
         == FundingOn(Signed(leg.qty, leg.direction), p.reference.value, p.rate)
            - FundingOn(SignedAt(s[leg.slot].timeline, p.at), p.reference.value, p.rate)
  {
    assert leg.amount == FundingOn(Signed(leg.qty, leg.direction), p.reference.value, p.rate);
    hide SignedAt, LegDelta, Owes, LegFault, FundingOn, Signed, ChargedExactly;
    DeltaIsOwed(s, p, leg);
    OwedFunding(s, p, leg.slot);
    ExactLegIsSound(s, p, leg);
  }

  // A payment whose correction, if it needs one, has not been recorded yet.
  predicate Pending(ledger: map<string, real>, p: Payment) {
    StartsWith(p.key, TREND) && PREFIX + p.key !in ledger
  }

  // Funding charged to a slot, and funding due from it on timelines s.
  function Charged(legs: seq<Leg>, slot: string): real {
    if legs == [] then 0.0
    else Charged(legs[..|legs| - 1], slot) + if legs[|legs| - 1].slot == slot then legs[|legs| - 1].amount else 0.0
  }

  ghost function Due(s: State, p: Payment, n: nat, slot: string): real
    requires n <= |p.legs| && slot in s
  {
    if n == 0 then 0.0
    else Due(s, p, n - 1, slot) + if p.legs[n - 1].slot == slot then Owes(s, p, slot) else 0.0
  }

  function LegsOf(legs: seq<Leg>, slot: string): nat {
    if legs == [] then 0 else LegsOf(legs[..|legs| - 1], slot) + if legs[|legs| - 1].slot == slot then 1 else 0
  }

  // The same over the pending ones of the first n payments.
  function PendingCharged(ledger: map<string, real>, events: seq<Payment>, n: nat, slot: string): real
    requires n <= |events|
  {
    if n == 0 then 0.0
    else PendingCharged(ledger, events, n - 1, slot)
         + if Pending(ledger, events[n - 1]) then Charged(events[n - 1].legs, slot) else 0.0
  }

  ghost function PendingDue(s: State, ledger: map<string, real>, events: seq<Payment>, n: nat, slot: string): real
    requires n <= |events| && slot in s
  {
    if n == 0 then 0.0
    else PendingDue(s, ledger, events, n - 1, slot)
         + if Pending(ledger, events[n - 1]) then Due(s, events[n - 1], |events[n - 1].legs|, slot) else 0.0
  }

  function PendingLegs(ledger: map<string, real>, events: seq<Payment>, n: nat, slot: string): nat
    requires n <= |events|
  {
    if n == 0 then 0
    else PendingLegs(ledger, events, n - 1, slot)
         + if Pending(ledger, events[n - 1]) then LegsOf(events[n - 1].legs, slot) else 0
  }

  // Differences up to 1e-12 are left alone.
  function Given(delta: real): real {
    if AbsR(delta) > EXACT then delta else 0.0
  }

  lemma LegResidual(s: State, p: Payment, leg: Leg)
    requires leg.slot in s
    ensures AbsR(leg.amount - Given(LegDelta(s, p, leg)) - Owes(s, p, leg.slot)) <= EXACT
  {
    hide Owes, LegDelta;
    DeltaIsOwed(s, p, leg);
  }

  lemma LastLeg(s: State, p: Payment, n: nat)
    requires 0 < n <= |p.legs| && Corrections(s, p, n).Success?
    ensures Corrections(s, p, n - 1).Success? && p.legs[n - 1].slot in s
    ensures var leg, c := p.legs[n - 1], Corrections(s, p, n - 1).value;
            var d := Correction(leg.slot, LegDelta(s, p, leg));
            Corrections(s, p, n).value == if AbsR(d.delta) > EXACT then c + [d] else c
  {
    hide ExpectedAmount, NeedsReference, IsClose, LegDelta;
  }

  lemma DeltaOfAdds(c: seq<Correction>, d: Correction, slot: string)
    ensures DeltaOf(c + [d], slot) == DeltaOf(c, slot) + if d.slot == slot then d.delta else 0.0
  {
    assert (c + [d])[..|c|] == c;
  }

  // What the last leg adds to the correction of a slot.
  lemma LastLegGives(s: State, p: Payment, n: nat, slot: string)
    requires 0 < n <= |p.legs| && Corrections(s, p, n).Success?
    ensures Corrections(s, p, n - 1).Success? && p.legs[n - 1].slot in s
    ensures DeltaOf(Corrections(s, p, n).value, slot)
         == DeltaOf(Corrections(s, p, n - 1).value, slot)
            + if p.legs[n - 1].slot == slot then Given(LegDelta(s, p, p.legs[n - 1])) else 0.0
  {
    LastLeg(s, p, n);
    hide Corrections, LegDelta, DeltaOf;
    var leg, c := p.legs[n - 1], Corrections(s, p, n - 1).value;
    DeltaOfAdds(c, Correction(leg.slot, LegDelta(s, p, leg)), slot);
  }

  lemma {:induction false} PaymentResidual(s: State, p: Payment, n: nat, slot: string)
    requires n <= |p.legs| && slot in s && Corrections(s, p, n).Success?
    ensures AbsR(Charged(p.legs[..n], slot) - DeltaOf(Corrections(s, p, n).value, slot) - Due(s, p, n, slot))
         <= EXACT * LegsOf(p.legs[..n], slot) as real
  {
    hide Corrections, LegDelta, DeltaOf, Owes, Given, Charged, Due, LegsOf;
    if n == 0 {
      NoLegsFor(s, p, slot);
    } else {
      LastLegGives(s, p, n, slot);
      PaymentResidual(s, p, n - 1, slot);
      LastLegSumsFor(s, p, n, slot);
      var leg := p.legs[n - 1];
      if leg.slot == slot {
        LegResidual(s, p, leg);
      }
    }
  }

  lemma NoLegsFor(s: State, p: Payment, slot: string)
    requires slot in s
    ensures Charged(p.legs[..0], slot) == 0.0 == Due(s, p, 0, slot) && LegsOf(p.legs[..0], slot) == 0
    ensures Corrections(s, p, 0) == Success([]) && DeltaOf([], slot) == 0.0
  {
  }

  lemma LastLegSumsFor(s: State, p: Payment, n: nat, slot: string)
    requires 0 < n <= |p.legs| && slot in s
    ensures var leg, before := p.legs[n - 1], p.legs[..n - 1];
            && Charged(p.legs[..n], slot) == Charged(before, slot) + (if leg.slot == slot then leg.amount else 0.0)
            && LegsOf(p.legs[..n], slot) == LegsOf(before, slot) + (if leg.slot == slot then 1 else 0)
            && Due(s, p, n, slot)
               == Due(s, p, n - 1, slot) + if leg.slot == slot then Owes(s, p, slot) else 0.0
  {
    hide Owes;
    assert p.legs[..n][..n - 1] == p.legs[..n - 1];
  }

  // Over the payments not corrected before: charged minus planned minus due.
  lemma {:induction false} FundingResidual(s: State, ledger: map<string, real>, events: seq<Payment>, n: nat,
                                           slot: string)
    requires n <= |events| && slot in s && Adjust(s, ledger, events, n).Success?
    ensures AbsR(PendingCharged(ledger, events, n, slot) - PlannedDelta(Adjust(s, ledger, events, n).value, slot)
                 - PendingDue(s, ledger, events, n, slot))
         <= EXACT * PendingLegs(ledger, events, n, slot) as real
  {
    hide AdjustOne, Corrections, IsClose, Charged, Due, LegsOf, Pending, PlannedDelta;
    if n > 0 {
      FundingResidual(s, ledger, events, n - 1, slot);
      var p := events[n - 1];
      var a, b := Adjust(s, ledger, events, n - 1).value, AdjustOne(s, ledger, p).value;
      AtMostOne(s, ledger, p);
      PlannedDeltaAppends(a, b, slot);
      OneEventResidual(s, ledger, p, slot);
      assert Adjust(s, ledger, events, n).value == a + b;
    } else {
      NothingPlanned(slot);
    }
  }

  lemma NothingPlanned(slot: string)
    ensures PlannedDelta([], slot) == 0.0
  {
  }

  lemma OneEventResidual(s: State, ledger: map<string, real>, p: Payment, slot: string)
    requires slot in s && AdjustOne(s, ledger, p).Success?
    ensures if Pending(ledger, p) then
              AbsR(Charged(p.legs, slot) - PlannedDelta(AdjustOne(s, ledger, p).value, slot)
                   - Due(s, p, |p.legs|, slot))
              <= EXACT * LegsOf(p.legs, slot) as real
            else AdjustOne(s, ledger, p).value == [] && PlannedDelta(AdjustOne(s, ledger, p).value, slot) == 0.0
  {
    hide Corrections, Charged, Due, LegsOf, DeltaOf;
    if Pending(ledger, p) {
      OneEventDelta(s, ledger, p, slot);
      PaymentResidual(s, p, |p.legs|, slot);
      assert p.legs[..|p.legs|] == p.legs;
    }
  }

  lemma OneEventDelta(s: State, ledger: map<string, real>, p: Payment, slot: string)
    requires Pending(ledger, p) && AdjustOne(s, ledger, p).Success?
    ensures Corrections(s, p, |p.legs|).Success?
    ensures PlannedDelta(AdjustOne(s, ledger, p).value, slot) == DeltaOf(Corrections(s, p, |p.legs|).value, slot)
  {
    hide Corrections, IsClose;
    var b := AdjustOne(s, ledger, p).value;
    if b != [] {
      assert b[..0] == [];
    }
  }

  lemma PlannedDeltaAppends(a: seq<Adjustment>, b: seq<Adjustment>, slot: string)
    requires |b| <= 1
    ensures PlannedDelta(a + b, slot) == PlannedDelta(a, slot) + PlannedDelta(b, slot)
  {
    if b == [] {
      assert a + b == a;
    } else {
      assert (a + b)[..|a|] == a && b[..0] == [];
    }
  }

  // On any database: over the payments that had no correction recorded, what a slot was charged,
  // less the cash this run gives back, is what its repaired timeline owes, to 1e-12 per leg.
  lemma {:induction false} ReconciledFundingIsDue(db: Db, p: Plan, slot: string)
    requires BuildPlan(db) == Success(p) && slot in db.state
    ensures slot in p.after && slot in Finished(db, p).state
    ensures var refund := Finished(db, p).state[slot].cash - db.state[slot].cash;
            AbsR(PendingCharged(db.ledger, db.events, |db.events|, slot) - refund
                 - PendingDue(p.after, db.ledger, db.events, |db.events|, slot))
            <= EXACT * PendingLegs(db.ledger, db.events, |db.events|, slot) as real
  {
    FinalCash(db, p, slot);
    PartsOfPlan(db, p);
    hide BuildPlan, Adjust, Repair, PendingCharged, PendingDue, PendingLegs, PlannedDelta, PayPlan, LedgerWith,
         EventsWith;
    FundingResidual(p.after, db.ledger, db.events, |db.events|, slot);
  }

  // ---- payments corrected by an earlier run ----

  // Over all slots of one payment.
  function AllCharged(legs: seq<Leg>): real {
    if legs == [] then 0.0 else AllCharged(legs[..|legs| - 1]) + legs[|legs| - 1].amount
  }

  ghost function AllDue(s: State, p: Payment, n: nat): real
    requires n <= |p.legs| && forall i | 0 <= i < n :: p.legs[i].slot in s
  {
    if n == 0 then 0.0 else AllDue(s, p, n - 1) + Owes(s, p, p.legs[n - 1].slot)
  }

  lemma LastLegTotal(s: State, p: Payment, n: nat)
    requires 0 < n <= |p.legs| && Corrections(s, p, n).Success?
    ensures Corrections(s, p, n - 1).Success? && p.legs[n - 1].slot in s
    ensures Total(Corrections(s, p, n).value)
         == Total(Corrections(s, p, n - 1).value) + Given(LegDelta(s, p, p.legs[n - 1]))
  {
    LastLeg(s, p, n);
    hide Corrections, LegDelta, Total;
    var leg, c := p.legs[n - 1], Corrections(s, p, n - 1).value;
    TotalAdds(c, Correction(leg.slot, LegDelta(s, p, leg)));
  }

  lemma {:induction false} AllSlotsResidual(s: State, p: Payment, n: nat)
    requires n <= |p.legs| && Corrections(s, p, n).Success?
    ensures forall i | 0 <= i < n :: p.legs[i].slot in s
    ensures AbsR(AllCharged(p.legs[..n]) - Total(Corrections(s, p, n).value) - AllDue(s, p, n)) <= EXACT * n as real
  {
    hide Corrections, LegDelta, Total, Owes, Given, AllCharged, AllDue;
    if n == 0 {
      NoLegs(s, p);
    } else {
      LastLegTotal(s, p, n);
      AllSlotsResidual(s, p, n - 1);
      var leg := p.legs[n - 1];
      LegResidual(s, p, leg);
      LastLegSums(s, p, n);
    }
  }

  lemma NoLegs(s: State, p: Payment)
    ensures AllCharged(p.legs[..0]) == 0.0 && AllDue(s, p, 0) == 0.0
    ensures Corrections(s, p, 0) == Success([]) && Total([]) == 0.0
  {
  }

  lemma LastLegSums(s: State, p: Payment, n: nat)
    requires 0 < n <= |p.legs| && forall i | 0 <= i < n :: p.legs[i].slot in s
    ensures AllCharged(p.legs[..n]) == AllCharged(p.legs[..n - 1]) + p.legs[n - 1].amount
    ensures AllDue(s, p, n) == AllDue(s, p, n - 1) + Owes(s, p, p.legs[n - 1].slot)
  {
    hide Owes;
    assert p.legs[..n][..n - 1] == p.legs[..n - 1];
  }

  // How far apart math.isclose lets two amounts be.
  function Slack(a: real, b: real): real {
    MaxReal(EXACT, 0.000000001 * MaxReal(AbsR(a), AbsR(b)))
  }

  // An inspection that accepts a recorded correction has compared its total only, and only if
  // some leg still differs: then, over all slots, charged minus recorded is due.  Otherwise the
  // legs alone are due, and the recorded correction is left standing.
  lemma {:induction false} CorrectedPaymentTotal(s: State, ledger: map<string, real>, p: Payment)
    requires StartsWith(p.key, TREND) && PREFIX + p.key in ledger && AdjustOne(s, ledger, p).Success?
    ensures AdjustOne(s, ledger, p).value == [] && Corrections(s, p, |p.legs|).Success?
    ensures forall i | 0 <= i < |p.legs| :: p.legs[i].slot in s
    ensures var c, recorded := Corrections(s, p, |p.legs|).value, ledger[PREFIX + p.key];
            if c != [] then
              AbsR(AllCharged(p.legs) - recorded - AllDue(s, p, |p.legs|))
              <= EXACT * |p.legs| as real + Slack(recorded, Total(c))
            else AbsR(AllCharged(p.legs) - AllDue(s, p, |p.legs|)) <= EXACT * |p.legs| as real
  {
    hide Corrections, AllCharged, AllDue;
    AllSlotsResidual(s, p, |p.legs|);
    assert p.legs[..|p.legs|] == p.legs;
  }

  lemma TotalAdds(c: seq<Correction>, d: Correction)
    ensures Total(c + [d]) == Total(c) + d.delta
  {
    assert (c + [d])[..|c|] == c;
  }

  // The slots of one payment are the keys of a dictionary.
  ghost predicate DistinctSlots(legs: seq<Leg>) {
    forall i, j | 0 <= i < j < |legs| :: legs[i].slot != legs[j].slot
  }

  // What the correction of a payment gives the slot of leg i.
  lemma {:induction false} GivenToLeg(s: State, p: Payment, n: nat, i: nat)
    requires i < |p.legs| && n <= |p.legs| && DistinctSlots(p.legs) && Corrections(s, p, n).Success?
    ensures i >= n ==> DeltaOf(Corrections(s, p, n).value, p.legs[i].slot) == 0.0
    ensures i < n ==> p.legs[i].slot in s
    ensures i < n ==> DeltaOf(Corrections(s, p, n).value, p.legs[i].slot) == Given(LegDelta(s, p, p.legs[i]))
  {
    if n > 0 {
      LastLegGives(s, p, n, p.legs[i].slot);
      hide Corrections, LegDelta, DeltaOf, Given;
      GivenToLeg(s, p, n - 1, i);
      assert i != n - 1 ==> p.legs[i].slot != p.legs[n - 1].slot;
    }
  }

  lemma {:induction false} FaultlessCorrections(s: State, p: Payment, n: nat)
    requires n <= |p.legs| && forall i | 0 <= i < n :: p.legs[i].slot in s && LegFault(s, p, p.legs[i]).None?
    ensures Corrections(s, p, n).Success?
  {
    hide LegFault, LegDelta;
    if n > 0 {
      FaultlessCorrections(s, p, n - 1);
    }
  }

  // The payment and its ledger row are sound, and no correction is recorded.
  ghost predicate Uncorrected(s: State, ledger: map<string, real>, p: Payment) {
    && Pending(ledger, p) && p.key in ledger && ledger[p.key] == p.total
    && DistinctSlots(p.legs) && p.reference.Some? && forall leg | leg in p.legs :: leg.slot in s
  }

  // Charged for one quantity and holding another, a slot is paid the difference times price times rate,
  // unless that is below 1e-12.  So a slot that held what it was charged for is paid nothing, and one
  // that was flat the whole charge.
  ghost predicate PaysBack(charged: real, held: real, price: real, rate: real, paid: real) {
    var excess, whole := (charged - held) * price * rate, charged * price * rate;
    && paid == (if -0.000000000001 <= excess <= 0.000000000001 then 0.0 else excess)
    && (held == charged ==> paid == 0.0)
    && (held == 0.0 && !(-0.000000000001 <= whole <= 0.000000000001) ==> paid == whole)
  }

  // What a plan does about a payment whose slots were each charged their own quantity exactly.
  lemma {:induction false} ExactPaymentCorrection(s: State, ledger: map<string, real>, p: Payment, i: nat)
    requires Uncorrected(s, ledger, p) && i < |p.legs| && forall leg | leg in p.legs :: ChargedExactly(p, leg)
    ensures AdjustOne(s, ledger, p).Success? && p.legs[i].slot in PayPlan(s, AdjustOne(s, ledger, p).value)
    ensures var leg := p.legs[i];
            PaysBack(leg.qty * leg.direction as real, SignedAt(s[leg.slot].timeline, p.at), p.reference.value, p.rate,
                     PayPlan(s, AdjustOne(s, ledger, p).value)[leg.slot].cash - s[leg.slot].cash)
  {
    hide SignedAt, LegFault, AdjustOne, PayPlan, LegDelta, ChargedExactly, PaysBack;
    forall j | 0 <= j < |p.legs|
      ensures LegFault(s, p, p.legs[j]).None?
    {
      ExactChargeIsCorrected(s, p, p.legs[j]);
    }
    PaidForLeg(s, ledger, p, i);
    var leg := p.legs[i];
    ExactChargeIsCorrected(s, p, leg);
    ExactExcess(Signed(leg.qty, leg.direction), SignedAt(s[leg.slot].timeline, p.at), p.reference.value, p.rate,
                PayPlan(s, AdjustOne(s, ledger, p).value)[leg.slot].cash - s[leg.slot].cash);
    hide FundingOn;
  }

  lemma PaidForLeg(s: State, ledger: map<string, real>, p: Payment, i: nat)
    requires Uncorrected(s, ledger, p) && i < |p.legs|
    requires forall j | 0 <= j < |p.legs| :: LegFault(s, p, p.legs[j]).None?
    ensures AdjustOne(s, ledger, p).Success? && p.legs[i].slot in PayPlan(s, AdjustOne(s, ledger, p).value)
    ensures PayPlan(s, AdjustOne(s, ledger, p).value)[p.legs[i].slot].cash
         == s[p.legs[i].slot].cash + Given(LegDelta(s, p, p.legs[i]))
  {
    hide LegFault, LegDelta, Given, Corrections, DeltaOf, Pending, PayPlan, PlannedDelta;
    FaultlessCorrections(s, p, |p.legs|);
    PendingAdjusts(s, ledger, p);
    hide AdjustOne;
    OneEventDelta(s, ledger, p, p.legs[i].slot);
    GivenToLeg(s, p, |p.legs|, i);
    PayPlanPays(s, AdjustOne(s, ledger, p).value, p.legs[i].slot);
  }

  lemma ExactExcess(charged: real, held: real, price: real, rate: real, paid: real)
    requires paid == Given(FundingOn(charged, price, rate) - FundingOn(held, price, rate))
    ensures PaysBack(charged, held, price, rate, paid)
  {
    assert FundingOn(charged, price, rate) - FundingOn(held, price, rate) == (charged - held) * price * rate;
    assert held == 0.0 ==> FundingOn(held, price, rate) == 0.0;
  }

  lemma PendingAdjusts(s: State, ledger: map<string, real>, p: Payment)
    requires Uncorrected(s, ledger, p) && Corrections(s, p, |p.legs|).Success?
    ensures AdjustOne(s, ledger, p).Success?
  {
    CloseToItself(p.total);
    hide Corrections, IsClose, Total;
  }

  lemma {:induction false} CorrectionsSucceedExactly(s: State, p: Payment, n: nat)
    requires n <= |p.legs|
    ensures Corrections(s, p, n).Success? <==> forall i | 0 <= i < n :: LegFault(s, p, p.legs[i]).None?
  {
    hide LegFault, LegDelta;
    if n > 0 {
      CorrectionsSucceedExactly(s, p, n - 1);
      FaultlessLegIsKnown(s, p, p.legs[n - 1]);
    }
  }

  // A payment of the trend engine is accepted exactly when its ledger row is there with its total, all
  // its legs are accepted, and a correction recorded for it, if one is needed, has the total needed.
  lemma {:induction false} PaymentAcceptedExactly(s: State, ledger: map<string, real>, p: Payment)
    ensures AdjustOne(s, ledger, p).Success? <==>
              (StartsWith(p.key, "trend|") ==>
                 && p.key in ledger && IsClose(ledger[p.key], p.total, EXACT)
                 && (forall i | 0 <= i < |p.legs| :: LegFault(s, p, p.legs[i]).None?)
                 && var c := Corrections(s, p, |p.legs|);
                 && c.Success?
                 && (c.value == [] || "trend-stop-repair-v1|" + p.key !in ledger
                     || IsClose(ledger["trend-stop-repair-v1|" + p.key], Total(c.value), EXACT)))
  {
    hide Corrections, IsClose, LegFault, StartsWith, Total;
    CorrectionsSucceedExactly(s, p, |p.legs|);
  }

  // What a correction leaves of a difference.
  function Remainder(delta: real): (r: real)
    ensures AbsR(r) <= EXACT
  {
    delta - Given(delta)
  }

  // A payment corrected on the timelines `before`, seen on the timelines `now`: what a slot was
  // charged less what it was given is off by the remainder then, plus what it owed then less what it
  // owes now.  So a slot that was corrected is still settled, to 1e-12, exactly when what it owes has
  // not moved, and one that was left alone exactly when its charge is still right.
  lemma {:induction false} CorrectedSlotExactly(before: State, now: State, p: Payment, i: nat)
    requires i < |p.legs| && DistinctSlots(p.legs) && p.legs[i].slot in now && Corrections(before, p, |p.legs|).Success?
    ensures p.legs[i].slot in before
    ensures var leg := p.legs[i];
            var given := DeltaOf(Corrections(before, p, |p.legs|).value, leg.slot);
            && leg.amount - given - Owes(now, p, leg.slot)
               == Remainder(LegDelta(before, p, leg))
                  + (Owes(before, p, leg.slot) - Owes(now, p, leg.slot))
            && (AbsR(leg.amount - given - Owes(now, p, leg.slot)) <= EXACT <==>
                  if AbsR(LegDelta(before, p, leg)) > EXACT then
                    AbsR(Owes(before, p, leg.slot) - Owes(now, p, leg.slot)) <= EXACT
                  else AbsR(LegDelta(now, p, leg)) <= EXACT)
  {
    hide Corrections, Owes, LegDelta;
    GivenToLeg(before, p, |p.legs|, i);
    DeltaIsOwed(before, p, p.legs[i]);
    DeltaIsOwed(now, p, p.legs[i]);
  }

  lemma SameQuantityOwesTheSame(before: State, now: State, p: Payment, slot: string)
    requires slot in before && slot in now
    requires SignedAt(before[slot].timeline, p.at) == SignedAt(now[slot].timeline, p.at)
    ensures Owes(before, p, slot) == Owes(now, p, slot)
  {
    hide SignedAt, FundingOn;
    if p.reference.Some? {
      OwedFunding(before, p, slot);
      OwedFunding(now, p, slot);
      hide Owes;
    }
  }

  // In particular when both hold the same quantity at the payment.
  lemma {:induction false} SameExposureStaysSettled(before: State, now: State, p: Payment, i: nat)
    requires i < |p.legs| && DistinctSlots(p.legs) && p.legs[i].slot in now && Corrections(before, p, |p.legs|).Success?
    requires p.legs[i].slot in before
    requires SignedAt(before[p.legs[i].slot].timeline, p.at) == SignedAt(now[p.legs[i].slot].timeline, p.at)
    ensures AbsR(p.legs[i].amount - DeltaOf(Corrections(before, p, |p.legs|).value, p.legs[i].slot)
                 - Owes(now, p, p.legs[i].slot)) <= EXACT
  {
    hide Corrections, SignedAt, LegDelta, DeltaOf, Remainder;
    SameQuantityOwesTheSame(before, now, p, p.legs[i].slot);
    hide Owes;
    CorrectedSlotExactly(before, now, p, i);
  }
}
