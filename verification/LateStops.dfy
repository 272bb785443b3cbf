/** A finished reconciliation followed by stops that were not known to it. */
module LateStops {
  import opened Prelude
  import opened Reconciliation
  import opened ReconciliationProofs

  // ---- two runs ----

  // How much less a slot owes on the timelines `now` than it did on `before`, over the payments that
  // the ledger `after` holds a correction for and `ledger` did not.
  ghost function Moved(before: State, now: State, ledger: map<string, real>, after: map<string, real>,
                       events: seq<Payment>, n: nat, slot: string): real
    requires n <= |events| && slot in before && slot in now
  {
    if n == 0 then 0.0
    else
      var p := events[n - 1];
      Moved(before, now, ledger, after, events, n - 1, slot)
      + if Pending(ledger, p) && !Pending(after, p) then Due(before, p, |p.legs|, slot) - Due(now, p, |p.legs|, slot)
        else 0.0
  }

  // Whether a run adjusts a payment shows in whether it is still pending afterwards.
  ghost predicate Records(s: State, ledger: map<string, real>, after: map<string, real>, p: Payment) {
    && AdjustOne(s, ledger, p).Success?
    && (Pending(ledger, p) ==> (Pending(after, p) <==> AdjustOne(s, ledger, p).value == []))
    && (!Pending(ledger, p) ==> !Pending(after, p))
  }

  lemma AdjustedIsRecorded(s: State, ledger: map<string, real>, events: seq<Payment>, all: seq<Adjustment>, i: nat)
    requires DistinctPayments(events) && i < |events| && Adjust(s, ledger, events, |events|) == Success(all)
    requires FreshKeys(all, ledger) && AdjustOne(s, ledger, events[i]).Success?
    requires AdjustOne(s, ledger, events[i]).value != []
    ensures PREFIX + events[i].key in LedgerWith(ledger, all)
  {
    hide Adjust, AdjustOne, LedgerWith, DistinctPayments, FreshKeys;
    EventAfter(s, ledger, events, all, |all|, i + 1);
    AdjustmentKey(s, ledger, events[i]);
    LedgerWithHolds(ledger, all);
    var a, b := Adjust(s, ledger, events, i).value, AdjustOne(s, ledger, events[i]).value;
    assert b[0] == (a + b)[|a|] == all[|a|];
  }

  lemma RecordedIsAdjusted(s: State, ledger: map<string, real>, events: seq<Payment>, all: seq<Adjustment>, i: nat)
    requires DistinctPayments(events) && i < |events| && Adjust(s, ledger, events, |events|) == Success(all)
    requires FreshKeys(all, ledger) && AdjustOne(s, ledger, events[i]).Success?
    requires PREFIX + events[i].key !in ledger && PREFIX + events[i].key in LedgerWith(ledger, all)
    ensures AdjustOne(s, ledger, events[i]).value != []
  {
    hide Adjust, AdjustOne, LedgerWith, DistinctPayments, FreshKeys;
    LedgerWithHolds(ledger, all);
    KeyBelongsToItsEvent(s, ledger, events, all, |all|, i + 1);
  }

  lemma RecordsWhatItAdjusts(s: State, ledger: map<string, real>, events: seq<Payment>, all: seq<Adjustment>, i: nat)
    requires DistinctPayments(events) && i < |events| && Adjust(s, ledger, events, |events|) == Success(all)
    ensures Records(s, ledger, LedgerWith(ledger, all), events[i])
  {
    hide Adjust, AdjustOne, LedgerWith, DistinctPayments, FreshKeys, FromEvents;
    AdjustmentsAreFresh(s, ledger, events, |events|);
    AdjustGrows(s, ledger, events, i + 1, |events|);
    LastEventAdjusts(s, ledger, events, i + 1);
    LedgerWithHolds(ledger, all);
    if AdjustOne(s, ledger, events[i]).value != [] {
      AdjustedIsRecorded(s, ledger, events, all, i);
    } else if PREFIX + events[i].key !in ledger && PREFIX + events[i].key in LedgerWith(ledger, all) {
      RecordedIsAdjusted(s, ledger, events, all, i);
    }
  }

  lemma AdjustmentKey(s: State, ledger: map<string, real>, p: Payment)
    requires AdjustOne(s, ledger, p).Success?
    ensures forall a | a in AdjustOne(s, ledger, p).value :: a.key == PREFIX + p.key
  {
    hide Corrections, IsClose;
  }

  // One payment in two runs: the first corrects it, or leaves it to the second.
  lemma OnePaymentTwice(s: State, now: State, ledger: map<string, real>, after: map<string, real>, p: Payment,
                        slot: string)
    requires slot in s && slot in now && Records(s, ledger, after, p) && AdjustOne(now, after, p).Success?
    ensures var a := PlannedDelta(AdjustOne(s, ledger, p).value, slot);
            var b := PlannedDelta(AdjustOne(now, after, p).value, slot);
            var due, due' := Due(s, p, |p.legs|, slot), Due(now, p, |p.legs|, slot);
            if Pending(ledger, p) then
              AbsR(Charged(p.legs, slot) - (a + b) - due' - if Pending(after, p) then 0.0 else due - due')
              <= EXACT * LegsOf(p.legs, slot) as real
            else a + b == 0.0
  {
    hide AdjustOne, Due, Charged, LegsOf, PlannedDelta, Pending;
    NothingPlanned(slot);
    OneEventResidual(s, ledger, p, slot);
    OneEventResidual(now, after, p, slot);
  }

  lemma {:induction false} TwoRuns(s: State, now: State, ledger: map<string, real>, after: map<string, real>,
                                   events: seq<Payment>, n: nat, slot: string)
    requires n <= |events| && slot in s && slot in now
    requires Adjust(s, ledger, events, n).Success? && Adjust(now, after, events, n).Success?
    requires forall i | 0 <= i < n :: Records(s, ledger, after, events[i])
    ensures var given := PlannedDelta(Adjust(s, ledger, events, n).value, slot)
                         + PlannedDelta(Adjust(now, after, events, n).value, slot);
            AbsR(PendingCharged(ledger, events, n, slot) - given - PendingDue(now, ledger, events, n, slot)
                 - Moved(s, now, ledger, after, events, n, slot))
            <= EXACT * PendingLegs(ledger, events, n, slot) as real
  {
    hide AdjustOne, Charged, Due, LegsOf, Pending, PlannedDelta;
    if n == 0 {
      NothingPlanned(slot);
    } else {
      var p := events[n - 1];
      LastEventAdjusts(s, ledger, events, n);
      LastEventAdjusts(now, after, events, n);
      TwoRuns(s, now, ledger, after, events, n - 1, slot);
      OnePaymentTwice(s, now, ledger, after, p, slot);
      AtMostOne(s, ledger, p);
      AtMostOne(now, after, p);
      hide Adjust;
      PlannedDeltaAppends(Adjust(s, ledger, events, n - 1).value, AdjustOne(s, ledger, p).value, slot);
      PlannedDeltaAppends(Adjust(now, after, events, n - 1).value, AdjustOne(now, after, p).value, slot);
    }
  }

  // A run, then one on the same database with other stops, late ones say.  Over the payments that had
  // no correction at first: what a slot was charged, less all the cash it was given, is what its
  // timeline now owes, plus what it has come to owe less on the payments the first run corrected.
  lemma LateStopsExactly(db: Db, p: Plan, db': Db, p': Plan, slot: string)
    requires BuildPlan(db) == Success(p) && DistinctPayments(db.events) && slot in db.state
    requires db' == Finished(db, p).(stops := db'.stops) && BuildPlan(db') == Success(p')
    ensures slot in p.after && slot in p'.after && slot in Finished(db', p').state
    ensures var given, n := Finished(db', p').state[slot].cash - db.state[slot].cash, |db.events|;
            AbsR(PendingCharged(db.ledger, db.events, n, slot) - given
                 - PendingDue(p'.after, db.ledger, db.events, n, slot)
                 - Moved(p.after, p'.after, db.ledger, Finished(db, p).ledger, db.events, n, slot))
            <= EXACT * PendingLegs(db.ledger, db.events, n, slot) as real
  {
    hide BuildPlan, Finished, Adjust, AdjustOne, PlannedDelta, PendingCharged, PendingDue, PendingLegs, Moved,
         LedgerWith, DistinctPayments;
    PartsOfPlan(db, p);
    PartsOfPlan(db', p');
    FinalCash(db, p, slot);
    FinalCash(db', p', slot);
    FinishedIs(db, p);
    SecondRun(db, p, db', p');
    var l, events, all := db.ledger, db.events, p.adjustments;
    forall i | 0 <= i < |events|
      ensures Records(p.after, l, LedgerWith(l, all), events[i])
    {
      RecordsWhatItAdjusts(p.after, l, events, all, i);
    }
    hide Records;
    TwoRuns(p.after, p'.after, l, LedgerWith(l, all), events, |events|, slot);
  }

  // The second run adjusts the same payments against the ledger the first left.
  lemma SecondRun(db: Db, p: Plan, db': Db, p': Plan)
    requires BuildPlan(db) == Success(p) && DistinctPayments(db.events)
    requires db' == Finished(db, p).(stops := db'.stops) && BuildPlan(db') == Success(p')
    ensures Adjust(p'.after, LedgerWith(db.ledger, p.adjustments), db.events, |db.events|) == Success(p'.adjustments)
  {
    hide BuildPlan, Finished, Adjust, LedgerWith, EventsWith, DistinctPayments, FromEvents;
    PartsOfPlan(db, p);
    PartsOfPlan(db', p');
    FinishedIs(db, p);
    AdjustmentsAreFresh(p.after, db.ledger, db.events, |db.events|);
    CorrectionEventsAreIgnored(p'.after, LedgerWith(db.ledger, p.adjustments), db.events, p.adjustments);
  }

  lemma FinishedIs(db: Db, p: Plan)
    ensures Finished(db, p).ledger == LedgerWith(db.ledger, p.adjustments)
    ensures Finished(db, p).events == EventsWith(db.events, p.adjustments)
  {
    assert p.adjustments[..|p.adjustments|] == p.adjustments;
    hide PayPlan;
    assert Writes(p) == 0 ==> p.adjustments == [];
  }

  // ---- a correction that went to the wrong slot ----

  // Three sound legs, off by a, b and c.
  ghost predicate OffBy(s: State, p: Payment, a: real, b: real, c: real) {
    && |p.legs| == 3 && (forall i | 0 <= i < 3 :: p.legs[i].slot in s && LegFault(s, p, p.legs[i]).None?)
    && LegDelta(s, p, p.legs[0]) == a && LegDelta(s, p, p.legs[1]) == b && LegDelta(s, p, p.legs[2]) == c
  }

  lemma TotalOfThree(s: State, p: Payment, a: real, b: real, c: real)
    requires OffBy(s, p, a, b, c)
    ensures Corrections(s, p, 3).Success?
    ensures Total(Corrections(s, p, 3).value) == Given(a) + Given(b) + Given(c)
  {
    hide LegFault, LegDelta, Corrections, Given, Total;
    FaultlessCorrections(s, p, 3);
    LastLegTotal(s, p, 3);
    LastLegTotal(s, p, 2);
    LastLegTotal(s, p, 1);
    NothingCorrected(s, p);
  }

  lemma FirstTwoOfThree(s: State, p: Payment, a: real, b: real, c: real)
    requires OffBy(s, p, a, b, c) && DistinctSlots(p.legs) && Corrections(s, p, 3).Success?
    ensures DeltaOf(Corrections(s, p, 3).value, p.legs[0].slot) == Given(a)
    ensures DeltaOf(Corrections(s, p, 3).value, p.legs[1].slot) == Given(b)
    ensures p.legs[0].amount - Owes(s, p, p.legs[0].slot) == a
    ensures p.legs[1].amount - Owes(s, p, p.legs[1].slot) == b
  {
    hide LegFault, Corrections, DeltaOf, Owes, LegDelta;
    GivenToLeg(s, p, 3, 0);
    GivenToLeg(s, p, 3, 1);
    DeltaIsOwed(s, p, p.legs[0]);
    DeltaIsOwed(s, p, p.legs[1]);
  }

  lemma NothingCorrected(s: State, p: Payment)
    ensures Corrections(s, p, 0) == Success([]) && Total([]) == 0.0
  {
  }

  // One unit charged at a price and a rate of one, on a timeline that says what it says.
  lemma UnitLeg(s: State, p: Payment, leg: Leg)
    requires leg.slot in s && p.reference == Some(1.0) && p.rate == 1.0
    requires leg.qty == 1.0 && leg.amount == leg.direction as real
    ensures var e := ExposureAt(s[leg.slot].timeline, p.at);
            && LegFault(s, p, leg).None?
            && (e.None? || e.value.qty == 0.0 ==> ExpectedAmount(s, p, leg.slot) == 0.0)
            && (e.Some? && e.value.qty == 1.0 ==> ExpectedAmount(s, p, leg.slot) == e.value.direction as real)
  {
    CloseToItself(leg.amount);
    hide ExposureAt;
  }

  // Opened at 0, closed at 20.
  function Round(intent: int, direction: int): seq<Transition> {
    [Transition(0, intent, 1.0, direction, "entry=E|"), Transition(20, intent + 1, 0.0, direction, "entry=E|")]
  }

  // The stop at 5 that was not yet known.
  function LateStop(name: string, intent: int): Stop {
    Stop(name, intent, 5, "E", 1.0, 0.0, true)
  }

  function Halted(intent: int, direction: int, stop: int): seq<Transition> {
    [Round(intent, direction)[0], Transition(5, stop, 0.0, direction, "entry=E|"), Round(intent, direction)[1]]
  }

  lemma RoundRepaired(s: State, name: string, intent: int, direction: int, stop: int)
    requires name in s && s[name].timeline == Round(intent, direction) && stop != intent && stop != intent + 1
    ensures RepairOne(s, LateStop(name, stop)).Success?
    ensures RepairOne(s, LateStop(name, stop)).value.0
         == s[name := s[name].(timeline := Halted(intent, direction, stop))]
  {
    var t, added := s[name].timeline, Transition(5, stop, 0.0, direction, "entry=E|");
    assert !Knows(t, stop);
    assert t[..1] == [t[0]];
    assert ExposureAt(t, 5) == Some(t[0]);
    assert StartsWith("entry=E|", "entry=" + "E" + "|");
    SortsBetween(t[0], added, t[1]);
    assert t + [added] == [t[0], t[1], added];
  }

  lemma SortsBetween(a: Transition, b: Transition, c: Transition)
    requires a.at < b.at < c.at
    ensures SortTimeline([a, c, b]) == [a, b, c]
  {
    assert [a, c, b][..2] == [a, c] && [a, c][..1] == [a] && [a][..0] == [];
    assert SortTimeline([a]) == Insert(a, SortTimeline([]));
    assert SortTimeline([a, c]) == Insert(c, [a]) == [a, c];
    assert Insert(b, [a, c]) == Insert(b, [a]) + [c];
  }

  lemma ExposuresOfRound(intent: int, direction: int, stop: int)
    ensures ExposureAt(Round(intent, direction), 10) == Some(Round(intent, direction)[0])
    ensures ExposureAt(Halted(intent, direction, stop), 10) == Some(Halted(intent, direction, stop)[1])
    ensures ExposureAt([], 10) == None
  {
    var r, h := Round(intent, direction), Halted(intent, direction, stop);
    assert r[..1] == [r[0]] && h[..2] == [h[0], h[1]];
  }

  function RoundSlots(): State {
    map["A" := Slot(0.0, Round(0, 1), true), "B" := Slot(0.0, Round(2, -1), true), "C" := Slot(0.0, [], true)]
  }

  function ThreeLegs(): Payment {
    Payment(TREND, 10, 1.0, Some(1.0), 1.0, [Leg("A", 1.0, 1, 1.0), Leg("B", 1.0, -1, -1.0), Leg("C", 1.0, 1, 1.0)])
  }

  function LateStops(): seq<Stop> {
    [LateStop("A", 4), LateStop("B", 5)]
  }

  function HaltedSlots(): State {
    map["A" := Slot(0.0, Halted(0, 1, 4), true), "B" := Slot(0.0, Halted(2, -1, 5), true), "C" := Slot(0.0, [], true)]
  }

  lemma LateStopsRepair()
    ensures |LateStops()| == 2 && Repair(RoundSlots(), LateStops(), 2).Success?
    ensures Repair(RoundSlots(), LateStops(), 2).value.0 == HaltedSlots()
  {
    var s, late := RoundSlots(), LateStops();
    RoundRepaired(s, "A", 0, 1, 4);
    var mid := RepairOne(s, late[0]).value.0;
    RoundRepaired(mid, "B", 2, -1, 5);
    assert RepairOne(mid, late[1]).value.0 == HaltedSlots();
    hide RepairOne;
    assert Repair(s, late, 0) == Success((s, []));
    assert Repair(s, late, 1).Success? && Repair(s, late, 1).value.0 == mid;
  }

  lemma LegsBefore()
    ensures OffBy(RoundSlots(), ThreeLegs(), 0.0, 0.0, 1.0)
  {
    var s, p := RoundSlots(), ThreeLegs();
    ExposuresOfRound(0, 1, 4);
    ExposuresOfRound(2, -1, 5);
    UnitLeg(s, p, p.legs[0]);
    UnitLeg(s, p, p.legs[1]);
    UnitLeg(s, p, p.legs[2]);
    hide LegFault, ExpectedAmount, ExposureAt;
  }

  lemma LegsNow()
    ensures OffBy(HaltedSlots(), ThreeLegs(), 1.0, -1.0, 1.0)
  {
    var s, p := HaltedSlots(), ThreeLegs();
    ExposuresOfRound(0, 1, 4);
    ExposuresOfRound(2, -1, 5);
    UnitLeg(s, p, p.legs[0]);
    UnitLeg(s, p, p.legs[1]);
    UnitLeg(s, p, p.legs[2]);
    hide LegFault, ExpectedAmount, ExposureAt;
  }

  lemma RecordedTotalPasses(s: State, ledger: map<string, real>, p: Payment)
    requires StartsWith(p.key, TREND) && p.key in ledger && ledger[p.key] == p.total && PREFIX + p.key in ledger
    requires Corrections(s, p, |p.legs|).Success? && ledger[PREFIX + p.key] == Total(Corrections(s, p, |p.legs|).value)
    ensures AdjustOne(s, ledger, p) == Success([])
  {
    CloseToItself(p.total);
    CloseToItself(ledger[PREFIX + p.key]);
    hide IsClose, Corrections, Total;
  }

  lemma RoundsAreAccepted()
    ensures var s := RoundSlots();
            EndsFlat(s) && forall name | name in s :: s[name].flat && InOrder(s[name].timeline)
    ensures EndsFlat(HaltedSlots())
  {
  }

  // What a slot was charged, less what it was given, less what it owes.
  ghost function StillOwed(now: State, p: Payment, leg: Leg, given: seq<Correction>): real
    requires leg.slot in now
  {
    leg.amount - DeltaOf(given, leg.slot) - Owes(now, p, leg.slot)
  }

  // Off by 0, 0 and 1 when the correction was recorded, by 1, -1 and 1 now.
  lemma SameTotalPasses(before: State, now: State, ledger: map<string, real>, p: Payment)
    requires OffBy(before, p, 0.0, 0.0, 1.0) && OffBy(now, p, 1.0, -1.0, 1.0) && DistinctSlots(p.legs)
    requires StartsWith(p.key, TREND) && p.key in ledger && ledger[p.key] == p.total
    requires PREFIX + p.key in ledger && ledger[PREFIX + p.key] == 1.0
    ensures Corrections(before, p, 3).Success? && ledger[PREFIX + p.key] == Total(Corrections(before, p, 3).value)
    ensures AdjustOne(now, ledger, p) == Success([])
    ensures var given := Corrections(before, p, 3).value;
            && StillOwed(now, p, p.legs[0], given) == 1.0
            && StillOwed(now, p, p.legs[1], given) == -1.0
  {
    TotalOfThree(before, p, 0.0, 0.0, 1.0);
    TotalOfThree(now, p, 1.0, -1.0, 1.0);
    FirstTwoOfThree(before, p, 0.0, 0.0, 1.0);
    FirstTwoOfThree(now, p, 1.0, -1.0, 1.0);
    hide AdjustOne, LegFault, LegDelta, Owes, Corrections, Total, DeltaOf, StartsWith;
    RecordedTotalPasses(now, ledger, p);
  }

  // A correction recorded as the inspection of `before` gave it; with late stops the next inspection
  // is content, although one slot should have 1.0 back and another should pay it.
  ghost predicate WrongSlotPasses(before: State, late: seq<Stop>, ledger: map<string, real>, p: Payment) {
    && EndsFlat(before) && (forall name | name in before :: before[name].flat && InOrder(before[name].timeline))
    && DistinctSlots(p.legs) && |p.legs| == 3 && Corrections(before, p, 3).Success?
    && StartsWith(p.key, TREND) && PREFIX + p.key in ledger
    && var given := Corrections(before, p, 3).value;
    && ledger[PREFIX + p.key] == Total(given)
    && Repair(before, late, |late|).Success?
    && var now := Repair(before, late, |late|).value.0;
    && EndsFlat(now) && AdjustOne(now, ledger, p) == Success([])
    && p.legs[0].slot in now && StillOwed(now, p, p.legs[0], given) == 1.0
    && p.legs[1].slot in now && StillOwed(now, p, p.legs[1], given) == -1.0
  }

  lemma MistakeHides(before: State, now: State, late: seq<Stop>, ledger: map<string, real>, p: Payment)
    requires EndsFlat(before) && (forall name | name in before :: before[name].flat && InOrder(before[name].timeline))
    requires Repair(before, late, |late|).Success? && Repair(before, late, |late|).value.0 == now && EndsFlat(now)
    requires OffBy(before, p, 0.0, 0.0, 1.0) && OffBy(now, p, 1.0, -1.0, 1.0) && DistinctSlots(p.legs)
    requires StartsWith(p.key, TREND) && p.key in ledger && ledger[p.key] == p.total
    requires PREFIX + p.key in ledger && ledger[PREFIX + p.key] == 1.0
    ensures WrongSlotPasses(before, late, ledger, p)
  {
    SameTotalPasses(before, now, ledger, p);
    hide EndsFlat, InOrder, Repair, AdjustOne, LegFault, LegDelta, Owes, Corrections, Total, DeltaOf,
         StartsWith, DistinctSlots;
  }

  lemma ThreeLegsAre()
    ensures var p := ThreeLegs();
            StartsWith(p.key, TREND) && p.key == TREND && p.total == 1.0 && DistinctSlots(p.legs)
  {
  }

  // A was long and B short, so the correction of the payment was 1.0, all for C.  Late stops then
  // show that A and B had been flat: A should have had 1.0 back and B should have paid it.  Those
  // two cancel in the total, and the next inspection plans nothing.
  lemma TotalHidesSlots() returns (before: State, late: seq<Stop>, ledger: map<string, real>, p: Payment)
    ensures WrongSlotPasses(before, late, ledger, p)
  {
    hide *;
    before, p, late := RoundSlots(), ThreeLegs(), LateStops();
    ledger := map[TREND := 1.0, PREFIX + TREND := 1.0];
    ThreeLegsAre();
    PrefixLengthens(TREND);
    RoundsAreAccepted();
    LateStopsRepair();
    LegsBefore();
    LegsNow();
    MistakeHides(before, HaltedSlots(), late, ledger, p);
  }
}
