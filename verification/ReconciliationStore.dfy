/** The durable store and the two procedures that inspect and correct it. */
module ReconciliationStore {
  import opened Prelude
  import opened Reconciliation
  import opened ReconciliationProofs

  datatype ApplyResult = Done | Changed | AlreadyRecorded | Interrupted

  class TrendStore {
    var clear: bool
    var state: State
    var ledger: map<string, real>
    var stops: seq<Stop>
    var events: seq<Payment>

    constructor (db: Db)
      ensures View() == db
    {
      clear, state, ledger, stops, events := db.clear, db.state, db.ledger, db.stops, db.events;
    }

    function View(): Db
      reads this
    {
      Db(clear, state, ledger, stops, events)
    }

    // Rebuild the timelines stop by stop, then look at each payment.  Reads only.
    method Inspect() returns (r: Result<Plan, PlanError>)
      ensures r == BuildPlan(View())
    {
      if !clear || exists name :: name in state && !state[name].flat {
        return Failure(NotQuiet);
      }
      var repaired := RepairTimelines();
      if repaired.Failure? {
        return Failure(repaired.error);
      }
      var (after, evidence) := repaired.value;
      if !EndsFlat(after) {
        return Failure(NotFlat);
      }
      var adjustments := FindAdjustments(after);
      if adjustments.Failure? {
        return Failure(adjustments.error);
      }
      r := Success(Plan(state, after, evidence, adjustments.value));
    }

    method RepairTimelines() returns (r: Result<(State, seq<Transition>), PlanError>)
      ensures r == Repair(state, stops, |stops|)
    {
      var after, evidence: seq<Transition> := state, [];
      for i := 0 to |stops|
        invariant Repair(state, stops, i) == Success((after, evidence))
      {
        var one := RepairOne(after, stops[i]);
        if one.Failure? {
          RepairFails(state, stops, i + 1, |stops|);
          return Failure(one.error);
        }
        after, evidence := one.value.0, evidence + one.value.1;
      }
      r := Success((after, evidence));
    }

    method FindAdjustments(after: State) returns (r: Result<seq<Adjustment>, PlanError>)
      ensures r == Adjust(after, ledger, events, |events|)
    {
      var found: seq<Adjustment> := [];
      for i := 0 to |events|
        invariant Adjust(after, ledger, events, i) == Success(found)
      {
        var one := AdjustPayment(after, events[i]);
        if one.Failure? {
          AdjustFails(after, ledger, events, i + 1, |events|);
          return Failure(one.error);
        }
        found := found + one.value;
      }
      r := Success(found);
    }

    method AdjustPayment(after: State, p: Payment) returns (r: Result<seq<Adjustment>, PlanError>)
      ensures r == AdjustOne(after, ledger, p)
    {
      if !StartsWith(p.key, TREND) {
        return Success([]);
      }
      if p.key !in ledger {
        return Failure(MissingLedger);
      }
      if !IsClose(ledger[p.key], p.total, EXACT) {
        return Failure(LedgerMismatch);
      }
      var amounts: seq<Correction> := [];
      for i := 0 to |p.legs|
        invariant Corrections(after, p, i) == Success(amounts)
      {
        var leg := p.legs[i];
        var fault := LegFault(after, p, leg);
        if fault.Some? {
          CorrectionsFail(after, p, i + 1, |p.legs|);
          return Failure(fault.value);
        }
        var delta := LegDelta(after, p, leg);
        if AbsR(delta) > EXACT {
          amounts := amounts + [Correction(leg.slot, delta)];
        }
      }
      if amounts == [] {
        return Success([]);
      }
      var key := PREFIX + p.key;
      if key in ledger {
        if !IsClose(ledger[key], Total(amounts), EXACT) {
          return Failure(CorrectionMismatch);
        }
        return Success([]);
      }
      r := Success([Adjustment(p.key, key, amounts, Total(amounts))]);
    }

    // One transaction: ledger row, checkpoint and event together, or nothing when the key is known.
    method ApplyEventAndCheckpoint(a: Adjustment, checkpoint: State) returns (applied: bool)
      modifies this
      ensures applied <==> a.key !in old(ledger)
      ensures applied ==>
                View() == old(View()).(state := checkpoint, ledger := old(ledger)[a.key := a.total],
                                       events := old(events) + [CorrectionEvent(a)])
      ensures !applied ==> View() == old(View())
    {
      applied := a.key !in ledger;
      if applied {
        ledger, state, events := ledger[a.key := a.total], checkpoint, events + [CorrectionEvent(a)];
      }
    }

    // Adjustment i of a plan whose earlier writes are done: the checkpoint is paid forward and
    // stored in one transaction, unless the key is already recorded.
    method ApplyAdjustment(ghost before: Db, p: Plan, i: nat, checkpoint: State) returns (applied: bool, next: State)
      requires i < |p.adjustments| && View() == AfterWrites(before, p, WritesBefore(p) + i)
      requires checkpoint == PayPlan(p.after, p.adjustments[..i])
      modifies this
      ensures applied ==> View() == AfterWrites(before, p, WritesBefore(p) + i + 1)
      ensures applied ==> next == PayPlan(p.after, p.adjustments[..i + 1])
      ensures !applied ==> View() == old(View()) && !FreshKeys(p.adjustments, before.ledger)
    {
      hide FreshKeys, PayPlan, PayAll, AfterWrites;
      OneMoreWrite(before, p, i);
      next := PayCorrections(checkpoint, p.adjustments[i].amounts);
      applied := ApplyEventAndCheckpoint(p.adjustments[i], next);
      if !applied {
        AlreadyThere(before, p, i);
      }
    }

    // The adjustments one by one, until the budget is spent or a key is already recorded.
    method ApplyAdjustments(ghost before: Db, p: Plan, budget: nat) returns (r: ApplyResult, written: nat)
      requires View() == AfterWrites(before, p, WritesBefore(p)) && WritesBefore(p) <= budget
      modifies this
      ensures written <= Writes(p) && View() == AfterWrites(before, p, written)
      ensures FreshKeys(p.adjustments, before.ledger) ==>
                written == MinInt(budget, Writes(p)) && r == if budget < Writes(p) then Interrupted else Done
    {
      hide FreshKeys, PayPlan, AfterWrites;
      NothingWritten(before, p);
      written := WritesBefore(p);
      var working := p.after;
      for i := 0 to |p.adjustments|
        invariant written == WritesBefore(p) + i <= budget
        invariant View() == AfterWrites(before, p, written)
        invariant working == PayPlan(p.after, p.adjustments[..i])
      {
        if written == budget {
          return Interrupted, written;
        }
        var applied;
        applied, working := ApplyAdjustment(before, p, i, working);
        if !applied {
          return AlreadyRecorded, written;
        }
        written := written + 1;
      }
      r := Done;
    }

    // Carries out a plan, or as many of its writes as `budget` allows before a crash.  It stops
    // early only at a key that is already recorded.
    method ApplyPlan(p: Plan, budget: nat) returns (r: ApplyResult, written: nat)
      modifies this
      ensures old(state) != p.before ==> r == Changed && written == 0 && View() == old(View())
      ensures written <= Writes(p) && View() == AfterWrites(old(View()), p, written)
      ensures old(state) == p.before && FreshKeys(p.adjustments, old(ledger)) ==>
                written == MinInt(budget, Writes(p)) && r == if budget < Writes(p) then Interrupted else Done
    {
      hide FreshKeys, AfterWrites;
      ghost var before := View();
      NothingWritten(before, p);
      if state != p.before {
        return Changed, 0;
      }
      if p.evidence != [] {
        if budget == 0 {
          return Interrupted, 0;
        }
        state := p.after;
      }
      r, written := ApplyAdjustments(before, p, budget);
    }
  }

  lemma NothingWritten(db: Db, p: Plan)
    ensures AfterWrites(db, p, 0) == db && PayPlan(p.after, p.adjustments[..0]) == p.after
    ensures p.evidence != [] ==> AfterWrites(db, p, 1) == db.(state := p.after)
  {
  }

  // The transaction of adjustment i is one more write.
  lemma OneMoreWrite(db: Db, p: Plan, i: nat)
    requires i < |p.adjustments|
    ensures var m, a := WritesBefore(p) + i, p.adjustments[i];
            var now, next := AfterWrites(db, p, m), PayAll(PayPlan(p.after, p.adjustments[..i]), a.amounts);
            && PayPlan(p.after, p.adjustments[..i + 1]) == next
            && AfterWrites(db, p, m + 1)
               == now.(state := next, ledger := now.ledger[a.key := a.total],
                       events := now.events + [CorrectionEvent(a)])
  {
    OneMore(p.after, db, p.adjustments, i);
    hide PayAll, PayPlan, LedgerWith, EventsWith;
    LedgerNow(db, p, i);
  }

  lemma OneMore(s: State, db: Db, a: seq<Adjustment>, i: nat)
    requires i < |a|
    ensures PayPlan(s, a[..i + 1]) == PayAll(PayPlan(s, a[..i]), a[i].amounts)
    ensures LedgerWith(db.ledger, a[..i + 1]) == LedgerWith(db.ledger, a[..i])[a[i].key := a[i].total]
    ensures EventsWith(db.events, a[..i + 1]) == EventsWith(db.events, a[..i]) + [CorrectionEvent(a[i])]
  {
    assert a[..i + 1][..i] == a[..i];
  }

  lemma LedgerNow(db: Db, p: Plan, i: nat)
    requires i <= |p.adjustments|
    ensures var now := AfterWrites(db, p, WritesBefore(p) + i);
            now.ledger == LedgerWith(db.ledger, p.adjustments[..i])
            && now.events == EventsWith(db.events, p.adjustments[..i])
  {
    hide PayPlan;
    assert i == 0 ==> p.adjustments[..i] == [];
  }

  method PayCorrections(s: State, c: seq<Correction>) returns (r: State)
    ensures r == PayAll(s, c)
  {
    r := s;
    for i := 0 to |c|
      invariant r == PayAll(s, c[..i])
    {
      assert c[..i + 1][..i] == c[..i];
      if c[i].slot in r {
        r := r[c[i].slot := r[c[i].slot].(cash := r[c[i].slot].cash + c[i].delta)];
      }
    }
    assert c[..|c|] == c;
  }

  lemma {:induction false} RepairFails(s: State, stops: seq<Stop>, n: nat, m: nat)
    requires n <= m <= |stops| && Repair(s, stops, n).Failure?
    ensures Repair(s, stops, m) == Failure(Repair(s, stops, n).error)
  {
    if n < m {
      RepairFails(s, stops, n, m - 1);
    }
  }

  lemma {:induction false} AdjustFails(s: State, ledger: map<string, real>, events: seq<Payment>, n: nat, m: nat)
    requires n <= m <= |events| && Adjust(s, ledger, events, n).Failure?
    ensures Adjust(s, ledger, events, m) == Failure(Adjust(s, ledger, events, n).error)
  {
    if n < m {
      AdjustFails(s, ledger, events, n, m - 1);
    }
  }

  lemma {:induction false} CorrectionsFail(s: State, p: Payment, n: nat, m: nat)
    requires n <= m <= |p.legs| && Corrections(s, p, n).Failure?
    ensures Corrections(s, p, m) == Failure(Corrections(s, p, n).error)
  {
    if n < m {
      CorrectionsFail(s, p, n, m - 1);
    }
  }

  lemma AlreadyThere(db: Db, p: Plan, i: nat)
    requires i < |p.adjustments|
    requires p.adjustments[i].key in AfterWrites(db, p, WritesBefore(p) + i).ledger
    ensures !FreshKeys(p.adjustments, db.ledger)
  {
    if FreshKeys(p.adjustments, db.ledger) {
      FreshTake(p.adjustments, db.ledger, i);
      LedgerNow(db, p, i);
      LedgerWithHolds(db.ledger, p.adjustments[..i]);
    }
  }

  // The command: inspect, apply, inspect again.  Whatever the budget, the store is left at a
  // point of the uninterrupted run; with enough of it, nothing remains to be done.
  method Reconcile(store: TrendStore, budget: nat) returns (r: ApplyResult)
    requires DistinctPayments(store.events)
    modifies store
    ensures BuildPlan(old(store.View())).Failure? ==> store.View() == old(store.View())
    ensures BuildPlan(old(store.View())).Success? ==>
              store.View() == Attempt(old(store.View()), budget)
              && (r == Done ==> BuildPlan(store.View()).Success?
                                && BuildPlan(store.View()).value.adjustments == []
                                && BuildPlan(store.View()).value.evidence == [])
  {
    ghost var db := store.View();
    var plan := store.Inspect();
    if plan.Failure? {
      return Changed;
    }
    PlanIsFresh(db, plan.value);
    var written;
    r, written := store.ApplyPlan(plan.value, budget);
    PlanAfterWrites(db, plan.value, written);
  }

  lemma PlanIsFresh(db: Db, p: Plan)
    requires BuildPlan(db) == Success(p) && DistinctPayments(db.events)
    ensures p.before == db.state && FreshKeys(p.adjustments, db.ledger)
  {
    AdjustmentsAreFresh(p.after, db.ledger, db.events, |db.events|);
  }
}
