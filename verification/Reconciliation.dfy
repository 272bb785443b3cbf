/**
 * Funding reconciliation after observed stops: the plan rebuilt from durable events, and what
 * it corrects.  Times are integers, intent identifiers integers in the order of their strings.
 */
module Reconciliation {
  import opened Prelude

  datatype Transition = Transition(at: int, intent: int, qty: real, direction: int, generation: string)

  // A slot of the engine checkpoint; flat means no open position.
  datatype Slot = Slot(cash: real, timeline: seq<Transition>, flat: bool)

  type State = map<string, Slot>

  // An observed stop joined with its closing trade and the checkpoint stored with it.
  datatype Stop = Stop(slot: string, intent: int, exitAt: int, entryStamp: string, filled: real, remaining: real,
                       intact: bool)

  datatype Leg = Leg(slot: string, qty: real, direction: int, amount: real)

  // A funding_payment event.
  datatype Payment = Payment(key: string, at: int, rate: real, reference: Option<real>, total: real, legs: seq<Leg>)

  // The durable state: checkpoint, funding ledger by event key, events.
  datatype Db = Db(clear: bool, state: State, ledger: map<string, real>, stops: seq<Stop>, events: seq<Payment>)

  datatype Correction = Correction(slot: string, delta: real)

  datatype Adjustment = Adjustment(original: string, key: string, amounts: seq<Correction>, total: real)

  datatype Plan = Plan(before: State, after: State, evidence: seq<Transition>, adjustments: seq<Adjustment>)

  datatype PlanError = NotQuiet | HashMismatch | UnknownSlot | NoExposure | QuantityMismatch | GenerationMismatch
                     | NotFlat | MissingLedger | LedgerMismatch | Unreproducible | MissingReference | CorrectionMismatch

  const PREFIX: string := "trend-stop-repair-v1|"
  const TREND: string := "trend|"
  const EXACT: real := 0.000000000001        // 1e-12
  const QTY_TOLERANCE: real := 0.000000001   // 1e-9

  // math.isclose with its default relative tolerance of 1e-9.
  predicate IsClose(a: real, b: real, tolerance: real) {
    var m := if AbsR(a) < AbsR(b) then AbsR(b) else AbsR(a);
    AbsR(a - b) <= 0.000000001 * m || AbsR(a - b) <= tolerance
  }

  lemma {:induction false} CloseExactly(a: real, b: real, tolerance: real)
    ensures IsClose(a, b, tolerance) <==>
              || -tolerance <= a - b <= tolerance
              || AbsR(a - b) <= AbsR(a) / 1_000_000_000.0 || AbsR(a - b) <= AbsR(b) / 1_000_000_000.0
  {
    assert AbsR(a) / 1_000_000_000.0 == 0.000000001 * AbsR(a) && AbsR(b) / 1_000_000_000.0 == 0.000000001 * AbsR(b);
  }

  predicate StartsWith(s: string, prefix: string) {
    |prefix| <= |s| && s[..|prefix|] == prefix
  }

  // ---- timelines ----

  predicate AtMost(a: Transition, b: Transition) {
    a.at < b.at || (a.at == b.at && a.intent <= b.intent)
  }

  predicate InOrder(t: seq<Transition>) {
    forall i, j | 0 <= i < j < |t| :: AtMost(t[i], t[j])
  }

  function Insert(x: Transition, t: seq<Transition>): seq<Transition> {
    if t == [] then [x]
    else if AtMost(t[|t| - 1], x) then t + [x]
    else Insert(x, t[..|t| - 1]) + [t[|t| - 1]]
  }

  function SortTimeline(t: seq<Transition>): seq<Transition> {
    if t == [] then [] else Insert(t[|t| - 1], SortTimeline(t[..|t| - 1]))
  }

  // The loop of exposure_at: the last listed transition not after the point.
  function ExposureAt(t: seq<Transition>, point: int): Option<Transition> {
    if t == [] then None
    else if t[|t| - 1].at <= point then Some(t[|t| - 1])
    else ExposureAt(t[..|t| - 1], point)
  }

  lemma {:induction false} InsertKeeps(x: Transition, t: seq<Transition>)
    ensures multiset(Insert(x, t)) == multiset(t) + multiset{x}
  {
    if t != [] && !AtMost(t[|t| - 1], x) {
      InsertKeeps(x, t[..|t| - 1]);
      LastApart(t);
    }
  }

  lemma {:induction false} InsertSorts(x: Transition, t: seq<Transition>)
    requires InOrder(t)
    ensures InOrder(Insert(x, t))
  {
    if t != [] && !AtMost(t[|t| - 1], x) {
      var init, last := t[..|t| - 1], t[|t| - 1];
      InsertSorts(x, init);
      InsertKeeps(x, init);
      forall i | 0 <= i < |Insert(x, init)|
        ensures AtMost(Insert(x, init)[i], last)
      {
        assert Insert(x, init)[i] in multiset(Insert(x, init));
      }
    } else if t != [] {
      forall i | 0 <= i < |t|
        ensures AtMost(t[i], x)
      {
        assert i < |t| - 1 ==> AtMost(t[i], t[|t| - 1]);
      }
    }
  }

  lemma LastApart<T>(s: seq<T>)
    requires s != []
    ensures multiset(s) == multiset(s[..|s| - 1]) + multiset{s[|s| - 1]}
  {
    assert s == s[..|s| - 1] + [s[|s| - 1]];
  }

  // Sorting keeps every transition as often as it was there.
  lemma {:induction false} SortTimelineKeeps(t: seq<Transition>)
    ensures multiset(SortTimeline(t)) == multiset(t)
  {
    if t != [] {
      var init, last := t[..|t| - 1], t[|t| - 1];
      SortTimelineKeeps(init);
      InsertKeeps(last, SortTimeline(init));
      LastApart(t);
    }
  }

  lemma {:induction false} SortTimelineSorts(t: seq<Transition>)
    ensures InOrder(SortTimeline(t)) && multiset(SortTimeline(t)) == multiset(t)
  {
    SortTimelineKeeps(t);
    if t != [] {
      SortTimelineSorts(t[..|t| - 1]);
      InsertSorts(t[|t| - 1], SortTimeline(t[..|t| - 1]));
    }
  }

  lemma SameMembers<T>(a: seq<T>, b: seq<T>)
    requires multiset(a) == multiset(b)
    ensures forall y :: y in a <==> y in b
  {
    forall y
      ensures y in a <==> y in b
    {
      assert y in a <==> y in multiset(a);
    }
  }

  // On an ordered timeline the exposure is the latest transition at or before the point.
  lemma {:induction false} ExposureIsLatest(t: seq<Transition>, point: int)
    requires InOrder(t)
    ensures ExposureAt(t, point).None? <==> forall y | y in t :: y.at > point
    ensures ExposureAt(t, point).Some? ==>
              var r := ExposureAt(t, point).value;
              r in t && r.at <= point && forall y | y in t && y.at <= point :: AtMost(y, r)
  {
    if t != [] {
      assert t == t[..|t| - 1] + [t[|t| - 1]];
      ExposureIsLatest(t[..|t| - 1], point);
    }
  }

  // Transition i is in force at the point: it has taken effect, and none listed after it has.
  predicate InForce(t: seq<Transition>, i: int, point: int) {
    0 <= i < |t| && t[i].at <= point && forall j | i < j < |t| :: t[j].at > point
  }

  function Signed(qty: real, direction: int): real {
    qty * direction as real
  }

  // The signed quantity a timeline holds at the point, nothing before its first transition.
  ghost function SignedAt(t: seq<Transition>, point: int): (q: real)
    ensures forall i | InForce(t, i, point) :: q == t[i].qty * t[i].direction as real
    ensures (forall i | 0 <= i < |t| :: t[i].at > point) ==> q == 0.0
  {
    if exists i :: InForce(t, i, point) then
      var i :| InForce(t, i, point);
      Signed(t[i].qty, t[i].direction)
    else
      0.0
  }

  // On every timeline the exposure is the transition in force, and there is one unless all are later.
  lemma {:induction false} ExposureIsInForce(t: seq<Transition>, point: int)
    ensures ExposureAt(t, point).None? <==> forall i | 0 <= i < |t| :: t[i].at > point
    ensures ExposureAt(t, point).Some? ==> exists i :: InForce(t, i, point) && t[i] == ExposureAt(t, point).value
  {
    if t != [] {
      var init, last := t[..|t| - 1], |t| - 1;
      if t[last].at <= point {
        assert InForce(t, last, point);
      } else {
        ExposureIsInForce(init, point);
        assert ExposureAt(t, point) == ExposureAt(init, point);
        assert forall i | 0 <= i < last :: init[i] == t[i];
        hide ExposureAt;
        if i :| InForce(init, i, point) && init[i] == ExposureAt(init, point).value {
          assert InForce(t, i, point);
        }
      }
    }
  }

  // ---- rebuilding the timelines ----

  predicate Knows(t: seq<Transition>, intent: int) {
    exists i :: 0 <= i < |t| && t[i].intent == intent
  }

  function StopTransition(stop: Stop, previous: Transition): Transition {
    Transition(stop.exitAt, stop.intent, stop.remaining, previous.direction, previous.generation)
  }

  // One observed stop: nothing when its intent is already on the timeline.
  function RepairOne(s: State, stop: Stop): Result<(State, seq<Transition>), PlanError> {
    if !stop.intact then Failure(HashMismatch)
    else if stop.slot !in s then Failure(UnknownSlot)
    else
      var t := s[stop.slot].timeline;
      if Knows(t, stop.intent) then Success((s, []))
      else
        var previous := ExposureAt(t, stop.exitAt);
        if previous.None? || previous.value.qty == 0.0 then Failure(NoExposure)
        else if !IsClose(previous.value.qty - stop.filled, stop.remaining, QTY_TOLERANCE) then Failure(QuantityMismatch)
        else if !StartsWith(previous.value.generation, "entry=" + stop.entryStamp + "|") then
          Failure(GenerationMismatch)
        else
          var added := StopTransition(stop, previous.value);
          Success((s[stop.slot := s[stop.slot].(timeline := SortTimeline(t + [added]))], [added]))
  }

  function Repair(s: State, stops: seq<Stop>, n: nat): Result<(State, seq<Transition>), PlanError>
    requires n <= |stops|
  {
    if n == 0 then Success((s, []))
    else
      match Repair(s, stops, n - 1)
      case Failure(e) => Failure(e)
      case Success(r) =>
        match RepairOne(r.0, stops[n - 1])
        case Failure(e) => Failure(e)
        case Success(q) => Success((q.0, r.1 + q.1))
  }

  // Every slot ends flat on its repaired timeline.
  predicate EndsFlat(s: State) {
    forall name | name in s :: s[name].timeline != [] ==> s[name].timeline[|s[name].timeline| - 1].qty == 0.0
  }

  // ---- what each payment should have been ----

  function FundingOn(signed: real, price: real, rate: real): real {
    signed * price * rate
  }

  function ExpectedAmount(s: State, p: Payment, slot: string): real
    requires slot in s
  {
    var e := ExposureAt(s[slot].timeline, p.at);
    if e.None? || e.value.qty == 0.0 || p.reference.None? then 0.0
    else FundingOn(Signed(e.value.qty, e.value.direction), p.reference.value, p.rate)
  }

  predicate NeedsReference(s: State, p: Payment, slot: string)
    requires slot in s
  {
    var e := ExposureAt(s[slot].timeline, p.at);
    e.Some? && e.value.qty != 0.0
  }

  function LegFault(s: State, p: Payment, leg: Leg): Option<PlanError> {
    if leg.slot !in s then Some(UnknownSlot)
    else if leg.qty != 0.0
         && (p.reference.None?
             || !IsClose(leg.amount, FundingOn(Signed(leg.qty, leg.direction), p.reference.value, p.rate), EXACT)) then
      Some(Unreproducible)
    else if NeedsReference(s, p, leg.slot) && p.reference.None? then Some(MissingReference)
    else None
  }

  function LegDelta(s: State, p: Payment, leg: Leg): real
    requires leg.slot in s
  {
    leg.amount - ExpectedAmount(s, p, leg.slot)
  }

  // The correction of the first n legs; differences up to 1e-12 are left alone.
  function Corrections(s: State, p: Payment, n: nat): Result<seq<Correction>, PlanError>
    requires n <= |p.legs|
  {
    if n == 0 then Success([])
    else
      match Corrections(s, p, n - 1)
      case Failure(e) => Failure(e)
      case Success(c) =>
        var leg := p.legs[n - 1];
        if LegFault(s, p, leg).Some? then Failure(LegFault(s, p, leg).value)
        else if AbsR(LegDelta(s, p, leg)) > EXACT then Success(c + [Correction(leg.slot, LegDelta(s, p, leg))])
        else Success(c)
  }

  function Total(c: seq<Correction>): real {
    if c == [] then 0.0 else Total(c[..|c| - 1]) + c[|c| - 1].delta
  }

  // One event: nothing for events of other kinds, for exact payments and for those corrected before.
  function AdjustOne(s: State, ledger: map<string, real>, p: Payment): Result<seq<Adjustment>, PlanError> {
    if !StartsWith(p.key, TREND) then Success([])
    else if p.key !in ledger then Failure(MissingLedger)
    else if !IsClose(ledger[p.key], p.total, EXACT) then Failure(LedgerMismatch)
    else
      match Corrections(s, p, |p.legs|)
      case Failure(e) => Failure(e)
      case Success(c) =>
        var key := PREFIX + p.key;
        if c == [] then Success([])
        else if key in ledger then
          if IsClose(ledger[key], Total(c), EXACT) then Success([]) else Failure(CorrectionMismatch)
        else Success([Adjustment(p.key, key, c, Total(c))])
  }

  function Adjust(s: State, ledger: map<string, real>, events: seq<Payment>, n: nat): Result<seq<Adjustment>, PlanError>
    requires n <= |events|
  {
    if n == 0 then Success([])
    else
      match Adjust(s, ledger, events, n - 1)
      case Failure(e) => Failure(e)
      case Success(a) =>
        match AdjustOne(s, ledger, events[n - 1])
        case Failure(e) => Failure(e)
        case Success(b) => Success(a + b)
  }

  function BuildPlan(db: Db): Result<Plan, PlanError> {
    if !db.clear || exists name :: name in db.state && !db.state[name].flat then Failure(NotQuiet)
    else
      match Repair(db.state, db.stops, |db.stops|)
      case Failure(e) => Failure(e)
      case Success(r) =>
        if !EndsFlat(r.0) then Failure(NotFlat)
        else
          match Adjust(r.0, db.ledger, db.events, |db.events|)
          case Failure(e) => Failure(e)
          case Success(a) => Success(Plan(db.state, r.0, r.1, a))
  }

  // ---- applying a plan, write by write ----

  function PayAll(s: State, c: seq<Correction>): State {
    if c == [] then s
    else
      var t, last := PayAll(s, c[..|c| - 1]), c[|c| - 1];
      if last.slot in t then t[last.slot := t[last.slot].(cash := t[last.slot].cash + last.delta)] else t
  }

  function PayPlan(s: State, a: seq<Adjustment>): State {
    if a == [] then s else PayAll(PayPlan(s, a[..|a| - 1]), a[|a| - 1].amounts)
  }

  function LedgerWith(ledger: map<string, real>, a: seq<Adjustment>): map<string, real> {
    if a == [] then ledger else LedgerWith(ledger, a[..|a| - 1])[a[|a| - 1].key := a[|a| - 1].total]
  }

  // The event stored beside a correction carries the correction's own key.
  function CorrectionEvent(a: Adjustment): Payment {
    Payment(a.key, 0, 0.0, None, a.total, [])
  }

  function EventsWith(events: seq<Payment>, a: seq<Adjustment>): seq<Payment> {
    if a == [] then events else EventsWith(events, a[..|a| - 1]) + [CorrectionEvent(a[|a| - 1])]
  }

  // The rebuilt timelines, if there are any, are stored ahead of the adjustments.
  function WritesBefore(p: Plan): nat {
    if p.evidence == [] then 0 else 1
  }

  function Writes(p: Plan): nat {
    WritesBefore(p) + |p.adjustments|
  }

  // The durable state after the first m writes of a plan: the rebuilt timelines if there were
  // any, then per adjustment one transaction of ledger row, checkpoint and event.
  function AfterWrites(db: Db, p: Plan, m: nat): Db
    requires m <= Writes(p)
  {
    if m == 0 then db
    else
      var k := m - WritesBefore(p);
      var done := p.adjustments[..k];
      db.(state := PayPlan(p.after, done), ledger := LedgerWith(db.ledger, done), events := EventsWith(db.events, done))
  }

  function Finished(db: Db, p: Plan): Db {
    AfterWrites(db, p, Writes(p))
  }
}
