/**
 * No look-ahead: what a carry backtest reports about the first k events was known at the k-th,
 * exactly when their signals and their prices were.
 */
module CarryCausality {
  import opened Prelude
  import opened CarryLedger
  import opened CarryAccounting
  import opened CarryLiquidation
  import opened CarryBacktest
  import Signal = CarrySignal
  import Slots = FundingSlots

  function Head(p: Inputs, k: nat): Inputs
    requires k <= |p.events|
  {
    p.(events := p.events[..k])
  }

  function Below(s: seq<nat>, k: nat): seq<nat> {
    if s == [] then [] else Below(s[..|s| - 1], k) + if s[|s| - 1] < k then [s[|s| - 1]] else []
  }

  function AtBelow(at: Option<nat>, k: nat): Option<nat> {
    if at.Some? && at.value < k then at else None
  }

  // The reports agree on everything they say about the first k events.
  predicate AgreeBefore(a: Report, b: Report, k: nat)
  {
    && k <= |a.decisions| && k <= |b.decisions| && a.decisions[..k] == b.decisions[..k]
    && k <= |a.exposures| && k <= |b.exposures| && a.exposures[..k] == b.exposures[..k]
    && k <= |a.rows| && k <= |b.rows| && a.rows[..k] == b.rows[..k]
    && k <= |a.equity| && k <= |b.equity| && a.equity[..k] == b.equity[..k]
    && AtBelow(a.liquidatedAt, k) == AtBelow(b.liquidatedAt, k)
    && Below(a.entries, k) == Below(b.entries, k)
    && Below(a.exits, k) == Below(b.exits, k)
  }

  // ---- the liquidation scan ----

  lemma EquitiesOfPrefix(initial: real, pnl: seq<real>, k: nat)
    requires k <= |pnl|
    ensures Equities(initial, pnl[..k]) == Equities(initial, pnl)[..k]
  {
    hide Compound;
    Prefixes(initial, pnl, pnl[..k], k);
  }

  lemma {:induction false} EntryOfPrefix(initial: real, e: seq<real>, applied: seq<bool>, k: nat, i: nat)
    requires |e| == |applied| && i < k <= |e|
    ensures EntryEquityAt(initial, e[..k], applied[..k], i) == EntryEquityAt(initial, e, applied, i)
  {
    if i > 0 {
      EntryOfPrefix(initial, e, applied, k, i - 1);
    }
  }

  lemma FirstBreachOfPrefix(initial: real, leverage: real, m: Margin, e: seq<real>, applied: seq<bool>, k: nat)
    requires |e| == |applied| && k <= |e|
    ensures FirstBreach(initial, leverage, m, e[..k], applied[..k], 0)
         == AtBelow(FirstBreach(initial, leverage, m, e, applied, 0), k)
  {
    hide Undermargined, SpotNotional;
    var a := FirstBreach(initial, leverage, m, e[..k], applied[..k], 0);
    var b := FirstBreach(initial, leverage, m, e, applied, 0);
    forall i: nat | i < k
      ensures Breach(initial, leverage, m, e[..k], applied[..k], i) == Breach(initial, leverage, m, e, applied, i)
    {
      EntryOfPrefix(initial, e, applied, k, i);
    }
    assert a.Some? ==> Breach(initial, leverage, m, e, applied, a.value);
    assert b.Some? && b.value < k ==> Breach(initial, leverage, m, e[..k], applied[..k], b.value);
  }

  lemma CutOfPrefix(initial: real, leverage: real, m: Margin, pnl: seq<real>, applied: seq<bool>, i: nat, k: nat)
    requires |pnl| == |applied| && i < k <= |pnl|
    requires EquityBefore(initial, Equities(initial, pnl), i) != 0.0
    ensures EquityBefore(initial, Equities(initial, pnl[..k]), i) == EquityBefore(initial, Equities(initial, pnl), i)
    ensures var a := Cut(initial, leverage, m, pnl[..k], applied[..k], i);
            var b := Cut(initial, leverage, m, pnl, applied, i);
            a.pnl == b.pnl[..k] && a.equity == b.equity[..k] && a.applied == b.applied[..k]
  {
    hide LiquidationReturn, AfterLiquidation, SpotNotional, Compound;
    EquitiesOfPrefix(initial, pnl, k);
    EntryOfPrefix(initial, Equities(initial, pnl), applied, k, i);
    var a, b := Cut(initial, leverage, m, pnl[..k], applied[..k], i), Cut(initial, leverage, m, pnl, applied, i);
    OverwriteOfPrefix(pnl, i, b.pnl[i], 0.0, k);
    OverwriteOfPrefix(applied, i, applied[i], false, k);
    EquitiesOfPrefix(initial, b.pnl, k);
  }

  lemma OverwriteOfPrefix<T>(s: seq<T>, i: nat, v: T, rest: T, k: nat)
    requires i < k <= |s|
    ensures Overwrite(s[..k], i, v, rest) == Overwrite(s, i, v, rest)[..k]
  {
    assert s[..k][..i] == s[..i];
  }

  lemma LiquidationIsCausal(initial: real, leverage: real, m: Margin, pnl: seq<real>, applied: seq<bool>, k: nat)
    requires |pnl| == |applied| && k <= |pnl|
    requires Liquidate(initial, leverage, m, pnl, applied).Success?
    ensures var a := Liquidate(initial, leverage, m, pnl[..k], applied[..k]);
            var b := Liquidate(initial, leverage, m, pnl, applied).value;
            && a.Success? && a.value.at == AtBelow(b.at, k)
            && a.value.pnl == b.pnl[..k] && a.value.equity == b.equity[..k] && a.value.applied == b.applied[..k]
  {
    hide Breach, Compound;
    EquitiesOfPrefix(initial, pnl, k);
    FirstBreachOfPrefix(initial, leverage, m, Equities(initial, pnl), applied, k);
    var b := Liquidate(initial, leverage, m, pnl, applied).value;
    if b.at.Some? {
      if b.at.value < k {
        CutOfPrefix(initial, leverage, m, pnl, applied, b.at.value, k);
      } else {
        assert b.pnl[..k] == b.pnl[..b.at.value][..k] == pnl[..k];
        assert b.applied[..k] == b.applied[..b.at.value][..k] == applied[..k];
        EquitiesOfPrefix(initial, b.pnl, k);
      }
    }
  }

  // ---- the inputs ----

  // The prefix has a usable interval, and the later events do not change which windows are full.
  ghost predicate KeepsSignals(p: Inputs, k: nat)
    requires Fault(p).None? && k <= |p.events|
  {
    var ev := FundingEvents(p.events);
    && Signal.SignalFault(ev[..k], p.smoothing).None?
    && Signal.Undisturbed(ev, k, p.smoothing.days, Signal.HalfInterval(ev, p.smoothing.interval).value,
                          Signal.HalfInterval(ev[..k], p.smoothing.interval).value)
  }

  lemma {:induction false} ExplicitIntervalKeepsSignals(p: Inputs, k: nat)
    requires Fault(p).None? && k <= |p.events| && p.smoothing.interval.Some?
    ensures KeepsSignals(p, k)
  {
    hide Signal.WindowFull;
  }

  // An event is checked and priced alike with or without the later ones.
  lemma FlowsOfPrefix(p: Inputs, k: nat)
    requires k <= |p.events|
    ensures forall i | 0 <= i < k :: OnSlot(Head(p, k), i) == OnSlot(p, i)
    ensures Flows(Head(p, k)) == Flows(p)[..k]
  {
    var h := Head(p, k);
    forall i | 0 <= i < k
      ensures OnSlot(h, i) == OnSlot(p, i) && FlowAt(h, i) == FlowAt(p, i)
    {
      assert h.events[i] == p.events[i];
      assert i > 0 ==> h.events[i - 1] == p.events[i - 1];
    }
  }

  lemma EventsOfPrefix(p: Inputs, k: nat)
    requires k <= |p.events|
    ensures FundingEvents(p.events[..k]) == FundingEvents(p.events)[..k]
    ensures InOrder(p.events) ==> InOrder(p.events[..k])
    ensures ValidParameters(Head(p, k)) == ValidParameters(p)
  {
  }

  lemma HeadIsSound(p: Inputs, k: nat)
    requires Fault(p).None? && 0 < k <= |p.events|
    requires Signal.SignalFault(FundingEvents(p.events)[..k], p.smoothing).None?
    ensures FundingEvents(p.events[..k]) == FundingEvents(p.events)[..k] && Fault(Head(p, k)).None?
  {
    EventsOfPrefix(p, k);
    FlowsOfPrefix(p, k);
    ChecksPass(p);
    ChecksPass(Head(p, k));
    hide Fault, Signal.SignalFault, OnSlot, Flows, FundingEvents, ValidParameters;
    assert forall i | 0 <= i < k :: p.events[..k][i] == p.events[i];
  }

  lemma DecisionsOfPrefix(p: Inputs, decide: Signal.Policy, k: nat)
    requires Fault(p).None? && 0 < k <= |p.events| && KeepsSignals(p, k) && Fault(Head(p, k)).None?
    requires FundingEvents(p.events[..k]) == FundingEvents(p.events)[..k]
    ensures LedgerOf(Head(p, k), decide).decisions == LedgerOf(p, decide).decisions[..k]
  {
    hide Signal.Undisturbed, Signal.Signals, Signal.Decisions, Flows;
    Signal.SignalsAgreeExactly(FundingEvents(p.events), k, p.smoothing);
    Signal.DecisionsAreCausal(Signal.Signals(FundingEvents(p.events), p.smoothing), k, decide, p.enter, p.exit);
  }

  lemma InputsOfPrefix(p: Inputs, decide: Signal.Policy, k: nat)
    requires Fault(p).None? && 0 < k <= |p.events| && KeepsSignals(p, k)
    ensures Fault(Head(p, k)).None?
    ensures LedgerOf(Head(p, k), decide) == Upto(LedgerOf(p, decide), k)
  {
    FlowsOfPrefix(p, k);
    HeadIsSound(p, k);
    DecisionsOfPrefix(p, decide, k);
    hide Fault, Flows, KeepsSignals, Signal.Signals, Signal.Decisions;
    var d := LedgerOf(p, decide).decisions;
    assert Signal.Lagged(d[..k]) == Signal.Lagged(d)[..k];
  }

  lemma {:induction false} BelowEntries(x: Input, k: nat, n: nat)
    requires k <= n <= |x.decisions|
    ensures Below(Entries(x, n), k) == Entries(x, k) && Below(Exits(x, n), k) == Exits(x, k)
  {
    hide Entries, Exits, Below;
    if n > k {
      BelowEntries(x, k, n - 1);
      LatestIsNotBelow(x, k, n);
    } else {
      EntriesAndExitsAlternate(x, n);
      BelowAll(Entries(x, n), k);
      ExitsBelow(x, n);
      BelowAll(Exits(x, n), k);
    }
  }

  lemma LatestIsNotBelow(x: Input, k: nat, n: nat)
    requires k < n <= |x.decisions|
    ensures Below(Entries(x, n), k) == Below(Entries(x, n - 1), k) && Below(Exits(x, n), k) == Below(Exits(x, n - 1), k)
  {
    hide Below, Opened, Closed;
    BelowAppend(Entries(x, n - 1), n - 1, k);
    BelowAppend(Exits(x, n - 1), n - 1, k);
    assert Entries(x, n - 1) + [] == Entries(x, n - 1) && Exits(x, n - 1) + [] == Exits(x, n - 1);
  }

  lemma BelowAppend(s: seq<nat>, v: nat, k: nat)
    requires v >= k
    ensures Below(s + [v], k) == Below(s, k)
  {
    assert (s + [v])[..|s|] == s;
  }

  lemma {:induction false} BelowAll(s: seq<nat>, k: nat)
    requires forall i | 0 <= i < |s| :: s[i] < k
    ensures Below(s, k) == s
  {
    if s != [] {
      BelowAll(s[..|s| - 1], k);
    }
  }

  lemma {:induction false} ExitsBelow(x: Input, n: nat)
    requires n <= |x.decisions|
    ensures forall i | 0 <= i < |Exits(x, n)| :: Exits(x, n)[i] < n
  {
    if n > 0 {
      ExitsBelow(x, n - 1);
    }
  }

  lemma ReturnsOfPrefix(x: Input, k: nat)
    requires Shaped(x) && k <= |x.flows|
    ensures Returns(Upto(x, k)) == Returns(x)[..k]
    ensures forall i | 0 <= i < k ::
              PostingAt(Upto(x, k), i) == PostingAt(x, i) && Unpriced(Upto(x, k), i) == Unpriced(x, i)
  {
    hide PostingAt, Unpriced;
    forall i | 0 <= i < k
      ensures PostingAt(Upto(x, k), i) == PostingAt(x, i) && Unpriced(Upto(x, k), i) == Unpriced(x, i)
    {
      LedgerIsCausal(x, k, i);
    }
  }

  // ---- the theorem ----

  lemma ReportOfPrefix(x: Input, k: nat, o: Outcome, o': Outcome)
    requires Shaped(x) && 0 < k <= |x.flows|
    requires |o.pnl| == |o.equity| == |o.applied| == |x.flows|
    requires o'.at == AtBelow(o.at, k) && o'.pnl == o.pnl[..k] && o'.equity == o.equity[..k]
    requires o'.applied == o.applied[..k]
    ensures AgreeBefore(ReportOf(Upto(x, k), o'), ReportOf(x, o), k)
  {
    hide PostingAt, Unpriced, Adjustment, Entries, Exits, Below, Keep, Rows;
    var h := Upto(x, k);
    RowsOfPrefix(x, k, o, o');
    EntriesOfPrefix(x, k);
  }

  lemma RowsOfPrefix(x: Input, k: nat, o: Outcome, o': Outcome)
    requires Shaped(x) && k <= |x.flows| && |o.pnl| == |x.flows|
    requires o'.at == AtBelow(o.at, k) && o'.pnl == o.pnl[..k]
    ensures Rows(Upto(x, k), o')[..k] == Rows(x, o)[..k]
  {
    hide PostingAt, Unpriced;
    ReturnsOfPrefix(x, k);
  }

  lemma EntriesOfPrefix(x: Input, k: nat)
    requires Shaped(x) && k <= |x.flows|
    ensures Below(Entries(Upto(x, k), k), k) == Below(Entries(x, |x.flows|), k)
    ensures Below(Exits(Upto(x, k), k), k) == Below(Exits(x, |x.flows|), k)
  {
    LedgerIsCausal(x, k, k);
    BelowEntries(x, k, |x.flows|);
    BelowEntries(x, k, k);
  }

  // Running on the first k events alone reports the same about them.
  lemma {:induction false} BacktestOfPrefix(p: Inputs, decide: Signal.Policy, k: nat)
    requires Backtest(p, decide).Success? && 0 < k <= |p.events| && KeepsSignals(p, k)
    ensures Backtest(Head(p, k), decide).Success?
    ensures AgreeBefore(Backtest(Head(p, k), decide).value, Backtest(p, decide).value, k)
  {
    hide Liquidate, ReportOf, AgreeBefore, Unpriced;
    InputsOfPrefix(p, decide, k);
    var x := LedgerOf(p, decide);
    ReturnsOfPrefix(x, k);
    assert FirstUnpriced(Upto(x, k), 0).None?;
    LiquidationIsCausal(x.terms.initial, x.terms.leverage, p.margin, Returns(x), x.exposures, k);
    var o := Liquidate(x.terms.initial, x.terms.leverage, p.margin, Returns(x), x.exposures).value;
    var o' := Liquidate(x.terms.initial, x.terms.leverage, p.margin, Returns(x)[..k], x.exposures[..k]).value;
    ReportOfPrefix(x, k, o, o');
  }

  // ---- which prices are known ----

  // The same inputs, except perhaps for candles that close after t.
  ghost predicate SameClosed(p: Inputs, q: Inputs, t: int) {
    && q == p.(candles := q.candles) && q.candles.Some? == p.candles.Some?
    && (p.candles.Some? ==>
          forall open | open + PRICE_LAG <= t ::
            (open in p.candles.value <==> open in q.candles.value)
            && (open in p.candles.value ==> p.candles.value[open] == q.candles.value[open]))
  }

  // None of the first k events is so early for its slot that the slot begins after the k-th event.
  ghost predicate InTime(p: Inputs, k: nat)
    requires 0 < k <= |p.events|
  {
    p.candles.Some? ==> forall i | 0 <= i < k && OnSlot(p, i) :: SlotOf(p, i) <= p.events[k - 1].at
  }

  // The prices of the first k events do not depend on candles that close after t.
  ghost predicate KnownBy(p: Inputs, k: nat, t: int)
    requires k <= |p.events|
  {
    forall q, i | SameClosed(p, q, t) && 0 <= i < k :: PriceAsof(q, i) == PriceAsof(p, i)
  }

  // Exactly then the prices of the first k events come from candles that had closed by the k-th.
  lemma {:induction false} PricesKnownExactly(p: Inputs, k: nat)
    requires 0 < k <= |p.events|
    ensures KnownBy(p, k, p.events[k - 1].at) <==> InTime(p, k)
  {
    var t := p.events[k - 1].at;
    if InTime(p, k) {
      forall q, i | SameClosed(p, q, t) && 0 <= i < k
        ensures PriceAsof(q, i) == PriceAsof(p, i)
      {
        SamePrice(p, q, t, i);
      }
    } else {
      var i :| 0 <= i < k && OnSlot(p, i) && SlotOf(p, i) > t;
      var q := LaterCandleTells(p, t, i);
      assert SameClosed(p, q, t) && PriceAsof(q, i) != PriceAsof(p, i);
    }
  }

  lemma SamePrice(p: Inputs, q: Inputs, t: int, i: nat)
    requires SameClosed(p, q, t) && i < |p.events|
    requires p.candles.Some? && OnSlot(p, i) ==> SlotOf(p, i) <= t
    ensures PriceAsof(q, i) == PriceAsof(p, i)
  {
    assert OnSlot(q, i) == OnSlot(p, i);
    assert OnSlot(p, i) ==> SlotOf(q, i) == SlotOf(p, i);
  }

  // An event whose slot begins after t is priced with a candle that had not closed: another close
  // of it, as acceptable as the first, is another price.
  lemma LaterCandleTells(p: Inputs, t: int, i: nat) returns (q: Inputs)
    requires i < |p.events| && p.candles.Some? && OnSlot(p, i) && SlotOf(p, i) > t
    ensures SameClosed(p, q, t) && PriceAsof(q, i) != PriceAsof(p, i)
    ensures Fault(p).None? ==> Fault(q).None?
  {
    var open := SlotOf(p, i) - PRICE_LAG;
    var other := if open in p.candles.value && p.candles.value[open] == 1.0 then 2.0 else 1.0;
    q := p.(candles := Some(p.candles.value[open := other]));
    assert SlotOf(q, i) == SlotOf(p, i) && q.candles.value[open] == other;
    OtherCandle(p, open, other);
    hide Fault;
  }

  lemma OtherCandle(p: Inputs, open: int, close: real)
    requires p.candles.Some? && close > 0.0
    ensures Fault(p).None? ==> Fault(p.(candles := Some(p.candles.value[open := close]))).None?
  {
    var q := p.(candles := Some(p.candles.value[open := close]));
    assert forall j: nat | j < |p.events| :: OnSlot(q, j) == OnSlot(p, j);
    hide OnSlot, Signal.SignalFault, InOrder;
  }

  // At every event along the way, exactly when no event comes before its slot.
  lemma {:induction false} AlwaysInTimeExactly(p: Inputs)
    requires InOrder(p.events) && p.candles.Some?
    ensures (forall k: nat | 0 < k <= |p.events| :: InTime(p, k)) <==>
            forall i | 0 <= i < |p.events| && OnSlot(p, i) :: SlotOf(p, i) <= p.events[i].at
  {
    hide OnSlot, SlotOf;
    if forall k: nat | 0 < k <= |p.events| :: InTime(p, k) {
      forall i | 0 <= i < |p.events| && OnSlot(p, i)
        ensures SlotOf(p, i) <= p.events[i].at
      {
        assert InTime(p, i + 1);
      }
    }
  }

  // ---- no look-ahead ----

  // The two runs share their first k events, every parameter, and every candle that had closed
  // `slack` after the k-th event.
  ghost predicate SharePast(p: Inputs, q: Inputs, k: nat, slack: nat) {
    && 0 < k <= |p.events| && k <= |q.events|
    && SameClosed(Head(p, k), Head(q, k), p.events[k - 1].at + slack)
  }

  lemma SameLedger(p: Inputs, q: Inputs, decide: Signal.Policy, k: nat)
    requires 0 < k <= |p.events| && k <= |q.events| && Head(q, k) == Head(p, k).(candles := q.candles)
    requires p.candles.Some? == q.candles.Some?
    requires forall i | 0 <= i < k :: PriceAsof(Head(q, k), i) == PriceAsof(Head(p, k), i)
    requires Fault(Head(p, k)).None? && Fault(Head(q, k)).None?
    ensures LedgerOf(Head(p, k), decide) == LedgerOf(Head(q, k), decide)
  {
    hide PriceAsof;
    var a, b := Head(p, k), Head(q, k);
    forall i | 0 <= i < k
      ensures FlowAt(a, i) == FlowAt(b, i)
    {
      assert BasisReturn(a, i) == BasisReturn(b, i);
    }
    assert Flows(a) == Flows(b);
  }

  // For every policy: the reports agree on what lies before k when the signals of the first k events
  // stay as they were, and their prices are known by then.
  lemma CarryIsCausalUpTo(p: Inputs, q: Inputs, decide: Signal.Policy, k: nat, slack: nat)
    requires SharePast(p, q, k, slack) && Backtest(p, decide).Success? && Backtest(q, decide).Success?
    requires KeepsSignals(p, k) && KeepsSignals(q, k) && KnownBy(Head(p, k), k, p.events[k - 1].at + slack)
    ensures AgreeBefore(Backtest(p, decide).value, Backtest(q, decide).value, k)
  {
    BacktestOfPrefix(p, decide, k);
    BacktestOfPrefix(q, decide, k);
    hide Backtest, KnownBy, AgreeBefore, KeepsSignals;
    RunIsSound(Head(p, k), decide);
    RunIsSound(Head(q, k), decide);
    SameHeads(p, q, decide, k, slack);
  }

  lemma RunIsSound(p: Inputs, decide: Signal.Policy)
    requires Backtest(p, decide).Success?
    ensures Fault(p).None? && InOrder(p.events)
  {
    hide LedgerOf, FirstOffSlot, ValidParameters;
  }

  lemma SameHeads(p: Inputs, q: Inputs, decide: Signal.Policy, k: nat, slack: nat)
    requires SharePast(p, q, k, slack) && KnownBy(Head(p, k), k, p.events[k - 1].at + slack)
    requires Fault(Head(p, k)).None? && Fault(Head(q, k)).None?
    ensures Backtest(Head(p, k), decide) == Backtest(Head(q, k), decide)
  {
    hide LedgerOf, Fault, PriceAsof;
    SameLedger(p, q, decide, k);
  }

  // In particular when none of the first k events is too early for its slot: then everything a
  // backtest says of them was known at the k-th.
  lemma {:induction false} CarryIsCausal(p: Inputs, q: Inputs, decide: Signal.Policy, k: nat)
    requires SharePast(p, q, k, 0) && Backtest(p, decide).Success? && Backtest(q, decide).Success?
    requires KeepsSignals(p, k) && KeepsSignals(q, k) && InTime(p, k)
    ensures AgreeBefore(Backtest(p, decide).value, Backtest(q, decide).value, k)
  {
    HeadInTime(p, k);
    PricesKnownExactly(Head(p, k), k);
    hide Backtest, AgreeBefore, KeepsSignals, KnownBy, InTime;
    CarryIsCausalUpTo(p, q, decide, k, 0);
  }

  lemma HeadInTime(p: Inputs, k: nat)
    requires 0 < k <= |p.events| && InTime(p, k)
    ensures InTime(Head(p, k), k)
  {
    FlowsOfPrefix(p, k);
    forall i | 0 <= i < k && p.candles.Some? && OnSlot(Head(p, k), i)
      ensures SlotOf(Head(p, k), i) <= p.events[k - 1].at
    {
      assert OnSlot(p, i) && SlotOf(p, i) == SlotOf(Head(p, k), i);
    }
  }

  // With an explicit funding interval the signals always stay.
  lemma {:induction false} CarryIsCausalWithInterval(p: Inputs, q: Inputs, decide: Signal.Policy, k: nat)
    requires SharePast(p, q, k, 0) && p.smoothing.interval.Some? && InTime(p, k)
    requires Backtest(p, decide).Success? && Backtest(q, decide).Success?
    ensures AgreeBefore(Backtest(p, decide).value, Backtest(q, decide).value, k)
  {
    ExplicitIntervalKeepsSignals(p, k);
    ExplicitIntervalKeepsSignals(q, k);
    hide Backtest, AgreeBefore, InTime;
    CarryIsCausal(p, q, decide, k);
  }

  // Early events or not: the look-ahead reaches no further than the tolerance on the slot.
  lemma {:induction false} LookAheadWithinTolerance(p: Inputs, q: Inputs, decide: Signal.Policy, k: nat)
    requires 0 < k <= |p.events| && k <= |q.events| && SharePast(p, q, k, PRICE_TOLERANCE)
    requires Backtest(p, decide).Success? && Backtest(q, decide).Success?
    requires KeepsSignals(p, k) && KeepsSignals(q, k)
    ensures AgreeBefore(Backtest(p, decide).value, Backtest(q, decide).value, k)
  {
    hide Backtest, Fault, AgreeBefore, KeepsSignals, KnownBy, SharePast;
    RunIsSound(p, decide);
    EventsOfPrefix(p, k);
    KnownWithinTolerance(Head(p, k), k);
    CarryIsCausalUpTo(p, q, decide, k, PRICE_TOLERANCE);
  }

  lemma KnownWithinTolerance(p: Inputs, k: nat)
    requires 0 < k <= |p.events| && InOrder(p.events)
    ensures KnownBy(p, k, p.events[k - 1].at + PRICE_TOLERANCE)
  {
    var t := p.events[k - 1].at + PRICE_TOLERANCE;
    forall q, i | SameClosed(p, q, t) && 0 <= i < k
      ensures PriceAsof(q, i) == PriceAsof(p, i)
    {
      assert i < k - 1 ==> p.events[i].at < p.events[k - 1].at;
      SamePrice(p, q, t, i);
    }
  }

  // The signals of the first k events stay exactly when no policy decides differently about them with
  // the later events in sight.
  lemma {:induction false} NoLookAheadExactly(p: Inputs, k: nat)
    requires Fault(p).None? && 0 < k <= |p.events| && Fault(Head(p, k)).None?
    ensures KeepsSignals(p, k) <==>
              forall decide :: LedgerOf(Head(p, k), decide).decisions == LedgerOf(p, decide).decisions[..k]
  {
    var ev, terms := FundingEvents(p.events), p.smoothing;
    var all := Signal.Signals(ev, terms);
    assert FundingEvents(Head(p, k).events) == ev[..k];
    Signal.SignalsAgreeExactly(ev, k, terms);
    Signal.PoliciesTellSignalsApart(Signal.Signals(ev[..k], terms), all[..k], p.enter, p.exit);
    forall decide
      ensures Signal.Decisions(all[..k], decide, p.enter, p.exit) == LedgerOf(p, decide).decisions[..k]
    {
      Signal.DecisionsAreCausal(all, k, decide, p.enter, p.exit);
    }
    hide Signal.Decisions, Signal.Undisturbed, Signal.Signals, Flows;
  }

  // ---- an event ahead of its slot ----

  // Two payments eight hours apart, the second half a second early; its candle closes at `close`.
  function EarlyRun(close: real): Inputs {
    var at := 8 * Slots.HOUR_NS - Slots.HOUR_NS / 7200;
    Inputs([MarketEvent(0, 0.0, 0.0, 1.0, 1.0), MarketEvent(at, 0.01, 0.0, 1.0, 1.0)],
           Some(map[-Slots.HOUR_NS := 1.0, 7 * Slots.HOUR_NS := close]), false,
           Signal.SmoothingTerms(1, Some(8 * Slots.HOUR_NS), 1.0), 0.0, 0.0, 1.0, 1.0, 0.0, 0.0, Margin(0.0, 0.0, 0.0))
  }

  function AlwaysIn(state: bool, smooth: Option<real>, enter: real, exit: real): bool {
    true
  }

  lemma EarlySlots(close: real)
    ensures var p := EarlyRun(close);
            OnSlot(p, 0) && OnSlot(p, 1) && SlotOf(p, 0) == 0 && SlotOf(p, 1) == 8 * Slots.HOUR_NS
  {
  }

  lemma EarlyRunIsSound(close: real)
    requires close > 0.0
    ensures Fault(EarlyRun(close)).None?
  {
    EarlySlots(close);
    var p := EarlyRun(close);
    hide OnSlot;
    assert forall t | t in p.candles.value :: p.candles.value[t] > 0.0;
    assert FirstOffSlot(p, 0).None?;
  }

  // Long from the first event on.
  ghost predicate EarlyLedger(x: Input, close: real) {
    && Aligned(x) && |x.flows| == 2 && x.decisions == [true, true] && x.exposures == [false, true]
    && x.terms == Terms(1.0, 1.0, 0.0, 0.0, true)
    && x.flows[0].price == Some(1.0) && x.flows[1].price == Some(close) && x.flows[1].rate == 0.01
  }

  lemma EarlyLedgerIs(close: real)
    requires close > 0.0
    ensures Fault(EarlyRun(close)).None? && EarlyLedger(LedgerOf(EarlyRun(close), AlwaysIn), close)
  {
    EarlyRunIsSound(close);
    EarlySlots(close);
    var p := EarlyRun(close);
    assert PriceAsof(p, 0) == Some(1.0) && PriceAsof(p, 1) == Some(close);
    var s := Signal.Signals(FundingEvents(p.events), p.smoothing);
    hide Fault, OnSlot, SlotOf, PriceAsof, Signal.Signals;
    assert Signal.Decisions(s, AlwaysIn, p.enter, p.exit) == [true, true];
    assert Signal.Lagged([true, true]) == [false, true];
  }

  // At a quantity of one, the second payment is rate times close.
  lemma EarlyPays(x: Input, close: real)
    requires EarlyLedger(x, close) && close > 0.0
    ensures Priceable(x) && PostingAt(x, 1).funding == close * 0.01
  {
    hide Post, BookAfter;
    EmptyBook(x);
    EntryQuantity(x, 0);
    OnePricedFunding(x, 1, BookAfter(x, 1));
  }

  lemma EarlyReport(x: Input, close: real, m: Margin)
    requires EarlyLedger(x, close) && Priceable(x) && m == Margin(0.0, 0.0, 0.0)
    ensures var r := LedgerReport(x, m);
            r.Success? && |r.value.rows| == 2 && r.value.rows[1].funding == PostingAt(x, 1).funding
  {
    assert EntryCost(x.terms) < 1.0;
    hide EntryCost, PostingAt, Liquidate, PositiveBeforeLiquidation, Adjustment, Unpriced;
    SafetyThreshold(x, m);
    SafeRunIsReported(x, m);
    assert FirstUnpriced(x, 0).None?;
    SecondRow(x, Liquidate(x.terms.initial, x.terms.leverage, m, Returns(x), x.exposures).value);
  }

  lemma SecondRow(x: Input, o: Outcome)
    requires Shaped(x) && |x.flows| == |o.pnl| == |o.equity| == |o.applied| == 2
    requires o.at.Some? ==> o.at.value > 0
    ensures |ReportOf(x, o).rows| == 2 && ReportOf(x, o).rows[1].funding == PostingAt(x, 1).funding
  {
    hide PostingAt, Adjustment, Entries, Exits;
  }

  lemma EarlyFunding(close: real)
    requires close > 0.0
    ensures var r := Backtest(EarlyRun(close), AlwaysIn);
            r.Success? && |r.value.rows| == 2 && r.value.rows[1].funding == close * 0.01
  {
    EarlyLedgerIs(close);
    var x := LedgerOf(EarlyRun(close), AlwaysIn);
    EarlyPays(x, close);
    EarlyReport(x, close, EarlyRun(close).margin);
    hide LedgerOf, LedgerReport, Fault;
  }

  lemma EarlyShare(a: real, b: real)
    ensures SharePast(EarlyRun(a), EarlyRun(b), 2, 0) && !InTime(EarlyRun(a), 2)
  {
    var p, q := EarlyRun(a), EarlyRun(b);
    EarlySlots(a);
    assert p.events[..2] == p.events && q.events[..2] == q.events;
    hide OnSlot, SlotOf;
  }

  // That candle had not closed at the second payment, and the run reports its close all the same:
  // two runs that share every closed candle disagree on the funding.
  lemma EarlyPaymentLooksAhead() returns (p: Inputs, q: Inputs)
    ensures SharePast(p, q, 2, 0) && !InTime(p, 2)
    ensures Backtest(p, AlwaysIn).Success? && Backtest(q, AlwaysIn).Success?
    ensures KeepsSignals(p, 2) && KeepsSignals(q, 2)
    ensures !AgreeBefore(Backtest(p, AlwaysIn).value, Backtest(q, AlwaysIn).value, 2)
  {
    p, q := EarlyRun(1.0), EarlyRun(2.0);
    EarlyShare(1.0, 2.0);
    EarlyRunIsSound(1.0);
    EarlyRunIsSound(2.0);
    ExplicitIntervalKeepsSignals(p, 2);
    ExplicitIntervalKeepsSignals(q, 2);
    EarlyFunding(1.0);
    EarlyFunding(2.0);
    hide Backtest, Fault, KeepsSignals, SharePast, InTime;
    var a, b := Backtest(p, AlwaysIn).value, Backtest(q, AlwaysIn).value;
    assert a.rows[..2][1] == a.rows[1] && b.rows[..2][1] == b.rows[1];
  }
}
