/** Liquidation and report of a carry run in terms of its positions and its equity. */
module CarryMargins {
  import opened Prelude
  import opened CarryLedger
  import opened CarryAccounting
  import opened CarryLiquidation
  import opened CarryBacktest
  import Rounding

  // ---- when an account is liquidated ----

  // At event i the equity is down to the haircut and twice the maintenance rate of what a position
  // of that entry equity is worth at the leverage.
  ghost predicate FallsShort(x: Input, m: Margin, entry: real, i: nat)
    requires Shaped(x) && i < |x.flows|
  {
    BookAfter(x, i + 1).equity <= x.terms.leverage * entry * (m.haircut + 2.0 * m.maintenance)
  }

  lemma ShortMeans(equity: real, entry: real, leverage: real, m: Margin)
    ensures Undermargined(equity, SpotNotional(entry, leverage), m)
       <==> equity <= leverage * entry * (m.haircut + 2.0 * m.maintenance)
  {
    var n := SpotNotional(entry, leverage);
    assert n * m.haircut + 2.0 * n * m.maintenance == n * (m.haircut + 2.0 * m.maintenance);
    assert n == leverage * entry;
  }

  // A position held to i is measured against the equity its opening left.
  lemma {:induction false} EntrySeen(x: Input, s: nat, i: nat)
    requires Aligned(x) && HeldTo(x, s, i) && s < i
    ensures EntryEquityAt(x.terms.initial, LedgerEquities(x), x.exposures, i) == BookAfter(x, s + 1).equity
  {
    hide BookAfter, Compound;
    HeldIsExposed(x, s, i);
    HeldIsExposed(x, s, i - 1);
    if i == s + 1 {
      SwitchesAndExposure(x, s);
      LedgerEquitiesAre(x, s);
    } else {
      EntrySeen(x, s, i - 1);
    }
  }

  // The scan finds a breach at an event of a position exactly when the equity falls short of it.
  lemma {:induction false} BreachOfHolding(x: Input, m: Margin, s: nat, i: nat)
    requires Aligned(x) && HeldTo(x, s, i) && s < i
    ensures Breach(x.terms.initial, x.terms.leverage, m, LedgerEquities(x), x.exposures, i)
       <==> FallsShort(x, m, BookAfter(x, s + 1).equity, i)
  {
    hide BookAfter, Compound, Undermargined, SpotNotional;
    EntrySeen(x, s, i);
    HeldIsExposed(x, s, i);
    LedgerEquitiesAre(x, i);
    ShortMeans(BookAfter(x, i + 1).equity, BookAfter(x, s + 1).equity, x.terms.leverage, m);
  }

  // Some position is held to event i and the equity falls short of it there.
  ghost predicate ShortAt(x: Input, m: Margin, i: nat)
    requires Shaped(x) && i < |x.flows|
  {
    exists s: nat :: s < i && HeldTo(x, s, i) && FallsShort(x, m, BookAfter(x, s + 1).equity, i)
  }

  lemma {:induction false} BreachIsShort(x: Input, m: Margin, i: nat)
    requires Aligned(x) && i < |x.flows|
    ensures Breach(x.terms.initial, x.terms.leverage, m, LedgerEquities(x), x.exposures, i) <==> ShortAt(x, m, i)
  {
    hide BookAfter, FallsShort, EntryEquityAt, Undermargined, LedgerEquities;
    if x.exposures[i] {
      var s := ExposureHasAnEntry(x, i);
      assert HeldTo(x, s, i);
      BreachOfHolding(x, m, s, i);
    }
    if s: nat :| s < i && HeldTo(x, s, i) && FallsShort(x, m, BookAfter(x, s + 1).equity, i) {
      BreachOfHolding(x, m, s, i);
    }
  }

  function Liquidated(x: Input, m: Margin): Result<Outcome, LiquidationError>
    requires Shaped(x)
  {
    Liquidate(x.terms.initial, x.terms.leverage, m, Returns(x), x.exposures)
  }

  lemma FirstBreachOf(x: Input, m: Margin)
    requires Shaped(x) && Liquidated(x, m).Success?
    ensures Liquidated(x, m).value.at
         == FirstBreach(x.terms.initial, x.terms.leverage, m, LedgerEquities(x), x.exposures, 0)
  {
    hide Breach, Compound, EntryEquityAt;
  }

  // The account is liquidated at the first event at which it falls short of a position it holds, and
  // otherwise not at all.
  lemma {:induction false} LiquidatedWhenShort(x: Input, m: Margin)
    requires Aligned(x) && Liquidated(x, m).Success?
    ensures var at := Liquidated(x, m).value.at;
            && (at.None? <==> forall i: nat | i < |x.flows| :: !ShortAt(x, m, i))
            && (at.Some? ==> at.value < |x.flows| && ShortAt(x, m, at.value)
                             && forall i: nat | i < at.value :: !ShortAt(x, m, i))
  {
    hide Liquidated, Breach, LedgerEquities, ShortAt;
    FirstBreachOf(x, m);
    forall i: nat | i < |x.flows|
      ensures Breach(x.terms.initial, x.terms.leverage, m, LedgerEquities(x), x.exposures, i) <==> ShortAt(x, m, i)
    {
      BreachIsShort(x, m, i);
    }
  }

  // What is left of the equity after a fee on the two legs of a position of that entry equity.
  function Proceeds(equity: real, leverage: real, entry: real, fee: real): real {
    var cost := 2.0 * (leverage * entry) * fee;
    if equity > cost then equity - cost else 0.0
  }

  lemma ProceedsAre(equity: real, entry: real, leverage: real, m: Margin)
    ensures AfterLiquidation(equity, SpotNotional(entry, leverage), m) == Proceeds(equity, leverage, entry, m.fee)
  {
  }

  lemma OutcomeIs(x: Input, m: Margin)
    requires Shaped(x) && Liquidated(x, m).Success?
    ensures var o := Liquidated(x, m).value;
            && |o.equity| == |x.flows|
            && (o.at.None? ==> o == Outcome(Returns(x), LedgerEquities(x), x.exposures, None))
            && (o.at.Some? ==>
                  && o.at.value < |x.flows| && EquityBefore(x.terms.initial, LedgerEquities(x), o.at.value) != 0.0
                  && o == Cut(x.terms.initial, x.terms.leverage, m, Returns(x), x.exposures, o.at.value))
  {
    hide Breach, Compound, EntryEquityAt, AfterLiquidation;
  }

  // Equity is what the ledger carries until a liquidation; from then on it stays what the closing of
  // the position leaves of it.
  lemma {:induction false} EquityWhenLiquidated(x: Input, m: Margin, s: nat, j: nat)
    requires Aligned(x) && Liquidated(x, m).Success? && j < |x.flows|
    requires var at := Liquidated(x, m).value.at; at.Some? ==> s < at.value < |x.flows| && HeldTo(x, s, at.value)
    ensures var o := Liquidated(x, m).value;
            o.equity[j] == if o.at.None? || j < o.at.value then BookAfter(x, j + 1).equity
                           else Proceeds(BookAfter(x, o.at.value + 1).equity, x.terms.leverage,
                                         BookAfter(x, s + 1).equity, m.fee)
  {
    hide BookAfter, Compound, AfterLiquidation, SpotNotional, Proceeds, EntryEquityAt, Liquidate, Cut;
    var o, e := Liquidated(x, m).value, LedgerEquities(x);
    OutcomeIs(x, m);
    LedgerEquitiesAre(x, j);
    if o.at.Some? {
      var i := o.at.value;
      LiquidationClosedForm(x.terms.initial, x.terms.leverage, m, Returns(x), x.exposures, i);
      EntrySeen(x, s, i);
      LedgerEquitiesAre(x, i);
      ProceedsAre(BookAfter(x, i + 1).equity, BookAfter(x, s + 1).equity, x.terms.leverage, m);
      if j < i {
        assert o.equity[..i][j] == e[..i][j];
      } else {
        assert o.equity[j] == AfterLiquidation(
          e[i], SpotNotional(EntryEquityAt(x.terms.initial, e, x.exposures, i), x.terms.leverage), m);
      }
    }
  }

  // ---- the basis ----

  // Spot up by a fraction a and perp by b: long spot and short perp gain a - b.
  lemma {:induction false} BasisIsSpreadGain(p: Inputs, i: nat, a: real, b: real)
    requires p.observed && 0 < i < |p.events| && p.events[i - 1].spot > 0.0 && p.events[i - 1].perp > 0.0
    requires p.events[i].spot == p.events[i - 1].spot * (1.0 + a)
    requires p.events[i].perp == p.events[i - 1].perp * (1.0 + b)
    ensures BasisReturn(p, i) == a - b
  {
    Fraction(p.events[i - 1].spot, 1.0 + a);
    Fraction(p.events[i - 1].perp, 1.0 + b);
  }

  lemma Fraction(x: real, q: real)
    requires x > 0.0
    ensures x * q / x == q
  {
  }

  // ---- what a run accepts and reads ----

  lemma {:induction false} ConsecutiveOrder(ev: seq<MarketEvent>, i: nat, j: nat)
    requires i < j < |ev| && forall k | 0 < k < |ev| :: ev[k - 1].at < ev[k].at
    ensures ev[i].at < ev[j].at
  {
    if i < j - 1 {
      ConsecutiveOrder(ev, i, j - 1);
    }
  }

  lemma {:induction false} DeltasArePositive(ev: seq<Signal.FundingEvent>)
    requires Signal.Ordered(ev)
    ensures forall d | d in Signal.Deltas(ev) :: d > 0
  {
    if |ev| >= 2 {
      DeltasArePositive(ev[..|ev| - 1]);
    }
  }

  lemma MedianIsPositive(ev: seq<Signal.FundingEvent>)
    requires Signal.Ordered(ev) && |ev| >= 2
    ensures Signal.TwiceMedian(Signal.Deltas(ev)) > 0
  {
    DeltasArePositive(ev);
    var s := Signal.Deltas(ev);
    var r := Signal.Sorted(s);
    forall j | 0 <= j < |r|
      ensures r[j] > 0
    {
      Signal.SortedMembers(s, r[j]);
    }
  }

  // The smoothing window, the coverage and the interval, given or inferred from two events or more.
  predicate SmoothingFits(terms: Signal.SmoothingTerms, events: nat) {
    && terms.days >= 1 && 0.0 < terms.minCoverage <= 1.0
    && if terms.interval.Some? then terms.interval.value > 0 else events >= 2
  }

  lemma SmoothingAccepted(ev: seq<Signal.FundingEvent>, terms: Signal.SmoothingTerms)
    requires Signal.Ordered(ev)
    ensures Signal.SignalFault(ev, terms).None? <==> SmoothingFits(terms, |ev|)
  {
    if |ev| >= 2 {
      MedianIsPositive(ev);
    }
    hide Signal.TwiceMedian, Signal.Deltas;
  }

  // Within a second of a multiple of the price interval.
  ghost predicate NearSlot(at: int, interval: int) {
    exists k {:trigger k * interval} :: -1_000_000_000 <= at - k * interval <= 1_000_000_000
  }

  ghost predicate EventFits(p: Inputs, e: MarketEvent) {
    && e.borrowRate >= 0.0 && (p.observed ==> e.spot > 0.0 && e.perp > 0.0)
    && (p.candles.Some? ==>
          NearSlot(e.at, if p.smoothing.interval.Some? then p.smoothing.interval.value else 3_600_000_000_000))
  }

  lemma OrderMeans(ev: seq<MarketEvent>)
    ensures InOrder(ev) <==> forall i | 0 < i < |ev| :: ev[i - 1].at < ev[i].at
  {
    if forall i | 0 < i < |ev| :: ev[i - 1].at < ev[i].at {
      forall i, j | 0 <= i < j < |ev|
        ensures ev[i].at < ev[j].at
      {
        ConsecutiveOrder(ev, i, j);
      }
    }
  }

  lemma SlotMeans(p: Inputs, i: nat)
    requires i < |p.events| && SmoothingFits(p.smoothing, |p.events|)
    ensures OnSlot(p, i) <==>
              NearSlot(p.events[i].at,
                       if p.smoothing.interval.Some? then p.smoothing.interval.value else 3_600_000_000_000)
  {
    Slots.FundingSlotIsNearest(p.events[i].at, PriceInterval(p), PRICE_TOLERANCE);
  }

  lemma EventsFit(p: Inputs)
    requires SmoothingFits(p.smoothing, |p.events|)
    ensures (forall i | 0 <= i < |p.events| :: EventFits(p, p.events[i])) <==>
              && (forall i | 0 <= i < |p.events| :: p.events[i].borrowRate >= 0.0)
              && (p.observed ==> forall i | 0 <= i < |p.events| :: p.events[i].spot > 0.0 && p.events[i].perp > 0.0)
              && (p.candles.Some? ==> forall i | 0 <= i < |p.events| :: OnSlot(p, i))
  {
    hide SmoothingFits, NearSlot, OnSlot;
    forall i | 0 <= i < |p.events|
      ensures EventFits(p, p.events[i]) <==>
                && p.events[i].borrowRate >= 0.0 && (p.observed ==> p.events[i].spot > 0.0 && p.events[i].perp > 0.0)
                && (p.candles.Some? ==> OnSlot(p, i))
    {
      SlotMeans(p, i);
    }
    hide EventFits;
  }

  // A run gets past its checks exactly on events in order that fit, with parameters in their ranges.
  lemma {:induction false} AcceptedExactly(p: Inputs)
    ensures Fault(p).None? <==>
              && p.events != [] && (forall i | 0 < i < |p.events| :: p.events[i - 1].at < p.events[i].at)
              && p.leverage >= 1.0 && 0.0 <= p.margin.haircut < 1.0 && 0.0 <= p.margin.maintenance < 0.5
              && p.margin.fee >= 0.0 && SmoothingFits(p.smoothing, |p.events|)
              && (forall i | 0 <= i < |p.events| :: EventFits(p, p.events[i]))
              && (p.candles.Some? ==> forall t | t in p.candles.value :: p.candles.value[t] > 0.0)
  {
    hide Fault, InOrder, Signal.SignalFault, OnSlot, SmoothingFits, EventFits;
    ChecksPass(p);
    OrderMeans(p.events);
    if InOrder(p.events) {
      OrderOfFunding(p);
      SmoothingAccepted(FundingEvents(p.events), p.smoothing);
    }
    if SmoothingFits(p.smoothing, |p.events|) {
      EventsFit(p);
    }
  }

  lemma OrderOfFunding(p: Inputs)
    requires InOrder(p.events)
    ensures Signal.Ordered(FundingEvents(p.events))
  {
  }

  // The ledger gets each event's own time and rates, and as its price the close of the hourly candle
  // that opened one hour before the slot the event belongs to.
  lemma {:induction false} FlowReadsItsCandle(p: Inputs, i: nat, interval: int, slot: int)
    requires i < |p.events| && interval > 0 && slot % interval == 0
    requires interval == if p.smoothing.interval.Some? then p.smoothing.interval.value else 3_600_000_000_000
    requires -interval < 2 * (p.events[i].at - slot) < interval
    requires -1_000_000_000 <= p.events[i].at - slot <= 1_000_000_000
    ensures FlowAt(p, i).at == p.events[i].at && FlowAt(p, i).rate == p.events[i].rate
    ensures FlowAt(p, i).borrowRate == p.events[i].borrowRate
    ensures FlowAt(p, i).price == if p.candles.Some? && slot - 3_600_000_000_000 in p.candles.value then
                                    Some(p.candles.value[slot - 3_600_000_000_000])
                                  else None
  {
    var at, k := p.events[i].at, slot / interval;
    assert slot == k * interval;
    Slots.FundingSlotIsNearest(at, interval, PRICE_TOLERANCE);
    assert Slots.FundingSlot(at, interval, PRICE_TOLERANCE).Success?;
    var s := SlotOf(p, i);
    NearestIsTheSlot(at, interval, s, slot);
    hide BasisReturn;
  }

  lemma NearestIsTheSlot(at: int, interval: int, s: int, slot: int)
    requires interval > 0 && s % interval == 0 && slot % interval == 0
    requires -interval < 2 * (at - slot) < interval && Abs(at - s) <= Abs(at - slot)
    ensures s == slot
  {
    var a, b := s / interval, slot / interval;
    assert s == a * interval && slot == b * interval;
    Rounding.CloseMultiples(a, b, interval, 2 * interval - 2);
  }

  // ---- the report ----

  lemma SeriesAfter(x: Input, m: Margin, j: nat)
    requires Shaped(x) && Liquidated(x, m).Success? && j < |x.flows|
    ensures var o := Liquidated(x, m).value;
            && |o.pnl| == |o.equity| == |o.applied| == |x.flows|
            && (o.at.None? || j < o.at.value ==> o.pnl[j] == PostingAt(x, j).pnl && o.applied[j] == x.exposures[j])
            && (o.at == Some(j) ==> o.applied[j] == x.exposures[j])
            && (o.at.Some? && j > o.at.value ==> o.pnl[j] == 0.0 && !o.applied[j])
  {
    hide PostingAt, Compound, Liquidate;
    OutcomeIs(x, m);
    var o := Liquidated(x, m).value;
    if o.at.Some? && j < o.at.value {
      assert o.pnl[j] == o.pnl[..o.at.value][j] && o.applied[j] == o.applied[..o.at.value][j];
      assert Returns(x)[..o.at.value][j] == Returns(x)[j] && x.exposures[..o.at.value][j] == x.exposures[j];
    }
  }

  lemma LiquidatingReturn(x: Input, m: Margin, i: nat)
    requires Shaped(x) && Liquidated(x, m).Success? && Liquidated(x, m).value.at == Some(i)
    ensures i < |x.flows| && i < |Liquidated(x, m).value.pnl| && i < |Liquidated(x, m).value.equity| && x.exposures[i]
    ensures BookAfter(x, i).equity * (1.0 + Liquidated(x, m).value.pnl[i]) == Liquidated(x, m).value.equity[i]
  {
    hide BookAfter, Compound, AfterLiquidation, SpotNotional, EntryEquityAt, LiquidationReturn;
    OutcomeIs(x, m);
    FirstBreachOf(x, m);
    LedgerEquitiesAre(x, i);
    var o, e := Liquidated(x, m).value, LedgerEquities(x);
    LiquidationClosedForm(x.terms.initial, x.terms.leverage, m, Returns(x), x.exposures, i);
    Regrow(EquityBefore(x.terms.initial, e, i), o.equity[i]);
  }

  // Up to the liquidation the report is the ledger; at it only the return changes, to what the
  // liquidation made of the equity; after it nothing is reported, decided or exposed.
  lemma {:induction false} ReportStopsAtLiquidation(x: Input, m: Margin, j: nat)
    requires Aligned(x) && x.flows != [] && Liquidated(x, m).Success? && j < |x.flows|
    ensures var o := Liquidated(x, m).value;
            var r := ReportOf(x, o);
            && r.liquidatedAt == o.at && r.equity == o.equity
            && (o.at.None? || j < o.at.value ==>
                  r.rows[j] == PostingAt(x, j) && r.decisions[j] == x.decisions[j] && r.exposures[j] == x.exposures[j])
            && (o.at == Some(j) ==>
                  && r.rows[j] == PostingAt(x, j).(pnl := r.rows[j].pnl) && r.decisions[j] == x.decisions[j]
                  && r.exposures[j] && BookAfter(x, j).equity * (1.0 + r.rows[j].pnl) == r.equity[j])
            && (o.at.Some? && j > o.at.value ==>
                  r.rows[j] == Posting(0.0, 0.0, 0.0, 0.0, 0.0, 0.0) && !r.decisions[j] && !r.exposures[j])
  {
    hide PostingAt, BookAfter, Liquidated;
    SeriesAfter(x, m, j);
    if Liquidated(x, m).value.at == Some(j) {
      LiquidatingReturn(x, m, j);
    }
  }
}
