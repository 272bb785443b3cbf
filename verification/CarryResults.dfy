/** What a carry report says about liquidation, and how it scales with the capital. */
module CarryResults {
  import opened Prelude
  import opened CarryLedger
  import opened CarryAccounting
  import opened CarryLiquidation
  import opened CarryBacktest
  import Signal = CarrySignal
  import Rounding

  // ---- the liquidation adjustment ----

  lemma {:induction false} RowTotalsUpTo(x: Input, o: Outcome, n: nat)
    requires Shaped(x) && |o.pnl| == |x.flows| && n <= |x.flows|
    requires o.at.Some? ==> n <= o.at.value + 1
    ensures RowTotals(Rows(x, o), n) == TotalsOf(x, 0, n)
  {
    hide PostingAt;
    if n > 0 {
      RowTotalsUpTo(x, o, n - 1);
    }
  }

  lemma {:induction false} RowTotalsAfter(x: Input, o: Outcome, n: nat)
    requires Shaped(x) && |o.pnl| == |x.flows| && o.at.Some? && o.at.value < n <= |x.flows|
    ensures RowTotals(Rows(x, o), n) == TotalsOf(x, 0, o.at.value + 1)
  {
    hide PostingAt;
    if n == o.at.value + 1 {
      RowTotalsUpTo(x, o, n);
    } else {
      RowTotalsAfter(x, o, n - 1);
    }
  }

  // Equity carried by the ledger after the liquidating event, and the notional it closes.
  function LiquidatedEquity(x: Input, i: nat): real
    requires Shaped(x) && i < |x.flows|
  {
    LedgerEquities(x)[i]
  }

  function LiquidatedNotional(x: Input, i: nat): real
    requires Shaped(x) && i < |x.flows|
  {
    SpotNotional(EntryEquityAt(x.terms.initial, LedgerEquities(x), x.exposures, i), x.terms.leverage)
  }

  function LiquidationFee(notional: real, m: Margin): real {
    2.0 * notional * m.fee
  }

  // The residual that backtest_carry reports: nothing without a liquidation, otherwise the
  // liquidation fee, floored where it would take more than the whole account.
  lemma {:induction false} LiquidationAdjustment(x: Input, m: Margin)
    requires Shaped(x) && x.flows != [] && x.terms.initial > 0.0 && PositiveBeforeLiquidation(x, m)
    ensures var r := Liquidate(x.terms.initial, x.terms.leverage, m, Returns(x), x.exposures);
            && r.Success?
            && ReportOf(x, r.value).adjustment ==
                 if r.value.at.None? then 0.0
                 else
                   MaxReal(-LiquidatedEquity(x, r.value.at.value),
                           -LiquidationFee(LiquidatedNotional(x, r.value.at.value), m))
  {
    hide PostingAt, Compound, SpotNotional, Undermargined, BookAfter;
    SafeRunIsReported(x, m);
    var o := Liquidate(x.terms.initial, x.terms.leverage, m, Returns(x), x.exposures).value;
    if o.at.None? {
      SolventUpTo(x, |x.flows| - 1);
      NoAdjustment(x, o);
    } else {
      SolventUpTo(x, o.at.value);
      AdjustmentIsTheFee(x, m, o.at.value);
    }
  }

  lemma NoAdjustment(x: Input, o: Outcome)
    requires Shaped(x) && x.flows != [] && |o.pnl| == |o.applied| == |x.flows|
    requires o.at.None? && o.equity == LedgerEquities(x) && SolventBefore(x, |x.flows|)
    ensures ReportOf(x, o).adjustment == 0.0
  {
    hide PostingAt, Compound, BookAfter;
    ConservationThroughRuin(x, |x.flows|);
    LedgerEquitiesAre(x, |x.flows| - 1);
    RowTotalsUpTo(x, o, |x.flows|);
  }

  lemma AdjustmentIsTheFee(x: Input, m: Margin, i: nat)
    requires Shaped(x) && i < |x.flows| && SolventBefore(x, i + 1)
    requires EquityBefore(x.terms.initial, LedgerEquities(x), i) != 0.0
    ensures ReportOf(x, Cut(x.terms.initial, x.terms.leverage, m, Returns(x), x.exposures, i)).adjustment
         == MaxReal(-LiquidatedEquity(x, i), -LiquidationFee(LiquidatedNotional(x, i), m))
  {
    hide PostingAt, Compound, BookAfter, SpotNotional, LiquidationReturn, LiquidationFee, AfterLiquidation;
    ConservationThroughRuin(x, i + 1);
    LedgerEquitiesAre(x, i);
    var o := Cut(x.terms.initial, x.terms.leverage, m, Returns(x), x.exposures, i);
    RowTotalsAfter(x, o, |x.flows|);
    LiquidationClosedForm(x.terms.initial, x.terms.leverage, m, Returns(x), x.exposures, i);
    FloorOfProceeds(LiquidatedEquity(x, i), LiquidatedNotional(x, i), m);
  }

  lemma FloorOfProceeds(equity: real, notional: real, m: Margin)
    ensures AfterLiquidation(equity, notional, m) - equity == MaxReal(-equity, -LiquidationFee(notional, m))
  {
  }

  lemma SolventUpTo(x: Input, last: nat)
    requires Shaped(x) && last < |x.flows| && x.terms.initial > 0.0
    requires forall i | 0 <= i < last :: LedgerEquities(x)[i] > 0.0
    ensures SolventBefore(x, last + 1)
  {
    forall i | 0 <= i < last + 1
      ensures BookAfter(x, i).equity > 0.0
    {
      LedgerEquitiesAre(x, i);
    }
  }

  // ---- scale ----

  function ScaleAll(c: real, e: seq<real>): (r: seq<real>)
    ensures |r| == |e| && forall i | 0 <= i < |e| :: r[i] == c * e[i]
  {
    seq(|e|, i requires 0 <= i < |e| => c * e[i])
  }

  lemma {:induction false} CompoundScales(c: real, initial: real, pnl: seq<real>, n: nat)
    requires n <= |pnl|
    ensures Compound(c * initial, pnl, n) == c * Compound(initial, pnl, n)
  {
    if n > 0 {
      CompoundScales(c, initial, pnl, n - 1);
      Pull(c, Compound(initial, pnl, n - 1), 1.0 + pnl[n - 1]);
    }
  }

  lemma EquitiesScale(c: real, initial: real, initial': real, pnl: seq<real>)
    requires initial' == c * initial
    ensures Equities(initial', pnl) == ScaleAll(c, Equities(initial, pnl))
  {
    var a, b := Equities(initial', pnl), ScaleAll(c, Equities(initial, pnl));
    forall i | 0 <= i < |pnl|
      ensures a[i] == b[i]
    {
      CompoundScales(c, initial, pnl, i + 1);
    }
  }

  lemma {:induction false} EntryScales(c: real, initial: real, initial': real, e: seq<real>, applied: seq<bool>, i: nat)
    requires |e| == |applied| && i < |e| && initial' == c * initial
    ensures EntryEquityAt(initial', ScaleAll(c, e), applied, i) == c * EntryEquityAt(initial, e, applied, i)
  {
    if i > 0 {
      EntryScales(c, initial, initial', e, applied, i - 1);
    }
  }

  lemma MarginScales(c: real, equity: real, equity': real, entry: real, entry': real, leverage: real, m: Margin)
    requires c > 0.0 && equity' == c * equity && entry' == c * entry
    ensures SpotNotional(entry', leverage) == c * SpotNotional(entry, leverage)
    ensures Undermargined(equity', SpotNotional(entry', leverage), m)
         == Undermargined(equity, SpotNotional(entry, leverage), m)
    ensures AfterLiquidation(equity', SpotNotional(entry', leverage), m)
         == c * AfterLiquidation(equity, SpotNotional(entry, leverage), m)
  {
    Pull(c, entry, leverage);
  }

  lemma BreachScales(c: real, initial: real, initial': real, leverage: real, m: Margin, e: seq<real>,
                     applied: seq<bool>, i: nat)
    requires c > 0.0 && |e| == |applied| && i < |e| && initial' == c * initial
    ensures Breach(initial', leverage, m, ScaleAll(c, e), applied, i) == Breach(initial, leverage, m, e, applied, i)
  {
    hide Undermargined, SpotNotional;
    EntryScales(c, initial, initial', e, applied, i);
    MarginScales(c, e[i], ScaleAll(c, e)[i], EntryEquityAt(initial, e, applied, i),
                 EntryEquityAt(initial', ScaleAll(c, e), applied, i), leverage, m);
  }

  lemma {:induction false} FirstBreachScales(c: real, initial: real, initial': real, leverage: real, m: Margin,
                                               e: seq<real>, applied: seq<bool>, from: nat)
    requires c > 0.0 && |e| == |applied| && from <= |e| && initial' == c * initial
    ensures FirstBreach(initial', leverage, m, ScaleAll(c, e), applied, from)
         == FirstBreach(initial, leverage, m, e, applied, from)
    decreases |e| - from
  {
    hide Breach;
    if from < |e| {
      BreachScales(c, initial, initial', leverage, m, e, applied, from);
      FirstBreachScales(c, initial, initial', leverage, m, e, applied, from + 1);
    }
  }

  lemma LiquidationReturnScales(c: real, after: real, before: real, after': real, before': real)
    requires c > 0.0 && before != 0.0 && after' == c * after && before' == c * before
    ensures before' != 0.0 && LiquidationReturn(after', before') == LiquidationReturn(after, before)
  {
    var q := after / before;
    assert q * before == after;
    assert q * before' == c * (q * before);
  }

  // The pass liquidates at the same event with the same returns, on equities that scale.
  lemma LiquidationIsScaleFree(c: real, initial: real, initial': real, leverage: real, m: Margin, pnl: seq<real>,
                               applied: seq<bool>)
    requires c > 0.0 && |pnl| == |applied| && initial' == c * initial
    ensures var a, b := Liquidate(initial', leverage, m, pnl, applied), Liquidate(initial, leverage, m, pnl, applied);
            match b
            case Failure(e) => a == Failure(e)
            case Success(o) => a == Success(o.(equity := ScaleAll(c, o.equity)))
  {
    hide Breach, Compound, LiquidationReturn, AfterLiquidation, SpotNotional;
    var e := Equities(initial, pnl);
    EquitiesScale(c, initial, initial', pnl);
    FirstBreachScales(c, initial, initial', leverage, m, e, applied, 0);
    var breach := FirstBreach(initial, leverage, m, e, applied, 0);
    if breach.Some? {
      if EquityBefore(initial, e, breach.value) != 0.0 {
        CutScales(c, initial, initial', leverage, m, pnl, applied, breach.value);
      }
    }
  }

  lemma CutScales(c: real, initial: real, initial': real, leverage: real, m: Margin, pnl: seq<real>, applied: seq<bool>,
                  i: nat)
    requires c > 0.0 && |pnl| == |applied| && i < |pnl| && initial' == c * initial
    requires EquityBefore(initial, Equities(initial, pnl), i) != 0.0
    ensures EquityBefore(initial', Equities(initial', pnl), i) != 0.0
    ensures var o := Cut(initial, leverage, m, pnl, applied, i);
            Cut(initial', leverage, m, pnl, applied, i) == o.(equity := ScaleAll(c, o.equity))
  {
    hide Compound, LiquidationReturn, AfterLiquidation, SpotNotional, Undermargined;
    var e, e' := Equities(initial, pnl), Equities(initial', pnl);
    EquitiesScale(c, initial, initial', pnl);
    EntryScales(c, initial, initial', e, applied, i);
    var entry, entry' := EntryEquityAt(initial, e, applied, i), EntryEquityAt(initial', e', applied, i);
    MarginScales(c, e[i], e'[i], entry, entry', leverage, m);
    LiquidationReturnScales(c, AfterLiquidation(e[i], SpotNotional(entry, leverage), m), EquityBefore(initial, e, i),
                            AfterLiquidation(e'[i], SpotNotional(entry', leverage), m), EquityBefore(initial', e', i));
    EquitiesScale(c, initial, initial', Cut(initial, leverage, m, pnl, applied, i).pnl);
  }

  function WithCapital(p: Inputs, capital: real): Inputs {
    p.(initial := capital)
  }

  // Same decisions, exposures, returns, switches and liquidation; amounts, equities and the
  // residual times c.
  ghost predicate ScaledRows(c: real, a: Report, r: Report) {
    && a.adjustment == c * r.adjustment
    && a.decisions == r.decisions && a.exposures == r.exposures
    && a.liquidatedAt == r.liquidatedAt && a.entries == r.entries && a.exits == r.exits
    && a.equity == ScaleAll(c, r.equity)
    && |a.rows| == |r.rows| && forall i | 0 <= i < |r.rows| :: a.rows[i] == ScalePosting(c, r.rows[i])
  }

  // Same failures too.
  ghost predicate ScaledReport(c: real, a: Result<Report, CarryError>, b: Result<Report, CarryError>) {
    match b
    case Failure(e) => a == Failure(e)
    case Success(r) => a.Success? && ScaledRows(c, a.value, r)
  }

  lemma {:induction false} BacktestIsScaleFree(c: real, p: Inputs, decide: Signal.Policy)
    requires c > 0.0
    ensures ScaledReport(c, Backtest(WithCapital(p, c * p.initial), decide), Backtest(p, decide))
  {
    hide Fault, ReportOf, ScaledRows, Liquidate;
    FaultIgnoresCapital(p, c * p.initial);
    if Fault(p).None? {
      LedgerScales(c, p, decide);
      var x := LedgerOf(p, decide);
      LedgerRowsScale(c, x);
      LiquidationIsScaleFree(c, x.terms.initial, Scaled(c, x).terms.initial, x.terms.leverage, p.margin, Returns(x),
                             x.exposures);
      var r := Liquidate(x.terms.initial, x.terms.leverage, p.margin, Returns(x), x.exposures);
      if r.Success? {
        ReportScales(c, x, r.value);
      }
    }
  }

  ghost predicate AllScaled(c: real, a: seq<Posting>, b: seq<Posting>) {
    |a| == |b| && forall i | 0 <= i < |b| :: a[i] == ScalePosting(c, b[i])
  }

  lemma RowsScale(c: real, x: Input, o: Outcome)
    requires c > 0.0 && Shaped(x) && |o.pnl| == |o.equity| == |x.flows|
    ensures AllScaled(c, Rows(Scaled(c, x), o.(equity := ScaleAll(c, o.equity))), Rows(x, o))
  {
    hide PostingAt, Entries, Exits, FirstUnpriced;
    LedgerRowsScale(c, x);
  }

  function ScaleTotals(c: real, t: Totals): Totals {
    Totals(c * t.funding, c * t.borrow, c * t.basis, c * t.fee, c * t.slippage)
  }

  lemma NetTotalScales(c: real, t: Totals)
    ensures NetTotal(ScaleTotals(c, t)) == c * NetTotal(t)
  {
  }

  lemma AddRowScales(c: real, t: Totals, p: Posting)
    ensures AddRow(ScaleTotals(c, t), ScalePosting(c, p)) == ScaleTotals(c, AddRow(t, p))
  {
  }

  lemma {:induction false} RowTotalsScale(c: real, a: seq<Posting>, b: seq<Posting>, n: nat)
    requires AllScaled(c, a, b) && n <= |b|
    ensures RowTotals(a, n) == ScaleTotals(c, RowTotals(b, n))
  {
    if n > 0 {
      RowTotalsScale(c, a, b, n - 1);
      AddRowScales(c, RowTotals(b, n - 1), b[n - 1]);
    }
  }

  lemma AdjustmentScales(c: real, initial: real, initial': real, a: seq<Posting>, b: seq<Posting>, e: seq<real>)
    requires AllScaled(c, a, b) && |b| == |e| > 0 && initial' == c * initial
    ensures Adjustment(initial', a, ScaleAll(c, e)) == c * Adjustment(initial, b, e)
  {
    hide RowTotals, NetTotal, ScaleTotals;
    var n := |b|;
    assert |a| == n;
    RowTotalsScale(c, a, b, n);
    NetTotalScales(c, RowTotals(b, n));
  }

  lemma ReportScales(c: real, x: Input, o: Outcome)
    requires c > 0.0 && Shaped(x) && x.flows != [] && |o.pnl| == |o.equity| == |o.applied| == |x.flows|
    ensures ScaledRows(c, ReportOf(Scaled(c, x), o.(equity := ScaleAll(c, o.equity))), ReportOf(x, o))
  {
    hide PostingAt, Adjustment, Entries, Exits, FirstUnpriced;
    var o' := o.(equity := ScaleAll(c, o.equity));
    LedgerRowsScale(c, x);
    RowsScale(c, x, o);
    AdjustmentScales(c, x.terms.initial, Scaled(c, x).terms.initial, Rows(Scaled(c, x), o'), Rows(x, o), o.equity);
  }

  lemma FaultIgnoresCapital(p: Inputs, capital: real)
    ensures Fault(WithCapital(p, capital)) == Fault(p)
  {
    SlotsIgnoreCapital(p, capital, 0);
    hide FirstOffSlot, OnSlot;
  }

  lemma LedgerScales(c: real, p: Inputs, decide: Signal.Policy)
    requires Fault(p).None? && Fault(WithCapital(p, c * p.initial)).None?
    ensures p.events != []
    ensures LedgerOf(WithCapital(p, c * p.initial), decide) == Scaled(c, LedgerOf(p, decide))
  {
    hide BasisReturn, OnSlot;
    var q, x := WithCapital(p, c * p.initial), LedgerOf(p, decide);
    forall i | 0 <= i < |p.events|
      ensures FlowAt(q, i) == FlowAt(p, i)
    {
      FlowIgnoresCapital(p, c * p.initial, i);
    }
    assert Flows(q) == Flows(p);
    assert x.terms.initial == p.initial;
  }

  lemma FlowIgnoresCapital(p: Inputs, capital: real, i: nat)
    requires i < |p.events|
    ensures FlowAt(WithCapital(p, capital), i) == FlowAt(p, i)
  {
  }

  lemma {:induction false} SlotsIgnoreCapital(p: Inputs, capital: real, from: nat)
    requires from <= |p.events|
    ensures FirstOffSlot(WithCapital(p, capital), from) == FirstOffSlot(p, from)
    decreases |p.events| - from
  {
    if from < |p.events| {
      SlotsIgnoreCapital(p, capital, from + 1);
    }
  }

  lemma LedgerRowsScale(c: real, x: Input)
    requires c > 0.0 && Shaped(x)
    ensures Returns(Scaled(c, x)) == Returns(x)
    ensures forall i | 0 <= i < |x.flows| :: PostingAt(Scaled(c, x), i) == ScalePosting(c, PostingAt(x, i))
    ensures FirstUnpriced(Scaled(c, x), 0) == FirstUnpriced(x, 0)
    ensures forall n: nat | n <= |x.flows| ::
              Entries(Scaled(c, x), n) == Entries(x, n) && Exits(Scaled(c, x), n) == Exits(x, n)
  {
    hide PostingAt;
    forall i | 0 <= i < |x.flows|
      ensures PostingAt(Scaled(c, x), i) == ScalePosting(c, PostingAt(x, i))
    {
      LedgerIsScaleFree(c, x, i);
    }
    UnpricedIgnoresCapital(c, x, 0);
    forall n: nat | n <= |x.flows|
      ensures Entries(Scaled(c, x), n) == Entries(x, n) && Exits(Scaled(c, x), n) == Exits(x, n)
    {
      SwitchesIgnoreCapital(c, x, n);
    }
  }

  lemma {:induction false} UnpricedIgnoresCapital(c: real, x: Input, from: nat)
    requires Shaped(x) && from <= |x.flows|
    ensures FirstUnpriced(Scaled(c, x), from) == FirstUnpriced(x, from)
    decreases |x.flows| - from
  {
    if from < |x.flows| {
      UnpricedIgnoresCapital(c, x, from + 1);
    }
  }

  lemma {:induction false} SwitchesIgnoreCapital(c: real, x: Input, n: nat)
    requires Shaped(x) && n <= |x.flows|
    ensures Entries(Scaled(c, x), n) == Entries(x, n) && Exits(Scaled(c, x), n) == Exits(x, n)
  {
    if n > 0 {
      SwitchesIgnoreCapital(c, x, n - 1);
    }
  }

  // ---- a discrepancy ----

  // Decisions after a liquidation are erased from the report, the lists of entries and exits
  // are not: an entry contradicts the reported decisions exactly when it came afterwards.
  lemma EntriesOutliveLiquidation(x: Input, o: Outcome, j: nat)
    requires Shaped(x) && |o.pnl| == |o.equity| == |o.applied| == |x.flows| && j < |x.flows|
    ensures j in ReportOf(x, o).entries && !ReportOf(x, o).decisions[j] <==>
            Opened(x, j) && o.at.Some? && o.at.value < j
  {
    hide Adjustment, Rows;
    EntriesAreOpenings(x, |x.flows|, j);
  }

  lemma {:induction false} EntriesAreOpenings(x: Input, n: nat, j: nat)
    requires n <= |x.decisions|
    ensures j in Entries(x, n) <==> j < n && Opened(x, j)
  {
    if n > 0 {
      EntriesAreOpenings(x, n - 1, j);
    }
  }

  // ---- such a run, on daily funding ----

  const DAY: int := Signal.NS_PER_DAY

  // Four daily payments; the second and the fourth call for a position, the third against it.
  function DailyInputs(): (p: Inputs) {
    Inputs([MarketEvent(0, 0.0, 0.0, 1.0, 1.0), MarketEvent(DAY, 0.01, 0.0, 1.0, 1.0),
            MarketEvent(2 * DAY, -0.01, 0.0, 1.0, 1.0), MarketEvent(3 * DAY, 0.01, 0.0, 1.0, 1.0)],
           None, false, Signal.SmoothingTerms(1, Some(DAY), 1.0), 0.0, 0.0, 1.0, 1.0, 0.0, 0.0, Margin(0.5, 0.4, 0.0))
  }

  ghost predicate Daily(ev: seq<Signal.FundingEvent>) {
    |ev| == 4 && forall i | 0 <= i < 4 :: ev[i].at == i * DAY
  }

  // A one-day window over daily payments holds the one at its end.
  lemma DailyWindow(ev: seq<Signal.FundingEvent>, i: nat)
    requires Daily(ev) && i < 4
    ensures Signal.Observed(ev, 4, ev[i].at - DAY, ev[i].at) == 1
    ensures Signal.WindowSum(ev, 4, ev[i].at - DAY, ev[i].at) == ev[i].rate
  {
    var lo, hi := ev[i].at - DAY, ev[i].at;
    assert Signal.Observed(ev, 0, lo, hi) == 0 && Signal.WindowSum(ev, 0, lo, hi) == 0.0;
    forall j: nat | j < 4
      ensures Signal.InWindow(ev[j].at, lo, hi) <==> j == i
    {
    }
    WindowStep(ev, 0, lo, hi);
    WindowStep(ev, 1, lo, hi);
    WindowStep(ev, 2, lo, hi);
    WindowStep(ev, 3, lo, hi);
  }

  lemma WindowStep(ev: seq<Signal.FundingEvent>, n: nat, lo: int, hi: int)
    requires n < |ev|
    ensures Signal.Observed(ev, n + 1, lo, hi)
         == Signal.Observed(ev, n, lo, hi) + if Signal.InWindow(ev[n].at, lo, hi) then 1 else 0
    ensures Signal.WindowSum(ev, n + 1, lo, hi)
         == Signal.WindowSum(ev, n, lo, hi) + if Signal.InWindow(ev[n].at, lo, hi) then ev[n].rate else 0.0
  {
  }

  // After the first day the signal has the sign of the last payment.
  lemma DailySignal(ev: seq<Signal.FundingEvent>, i: nat)
    requires Daily(ev) && i < 4
    ensures Signal.SmoothAt(ev, i, 1, 2 * DAY, 1.0).None? <==> i == 0
    ensures i > 0 ==> (Signal.SmoothAt(ev, i, 1, 2 * DAY, 1.0).value > 0.0 <==> ev[i].rate > 0.0)
    ensures i > 0 ==> (Signal.SmoothAt(ev, i, 1, 2 * DAY, 1.0).value < 0.0 <==> ev[i].rate < 0.0)
  {
    DailyWindow(ev, i);
    Rounding.RoundDivIsUnique(2 * DAY, 2 * DAY, 1);
    Signal.SmoothAtMeans(ev, i, 1, 2 * DAY, 1.0);
    SignOfQuotient(ev[i].rate, DAY as real / Signal.NS_PER_YEAR);
  }

  lemma SignOfQuotient(a: real, b: real)
    requires b > 0.0
    ensures (a / b > 0.0 <==> a > 0.0) && (a / b < 0.0 <==> a < 0.0)
  {
    var q := a / b;
    assert q * b == a;
  }

  lemma DailyDecisions(signals: seq<Option<real>>)
    requires |signals| == 4 && signals[0].None? && forall i | 0 < i < 4 :: signals[i].Some?
    requires signals[1].value > 0.0 && signals[2].value < 0.0 && signals[3].value > 0.0
    ensures Signal.Decisions(signals, Signal.DecideCarryPayment, 0.0, 0.0) == [false, true, false, true]
  {
    var f := n requires 0 <= n <= 4 => Signal.DecisionAfter(signals, Signal.DecideCarryPayment, 0.0, 0.0, n);
    assert f(0) == false;
    assert f(1) == false;
    assert f(2) == true;
    assert f(3) == false;
    assert f(4) == true;
  }

  ghost predicate DailyRun(x: Input) {
    && Aligned(x) && |x.flows| == 4
    && x.decisions == [false, true, false, true] && x.exposures == [false, false, true, false]
    && x.terms == Terms(1.0, 1.0, 0.0, 0.0, false)
    && x.flows[2].rate == -0.01 && x.flows[2].borrowRate == 0.0 && x.flows[2].basis == 0.0
  }

  lemma DailyLedger() returns (x: Input)
    ensures Fault(DailyInputs()).None? && x == LedgerOf(DailyInputs(), Signal.DecideCarryPayment)
    ensures DailyRun(x)
  {
    hide Signal.SmoothAt, Signal.Decisions, Signal.Observed, Signal.WindowSum, Signal.TwiceMedian;
    var p := DailyInputs();
    var ev := FundingEvents(p.events);
    assert Daily(ev);
    assert Signal.HalfInterval(ev, p.smoothing.interval) == Some(2 * DAY);
    assert Fault(p).None?;
    forall i: nat | i < 4
      ensures Signal.Signals(ev, p.smoothing)[i] == Signal.SmoothAt(ev, i, 1, 2 * DAY, 1.0)
    {
    }
    DailySignal(ev, 0);
    DailySignal(ev, 1);
    DailySignal(ev, 2);
    DailySignal(ev, 3);
    DailyDecisions(Signal.Signals(ev, p.smoothing));
    x := LedgerOf(p, Signal.DecideCarryPayment);
    assert x.exposures == [false, false, true, false];
  }

  // Equity stands at one until the exposed event takes a hundredth.
  lemma DailyEquities(x: Input)
    requires DailyRun(x)
    ensures LedgerEquities(x)[1] == 1.0 && LedgerEquities(x)[2] == 0.99
  {
    hide BookAfter, LedgerEquities, Compound, Post, NextBook;
    DailyStart(x);
    BookStep(x, 2);
    GrowthStep(x, 2, BookAfter(x, 2));
    ExposedDay(x, BookAfter(x, 2));
    LedgerEquitiesAre(x, 1);
    LedgerEquitiesAre(x, 2);
  }

  lemma DailyStart(x: Input)
    requires DailyRun(x)
    ensures BookAfter(x, 2).equity == 1.0 && BookAfter(x, 2).entryNotional == 1.0
  {
    hide BookAfter, EntryCost, NetOfEntry;
    FreeEntry(x.terms);
    NothingTaken(1.0);
    EmptyBook(x);
    UnexposedStep(x, 0);
    UnexposedStep(x, 1);
    TermsFixedAtEntry(x, 1, 2);
  }

  lemma FreeEntry(t: Terms)
    requires t.feeRate == 0.0 && t.slippageBps == 0.0
    ensures EntryCost(t) == 0.0
  {
  }

  lemma NothingTaken(equity: real)
    ensures NetOfEntry(equity, 0.0) == equity
  {
  }

  lemma ExposedDay(x: Input, b: Book)
    requires DailyRun(x) && b.equity == 1.0 && b.entryNotional == 1.0
    ensures Net(Post(x, 2, b)) == -0.01
  {
    hide Charged, Fee, Slippage, Funding, Borrow, Basis;
    FreeOfCharge(x.terms, Charged(x, 2, b));
    ExposedAmounts(x, 2, b);
  }

  // What an exposed event pays at a fixed notional, with no borrow rate and no basis.
  lemma ExposedAmounts(x: Input, i: nat, b: Book)
    requires Shaped(x) && i < |x.flows| && x.exposures[i] && !x.terms.priced && b.entryNotional == 1.0
    requires x.flows[i].borrowRate == 0.0 && x.flows[i].basis == 0.0
    ensures Funding(x, i, b) == x.flows[i].rate && Borrow(x, i, b) == 0.0 && Basis(x, i, b) == 0.0
  {
    hide ElapsedYears;
  }

  lemma FreeOfCharge(t: Terms, charged: real)
    requires t.feeRate == 0.0 && t.slippageBps == 0.0
    ensures Fee(t, charged) == 0.0 && Slippage(t, charged) == 0.0
  {
  }

  lemma LiquidatedAtTwo(x: Input, m: Margin)
    requires DailyRun(x) && m == Margin(0.5, 0.4, 0.0) && LedgerEquities(x)[1] == 1.0 && LedgerEquities(x)[2] == 0.99
    ensures var r := Liquidate(x.terms.initial, x.terms.leverage, m, Returns(x), x.exposures);
            r.Success? && r.value.at == Some(2)
            && |r.value.pnl| == |r.value.equity| == |r.value.applied| == |x.flows|
  {
    hide Compound;
    var e := LedgerEquities(x);
    assert EntryEquityAt(1.0, e, x.exposures, 2) == 1.0;
    assert Breach(1.0, 1.0, m, e, x.exposures, 2);
    hide Breach, EntryEquityAt, LiquidationReturn, AfterLiquidation;
    FirstBreachIs(1.0, 1.0, m, e, x.exposures, 2);
  }

  // Entered at event 1 and again at 3, liquidated at 2: the report of the run lists the entry at 3
  // and says that no position was decided there.
  lemma ContradictoryReportExists() returns (p: Inputs)
    ensures Backtest(p, Signal.DecideCarryPayment).Success?
    ensures var r := Backtest(p, Signal.DecideCarryPayment).value;
            r.liquidatedAt == Some(2) && 3 in r.entries && |r.decisions| == 4 && !r.decisions[3]
  {
    p := DailyInputs();
    assert p.margin == Margin(0.5, 0.4, 0.0);
    var x := DailyLedger();
    hide Fault, LedgerOf, Liquidate, ReportOf, Compound, Breach, DailyInputs, BookAfter;
    assert FirstUnpriced(x, 0).None?;
    DailyEquities(x);
    LiquidatedAtTwo(x, p.margin);
    var o := Liquidate(x.terms.initial, x.terms.leverage, p.margin, Returns(x), x.exposures).value;
    EntriesOutliveLiquidation(x, o, 3);
    ReportSays(x, o);
  }

  lemma ReportSays(x: Input, o: Outcome)
    requires Shaped(x) && x.flows != [] && |o.pnl| == |o.equity| == |o.applied| == |x.flows|
    ensures ReportOf(x, o).liquidatedAt == o.at && |ReportOf(x, o).decisions| == |x.flows|
  {
    hide Adjustment, Rows, Entries, Exits;
  }
}
