/** The whole carry backtest: signal, ledger and liquidation in one run. */
module CarryBacktest {
  import opened Prelude
  import opened CarryLedger
  import opened CarryAccounting
  import opened CarryLiquidation
  import Slots = FundingSlots
  import Signal = CarrySignal

  const PRICE_LAG: int := 3_600_000_000_000     // the previous completed hourly candle
  const PRICE_TOLERANCE: int := 1_000_000_000

  datatype MarketEvent = MarketEvent(at: int, rate: real, borrowRate: real, spot: real, perp: real)

  // candles: closes by opening time; observed: the basis comes from the spot and perp columns.
  datatype Inputs = Inputs(events: seq<MarketEvent>, candles: Option<map<int, real>>, observed: bool,
                           smoothing: Signal.SmoothingTerms, enter: real, exit: real,
                           initial: real, leverage: real, feeRate: real, slippageBps: real, margin: Margin)

  datatype CarryError = Unordered | Empty | BadParameter | NegativeBorrowRate | BadBasisPrice
                      | BadSignal(s: Signal.SignalError)
                      | BadCandle | SlotFailure(at: nat) | PriceUnavailable(at: nat) | ZeroDivision(at: nat)

  // The five component amounts, the final return, per event.
  datatype Report = Report(decisions: seq<bool>, exposures: seq<bool>, rows: seq<Posting>, equity: seq<real>,
                           liquidatedAt: Option<nat>, entries: seq<nat>, exits: seq<nat>, adjustment: real)

  // ---- resolving the inputs ----

  predicate InOrder(ev: seq<MarketEvent>) {
    forall i, j | 0 <= i < j < |ev| :: ev[i].at < ev[j].at
  }

  function FundingEvents(ev: seq<MarketEvent>): (r: seq<Signal.FundingEvent>)
    ensures |r| == |ev|
    ensures forall i | 0 <= i < |ev| :: r[i] == Signal.FundingEvent(ev[i].at, ev[i].rate)
  {
    seq(|ev|, i requires 0 <= i < |ev| => Signal.FundingEvent(ev[i].at, ev[i].rate))
  }

  predicate ValidParameters(p: Inputs) {
    && p.leverage >= 1.0
    && ValidMargin(p.margin)
    && p.margin.haircut < 1.0 && p.margin.maintenance < 0.5
  }

  function PriceInterval(p: Inputs): int {
    if p.smoothing.interval.Some? then p.smoothing.interval.value else PRICE_LAG
  }

  predicate OnSlot(p: Inputs, i: nat)
    requires i < |p.events|
  {
    Slots.FundingSlot(p.events[i].at, PriceInterval(p), PRICE_TOLERANCE).Success?
  }

  function SlotOf(p: Inputs, i: nat): int
    requires i < |p.events| && OnSlot(p, i)
  {
    Slots.FundingSlot(p.events[i].at, PriceInterval(p), PRICE_TOLERANCE).value
  }

  // The close of the candle that ended when the event's slot began.
  function PriceAsof(p: Inputs, i: nat): Option<real>
    requires i < |p.events|
  {
    if p.candles.None? || !OnSlot(p, i) then None
    else
      var open := SlotOf(p, i) - PRICE_LAG;
      if open in p.candles.value then Some(p.candles.value[open]) else None
  }

  function BasisReturn(p: Inputs, i: nat): real
    requires i < |p.events|
  {
    if !p.observed || i == 0 || p.events[i - 1].spot <= 0.0 || p.events[i - 1].perp <= 0.0 then 0.0
    else (p.events[i].spot / p.events[i - 1].spot - 1.0) - (p.events[i].perp / p.events[i - 1].perp - 1.0)
  }

  function FlowAt(p: Inputs, i: nat): Flow
    requires i < |p.events|
  {
    Flow(p.events[i].at, p.events[i].rate, p.events[i].borrowRate, BasisReturn(p, i), PriceAsof(p, i))
  }

  function Flows(p: Inputs): (r: seq<Flow>)
    ensures |r| == |p.events|
  {
    seq(|p.events|, i requires 0 <= i < |p.events| => FlowAt(p, i))
  }

  // The checks that precede the ledger, in order.
  function Fault(p: Inputs): Option<CarryError> {
    if !InOrder(p.events) then Some(Unordered)
    else if p.events == [] then Some(Empty)
    else if !ValidParameters(p) then Some(BadParameter)
    else if exists i :: 0 <= i < |p.events| && p.events[i].borrowRate < 0.0 then Some(NegativeBorrowRate)
    else if p.observed && exists i :: 0 <= i < |p.events| && (p.events[i].spot <= 0.0 || p.events[i].perp <= 0.0) then
      Some(BadBasisPrice)
    else if Signal.SignalFault(FundingEvents(p.events), p.smoothing).Some? then
      Some(BadSignal(Signal.SignalFault(FundingEvents(p.events), p.smoothing).value))
    else if p.candles.None? then None
    else if exists t :: t in p.candles.value && p.candles.value[t] <= 0.0 then Some(BadCandle)
    else FirstOffSlot(p, 0)
  }

  function FirstOffSlot(p: Inputs, from: nat): (r: Option<CarryError>)
    requires from <= |p.events|
    ensures r.None? <==> forall i | from <= i < |p.events| :: OnSlot(p, i)
    decreases |p.events| - from
  {
    if from == |p.events| then None
    else if !OnSlot(p, from) then Some(SlotFailure(from))
    else FirstOffSlot(p, from + 1)
  }

  // None of the checks fails.
  lemma ChecksPass(p: Inputs)
    ensures Fault(p).None? <==>
              && InOrder(p.events) && p.events != [] && ValidParameters(p)
              && (forall i | 0 <= i < |p.events| :: p.events[i].borrowRate >= 0.0)
              && (p.observed ==> forall i | 0 <= i < |p.events| :: p.events[i].spot > 0.0 && p.events[i].perp > 0.0)
              && Signal.SignalFault(FundingEvents(p.events), p.smoothing).None?
              && (p.candles.Some? ==>
                    && (forall t | t in p.candles.value :: p.candles.value[t] > 0.0)
                    && forall i | 0 <= i < |p.events| :: OnSlot(p, i))
  {
    hide InOrder, ValidParameters, OnSlot, Signal.SignalFault;
  }

  function LedgerOf(p: Inputs, decide: Signal.Policy): (x: Input)
    requires Fault(p).None?
    ensures Aligned(x) && |x.flows| == |p.events| && x.flows == Flows(p)
    ensures x.terms == Terms(p.initial, p.leverage, p.feeRate, p.slippageBps, p.candles.Some?)
  {
    var d := Signal.Decisions(Signal.Signals(FundingEvents(p.events), p.smoothing), decide, p.enter, p.exit);
    Input(Flows(p), d, Signal.Lagged(d), Terms(p.initial, p.leverage, p.feeRate, p.slippageBps, p.candles.Some?))
  }

  // ---- reporting ----

  // Components after the liquidating event are erased; the return is the final one.
  function RowAt(x: Input, o: Outcome, i: nat): Posting
    requires Shaped(x) && |o.pnl| == |x.flows| && i < |x.flows|
  {
    if o.at.Some? && i > o.at.value then Posting(0.0, 0.0, 0.0, 0.0, 0.0, o.pnl[i])
    else PostingAt(x, i).(pnl := o.pnl[i])
  }

  function Rows(x: Input, o: Outcome): (r: seq<Posting>)
    requires Shaped(x) && |o.pnl| == |x.flows|
    ensures |r| == |x.flows|
    ensures forall i | 0 <= i < |r| :: r[i] == RowAt(x, o, i)
  {
    seq(|x.flows|, i requires 0 <= i < |x.flows| => RowAt(x, o, i))
  }

  function RowTotals(rows: seq<Posting>, n: nat): Totals
    requires n <= |rows|
  {
    if n == 0 then Totals(0.0, 0.0, 0.0, 0.0, 0.0) else AddRow(RowTotals(rows, n - 1), rows[n - 1])
  }

  function Keep(decisions: seq<bool>, at: Option<nat>): (d: seq<bool>)
    ensures |d| == |decisions|
    ensures forall i | 0 <= i < |d| :: d[i] == (decisions[i] && (at.None? || i <= at.value))
  {
    seq(|decisions|, i requires 0 <= i < |decisions| => decisions[i] && (at.None? || i <= at.value))
  }

  function Adjustment(initial: real, rows: seq<Posting>, equity: seq<real>): real
    requires |rows| == |equity| > 0
  {
    equity[|equity| - 1] - initial - NetTotal(RowTotals(rows, |rows|))
  }

  function ReportOf(x: Input, o: Outcome): Report
    requires Shaped(x) && x.flows != [] && |o.pnl| == |o.equity| == |o.applied| == |x.flows|
  {
    Report(Keep(x.decisions, o.at), o.applied, Rows(x, o), o.equity, o.at,
           Entries(x, |x.flows|), Exits(x, |x.flows|), Adjustment(x.terms.initial, Rows(x, o), o.equity))
  }

  function FirstUnpriced(x: Input, from: nat): (r: Option<nat>)
    requires Shaped(x) && from <= |x.flows|
    ensures r.Some? ==> r.value < |x.flows| && Unpriced(x, r.value)
    ensures forall i: nat | from <= i < (if r.Some? then r.value else |x.flows|) :: !Unpriced(x, i)
    decreases |x.flows| - from
  {
    if from == |x.flows| then None else if Unpriced(x, from) then Some(from) else FirstUnpriced(x, from + 1)
  }

  // Ledger, liquidation and report, with their failures.
  function LedgerReport(x: Input, margin: Margin): Result<Report, CarryError>
    requires Shaped(x) && x.flows != []
  {
    if FirstUnpriced(x, 0).Some? then Failure(PriceUnavailable(FirstUnpriced(x, 0).value))
    else
      match Liquidate(x.terms.initial, x.terms.leverage, margin, Returns(x), x.exposures)
      case Failure(e) => Failure(ZeroDivision(e.at))
      case Success(o) => Success(ReportOf(x, o))
  }

  function Backtest(p: Inputs, decide: Signal.Policy): Result<Report, CarryError> {
    if Fault(p).Some? then Failure(Fault(p).value) else LedgerReport(LedgerOf(p, decide), p.margin)
  }

  method ResolvePrices(p: Inputs) returns (r: Result<seq<Option<real>>, CarryError>)
    ensures p.candles.Some? && FirstOffSlot(p, 0).Some? ==> r == Failure(FirstOffSlot(p, 0).value)
    ensures p.candles.None? || FirstOffSlot(p, 0).None? ==>
              r.Success? && |r.value| == |p.events| && forall i | 0 <= i < |p.events| :: r.value[i] == PriceAsof(p, i)
  {
    var prices: seq<Option<real>> := [];
    for i := 0 to |p.events|
      invariant |prices| == i && forall j | 0 <= j < i :: prices[j] == PriceAsof(p, j)
      invariant p.candles.Some? ==> FirstOffSlot(p, 0) == FirstOffSlot(p, i)
    {
      var price: Option<real> := None;
      if p.candles.Some? {
        var slot := Slots.FundingSlot(p.events[i].at, PriceInterval(p), PRICE_TOLERANCE);
        if slot.Failure? {
          return Failure(SlotFailure(i));
        }
        if slot.value - PRICE_LAG in p.candles.value {
          price := Some(p.candles.value[slot.value - PRICE_LAG]);
        }
      }
      prices := prices + [price];
    }
    r := Success(prices);
  }

  method BacktestCarry(p: Inputs, decide: Signal.Policy) returns (r: Result<Report, CarryError>)
    ensures r == Backtest(p, decide)
  {
    var fault := Fault(p);
    if fault.Some? {
      return Failure(fault.value);
    }
    var positions := Signal.CarryAppliedPositions(FundingEvents(p.events), p.smoothing, decide, p.enter, p.exit);
    var (decisions, exposures) := positions.value;
    var prices := ResolvePrices(p);
    var flows := seq(|p.events|, i requires 0 <= i < |p.events| =>
      Flow(p.events[i].at, p.events[i].rate, p.events[i].borrowRate, BasisReturn(p, i), prices.value[i]));
    var x := Input(flows, decisions, exposures,
                   Terms(p.initial, p.leverage, p.feeRate, p.slippageBps, p.candles.Some?));
    assert flows == Flows(p);
    assert x == LedgerOf(p, decide);
    r := RunLedger(x, p.margin);
  }

  // Ledger, then the liquidation pass on copies of the two series.
  method RunLedger(x: Input, margin: Margin) returns (r: Result<Report, CarryError>)
    requires Aligned(x) && x.flows != []
    ensures r == LedgerReport(x, margin)
  {
    hide PostingAt, Unpriced, ReportOf;
    var postings, entries, exits, _ := CarryFixedPositionAmounts(x);
    if postings.Failure? {
      FirstUnpricedIs(x, postings.error);
      return Failure(PriceUnavailable(postings.error));
    }
    var pnl := new real[|x.flows|](i requires 0 <= i < |x.flows| => postings.value[i].pnl);
    var applied := new bool[|x.flows|](i requires 0 <= i < |x.flows| => x.exposures[i]);
    assert pnl[..] == Returns(x);
    assert applied[..] == x.exposures;
    var liquidation := ApplyCarryLiquidation(pnl, applied, x.terms.initial, x.terms.leverage, margin);
    if liquidation.Failure? {
      return Failure(ZeroDivision(liquidation.error.at));
    }
    var (equity, at) := liquidation.value;
    r := Success(ReportOf(x, Outcome(pnl[..], equity, applied[..], at)));
  }

  lemma FirstUnpricedIs(x: Input, i: nat)
    requires Shaped(x) && i < |x.flows| && Unpriced(x, i) && forall j: nat | j < i :: !Unpriced(x, j)
    ensures FirstUnpriced(x, 0) == Some(i)
  {
    var r := FirstUnpriced(x, 0);
    assert r.Some? ==> Unpriced(x, r.value);
  }
}
