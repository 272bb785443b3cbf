/**
 * The cash ledger of a carry run: per funding event the funding, borrow, basis, fee and
 * slippage amounts, the return, and the equity carried to the next event.
 */
module CarryLedger {
  import opened Prelude
  import CarrySignal

  datatype Flow = Flow(at: int, rate: real, borrowRate: real, basis: real, price: Option<real>)

  // priced: the notional follows quantity times price; otherwise it stays at its entry value.
  datatype Terms = Terms(initial: real, leverage: real, feeRate: real, slippageBps: real, priced: bool)

  datatype Input = Input(flows: seq<Flow>, decisions: seq<bool>, exposures: seq<bool>, terms: Terms)

  datatype Posting = Posting(funding: real, borrow: real, basis: real, fee: real, slippage: real, pnl: real)

  datatype Book = Book(equity: real, entryNotional: real, principal: real, qty: real)

  predicate Shaped(x: Input) {
    |x.flows| == |x.decisions| == |x.exposures|
  }

  // The exposure is the previous decision: what backtest_carry passes in.
  predicate Aligned(x: Input) {
    Shaped(x) && x.exposures == CarrySignal.Lagged(x.decisions)
  }

  function Max0(x: real): real {
    if x > 0.0 then x else 0.0
  }

  function Years(from: int, to: int): real {
    (to - from) as real / CarrySignal.NS_PER_YEAR
  }

  function ElapsedYears(x: Input, i: nat): real
    requires i < |x.flows|
  {
    if i == 0 then 0.0 else Years(x.flows[i - 1].at, x.flows[i].at)
  }

  predicate Decided(x: Input, i: int)
    requires i < |x.decisions|
  {
    i >= 0 && x.decisions[i]
  }

  predicate Opened(x: Input, i: nat)
    requires i < |x.decisions|
  {
    x.decisions[i] && !Decided(x, i - 1)
  }

  predicate Closed(x: Input, i: nat)
    requires i < |x.decisions|
  {
    !x.decisions[i] && Decided(x, i - 1)
  }

  predicate Touched(x: Input, i: nat)
    requires Shaped(x) && i < |x.flows|
  {
    x.exposures[i] || Opened(x, i) || Closed(x, i)
  }

  // A needed price is absent or not positive: the run raises there.
  predicate Unpriced(x: Input, i: nat)
    requires Shaped(x) && i < |x.flows|
  {
    x.terms.priced && Touched(x, i) && !(x.flows[i].price.Some? && x.flows[i].price.value > 0.0)
  }

  predicate Priceable(x: Input)
    requires Shaped(x)
  {
    forall i | 0 <= i < |x.flows| :: !Unpriced(x, i)
  }

  function EventPrice(x: Input, i: nat): Option<real>
    requires Shaped(x) && i < |x.flows|
    ensures EventPrice(x, i).Some? ==> EventPrice(x, i).value > 0.0
  {
    if x.terms.priced && Touched(x, i) && !Unpriced(x, i) then x.flows[i].price else None
  }

  function Notional(price: Option<real>, b: Book): real {
    if price.Some? then AbsR(b.qty * price.value) else b.entryNotional
  }

  function Funding(x: Input, i: nat, b: Book): real
    requires Shaped(x) && i < |x.flows|
  {
    if x.exposures[i] then Notional(EventPrice(x, i), b) * x.flows[i].rate else 0.0
  }

  function Borrow(x: Input, i: nat, b: Book): real
    requires Shaped(x) && i < |x.flows|
  {
    if x.exposures[i] then b.principal * x.flows[i].borrowRate * ElapsedYears(x, i) else 0.0
  }

  function Basis(x: Input, i: nat, b: Book): real
    requires Shaped(x) && i < |x.flows|
  {
    if x.exposures[i] then Notional(EventPrice(x, i), b) * x.flows[i].basis else 0.0
  }

  function AfterEvent(x: Input, i: nat, b: Book): real
    requires Shaped(x) && i < |x.flows|
  {
    b.equity + Funding(x, i, b) - Borrow(x, i, b) + Basis(x, i, b)
  }

  // A multiple of the equity, a negative equity counting as none.
  function Geared(equity: real, factor: real): real {
    Max0(equity) * factor
  }

  // The notional on which the two legs of an opening or a closing are charged.
  function Charged(x: Input, i: nat, b: Book): real
    requires Shaped(x) && i < |x.flows|
  {
    if Opened(x, i) then Geared(AfterEvent(x, i, b), x.terms.leverage)
    else if Closed(x, i) then Notional(EventPrice(x, i), b)
    else 0.0
  }

  // Two legs each.
  function Fee(terms: Terms, charged: real): real {
    2.0 * terms.feeRate * charged
  }

  function Slippage(terms: Terms, charged: real): real {
    2.0 * terms.slippageBps / 10000.0 * charged
  }

  // The posting of one event; its return is relative to the equity before the event.
  function ReturnOf(equity: real, net: real): real {
    if equity <= 0.0 then -1.0 else net / equity
  }

  function Settle(equity: real, funding: real, borrow: real, basis: real, fee: real, slippage: real): Posting {
    Posting(funding, borrow, basis, fee, slippage, ReturnOf(equity, funding - borrow + basis - fee - slippage))
  }

  function Post(x: Input, i: nat, b: Book): Posting
    requires Shaped(x) && i < |x.flows|
  {
    Settle(b.equity, Funding(x, i, b), Borrow(x, i, b), Basis(x, i, b),
           Fee(x.terms, Charged(x, i, b)), Slippage(x.terms, Charged(x, i, b)))
  }

  function Net(p: Posting): real {
    p.funding - p.borrow + p.basis - p.fee - p.slippage
  }

  // The state just after an opening: the quantity follows only when a price is known.
  function EntryBook(equity: real, notional: real, principal: real, price: Option<real>, qty: real): Book
    requires price.Some? ==> price.value > 0.0
  {
    Book(equity, notional, principal, if price.Some? then notional / price.value else qty)
  }

  function NextBook(x: Input, i: nat, b: Book): Book
    requires Shaped(x) && i < |x.flows|
  {
    var equity := if b.equity <= 0.0 then 0.0 else b.equity + Net(Post(x, i, b));
    if Closed(x, i) then Book(equity, 0.0, 0.0, 0.0)
    else if Opened(x, i) then
      EntryBook(equity, Geared(AfterEvent(x, i, b), x.terms.leverage),
                Geared(AfterEvent(x, i, b), Max0(x.terms.leverage - 1.0)), EventPrice(x, i), b.qty)
    else b.(equity := equity)
  }

  function BookAfter(x: Input, n: nat): Book
    requires Shaped(x) && n <= |x.flows|
  {
    if n == 0 then Book(x.terms.initial, 0.0, 0.0, 0.0) else NextBook(x, n - 1, BookAfter(x, n - 1))
  }

  function PostingAt(x: Input, i: nat): Posting
    requires Shaped(x) && i < |x.flows|
  {
    Post(x, i, BookAfter(x, i))
  }

  function Postings(x: Input): (r: seq<Posting>)
    requires Shaped(x)
    ensures |r| == |x.flows|
  {
    seq(|x.flows|, i requires 0 <= i < |x.flows| => PostingAt(x, i))
  }

  // The event indices of openings (closings) among the first n events.
  function Entries(x: Input, n: nat): seq<nat>
    requires n <= |x.decisions|
  {
    if n == 0 then [] else Entries(x, n - 1) + if Opened(x, n - 1) then [n - 1] else []
  }

  function Exits(x: Input, n: nat): seq<nat>
    requires n <= |x.decisions|
  {
    if n == 0 then [] else Exits(x, n - 1) + if Closed(x, n - 1) then [n - 1] else []
  }

  // The recurring amounts of one event.
  method Accrue(x: Input, i: nat, b: Book, price: Option<real>) returns (funding: real, borrow: real, basis: real)
    requires Shaped(x) && i < |x.flows| && price == EventPrice(x, i)
    ensures funding == Funding(x, i, b) && borrow == Borrow(x, i, b) && basis == Basis(x, i, b)
  {
    funding, borrow, basis := 0.0, 0.0, 0.0;
    if x.exposures[i] {
      var notional := if price.Some? then AbsR(b.qty * price.value) else b.entryNotional;
      funding := notional * x.flows[i].rate;
      borrow := b.principal * x.flows[i].borrowRate * ElapsedYears(x, i);
      basis := notional * x.flows[i].basis;
    }
  }

  // One turn of the loop: what is posted and the state carried on.
  method PostEvent(x: Input, i: nat, b: Book, previous: bool, price: Option<real>) returns (p: Posting, next: Book)
    requires Shaped(x) && i < |x.flows| && price == EventPrice(x, i) && previous == Decided(x, i - 1)
    ensures p == Post(x, i, b) && next == NextBook(x, i, b)
  {
    hide Funding, Borrow, Basis, Notional, Net, Geared;
    var active := x.decisions[i];
    var funding, borrow, basis := Accrue(x, i, b, price);
    var afterEvent := b.equity + funding - borrow + basis;
    next := b;
    var charged := 0.0;
    if active && !previous {
      charged := Geared(afterEvent, x.terms.leverage);
      next := EntryBook(b.equity, charged, Geared(afterEvent, Max0(x.terms.leverage - 1.0)), price, b.qty);
    } else if !active && previous {
      charged := Notional(price, b);
      next := Book(b.equity, 0.0, 0.0, 0.0);
    }
    p := Settle(b.equity, funding, borrow, basis, Fee(x.terms, charged), Slippage(x.terms, charged));
    next := next.(equity := if b.equity <= 0.0 then 0.0 else b.equity + Net(p));
  }

  // The ledger loop.  It raises at the first event whose price is needed and unavailable.
  method CarryFixedPositionAmounts(x: Input)
    returns (r: Result<seq<Posting>, nat>, entries: seq<nat>, exits: seq<nat>, equity: real)
    requires Shaped(x)
    ensures r.Success? <==> Priceable(x)
    ensures r.Success? ==> r.value == Postings(x) && equity == BookAfter(x, |x.flows|).equity
    ensures r.Success? ==> entries == Entries(x, |x.flows|) && exits == Exits(x, |x.flows|)
    ensures r.Failure? ==> r.error < |x.flows| && Unpriced(x, r.error) && forall j: nat | j < r.error :: !Unpriced(x, j)
  {
    hide Post, NextBook;
    var book, previous := Book(x.terms.initial, 0.0, 0.0, 0.0), false;
    var postings: seq<Posting> := [];
    equity, entries, exits := x.terms.initial, [], [];
    for i := 0 to |x.flows|
      invariant |postings| == i
      invariant forall j | 0 <= j < i :: !Unpriced(x, j)
      invariant forall j | 0 <= j < i :: postings[j] == PostingAt(x, j)
      invariant book == BookAfter(x, i)
      invariant previous == Decided(x, i - 1)
      invariant entries == Entries(x, i) && exits == Exits(x, i)
    {
      var active := x.decisions[i];
      var price: Option<real> := None;
      if x.terms.priced && (x.exposures[i] || active != previous) {
        price := x.flows[i].price;
        if price.None? || price.value <= 0.0 {
          assert Unpriced(x, i);
          return Failure(i), entries, exits, equity;
        }
      }
      var posting, next := PostEvent(x, i, book, previous, price);
      postings := postings + [posting];
      entries := entries + if active && !previous then [i] else [];
      exits := exits + if !active && previous then [i] else [];
      book, previous := next, active;
    }
    assert postings == Postings(x);
    equity := book.equity;
    r := Success(postings);
  }
}
