/** What the carry ledger guarantees over a whole run. */
module CarryAccounting {
  import opened Prelude
  import opened CarryLedger

  // ---- compounding the returns gives back the carried equity, through ruin ----

  // initial * (1 + pnl[0]) * ... * (1 + pnl[n - 1])
  function Compound(initial: real, pnl: seq<real>, n: nat): real
    requires n <= |pnl|
  {
    if n == 0 then initial else Compound(initial, pnl, n - 1) * (1.0 + pnl[n - 1])
  }

  function Returns(x: Input): (r: seq<real>)
    requires Shaped(x)
    ensures |r| == |x.flows|
  {
    seq(|x.flows|, i requires 0 <= i < |x.flows| => PostingAt(x, i).pnl)
  }

  lemma GrowthStep(x: Input, i: nat, b: Book)
    requires Shaped(x) && i < |x.flows|
    ensures NextBook(x, i, b).equity == b.equity * (1.0 + Post(x, i, b).pnl)
    ensures NextBook(x, i, b).equity == if b.equity <= 0.0 then 0.0 else b.equity + Net(Post(x, i, b))
  {
    hide Funding, Borrow, Basis, Charged;
  }

  // initial times the running product of one plus the return is the equity the loop carries.
  lemma {:induction false} CompoundedReturnsAreEquity(x: Input, n: nat)
    requires Shaped(x) && n <= |x.flows|
    ensures Compound(x.terms.initial, Returns(x), n) == BookAfter(x, n).equity
  {
    hide Post, NextBook;
    if n > 0 {
      CompoundedReturnsAreEquity(x, n - 1);
      GrowthStep(x, n - 1, BookAfter(x, n - 1));
    }
  }

  // ---- conservation ----

  datatype Totals = Totals(funding: real, borrow: real, basis: real, fee: real, slippage: real)

  function AddRow(t: Totals, p: Posting): Totals {
    Totals(t.funding + p.funding, t.borrow + p.borrow, t.basis + p.basis, t.fee + p.fee, t.slippage + p.slippage)
  }

  // Component sums over events from <= i < to.
  function TotalsOf(x: Input, from: nat, to: nat): Totals
    requires Shaped(x) && from <= to <= |x.flows|
  {
    if to == from then Totals(0.0, 0.0, 0.0, 0.0, 0.0) else AddRow(TotalsOf(x, from, to - 1), PostingAt(x, to - 1))
  }

  function NetTotal(t: Totals): real {
    t.funding - t.borrow + t.basis - t.fee - t.slippage
  }

  // Equity was positive before each of the first n events.
  ghost predicate SolventBefore(x: Input, n: nat)
    requires Shaped(x) && n <= |x.flows|
  {
    forall i | 0 <= i < n :: BookAfter(x, i).equity > 0.0
  }

  // Closed form of the carried equity: every cent is accounted for up to and including the
  // event that ruins the account, and nothing is left afterwards.
  lemma {:induction false} ConservationThroughRuin(x: Input, n: nat)
    requires Shaped(x) && n <= |x.flows|
    ensures SolventBefore(x, n) ==> BookAfter(x, n).equity == x.terms.initial + NetTotal(TotalsOf(x, 0, n))
    ensures !SolventBefore(x, n) ==> BookAfter(x, n).equity == 0.0
  {
    hide Post, NextBook;
    if n > 0 {
      ConservationThroughRuin(x, n - 1);
      GrowthStep(x, n - 1, BookAfter(x, n - 1));
      if SolventBefore(x, n) {
        assert SolventBefore(x, n - 1);
      } else if SolventBefore(x, n - 1) {
        assert BookAfter(x, n - 1).equity <= 0.0;
      }
    }
  }

  // ---- who is exposed, and to what ----

  // Decided on at s, held until the decision is withdrawn at e.
  ghost predicate Holding(x: Input, s: nat, e: nat)
    requires Shaped(x)
  {
    && s < e < |x.flows|
    && Opened(x, s)
    && Closed(x, e)
    && forall i | s <= i < e :: x.decisions[i]
  }

  // Decided on at s and not withdrawn before event n, whether or not it ever is.
  ghost predicate HeldTo(x: Input, s: nat, n: nat)
    requires Shaped(x)
  {
    s <= n < |x.flows| && Opened(x, s) && forall i | s <= i < n :: x.decisions[i]
  }

  function EntryEquity(x: Input, s: nat): real
    requires Shaped(x) && s < |x.flows|
  {
    Max0(BookAfter(x, s).equity)
  }

  // Opening means not yet exposed, closing means still exposed.
  lemma {:induction false} SwitchesAndExposure(x: Input, i: nat)
    requires Aligned(x) && i < |x.flows|
    ensures Opened(x, i) ==> !x.exposures[i] && AfterEvent(x, i, BookAfter(x, i)) == BookAfter(x, i).equity
    ensures Closed(x, i) ==> x.exposures[i]
    ensures !x.exposures[i] && !Opened(x, i) ==> Net(PostingAt(x, i)) == 0.0
  {
    hide BookAfter;
  }

  // A holding is exposed at exactly the events in (s, e].
  lemma {:induction false} HoldingIsExposed(x: Input, s: nat, e: nat, i: nat)
    requires Aligned(x) && Holding(x, s, e) && s <= i <= e + 1 && i < |x.flows|
    ensures x.exposures[i] <==> s < i <= e
  {
  }

  // A position held to n is exposed at the events in (s, n].
  lemma HeldIsExposed(x: Input, s: nat, n: nat)
    requires Aligned(x) && HeldTo(x, s, n)
    ensures x.exposures[n] <==> s < n
    ensures s < n ==> HeldTo(x, s, n - 1)
  {
  }

  // Conversely every exposed event belongs to a holding, closed or still running.
  lemma {:induction false} ExposureHasAnEntry(x: Input, i: nat) returns (s: nat)
    requires Aligned(x) && i < |x.flows| && x.exposures[i]
    ensures s < i && Opened(x, s) && forall j | s <= j < i :: x.decisions[j]
  {
    if Opened(x, i - 1) {
      s := i - 1;
    } else {
      s := ExposureHasAnEntry(x, i - 1);
    }
  }

  // The terms fixed at the entry do not move while the position is held.
  lemma {:induction false} TermsFixedAtEntry(x: Input, s: nat, n: nat)
    requires Aligned(x) && HeldTo(x, s, n) && s < n
    ensures BookAfter(x, n).principal == EntryEquity(x, s) * Max0(x.terms.leverage - 1.0)
    ensures BookAfter(x, n).entryNotional == EntryEquity(x, s) * x.terms.leverage
    ensures BookAfter(x, n).qty == BookAfter(x, s + 1).qty
  {
    hide NextBook, AfterEvent;
    SwitchesAndExposure(x, s);
    if n > s + 1 {
      TermsFixedAtEntry(x, s, n - 1);
      TermsKept(x, n - 1, BookAfter(x, n - 1));
    } else {
      TermsOfEntry(x, s, BookAfter(x, s));
    }
  }

  lemma TermsKept(x: Input, i: nat, b: Book)
    requires Shaped(x) && i < |x.flows| && !Opened(x, i) && !Closed(x, i)
    ensures NextBook(x, i, b) == b.(equity := NextBook(x, i, b).equity)
  {
    hide Post;
  }

  lemma TermsOfEntry(x: Input, i: nat, b: Book)
    requires Shaped(x) && i < |x.flows| && Opened(x, i)
    ensures NextBook(x, i, b).principal == Geared(AfterEvent(x, i, b), Max0(x.terms.leverage - 1.0))
    ensures NextBook(x, i, b).entryNotional == Geared(AfterEvent(x, i, b), x.terms.leverage)
  {
    hide Post, AfterEvent;
  }

  // At a constant rate the borrow of a position up to any event it is held to depends on the two
  // end times only, not on how many funding events fall between them.
  lemma {:induction false} BorrowTelescopes(x: Input, s: nat, n: nat, rate: real)
    requires Aligned(x) && HeldTo(x, s, n) && x.terms.leverage >= 1.0
    requires forall i | s < i <= n :: x.flows[i].borrowRate == rate
    ensures TotalsOf(x, s + 1, n + 1).borrow
         == (x.terms.leverage - 1.0) * EntryEquity(x, s) * rate * Years(x.flows[s].at, x.flows[n].at)
  {
    hide Post, BookAfter;
    if n > s {
      HeldIsExposed(x, s, n);
      BorrowTelescopes(x, s, n - 1, rate);
      TermsFixedAtEntry(x, s, n);
      var k := (x.terms.leverage - 1.0) * EntryEquity(x, s) * rate;
      Distribute(k, Years(x.flows[s].at, x.flows[n - 1].at), Years(x.flows[n - 1].at, x.flows[n].at));
      OneAccrual(x, n, BookAfter(x, n), x.terms.leverage - 1.0, EntryEquity(x, s), rate);
    }
  }

  lemma Distribute(k: real, a: real, b: real)
    ensures k * a + k * b == k * (a + b)
  {
  }

  lemma OneAccrual(x: Input, i: nat, b: Book, gear: real, equity: real, rate: real)
    requires Shaped(x) && 0 < i < |x.flows| && x.exposures[i]
    requires b.principal == equity * gear && x.flows[i].borrowRate == rate
    ensures Post(x, i, b).borrow == gear * equity * rate * Years(x.flows[i - 1].at, x.flows[i].at)
  {
    var years := Years(x.flows[i - 1].at, x.flows[i].at);
    assert equity * gear * rate * years == gear * equity * rate * years;
  }

  // Sum of the rates over the events s < i <= n.
  function RateSum(x: Input, s: nat, n: nat): real
    requires s <= n < |x.flows|
  {
    if n == s then 0.0 else RateSum(x, s, n - 1) + x.flows[n].rate
  }

  // In fixed-notional mode the funding of a position up to any event it is held to is its entry
  // notional times the rates of the events after the one that decided it.
  lemma {:induction false} FundingOfHolding(x: Input, s: nat, n: nat)
    requires Aligned(x) && HeldTo(x, s, n) && !x.terms.priced
    ensures TotalsOf(x, s, n + 1).funding == EntryEquity(x, s) * x.terms.leverage * RateSum(x, s, n)
  {
    hide Post, BookAfter;
    HeldIsExposed(x, s, n);
    OneFunding(x, n, BookAfter(x, n));
    if n == s {
      assert TotalsOf(x, s, s).funding == 0.0;
    } else {
      FundingOfHolding(x, s, n - 1);
      TermsFixedAtEntry(x, s, n);
      Distribute(EntryEquity(x, s) * x.terms.leverage, RateSum(x, s, n - 1), x.flows[n].rate);
    }
  }

  lemma OneFunding(x: Input, i: nat, b: Book)
    requires Shaped(x) && i < |x.flows| && !x.terms.priced
    ensures Post(x, i, b).funding == if x.exposures[i] then b.entryNotional * x.flows[i].rate else 0.0
  {
  }

  // The price a needed event is settled at.
  function PriceOf(x: Input, i: nat): real
    requires Shaped(x) && i < |x.flows| && x.flows[i].price.Some?
  {
    x.flows[i].price.value
  }

  // With prices, an entry buys the quantity its notional is worth at the entry price.
  lemma {:induction false} EntryQuantity(x: Input, s: nat)
    requires Aligned(x) && s < |x.flows| && Opened(x, s) && x.terms.priced && !Unpriced(x, s)
    ensures PriceOf(x, s) > 0.0
    ensures BookAfter(x, s + 1).qty == Geared(BookAfter(x, s).equity, x.terms.leverage) / PriceOf(x, s)
  {
    hide Geared, Post;
    SwitchesAndExposure(x, s);
    QuantityOfEntry(x, s, BookAfter(x, s));
  }

  lemma QuantityOfEntry(x: Input, i: nat, b: Book)
    requires Shaped(x) && i < |x.flows| && Opened(x, i) && x.terms.priced && !Unpriced(x, i)
    ensures PriceOf(x, i) > 0.0
    ensures NextBook(x, i, b).qty == Geared(AfterEvent(x, i, b), x.terms.leverage) / PriceOf(x, i)
  {
    hide Post, AfterEvent, Geared;
  }

  // Sum of price times rate over the events s < i <= n.
  function PricedRateSum(x: Input, s: nat, n: nat): real
    requires Shaped(x) && s <= n < |x.flows| && forall i | s < i <= n :: x.flows[i].price.Some?
  {
    if n == s then 0.0 else PricedRateSum(x, s, n - 1) + PriceOf(x, n) * x.flows[n].rate
  }

  // With prices, it is the quantity times price times rate of exactly the same events.
  lemma {:induction false} PricedFundingOfHolding(x: Input, s: nat, n: nat)
    requires Aligned(x) && HeldTo(x, s, n) && x.terms.priced && Priceable(x) && x.terms.leverage >= 0.0
    ensures forall i | s < i <= n :: x.flows[i].price.Some?
    ensures TotalsOf(x, s, n + 1).funding == BookAfter(x, s + 1).qty * PricedRateSum(x, s, n)
  {
    hide Post, BookAfter;
    HeldIsExposed(x, s, n);
    if n == s {
      assert TotalsOf(x, s, s).funding == 0.0;
      OnePricedFunding(x, n, BookAfter(x, n));
    } else {
      PricedFundingOfHolding(x, s, n - 1);
      TermsFixedAtEntry(x, s, n);
      QuantityIsNonNegative(x, s);
      OnePricedFunding(x, n, BookAfter(x, n));
      Distribute(BookAfter(x, s + 1).qty, PricedRateSum(x, s, n - 1), PriceOf(x, n) * x.flows[n].rate);
    }
  }

  lemma QuantityIsNonNegative(x: Input, s: nat)
    requires Aligned(x) && s < |x.flows| && Opened(x, s) && x.terms.priced && !Unpriced(x, s)
    requires x.terms.leverage >= 0.0
    ensures BookAfter(x, s + 1).qty >= 0.0
  {
    hide BookAfter;
    EntryQuantity(x, s);
    NonNegativeQuotient(Max0(BookAfter(x, s).equity), x.terms.leverage, PriceOf(x, s));
  }

  lemma NonNegativeQuotient(equity: real, leverage: real, price: real)
    requires equity >= 0.0 && leverage >= 0.0 && price > 0.0
    ensures equity * leverage / price >= 0.0
  {
    assert equity * leverage >= 0.0;
  }

  lemma OnePricedFunding(x: Input, i: nat, b: Book)
    requires Shaped(x) && i < |x.flows| && x.terms.priced && !Unpriced(x, i)
    ensures !x.exposures[i] ==> Post(x, i, b).funding == 0.0
    ensures x.exposures[i] ==> x.flows[i].price.Some? && PriceOf(x, i) > 0.0
    ensures x.exposures[i] && b.qty >= 0.0 ==> Post(x, i, b).funding == b.qty * (PriceOf(x, i) * x.flows[i].rate)
  {
    if x.exposures[i] && b.qty >= 0.0 {
      var price, rate := PriceOf(x, i), x.flows[i].rate;
      assert b.qty * price >= 0.0;
      assert (b.qty * price) * rate == b.qty * (price * rate);
    }
  }

  // Entries and exits strictly alternate, starting with an entry.
  lemma {:induction false} EntriesAndExitsAlternate(x: Input, n: nat)
    requires n <= |x.decisions|
    ensures |Entries(x, n)| == |Exits(x, n)| + if Decided(x, n - 1) then 1 else 0
    ensures forall j | 0 <= j < |Exits(x, n)| :: Entries(x, n)[j] < Exits(x, n)[j] < n
    ensures forall j | 0 <= j < |Entries(x, n)| :: Entries(x, n)[j] < n
    ensures forall j | 0 <= j < |Entries(x, n)| - 1 :: Exits(x, n)[j] < Entries(x, n)[j + 1]
  {
    if n > 0 {
      EntriesAndExitsAlternate(x, n - 1);
    }
  }

  // ---- scale ----

  function ScaleBook(c: real, b: Book): Book {
    Book(c * b.equity, c * b.entryNotional, c * b.principal, c * b.qty)
  }

  function ScalePosting(c: real, p: Posting): Posting {
    Posting(c * p.funding, c * p.borrow, c * p.basis, c * p.fee, c * p.slippage, p.pnl)
  }

  function Scaled(c: real, x: Input): Input {
    x.(terms := x.terms.(initial := c * x.terms.initial))
  }

  lemma ScaleGeared(c: real, a: real, a': real, k: real)
    requires c > 0.0 && a' == c * a
    ensures Geared(a', k) == c * Geared(a, k)
  {
    Pull(c, Max0(a), k);
  }

  lemma ScaleNotional(c: real, price: Option<real>, b: Book)
    requires c > 0.0
    ensures Notional(price, ScaleBook(c, b)) == c * Notional(price, b)
  {
    if price.Some? {
      assert c * b.qty * price.value == c * (b.qty * price.value);
      if b.qty * price.value < 0.0 {
        assert c * (b.qty * price.value) < 0.0;
      } else {
        assert c * (b.qty * price.value) >= 0.0;
      }
    }
  }

  lemma Pull(c: real, a: real, b: real)
    ensures (c * a) * b == c * (a * b)
  {
  }

  lemma PullQuotient(c: real, a: real, b: real)
    requires b > 0.0
    ensures (c * a) / b == c * (a / b)
    ensures c > 0.0 ==> c * b > 0.0 && (c * a) / (c * b) == a / b
  {
    var q := a / b;
    assert q * b == a;
    assert (c * q) * b == c * a;
    if c > 0.0 {
      assert c * b > 0.0;
      assert q * (c * b) == c * a;
    }
  }

  lemma ScaleAmounts(c: real, x: Input, i: nat, b: Book)
    requires c > 0.0 && Shaped(x) && i < |x.flows|
    ensures var y, d := Scaled(c, x), ScaleBook(c, b);
            && Funding(y, i, d) == c * Funding(x, i, b)
            && Borrow(y, i, d) == c * Borrow(x, i, b)
            && Basis(y, i, d) == c * Basis(x, i, b)
            && AfterEvent(y, i, d) == c * AfterEvent(x, i, b)
  {
    var price := EventPrice(x, i);
    assert EventPrice(Scaled(c, x), i) == price;
    ScaleNotional(c, price, b);
    Pull(c, Notional(price, b), x.flows[i].rate);
    Pull(c, Notional(price, b), x.flows[i].basis);
    Pull(c, b.principal, x.flows[i].borrowRate);
    Pull(c, b.principal * x.flows[i].borrowRate, ElapsedYears(x, i));
  }

  lemma ScaleCharged(c: real, x: Input, i: nat, b: Book)
    requires c > 0.0 && Shaped(x) && i < |x.flows|
    ensures Charged(Scaled(c, x), i, ScaleBook(c, b)) == c * Charged(x, i, b)
  {
    hide AfterEvent, Geared, Notional, EventPrice;
    ScaleAmounts(c, x, i, b);
    SameEventPrice(c, x, i);
    ScaleGeared(c, AfterEvent(x, i, b), AfterEvent(Scaled(c, x), i, ScaleBook(c, b)), x.terms.leverage);
    ScaleNotional(c, EventPrice(x, i), b);
  }

  lemma ScaleSettle(c: real, e: real, f: real, b: real, s: real, g: real, h: real,
                    e': real, f': real, b': real, s': real, g': real, h': real)
    requires c > 0.0 && e' == c * e && f' == c * f && b' == c * b && s' == c * s && g' == c * g && h' == c * h
    ensures Settle(e', f', b', s', g', h') == ScalePosting(c, Settle(e, f, b, s, g, h))
  {
    ScaleReturn(c, e, f - b + s - g - h, e', f' - b' + s' - g' - h');
  }

  lemma ScaleCosts(c: real, terms: Terms, terms': Terms, charged: real, charged': real)
    requires terms' == terms.(initial := terms'.initial) && charged' == c * charged
    ensures Fee(terms', charged') == c * Fee(terms, charged)
    ensures Slippage(terms', charged') == c * Slippage(terms, charged)
  {
  }

  lemma ScalePost(c: real, x: Input, i: nat, b: Book)
    requires c > 0.0 && Shaped(x) && i < |x.flows|
    ensures Post(Scaled(c, x), i, ScaleBook(c, b)) == ScalePosting(c, Post(x, i, b))
  {
    hide Funding, Borrow, Basis, AfterEvent, Charged, Fee, Slippage, Settle, ScalePosting;
    var y, d := Scaled(c, x), ScaleBook(c, b);
    ScaleAmounts(c, x, i, b);
    ScaleCharged(c, x, i, b);
    ScaleCosts(c, x.terms, y.terms, Charged(x, i, b), Charged(y, i, d));
    ScaleSettle(c, b.equity, Funding(x, i, b), Borrow(x, i, b), Basis(x, i, b),
                Fee(x.terms, Charged(x, i, b)), Slippage(x.terms, Charged(x, i, b)),
                d.equity, Funding(y, i, d), Borrow(y, i, d), Basis(y, i, d),
                Fee(y.terms, Charged(y, i, d)), Slippage(y.terms, Charged(y, i, d)));
  }

  lemma ScaleReturn(c: real, equity: real, net: real, equity': real, net': real)
    requires c > 0.0 && equity' == c * equity && net' == c * net
    ensures equity' <= 0.0 <==> equity <= 0.0
    ensures ReturnOf(equity', net') == ReturnOf(equity, net)
  {
    if equity > 0.0 {
      PullQuotient(c, net, equity);
    }
  }

  lemma ScaleEntryBook(c: real, price: Option<real>, equity: real, notional: real, principal: real, qty: real,
                       equity': real, notional': real, principal': real, qty': real)
    requires c > 0.0 && (price.Some? ==> price.value > 0.0)
    requires equity' == c * equity && notional' == c * notional && principal' == c * principal && qty' == c * qty
    ensures EntryBook(equity', notional', principal', price, qty')
         == ScaleBook(c, EntryBook(equity, notional, principal, price, qty))
  {
    if price.Some? {
      PullQuotient(c, notional, price.value);
    }
  }

  lemma SameSwitches(c: real, x: Input, i: nat)
    requires Shaped(x) && i < |x.flows|
    ensures Opened(Scaled(c, x), i) == Opened(x, i) && Closed(Scaled(c, x), i) == Closed(x, i)
    ensures Opened(x, i) ==> !Closed(x, i)
  {
  }

  // The book after an opening.
  function OpenBook(x: Input, i: nat, b: Book): Book
    requires Shaped(x) && i < |x.flows|
  {
    var after := AfterEvent(x, i, b);
    EntryBook(NextBook(x, i, b).equity, Geared(after, x.terms.leverage),
              Geared(after, Max0(x.terms.leverage - 1.0)), EventPrice(x, i), b.qty)
  }

  lemma NextBookParts(x: Input, i: nat, b: Book)
    requires Shaped(x) && i < |x.flows|
    ensures NextBook(x, i, b)
         == if Opened(x, i) then OpenBook(x, i, b)
            else if Closed(x, i) then Book(NextBook(x, i, b).equity, 0.0, 0.0, 0.0)
            else b.(equity := NextBook(x, i, b).equity)
  {
    SameSwitches(1.0, x, i);
    hide Opened, Closed, Post, AfterEvent, Net, EventPrice, Geared;
  }

  lemma ScaleOpening(c: real, x: Input, i: nat, b: Book)
    requires c > 0.0 && Shaped(x) && i < |x.flows|
    ensures OpenBook(Scaled(c, x), i, ScaleBook(c, b)) == ScaleBook(c, OpenBook(x, i, b))
  {
    hide NextBook, AfterEvent, EventPrice, Geared, EntryBook;
    var y, d, gear := Scaled(c, x), ScaleBook(c, b), Max0(x.terms.leverage - 1.0);
    ScaleEquity(c, x, i, b);
    ScaleAmounts(c, x, i, b);
    SameEventPrice(c, x, i);
    var after, after' := AfterEvent(x, i, b), AfterEvent(y, i, d);
    ScaleGeared(c, after, after', x.terms.leverage);
    ScaleGeared(c, after, after', gear);
    ScaleEntryBook(c, EventPrice(x, i), NextBook(x, i, b).equity,
                   Geared(after, x.terms.leverage), Geared(after, gear), b.qty,
                   NextBook(y, i, d).equity, Geared(after', x.terms.leverage), Geared(after', gear), d.qty);
  }

  lemma ScaleNext(c: real, x: Input, i: nat, b: Book)
    requires c > 0.0 && Shaped(x) && i < |x.flows|
    ensures NextBook(Scaled(c, x), i, ScaleBook(c, b)) == ScaleBook(c, NextBook(x, i, b))
  {
    hide NextBook, Opened, Closed, OpenBook;
    SameSwitches(c, x, i);
    NextBookParts(x, i, b);
    NextBookParts(Scaled(c, x), i, ScaleBook(c, b));
    ScaleEquity(c, x, i, b);
    ScaleOpening(c, x, i, b);
  }

  lemma SameEventPrice(c: real, x: Input, i: nat)
    requires Shaped(x) && i < |x.flows|
    ensures EventPrice(Scaled(c, x), i) == EventPrice(x, i)
  {
  }

  lemma ScaleEquity(c: real, x: Input, i: nat, b: Book)
    requires c > 0.0 && Shaped(x) && i < |x.flows|
    ensures NextBook(Scaled(c, x), i, ScaleBook(c, b)).equity == c * NextBook(x, i, b).equity
  {
    hide Post, NextBook;
    ScalePost(c, x, i, b);
    ScaleReturn(c, b.equity, 0.0, c * b.equity, 0.0);
    GrowthStep(x, i, b);
    GrowthStep(Scaled(c, x), i, ScaleBook(c, b));
    Pull(c, b.equity, 1.0 + Post(x, i, b).pnl);
  }

  // Multiplying the starting capital scales every amount and leaves every return alone.
  lemma {:induction false} LedgerIsScaleFree(c: real, x: Input, n: nat)
    requires c > 0.0 && Shaped(x) && n <= |x.flows|
    ensures BookAfter(Scaled(c, x), n) == ScaleBook(c, BookAfter(x, n))
    ensures n < |x.flows| ==> PostingAt(Scaled(c, x), n) == ScalePosting(c, PostingAt(x, n))
  {
    hide Post, NextBook;
    if n > 0 {
      LedgerIsScaleFree(c, x, n - 1);
      ScaleNext(c, x, n - 1, BookAfter(x, n - 1));
    }
    if n < |x.flows| {
      ScalePost(c, x, n, BookAfter(x, n));
    }
  }

  // ---- causality ----

  function Upto(x: Input, k: nat): Input
    requires Shaped(x) && k <= |x.flows|
  {
    Input(x.flows[..k], x.decisions[..k], x.exposures[..k], x.terms)
  }

  lemma ShapeOfPrefix(x: Input, k: nat, i: nat)
    requires Shaped(x) && i < k <= |x.flows|
    ensures Unpriced(Upto(x, k), i) == Unpriced(x, i)
    ensures Opened(Upto(x, k), i) == Opened(x, i) && Closed(Upto(x, k), i) == Closed(x, i)
    ensures EventPrice(Upto(x, k), i) == EventPrice(x, i) && ElapsedYears(Upto(x, k), i) == ElapsedYears(x, i)
  {
    var y := Upto(x, k);
    assert y.flows[i] == x.flows[i] && y.decisions[i] == x.decisions[i] && y.exposures[i] == x.exposures[i];
    assert i > 0 ==> y.flows[i - 1] == x.flows[i - 1] && y.decisions[i - 1] == x.decisions[i - 1];
  }

  lemma AmountsOfPrefix(x: Input, k: nat, i: nat, b: Book)
    requires Shaped(x) && i < k <= |x.flows|
    ensures var y := Upto(x, k);
            && Funding(y, i, b) == Funding(x, i, b)
            && Borrow(y, i, b) == Borrow(x, i, b)
            && Basis(y, i, b) == Basis(x, i, b)
  {
    ShapeOfPrefix(x, k, i);
    hide EventPrice, ElapsedYears, Notional;
  }

  lemma StepOfPrefix(x: Input, k: nat, i: nat, b: Book)
    requires Shaped(x) && i < k <= |x.flows|
    ensures Post(Upto(x, k), i, b) == Post(x, i, b) && NextBook(Upto(x, k), i, b) == NextBook(x, i, b)
  {
    ShapeOfPrefix(x, k, i);
    AmountsOfPrefix(x, k, i, b);
    hide EventPrice, Funding, Borrow, Basis, Notional, Opened, Closed, Net, Max0, Settle, EntryBook;
  }

  lemma {:induction false} LedgerIsCausal(x: Input, k: nat, n: nat)
    requires Shaped(x) && n <= k <= |x.flows|
    ensures BookAfter(Upto(x, k), n) == BookAfter(x, n)
    ensures Entries(Upto(x, k), n) == Entries(x, n) && Exits(Upto(x, k), n) == Exits(x, n)
    ensures n < k ==> PostingAt(Upto(x, k), n) == PostingAt(x, n) && Unpriced(Upto(x, k), n) == Unpriced(x, n)
  {
    hide Post, NextBook;
    if n > 0 {
      LedgerIsCausal(x, k, n - 1);
      ShapeOfPrefix(x, k, n - 1);
      StepOfPrefix(x, k, n - 1, BookAfter(x, n - 1));
    }
    if n < k {
      ShapeOfPrefix(x, k, n);
      StepOfPrefix(x, k, n, BookAfter(x, n));
    }
  }
}
