/** What one position of a carry run is charged and accrues, event by event and in all. */
module CarryCosts {
  import opened Prelude
  import opened CarryLedger
  import opened CarryAccounting

  // ---- the two legs of an opening and of a closing ----

  // Fee and slippage on a notional, two legs each.
  ghost predicate PaysFor(terms: Terms, p: Posting, notional: real) {
    p.fee == 2.0 * terms.feeRate * notional && p.slippage == 2.0 * (terms.slippageBps / 10000.0) * notional
  }

  lemma PostingPays(x: Input, i: nat, b: Book)
    requires Shaped(x) && i < |x.flows|
    ensures PaysFor(x.terms, Post(x, i, b), Charged(x, i, b))
  {
    hide Funding, Borrow, Basis, Charged;
  }

  // What a positive equity buys at the leverage, a negative one counting as none.
  function Bought(x: Input, s: nat): real
    requires Shaped(x) && s < |x.flows|
  {
    var equity := BookAfter(x, s).equity;
    if equity > 0.0 then equity * x.terms.leverage else 0.0
  }

  lemma BoughtIsGeared(x: Input, s: nat)
    requires Shaped(x) && s < |x.flows|
    ensures Geared(BookAfter(x, s).equity, x.terms.leverage) == Bought(x, s) == EntryEquity(x, s) * x.terms.leverage
  {
    hide BookAfter;
  }

  lemma CostsAtEntry(x: Input, s: nat)
    requires Aligned(x) && s < |x.flows| && Opened(x, s)
    ensures PaysFor(x.terms, PostingAt(x, s), Bought(x, s))
  {
    SwitchesAndExposure(x, s);
    BoughtIsGeared(x, s);
    hide BookAfter, Bought, Geared, AfterEvent, PaysFor;
    PostingPays(x, s, BookAfter(x, s));
  }

  // Prices, if they are used, at the opening and at event i.
  ghost predicate Quoted(x: Input, s: nat, i: nat)
    requires Shaped(x) && s < |x.flows| && i < |x.flows|
  {
    x.terms.priced ==> x.flows[s].price.Some? && x.flows[i].price.Some? && x.flows[s].price.value > 0.0
  }

  // What the position is worth at event i: in fixed-notional mode what was bought, with prices the
  // quantity that bought, at the price of the event.
  ghost function WorthAt(x: Input, s: nat, i: nat): real
    requires Shaped(x) && s < |x.flows| && i < |x.flows| && Quoted(x, s, i)
  {
    if x.terms.priced then Bought(x, s) / x.flows[s].price.value * x.flows[i].price.value else Bought(x, s)
  }

  lemma NotionalIsWorth(x: Input, s: nat, i: nat)
    requires Aligned(x) && HeldTo(x, s, i) && s < i && (x.terms.priced ==> Priceable(x) && x.terms.leverage >= 0.0)
    ensures Quoted(x, s, i) && Notional(EventPrice(x, i), BookAfter(x, i)) == WorthAt(x, s, i)
  {
    hide BookAfter, Bought, Geared, EntryEquity;
    HeldIsExposed(x, s, i);
    BoughtIsGeared(x, s);
    TermsFixedAtEntry(x, s, i);
    var b := BookAfter(x, i);
    if x.terms.priced {
      assert !Unpriced(x, s) && !Unpriced(x, i);
      EntryQuantity(x, s);
      QuantityIsNonNegative(x, s);
      PositiveWorth(b.qty, PriceOf(x, i));
      assert EventPrice(x, i) == Some(PriceOf(x, i));
      assert b.qty == Bought(x, s) / PriceOf(x, s);
      assert WorthAt(x, s, i) == b.qty * PriceOf(x, i);
    } else {
      assert EventPrice(x, i) == None;
    }
  }

  lemma CostsAtExit(x: Input, s: nat, e: nat)
    requires Aligned(x) && Holding(x, s, e) && (x.terms.priced ==> Priceable(x) && x.terms.leverage >= 0.0)
    ensures Quoted(x, s, e) && PaysFor(x.terms, PostingAt(x, e), WorthAt(x, s, e))
  {
    hide BookAfter, WorthAt, PaysFor;
    PostingPays(x, e, BookAfter(x, e));
    NotionalIsWorth(x, s, e);
    assert Charged(x, e, BookAfter(x, e)) == Notional(EventPrice(x, e), BookAfter(x, e));
  }

  lemma PositiveWorth(qty: real, price: real)
    requires qty >= 0.0 && price > 0.0
    ensures AbsR(qty * price) == qty * price
  {
    assert qty * price >= 0.0;
  }

  // Nothing is charged at an event that neither opens nor closes.
  lemma CostsOnlyAtSwitches(x: Input, i: nat)
    requires Shaped(x) && i < |x.flows| && !Opened(x, i) && !Closed(x, i)
    ensures PostingAt(x, i).fee == 0.0 && PostingAt(x, i).slippage == 0.0
  {
    PostingPays(x, i, BookAfter(x, i));
    hide Post, BookAfter;
    assert Charged(x, i, BookAfter(x, i)) == 0.0;
  }

  lemma {:induction false} CostsSoFar(x: Input, s: nat, n: nat)
    requires Aligned(x) && HeldTo(x, s, n) && s < n
    ensures TotalsOf(x, s, n).fee == PostingAt(x, s).fee && TotalsOf(x, s, n).slippage == PostingAt(x, s).slippage
  {
    hide PostingAt;
    if n == s + 1 {
      assert TotalsOf(x, s, s) == Totals(0.0, 0.0, 0.0, 0.0, 0.0);
    } else {
      CostsSoFar(x, s, n - 1);
      CostsOnlyAtSwitches(x, n - 1);
    }
  }

  // A position is charged twice, when it is opened on what it buys and when it is closed on what it is
  // worth, and nothing in between: fees and slippage each, event by event and over the whole of it.
  lemma {:induction false} CostsOfHolding(x: Input, s: nat, e: nat)
    requires Aligned(x) && Holding(x, s, e) && (x.terms.priced ==> Priceable(x) && x.terms.leverage >= 0.0)
    ensures Quoted(x, s, e)
    ensures PaysFor(x.terms, PostingAt(x, s), Bought(x, s)) && PaysFor(x.terms, PostingAt(x, e), WorthAt(x, s, e))
    ensures forall i | s < i < e :: PostingAt(x, i).fee == 0.0 && PostingAt(x, i).slippage == 0.0
    ensures TotalsOf(x, s, e + 1).fee == 2.0 * x.terms.feeRate * (Bought(x, s) + WorthAt(x, s, e))
    ensures TotalsOf(x, s, e + 1).slippage
         == 2.0 * (x.terms.slippageBps / 10000.0) * (Bought(x, s) + WorthAt(x, s, e))
  {
    hide PostingAt, Bought, WorthAt;
    CostsAtEntry(x, s);
    CostsAtExit(x, s, e);
    CostsSoFar(x, s, e);
    forall i | s < i < e
      ensures PostingAt(x, i).fee == 0.0 && PostingAt(x, i).slippage == 0.0
    {
      CostsOnlyAtSwitches(x, i);
    }
    BothSwitches(x.terms, PostingAt(x, s), PostingAt(x, e), Bought(x, s), WorthAt(x, s, e));
  }

  lemma BothSwitches(terms: Terms, p: Posting, q: Posting, a: real, b: real)
    requires PaysFor(terms, p, a) && PaysFor(terms, q, b)
    ensures p.fee + q.fee == 2.0 * terms.feeRate * (a + b)
    ensures p.slippage + q.slippage == 2.0 * (terms.slippageBps / 10000.0) * (a + b)
  {
    Distribute(2.0 * terms.feeRate, a, b);
    Distribute(2.0 * (terms.slippageBps / 10000.0), a, b);
  }

  // ---- what it accrues ----

  // What is borrowed at the opening: the part of the position the equity does not pay for.
  function Borrowed(x: Input, s: nat): real
    requires Shaped(x) && s < |x.flows|
  {
    var equity, gear := BookAfter(x, s).equity, x.terms.leverage - 1.0;
    if equity > 0.0 && gear > 0.0 then equity * gear else 0.0
  }

  lemma BorrowedIsPrincipal(x: Input, s: nat)
    requires Shaped(x) && s < |x.flows|
    ensures EntryEquity(x, s) * Max0(x.terms.leverage - 1.0) == Borrowed(x, s)
  {
    hide BookAfter;
  }

  lemma AmountsOf(x: Input, i: nat, b: Book)
    requires Shaped(x) && 0 < i < |x.flows| && x.exposures[i]
    ensures var p, notional := Post(x, i, b), Notional(EventPrice(x, i), b);
            && p.funding == notional * x.flows[i].rate && p.basis == notional * x.flows[i].basis
            && p.borrow == b.principal * x.flows[i].borrowRate
                           * ((x.flows[i].at - x.flows[i - 1].at) as real / 31_557_600_000_000_000.0)
  {
    hide Notional, EventPrice, ReturnOf, Charged;
  }

  // At every event a position is held to, after the one that opened it, it accrues on its worth there
  // the funding rate and the basis return, and on what was borrowed the borrow rate for the time since
  // the event before.
  lemma {:induction false} AccrualsOfHolding(x: Input, s: nat, i: nat)
    requires Aligned(x) && HeldTo(x, s, i) && s < i && (x.terms.priced ==> Priceable(x) && x.terms.leverage >= 0.0)
    ensures Quoted(x, s, i)
    ensures PostingAt(x, i).funding == WorthAt(x, s, i) * x.flows[i].rate
    ensures PostingAt(x, i).basis == WorthAt(x, s, i) * x.flows[i].basis
    ensures PostingAt(x, i).borrow == Borrowed(x, s) * x.flows[i].borrowRate
                                      * ((x.flows[i].at - x.flows[i - 1].at) as real / 31_557_600_000_000_000.0)
  {
    hide BookAfter, WorthAt, Notional, Borrowed, EntryEquity, Post;
    NotionalIsWorth(x, s, i);
    HeldIsExposed(x, s, i);
    TermsFixedAtEntry(x, s, i);
    BorrowedIsPrincipal(x, s);
    AmountsOf(x, i, BookAfter(x, i));
  }

  // Without exposure nothing accrues, the opening event included.
  lemma NothingAccrues(x: Input, i: nat)
    requires Aligned(x) && i < |x.flows| && (i == 0 || !x.decisions[i - 1])
    ensures var p := PostingAt(x, i); p.funding == 0.0 && p.basis == 0.0 && p.borrow == 0.0
  {
    hide BookAfter, Charged, ReturnOf;
  }

  // Whatever the exposures are, an opening takes the equity after what has accrued at its event.
  lemma {:induction false} OpeningTakesAccruals(x: Input, i: nat)
    requires Shaped(x) && i < |x.flows| && Opened(x, i)
    ensures var p, next := PostingAt(x, i), BookAfter(x, i + 1);
            var equity := BookAfter(x, i).equity + p.funding - p.borrow + p.basis;
            && next.entryNotional == (if equity > 0.0 then equity * x.terms.leverage else 0.0)
            && next.principal == (if equity > 0.0 && x.terms.leverage > 1.0 then equity * (x.terms.leverage - 1.0)
                                  else 0.0)
  {
    hide Funding, Borrow, Basis, Charged, ReturnOf;
    var b := BookAfter(x, i);
    TermsOfEntry(x, i, b);
    hide NextBook;
    assert BookAfter(x, i + 1) == NextBook(x, i, b);
  }

  // ---- which prices a run needs ----

  // Decided on, or right after one that was.
  predicate NeedsPrice(x: Input, i: nat)
    requires Shaped(x) && i < |x.flows|
  {
    x.decisions[i] || (i > 0 && x.decisions[i - 1])
  }

  lemma UnpricedMeans(x: Input, i: nat)
    requires Aligned(x) && i < |x.flows|
    ensures Unpriced(x, i) <==>
              x.terms.priced && NeedsPrice(x, i) && !(x.flows[i].price.Some? && x.flows[i].price.value > 0.0)
  {
    assert x.exposures[i] == (i > 0 && x.decisions[i - 1]);
  }

  // With prices, a ledger is computed exactly when every event that needs a price has a positive one.
  lemma {:induction false} PriceableExactly(x: Input)
    requires Aligned(x)
    ensures Priceable(x) <==>
              (x.terms.priced ==>
                 forall i: nat | i < |x.flows| && NeedsPrice(x, i) ::
                   x.flows[i].price.Some? && x.flows[i].price.value > 0.0)
  {
    hide Unpriced, NeedsPrice;
    forall i: nat | i < |x.flows|
      ensures Unpriced(x, i) <==>
                x.terms.priced && NeedsPrice(x, i) && !(x.flows[i].price.Some? && x.flows[i].price.value > 0.0)
    {
      UnpricedMeans(x, i);
    }
    if Priceable(x) && x.terms.priced {
      forall i: nat | i < |x.flows| && NeedsPrice(x, i)
        ensures x.flows[i].price.Some? && x.flows[i].price.value > 0.0
      {
        assert !Unpriced(x, i);
      }
    }
  }
}
