/**
 * The liquidation scan over a finished ledger: the first event whose collateral falls to its
 * maintenance requirement closes the account.
 */
module CarryLiquidation {
  import opened Prelude
  import opened CarryLedger
  import opened CarryAccounting

  datatype Margin = Margin(haircut: real, maintenance: real, fee: real)

  datatype Outcome = Outcome(pnl: seq<real>, equity: seq<real>, applied: seq<bool>, at: Option<nat>)

  datatype LiquidationError = DivisionByZero(at: nat)

  // initial * (1 + pnl).cumprod()
  function Equities(initial: real, pnl: seq<real>): (e: seq<real>)
    ensures |e| == |pnl|
  {
    seq(|pnl|, i requires 0 <= i < |pnl| => Compound(initial, pnl, i + 1))
  }

  function EquityBefore(initial: real, e: seq<real>, i: nat): real
    requires i <= |e|
  {
    if i == 0 then initial else e[i - 1]
  }

  // Equity just before the latest switch to exposed at or before i.
  function EntryEquityAt(initial: real, e: seq<real>, applied: seq<bool>, i: nat): real
    requires |e| == |applied| && i < |e|
  {
    if applied[i] && (i == 0 || !applied[i - 1]) then EquityBefore(initial, e, i)
    else if i == 0 then initial
    else EntryEquityAt(initial, e, applied, i - 1)
  }

  function SpotNotional(entryEquity: real, leverage: real): real {
    entryEquity * leverage
  }

  predicate Undermargined(equity: real, notional: real, m: Margin) {
    equity - notional * m.haircut <= 2.0 * notional * m.maintenance
  }

  predicate Breach(initial: real, leverage: real, m: Margin, e: seq<real>, applied: seq<bool>, i: nat)
    requires |e| == |applied| && i < |e|
  {
    applied[i] && Undermargined(e[i], SpotNotional(EntryEquityAt(initial, e, applied, i), leverage), m)
  }

  function FirstBreach(initial: real, leverage: real, m: Margin, e: seq<real>, applied: seq<bool>,
                       from: nat): (r: Option<nat>)
    requires |e| == |applied| && from <= |e|
    ensures r.Some? ==> from <= r.value < |e| && Breach(initial, leverage, m, e, applied, r.value)
    ensures forall i: nat | from <= i < (if r.Some? then r.value else |e|) ::
              !Breach(initial, leverage, m, e, applied, i)
    decreases |e| - from
  {
    if from == |e| then None
    else if Breach(initial, leverage, m, e, applied, from) then Some(from)
    else FirstBreach(initial, leverage, m, e, applied, from + 1)
  }

  function AfterLiquidation(equity: real, notional: real, m: Margin): real {
    Max0(equity - 2.0 * notional * m.fee)
  }

  // s with v at i and a constant from there on.
  function Overwrite<T>(s: seq<T>, i: nat, v: T, rest: T): (r: seq<T>)
    requires i < |s|
    ensures |r| == |s| && r[..i] == s[..i] && r[i] == v && forall j | i < j < |s| :: r[j] == rest
  {
    s[..i] + [v] + seq(|s| - i - 1, _ => rest)
  }

  // Proceeds relative to the equity before the liquidating event.
  function LiquidationReturn(after: real, before: real): real
    requires before != 0.0
  {
    after / before - 1.0
  }

  // What the pass returns when the first breach is at i.
  function Cut(initial: real, leverage: real, m: Margin, pnl: seq<real>, applied: seq<bool>, i: nat): Outcome
    requires |pnl| == |applied| && i < |pnl|
    requires EquityBefore(initial, Equities(initial, pnl), i) != 0.0
  {
    var e := Equities(initial, pnl);
    var after := AfterLiquidation(e[i], SpotNotional(EntryEquityAt(initial, e, applied, i), leverage), m);
    var pnl' := Overwrite(pnl, i, LiquidationReturn(after, EquityBefore(initial, e, i)), 0.0);
    Outcome(pnl', Equities(initial, pnl'), Overwrite(applied, i, applied[i], false), Some(i))
  }

  function Liquidate(initial: real, leverage: real, m: Margin, pnl: seq<real>,
                     applied: seq<bool>): (r: Result<Outcome, LiquidationError>)
    requires |pnl| == |applied|
    ensures r.Success? ==> |r.value.pnl| == |r.value.equity| == |r.value.applied| == |pnl|
  {
    var e := Equities(initial, pnl);
    var breach := FirstBreach(initial, leverage, m, e, applied, 0);
    if breach.None? then Success(Outcome(pnl, e, applied, None))
    else if EquityBefore(initial, e, breach.value) == 0.0 then Failure(DivisionByZero(breach.value))
    else Success(Cut(initial, leverage, m, pnl, applied, breach.value))
  }

  method CumulativeEquity(initial: real, pnl: array<real>) returns (e: seq<real>)
    ensures e == Equities(initial, pnl[..])
  {
    e := [];
    var running := initial;
    for i := 0 to pnl.Length
      invariant |e| == i && running == Compound(initial, pnl[..], i)
      invariant forall j | 0 <= j < i :: e[j] == Compound(initial, pnl[..], j + 1)
    {
      running := running * (1.0 + pnl[i]);
      e := e + [running];
    }
  }

  // Write v at i and a constant after it.
  method OverwriteFrom<T>(a: array<T>, i: nat, v: T, rest: T)
    requires i < a.Length
    modifies a
    ensures a[..] == Overwrite(old(a[..]), i, v, rest)
  {
    a[i] := v;
    forall j | i < j < a.Length {
      a[j] := rest;
    }
    assert a[..i] == old(a[..i]);
    assert a[..] == Overwrite(old(a[..]), i, v, rest);
  }

  // The pass itself, on the two series in place.
  method ApplyCarryLiquidation(pnl: array<real>, applied: array<bool>, initial: real, leverage: real, m: Margin)
    returns (r: Result<(seq<real>, Option<nat>), LiquidationError>)
    requires pnl.Length == applied.Length
    modifies pnl, applied
    ensures match Liquidate(initial, leverage, m, old(pnl[..]), old(applied[..]))
            case Failure(e) => r == Failure(e) && pnl[..] == old(pnl[..]) && applied[..] == old(applied[..])
            case Success(o) => r == Success((o.equity, o.at)) && pnl[..] == o.pnl && applied[..] == o.applied
  {
    hide LiquidationReturn, AfterLiquidation, SpotNotional;
    ghost var p, a := pnl[..], applied[..];
    var e := CumulativeEquity(initial, pnl);
    var breach := ScanForBreach(e, applied, initial, leverage, m);
    if breach.None? {
      return Success((e, None));
    }
    var (i, entry) := breach.value;
    assert entry == EntryEquityAt(initial, Equities(initial, p), a, i);
    var before := if i == 0 then initial else e[i - 1];
    if before == 0.0 {
      return Failure(DivisionByZero(i));
    }
    var after := AfterLiquidation(e[i], SpotNotional(entry, leverage), m);
    assert before == EquityBefore(initial, Equities(initial, p), i);
    OverwriteFrom(pnl, i, LiquidationReturn(after, before), 0.0);
    OverwriteFrom(applied, i, applied[i], false);
    e := CumulativeEquity(initial, pnl);
    r := Success((e, Some(i)));
  }

  // The scan: the first breach, with the equity at the entry it belongs to.
  method ScanForBreach(e: seq<real>, applied: array<bool>, initial: real, leverage: real, m: Margin)
    returns (r: Option<(nat, real)>)
    requires |e| == applied.Length
    ensures var first := FirstBreach(initial, leverage, m, e, applied[..], 0);
            r == if first.None? then None
                 else Some((first.value, EntryEquityAt(initial, e, applied[..], first.value)))
  {
    ghost var a := applied[..];
    var entry := initial;
    for i := 0 to |e|
      invariant entry == if i == 0 then initial else EntryEquityAt(initial, e, a, i - 1)
      invariant FirstBreach(initial, leverage, m, e, a, 0) == FirstBreach(initial, leverage, m, e, a, i)
    {
      if applied[i] && (i == 0 || !applied[i - 1]) {
        entry := if i == 0 then initial else e[i - 1];
      }
      assert a[i] == applied[i] && (i > 0 ==> a[i - 1] == applied[i - 1]);
      assert entry == EntryEquityAt(initial, e, a, i);
      if applied[i] && Undermargined(e[i], SpotNotional(entry, leverage), m) {
        assert FirstBreach(initial, leverage, m, e, a, i) == Some(i);
        return Some((i, entry));
      }
    }
    r := None;
  }

  // ---- closed form ----

  lemma {:induction false} CompoundOfPrefix(initial: real, a: seq<real>, b: seq<real>, n: nat)
    requires n <= |a| && n <= |b| && a[..n] == b[..n]
    ensures Compound(initial, a, n) == Compound(initial, b, n)
  {
    if n > 0 {
      assert a[..n][n - 1] == b[..n][n - 1] && a[..n][..n - 1] == a[..n - 1] && b[..n][..n - 1] == b[..n - 1];
      CompoundOfPrefix(initial, a, b, n - 1);
    }
  }

  lemma {:induction false} FlatAfter(initial: real, pnl: seq<real>, i: nat, n: nat)
    requires i <= n <= |pnl| && forall j | i <= j < n :: pnl[j] == 0.0
    ensures Compound(initial, pnl, n) == Compound(initial, pnl, i)
  {
    if n > i {
      FlatAfter(initial, pnl, i, n - 1);
    }
  }

  lemma Regrow(before: real, after: real)
    requires before != 0.0
    ensures before * (1.0 + LiquidationReturn(after, before)) == after
  {
  }

  // Equity is untouched before the liquidation and frozen at its proceeds from then on.
  lemma {:induction false} LiquidationClosedForm(initial: real, leverage: real, m: Margin, pnl: seq<real>,
                                                 applied: seq<bool>, i: nat)
    requires |pnl| == |applied| && i < |pnl|
    requires EquityBefore(initial, Equities(initial, pnl), i) != 0.0
    ensures var e, o := Equities(initial, pnl), Cut(initial, leverage, m, pnl, applied, i);
            var after := AfterLiquidation(e[i], SpotNotional(EntryEquityAt(initial, e, applied, i), leverage), m);
            && o.equity[..i] == e[..i]
            && forall j | i <= j < |pnl| :: o.equity[j] == after
  {
    hide LiquidationReturn, AfterLiquidation, SpotNotional, Compound;
    var e := Equities(initial, pnl);
    var after := AfterLiquidation(e[i], SpotNotional(EntryEquityAt(initial, e, applied, i), leverage), m);
    FrozenFrom(initial, pnl, Cut(initial, leverage, m, pnl, applied, i).pnl, i, after);
  }

  lemma FrozenFrom(initial: real, pnl: seq<real>, pnl': seq<real>, i: nat, after: real)
    requires |pnl| == |pnl'| && i < |pnl| && pnl'[..i] == pnl[..i]
    requires EquityBefore(initial, Equities(initial, pnl), i) != 0.0
    requires pnl'[i] == LiquidationReturn(after, EquityBefore(initial, Equities(initial, pnl), i))
    requires forall j | i < j < |pnl'| :: pnl'[j] == 0.0
    ensures Equities(initial, pnl')[..i] == Equities(initial, pnl)[..i]
    ensures forall j | i <= j < |pnl| :: Equities(initial, pnl')[j] == after
  {
    hide LiquidationReturn;
    var before := EquityBefore(initial, Equities(initial, pnl), i);
    Prefixes(initial, pnl, pnl', i);
    assert before == Compound(initial, pnl, i);
    Regrow(before, after);
    assert Compound(initial, pnl', i + 1) == after;
    Flats(initial, pnl', i + 1);
  }

  lemma Prefixes(initial: real, a: seq<real>, b: seq<real>, n: nat)
    requires n <= |a| && n <= |b| && a[..n] == b[..n]
    ensures forall j | 0 <= j <= n :: Compound(initial, b, j) == Compound(initial, a, j)
  {
    forall j | 0 <= j <= n
      ensures Compound(initial, b, j) == Compound(initial, a, j)
    {
      assert a[..j] == a[..n][..j] == b[..j];
      CompoundOfPrefix(initial, a, b, j);
    }
  }

  lemma Flats(initial: real, pnl: seq<real>, i: nat)
    requires i <= |pnl| && forall j | i <= j < |pnl| :: pnl[j] == 0.0
    ensures forall j | i <= j <= |pnl| :: Compound(initial, pnl, j) == Compound(initial, pnl, i)
  {
    forall j | i <= j <= |pnl|
      ensures Compound(initial, pnl, j) == Compound(initial, pnl, i)
    {
      FlatAfter(initial, pnl, i, j);
    }
  }

  // ---- safety on a ledger ----

  // Fees and slippage of one opening, as a fraction of the equity committed.
  function EntryCost(t: Terms): real {
    2.0 * (t.feeRate + t.slippageBps / 10000.0) * t.leverage
  }

  // What an opening leaves.
  function NetOfEntry(equity: real, cost: real): real {
    equity * (1.0 - cost)
  }

  predicate ValidMargin(m: Margin) {
    m.haircut >= 0.0 && m.maintenance >= 0.0 && m.fee >= 0.0
  }

  function LedgerEquities(x: Input): (e: seq<real>)
    requires Shaped(x)
    ensures |e| == |x.flows|
  {
    Equities(x.terms.initial, Returns(x))
  }

  lemma LedgerEquitiesAre(x: Input, i: nat)
    requires Shaped(x) && i < |x.flows|
    ensures LedgerEquities(x)[i] == BookAfter(x, i + 1).equity
    ensures EquityBefore(x.terms.initial, LedgerEquities(x), i) == BookAfter(x, i).equity
  {
    hide BookAfter;
    CompoundedReturnsAreEquity(x, i + 1);
    CompoundedReturnsAreEquity(x, i);
  }

  lemma OpeningCosts(t: Terms, equity: real)
    requires equity > 0.0
    ensures equity - Fee(t, Geared(equity, t.leverage)) - Slippage(t, Geared(equity, t.leverage))
         == NetOfEntry(equity, EntryCost(t))
  {
    var rate, n := t.feeRate + t.slippageBps / 10000.0, equity * t.leverage;
    assert Fee(t, n) + Slippage(t, n) == 2.0 * rate * n;
  }

  lemma NothingCharged(t: Terms)
    ensures Fee(t, 0.0) == 0.0 && Slippage(t, 0.0) == 0.0
  {
  }

  // An event at which the account is not exposed: nothing happens unless a position is opened.
  lemma {:induction false} UnexposedStep(x: Input, i: nat)
    requires Aligned(x) && i < |x.flows| && !x.exposures[i] && BookAfter(x, i).equity > 0.0
    ensures BookAfter(x, i + 1).equity
         == if x.decisions[i] then NetOfEntry(BookAfter(x, i).equity, EntryCost(x.terms)) else BookAfter(x, i).equity
  {
    hide BookAfter, NextBook, Post, EntryCost, NetOfEntry, Fee, Slippage, Geared;
    BookStep(x, i);
    GrowthStep(x, i, BookAfter(x, i));
    UnexposedPosting(x, i, BookAfter(x, i));
    if x.decisions[i] {
      OpeningCosts(x.terms, BookAfter(x, i).equity);
    }
  }

  lemma BookStep(x: Input, i: nat)
    requires Shaped(x) && i < |x.flows|
    ensures BookAfter(x, i + 1).equity == NextBook(x, i, BookAfter(x, i)).equity
  {
    hide NextBook;
  }

  lemma UnexposedPosting(x: Input, i: nat, b: Book)
    requires Aligned(x) && i < |x.flows| && !x.exposures[i] && b.equity > 0.0
    ensures Net(Post(x, i, b))
         == if x.decisions[i] then
              -Fee(x.terms, Geared(b.equity, x.terms.leverage)) - Slippage(x.terms, Geared(b.equity, x.terms.leverage))
            else 0.0
  {
    hide EventPrice, Fee, Slippage, Geared;
    NothingCharged(x.terms);
    assert AfterEvent(x, i, b) == b.equity;
    assert Opened(x, i) <==> x.decisions[i];
    assert !Closed(x, i);
  }

  lemma {:induction false} EntryEquityIsAnEquity(initial: real, e: seq<real>, applied: seq<bool>, i: nat)
    requires |e| == |applied| && i < |e|
    requires initial > 0.0 && forall j | 0 <= j < i :: e[j] > 0.0
    ensures EntryEquityAt(initial, e, applied, i) > 0.0
  {
    if !(applied[i] && (i == 0 || !applied[i - 1])) && i > 0 {
      EntryEquityIsAnEquity(initial, e, applied, i - 1);
    }
  }

  lemma MarginedIsPositive(equity: real, notional: real, m: Margin)
    requires ValidMargin(m) && notional >= 0.0 && !Undermargined(equity, notional, m)
    ensures equity > 0.0
  {
    assert notional * m.haircut >= 0.0 && notional * m.maintenance >= 0.0;
  }

  // ---- what the scan takes for the entry ----

  // For a position held to n the scan finds the equity its opening left, the ledger the equity
  // before the opening: the notional the margin is computed on is smaller by the opening costs.
  lemma {:induction false} ScanSeesNetEntry(x: Input, s: nat, n: nat)
    requires Aligned(x) && HeldTo(x, s, n) && s < n && BookAfter(x, s).equity > 0.0
    ensures EntryEquityAt(x.terms.initial, LedgerEquities(x), x.exposures, n)
         == NetOfEntry(BookAfter(x, s).equity, EntryCost(x.terms))
    ensures SpotNotional(EntryEquityAt(x.terms.initial, LedgerEquities(x), x.exposures, n), x.terms.leverage)
         == NetOfEntry(BookAfter(x, n).entryNotional, EntryCost(x.terms))
  {
    hide BookAfter, NetOfEntry, EntryCost, Compound, SpotNotional;
    EntryLeft(x, s, n);
    TermsFixedAtEntry(x, s, n);
    assert BookAfter(x, n).entryNotional == BookAfter(x, s).equity * x.terms.leverage;
    NetOfGeared(BookAfter(x, s).equity, x.terms.leverage, EntryCost(x.terms), BookAfter(x, n).entryNotional);
  }

  lemma NetOfGeared(equity: real, leverage: real, cost: real, notional: real)
    requires notional == equity * leverage
    ensures SpotNotional(NetOfEntry(equity, cost), leverage) == NetOfEntry(notional, cost)
  {
  }

  lemma {:induction false} EntryLeft(x: Input, s: nat, n: nat)
    requires Aligned(x) && HeldTo(x, s, n) && s < n && BookAfter(x, s).equity > 0.0
    ensures EntryEquityAt(x.terms.initial, LedgerEquities(x), x.exposures, n)
         == NetOfEntry(BookAfter(x, s).equity, EntryCost(x.terms))
  {
    hide BookAfter, NetOfEntry, EntryCost, Compound;
    HeldIsExposed(x, s, n);
    if n == s + 1 {
      SwitchesAndExposure(x, s);
      UnexposedStep(x, s);
      LedgerEquitiesAre(x, s);
    } else {
      EntryLeft(x, s, n - 1);
      HeldIsExposed(x, s, n - 1);
    }
  }

  // Before any liquidation every equity is positive.
  ghost predicate PositiveBeforeLiquidation(x: Input, m: Margin)
    requires Shaped(x)
  {
    var e := LedgerEquities(x);
    var breach := FirstBreach(x.terms.initial, x.terms.leverage, m, e, x.exposures, 0);
    forall i | 0 <= i < (if breach.Some? then breach.value else |e|) :: e[i] > 0.0
  }

  lemma {:induction false} PositiveUpTo(x: Input, m: Margin, n: nat)
    requires Aligned(x) && ValidMargin(m) && n <= |x.flows|
    requires x.terms.initial > 0.0 && x.terms.leverage >= 1.0
    requires EntryCost(x.terms) < 1.0 || forall i | 0 <= i < n :: !x.decisions[i]
    requires forall i: nat | i < n :: !Breach(x.terms.initial, x.terms.leverage, m, LedgerEquities(x), x.exposures, i)
    ensures forall i | 0 <= i < n :: LedgerEquities(x)[i] > 0.0
    ensures BookAfter(x, n).equity > 0.0
  {
    hide BookAfter, Compound, EntryCost, NetOfEntry, Undermargined, SpotNotional;
    if n > 0 {
      PositiveUpTo(x, m, n - 1);
      LedgerEquitiesAre(x, n - 1);
      var e := LedgerEquities(x);
      if x.exposures[n - 1] {
        EntryEquityIsAnEquity(x.terms.initial, e, x.exposures, n - 1);
        assert !Breach(x.terms.initial, x.terms.leverage, m, e, x.exposures, n - 1);
        NonNegativeNotional(EntryEquityAt(x.terms.initial, e, x.exposures, n - 1), x.terms.leverage);
        MarginedIsPositive(e[n - 1],
                           SpotNotional(EntryEquityAt(x.terms.initial, e, x.exposures, n - 1), x.terms.leverage), m);
      } else {
        UnexposedStep(x, n - 1);
        if x.decisions[n - 1] {
          NetOfEntrySign(BookAfter(x, n - 1).equity, EntryCost(x.terms));
        }
      }
    } else {
      EmptyBook(x);
    }
  }

  lemma EmptyBook(x: Input)
    requires Shaped(x)
    ensures BookAfter(x, 0).equity == x.terms.initial
  {
  }

  lemma NetOfEntrySign(equity: real, cost: real)
    requires equity > 0.0
    ensures NetOfEntry(equity, cost) > 0.0 <==> cost < 1.0
    ensures NetOfEntry(equity, cost) == 0.0 <==> cost == 1.0
  {
  }

  lemma NonNegativeNotional(entryEquity: real, leverage: real)
    requires entryEquity >= 0.0 && leverage >= 0.0
    ensures SpotNotional(entryEquity, leverage) >= 0.0
  {
  }

  lemma {:induction false} IdleKeepsInitial(x: Input, n: nat)
    requires Aligned(x) && n <= |x.flows| && x.terms.initial > 0.0
    requires forall i | 0 <= i < n :: !x.decisions[i]
    ensures BookAfter(x, n).equity == x.terms.initial
  {
    hide BookAfter, NetOfEntry, EntryCost;
    if n > 0 {
      IdleKeepsInitial(x, n - 1);
      UnexposedStep(x, n - 1);
    } else {
      EmptyBook(x);
    }
  }

  // The pass is safe on exactly the runs that never open, or whose opening costs leave some
  // equity.  A caller can check the first condition before running.
  lemma {:induction false} SafetyThreshold(x: Input, m: Margin)
    requires Aligned(x) && ValidMargin(m) && x.terms.initial > 0.0 && x.terms.leverage >= 1.0
    ensures PositiveBeforeLiquidation(x, m) <==>
            EntryCost(x.terms) < 1.0 || forall i | 0 <= i < |x.flows| :: !x.decisions[i]
  {
    hide BookAfter, Compound, EntryCost, NetOfEntry, Undermargined, SpotNotional;
    var e := LedgerEquities(x);
    var breach := FirstBreach(x.terms.initial, x.terms.leverage, m, e, x.exposures, 0);
    var n := if breach.Some? then breach.value else |e|;
    if EntryCost(x.terms) < 1.0 || forall i | 0 <= i < |x.flows| :: !x.decisions[i] {
      PositiveUpTo(x, m, n);
    } else {
      var j := FirstDecision(x, 0);
      IdleKeepsInitial(x, j);
      UnexposedStep(x, j);
      NetOfEntrySign(x.terms.initial, EntryCost(x.terms));
      LedgerEquitiesAre(x, j);
      assert !(e[j] > 0.0);
      assert forall i | 0 <= i <= j :: !x.exposures[i];
    }
  }

  lemma FirstDecision(x: Input, from: nat) returns (j: nat)
    requires Shaped(x) && from <= |x.flows|
    requires exists i :: from <= i < |x.flows| && x.decisions[i]
    ensures from <= j < |x.flows| && x.decisions[j] && forall i | from <= i < j :: !x.decisions[i]
    decreases |x.flows| - from
  {
    if x.decisions[from] {
      j := from;
    } else {
      j := FirstDecision(x, from + 1);
    }
  }

  // A safe run divides by no zero and reports no negative equity.
  lemma {:induction false} SafeRunIsReported(x: Input, m: Margin)
    requires Shaped(x) && x.terms.initial > 0.0 && PositiveBeforeLiquidation(x, m)
    ensures var r := Liquidate(x.terms.initial, x.terms.leverage, m, Returns(x), x.exposures);
            r.Success? && forall i | 0 <= i < |x.flows| :: r.value.equity[i] >= 0.0
  {
    hide Compound;
    var e := LedgerEquities(x);
    var breach := FirstBreach(x.terms.initial, x.terms.leverage, m, e, x.exposures, 0);
    if breach.Some? {
      LiquidationClosedForm(x.terms.initial, x.terms.leverage, m, Returns(x), x.exposures, breach.value);
      var o := Cut(x.terms.initial, x.terms.leverage, m, Returns(x), x.exposures, breach.value);
      forall i | 0 <= i < |x.flows|
        ensures o.equity[i] >= 0.0
      {
        if i < breach.value {
          assert o.equity[..breach.value][i] == e[..breach.value][i] && e[i] > 0.0;
        } else {
          assert o.equity[i] == AfterLiquidation(
            e[breach.value],
            SpotNotional(EntryEquityAt(x.terms.initial, e, x.exposures, breach.value), x.terms.leverage), m);
        }
      }
    }
  }

  // ---- ruin by opening ----

  // Opening costs eat the whole equity or more: from the event after the first opening on the
  // ledger stands at zero.
  lemma {:induction false} RuinedByOpening(x: Input, j: nat, n: nat)
    requires Aligned(x) && x.terms.initial > 0.0 && EntryCost(x.terms) >= 1.0
    requires j < |x.flows| && x.decisions[j] && n < |x.flows| && forall i | 0 <= i < j :: !x.decisions[i]
    ensures LedgerEquities(x)[n]
         == if n < j then x.terms.initial
            else if n == j then NetOfEntry(x.terms.initial, EntryCost(x.terms)) else 0.0
  {
    hide BookAfter, NextBook, Post, EntryCost, NetOfEntry, Compound;
    LedgerEquitiesAre(x, n);
    if n <= j {
      IdleKeepsInitial(x, n);
      UnexposedStep(x, n);
    } else {
      RuinedByOpening(x, j, n - 1);
      LedgerEquitiesAre(x, n - 1);
      NothingLeft(x.terms.initial, EntryCost(x.terms));
      BookStep(x, n);
      GrowthStep(x, n, BookAfter(x, n));
    }
  }

  lemma NothingLeft(equity: real, cost: real)
    requires equity > 0.0 && cost >= 1.0
    ensures NetOfEntry(equity, cost) <= 0.0
    ensures NetOfEntry(equity, cost) == 0.0 <==> cost == 1.0
  {
  }

  // Exposed from i on for the first time since an event without exposure.
  predicate Enters(x: Input, i: nat)
    requires Shaped(x) && i < |x.flows|
  {
    x.exposures[i] && (i == 0 || !x.exposures[i - 1])
  }

  // Some event is exposed, goes without exposure, and is exposed again.
  ghost predicate Reenters(x: Input)
    requires Shaped(x)
  {
    exists s, i :: 0 <= s < i < |x.flows| && x.exposures[s] && Enters(x, i)
  }

  // When the pass divides by zero: the first opening costs exactly everything and the position
  // shows, or it costs more, the margin asks for something, and there is a second position.
  ghost predicate DividesByZero(x: Input, m: Margin)
    requires Shaped(x)
  {
    || (EntryCost(x.terms) == 1.0 && exists i :: 0 <= i < |x.flows| && x.exposures[i])
    || (EntryCost(x.terms) > 1.0 && m.haircut + m.maintenance > 0.0 && Reenters(x))
  }

  // The equity a scan takes for the entry: what the opening left in the first position, nothing
  // in every later one.
  lemma {:induction false} EntryAfterRuin(x: Input, j: nat, s: nat, i: nat)
    requires Aligned(x) && x.terms.initial > 0.0 && EntryCost(x.terms) >= 1.0
    requires j < |x.flows| && x.decisions[j] && forall k | 0 <= k < j :: !x.decisions[k]
    requires j < s <= i < |x.flows| && Enters(x, s) && forall k | s < k <= i :: !Enters(x, k)
    ensures EntryEquityAt(x.terms.initial, LedgerEquities(x), x.exposures, i)
         == if s == j + 1 then NetOfEntry(x.terms.initial, EntryCost(x.terms)) else 0.0
  {
    hide Compound, NetOfEntry, EntryCost;
    if i == s {
      RuinedByOpening(x, j, s - 1);
    } else {
      assert !Enters(x, i);
      EntryAfterRuin(x, j, s, i - 1);
    }
  }

  // An event after the ruin breaches unless the scan sees a negative notional and the margin asks
  // for something.
  lemma BreachAfterRuin(x: Input, m: Margin, j: nat, s: nat, i: nat)
    requires Aligned(x) && ValidMargin(m) && x.terms.initial > 0.0 && x.terms.leverage >= 1.0
    requires EntryCost(x.terms) >= 1.0
    requires j < |x.flows| && x.decisions[j] && forall k | 0 <= k < j :: !x.decisions[k]
    requires j < s <= i < |x.flows| && Enters(x, s) && forall k | s < k <= i :: !Enters(x, k)
    ensures Breach(x.terms.initial, x.terms.leverage, m, LedgerEquities(x), x.exposures, i) <==>
              x.exposures[i] && (EntryCost(x.terms) == 1.0 || m.haircut + m.maintenance == 0.0 || s > j + 1)
  {
    RuinedByOpening(x, j, i);
    EntryAfterRuin(x, j, s, i);
    hide LedgerEquities, EntryCost, NetOfEntry, EntryEquityAt;
    var left := NetOfEntry(x.terms.initial, EntryCost(x.terms));
    NothingLeft(x.terms.initial, EntryCost(x.terms));
    MarginOfRuin(left, x.terms.leverage, m);
    MarginOfRuin(0.0, x.terms.leverage, m);
  }

  lemma MarginOfRuin(entry: real, leverage: real, m: Margin)
    requires ValidMargin(m) && leverage >= 1.0 && entry <= 0.0
    ensures Undermargined(0.0, SpotNotional(entry, leverage), m) <==> entry == 0.0 || m.haircut + m.maintenance == 0.0
  {
    var n, asked := SpotNotional(entry, leverage), m.haircut + 2.0 * m.maintenance;
    assert n <= 0.0 && (n == 0.0 <==> entry == 0.0);
    assert 0.0 - n * m.haircut - 2.0 * n * m.maintenance == -n * asked;
    assert n < 0.0 && asked > 0.0 ==> -n * asked > 0.0;
  }

  lemma {:induction false} LatestEntry(x: Input, j: nat, i: nat) returns (s: nat)
    requires Aligned(x) && j < i < |x.flows| && x.decisions[j] && forall k | 0 <= k < j :: !x.decisions[k]
    ensures j < s <= i && Enters(x, s) && forall k | s < k <= i :: !Enters(x, k)
  {
    if i == j + 1 || Enters(x, i) {
      s := i;
    } else {
      s := LatestEntry(x, j, i - 1);
    }
  }

  // Costs of exactly everything, or a margin that asks for nothing: the first exposed event breaches.
  lemma BreachAtOnce(x: Input, m: Margin, j: nat)
    requires Aligned(x) && ValidMargin(m) && x.terms.initial > 0.0 && x.terms.leverage >= 1.0
    requires EntryCost(x.terms) == 1.0 || (EntryCost(x.terms) > 1.0 && m.haircut + m.maintenance == 0.0)
    requires j + 1 < |x.flows| && x.decisions[j] && forall k | 0 <= k < j :: !x.decisions[k]
    ensures FirstBreach(x.terms.initial, x.terms.leverage, m, LedgerEquities(x), x.exposures, 0) == Some(j + 1)
    ensures EquityBefore(x.terms.initial, LedgerEquities(x), j + 1) == NetOfEntry(x.terms.initial, EntryCost(x.terms))
  {
    hide LedgerEquities, EntryCost, NetOfEntry, Breach;
    RuinedByOpening(x, j, j);
    BreachAfterRuin(x, m, j, j + 1, j + 1);
    FirstBreachIs(x.terms.initial, x.terms.leverage, m, LedgerEquities(x), x.exposures, j + 1);
  }

  // Costs above everything under a margin that asks for something: only a second position breaches,
  // and when it does there is nothing left to divide by.
  lemma BreachOnReentry(x: Input, m: Margin, j: nat)
    requires Aligned(x) && ValidMargin(m) && x.terms.initial > 0.0 && x.terms.leverage >= 1.0
    requires EntryCost(x.terms) > 1.0 && m.haircut + m.maintenance > 0.0
    requires j < |x.flows| && x.decisions[j] && forall k | 0 <= k < j :: !x.decisions[k]
    ensures var e := LedgerEquities(x);
            var breach := FirstBreach(x.terms.initial, x.terms.leverage, m, e, x.exposures, 0);
            && (breach.Some? <==> Reenters(x))
            && (breach.Some? ==> EquityBefore(x.terms.initial, e, breach.value) == 0.0)
  {
    hide LedgerEquities, EntryCost, NetOfEntry;
    var e := LedgerEquities(x);
    var breach := FirstBreach(x.terms.initial, x.terms.leverage, m, e, x.exposures, 0);
    if breach.Some? {
      var s := LatestEntry(x, j, breach.value);
      BreachAfterRuin(x, m, j, s, breach.value);
      assert x.exposures[j + 1] && Enters(x, s);
      RuinedByOpening(x, j, breach.value - 1);
    }
    if Reenters(x) {
      var s, i :| 0 <= s < i < |x.flows| && x.exposures[s] && Enters(x, i);
      BreachAfterRuin(x, m, j, i, i);
    }
  }

  lemma NoDecisionNoExposure(x: Input)
    requires Aligned(x) && forall i | 0 <= i < |x.flows| - 1 :: !x.decisions[i]
    ensures forall i | 0 <= i < |x.flows| :: !x.exposures[i]
    ensures !Reenters(x)
  {
  }

  // When the opening costs eat exactly the whole equity the next event divides by zero.
  lemma EntryCostOfOneDividesByZero(x: Input, m: Margin, j: nat)
    requires Aligned(x) && ValidMargin(m) && x.terms.initial > 0.0 && EntryCost(x.terms) == 1.0
    requires j + 1 < |x.flows| && x.decisions[j] && forall i | 0 <= i < j :: !x.decisions[i]
    ensures Liquidate(x.terms.initial, x.terms.leverage, m, Returns(x), x.exposures) == Failure(DivisionByZero(j + 1))
  {
    IdleKeepsInitial(x, j);
    UnexposedStep(x, j);
    LedgerEquitiesAre(x, j);
    LedgerEquitiesAre(x, j + 1);
    GrowthStep(x, j + 1, BookAfter(x, j + 1));
    hide BookAfter, LedgerEquities, Returns;
    var e := Equities(x.terms.initial, Returns(x));
    assert e[j] == 0.0 && e[j + 1] == 0.0;
    assert forall i | 0 <= i <= j :: !x.exposures[i];
    assert EntryEquityAt(x.terms.initial, e, x.exposures, j + 1) == 0.0;
    assert Breach(x.terms.initial, x.terms.leverage, m, e, x.exposures, j + 1);
    FirstBreachIs(x.terms.initial, x.terms.leverage, m, e, x.exposures, j + 1);
  }

  // The pass divides by zero exactly then.
  lemma {:induction false} DividesByZeroExactly(x: Input, m: Margin)
    requires Aligned(x) && ValidMargin(m) && x.terms.initial > 0.0 && x.terms.leverage >= 1.0
    ensures Liquidate(x.terms.initial, x.terms.leverage, m, Returns(x), x.exposures).Failure? <==> DividesByZero(x, m)
  {
    hide Compound, EntryCost, NetOfEntry, Breach, Reenters, Cut, PositiveBeforeLiquidation, BookAfter;
    if EntryCost(x.terms) < 1.0 || forall i | 0 <= i < |x.flows| :: !x.decisions[i] {
      SafetyThreshold(x, m);
      SafeRunIsReported(x, m);
      if forall i | 0 <= i < |x.flows| :: !x.decisions[i] {
        NoDecisionNoExposure(x);
      }
    } else {
      var j := FirstDecision(x, 0);
      if EntryCost(x.terms) > 1.0 && m.haircut + m.maintenance > 0.0 {
        BreachOnReentry(x, m, j);
      } else if j + 1 < |x.flows| {
        BreachAtOnce(x, m, j);
        NothingLeft(x.terms.initial, EntryCost(x.terms));
        assert x.exposures[j + 1];
      } else {
        NoDecisionNoExposure(x);
        NoBreachUnexposed(x.terms.initial, x.terms.leverage, m, LedgerEquities(x), x.exposures);
      }
    }
  }

  // What a run is reported as when its first opening takes everything or more: the equity below
  // zero at that event, and from the next on either nothing or, when the margin asks for nothing,
  // what "liquidating" the negative notional pays back in fees.
  lemma {:induction false} RuinIsReported(x: Input, m: Margin, j: nat)
    requires Aligned(x) && ValidMargin(m) && x.terms.initial > 0.0 && x.terms.leverage >= 1.0
    requires EntryCost(x.terms) >= 1.0 && !DividesByZero(x, m)
    requires j < |x.flows| && x.decisions[j] && forall k | 0 <= k < j :: !x.decisions[k]
    ensures var r := Liquidate(x.terms.initial, x.terms.leverage, m, Returns(x), x.exposures);
            var left := NetOfEntry(x.terms.initial, EntryCost(x.terms));
            var free := m.haircut + m.maintenance == 0.0;
            && r.Success? && r.value.at == (if free && j + 1 < |x.flows| then Some(j + 1) else None)
            && forall i | 0 <= i < |x.flows| ::
                 r.value.equity[i] ==
                   if i < j then x.terms.initial
                   else if i == j then left
                   else if free then -2.0 * (left * x.terms.leverage) * m.fee else 0.0
  {
    hide Compound, EntryCost, NetOfEntry, Breach, Reenters, BookAfter;
    DividesByZeroExactly(x, m);
    forall i | 0 <= i < |x.flows|
      ensures LedgerEquities(x)[i] == if i < j then x.terms.initial
                                      else if i == j then NetOfEntry(x.terms.initial, EntryCost(x.terms)) else 0.0
    {
      RuinedByOpening(x, j, i);
    }
    if EntryCost(x.terms) > 1.0 && m.haircut + m.maintenance > 0.0 {
      BreachOnReentry(x, m, j);
    } else if j + 1 < |x.flows| {
      assert x.exposures[j + 1];
      ReportedAtOnce(x, m, j);
    } else {
      NoDecisionNoExposure(x);
      NoBreachUnexposed(x.terms.initial, x.terms.leverage, m, LedgerEquities(x), x.exposures);
    }
  }

  lemma ReportedAtOnce(x: Input, m: Margin, j: nat)
    requires Aligned(x) && ValidMargin(m) && x.terms.initial > 0.0 && x.terms.leverage >= 1.0
    requires EntryCost(x.terms) > 1.0 && m.haircut + m.maintenance == 0.0
    requires j + 1 < |x.flows| && x.decisions[j] && forall k | 0 <= k < j :: !x.decisions[k]
    ensures var r := Liquidate(x.terms.initial, x.terms.leverage, m, Returns(x), x.exposures);
            var left := NetOfEntry(x.terms.initial, EntryCost(x.terms));
            && r.Success? && r.value.at == Some(j + 1) && r.value.equity[..j + 1] == LedgerEquities(x)[..j + 1]
            && forall i | j < i < |x.flows| :: r.value.equity[i] == -2.0 * (left * x.terms.leverage) * m.fee
  {
    hide Compound, EntryCost, NetOfEntry, Breach, BookAfter;
    BreachAtOnce(x, m, j);
    NothingLeft(x.terms.initial, EntryCost(x.terms));
    RuinedByOpening(x, j, j + 1);
    EntryAfterRuin(x, j, j + 1, j + 1);
    LiquidationClosedForm(x.terms.initial, x.terms.leverage, m, Returns(x), x.exposures, j + 1);
    FeesOfRuin(NetOfEntry(x.terms.initial, EntryCost(x.terms)), x.terms.leverage, m);
  }

  lemma FeesOfRuin(left: real, leverage: real, m: Margin)
    requires ValidMargin(m) && leverage >= 1.0 && left <= 0.0
    ensures AfterLiquidation(0.0, SpotNotional(left, leverage), m) == -2.0 * (left * leverage) * m.fee
  {
    var n := left * leverage;
    assert n <= 0.0 && -2.0 * n * m.fee >= 0.0;
  }

  lemma NoBreachUnexposed(initial: real, leverage: real, m: Margin, e: seq<real>, applied: seq<bool>)
    requires |e| == |applied| && forall i | 0 <= i < |e| :: !applied[i]
    ensures FirstBreach(initial, leverage, m, e, applied, 0) == None
  {
  }

  lemma FirstBreachIs(initial: real, leverage: real, m: Margin, e: seq<real>, applied: seq<bool>, i: nat)
    requires |e| == |applied| && i < |e| && Breach(initial, leverage, m, e, applied, i)
    requires forall j: nat | j < i :: !applied[j]
    ensures FirstBreach(initial, leverage, m, e, applied, 0) == Some(i)
  {
    var r := FirstBreach(initial, leverage, m, e, applied, 0);
    assert r.Some? ==> applied[r.value];
  }
}
