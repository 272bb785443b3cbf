/** Funding payments spread over OHLCV bars: what each bar receives, and what no bar receives. */
module FundingColumns {
  import opened Prelude
  import opened CarrySignal
  import Rounding

  // The four columns of one bar.
  datatype Row = Row(rate: real, atOpen: real, afterOpen: real, filter: Option<real>)

  datatype ColumnError = UnorderedFunding | FundingAfterLastBar

  function Bucket(at: int, step: int): int
    requires step > 0
  {
    (at / step) * step
  }

  datatype Part = Whole | AtOpen | AfterOpen

  predicate Counts(at: int, bar: int, step: int, part: Part)
    requires step > 0
  {
    Bucket(at, step) == bar && (part.AtOpen? ==> at == bar) && (part.AfterOpen? ==> at != bar)
  }

  // What a bar receives from the first n payments.
  function Received(ev: seq<FundingEvent>, n: nat, bar: int, step: int, part: Part): real
    requires step > 0 && n <= |ev|
  {
    if n == 0 then 0.0
    else Received(ev, n - 1, bar, step, part) + if Counts(ev[n - 1].at, bar, step, part) then ev[n - 1].rate else 0.0
  }

  // The last payment at or before t: reindex(..., method="ffill").
  function LastKnown(ev: seq<FundingEvent>, t: int): Option<real> {
    if ev == [] then None
    else if ev[|ev| - 1].at <= t then Some(ev[|ev| - 1].rate)
    else LastKnown(ev[..|ev| - 1], t)
  }

  predicate TooLate(ev: seq<FundingEvent>, bars: seq<int>, step: int) {
    bars != [] && ev != [] && ev[|ev| - 1].at > bars[|bars| - 1] + step
  }

  // groupby(bucket).sum()
  method GroupSums(ev: seq<FundingEvent>, step: int, part: Part) returns (sums: map<int, real>)
    requires step > 0
    ensures forall b | b in sums :: sums[b] == Received(ev, |ev|, b, step, part)
    ensures forall b | b !in sums :: Received(ev, |ev|, b, step, part) == 0.0
  {
    sums := map[];
    for i := 0 to |ev|
      invariant forall b | b in sums :: sums[b] == Received(ev, i, b, step, part)
      invariant forall b | b !in sums :: Received(ev, i, b, step, part) == 0.0
    {
      var bar := Bucket(ev[i].at, step);
      if Counts(ev[i].at, bar, step, part) {
        sums := sums[bar := (if bar in sums then sums[bar] else 0.0) + ev[i].rate];
      }
    }
  }

  method AddFundingColumns(ev: seq<FundingEvent>, bars: seq<int>, step: int) returns (r: Result<seq<Row>, ColumnError>)
    requires step > 0
    ensures !Ordered(ev) ==> r == Failure(UnorderedFunding)
    ensures Ordered(ev) && TooLate(ev, bars, step) ==> r == Failure(FundingAfterLastBar)
    ensures Ordered(ev) && !TooLate(ev, bars, step) ==>
              r.Success? && |r.value| == |bars| && forall i | 0 <= i < |bars| ::
                r.value[i] == Row(Received(ev, |ev|, bars[i], step, Whole), Received(ev, |ev|, bars[i], step, AtOpen),
                                  Received(ev, |ev|, bars[i], step, AfterOpen), LastKnown(ev, bars[i] + step))
  {
    if !Ordered(ev) {
      return Failure(UnorderedFunding);
    }
    if bars != [] && ev != [] && ev[|ev| - 1].at > bars[|bars| - 1] + step {
      return Failure(FundingAfterLastBar);
    }
    var whole := GroupSums(ev, step, Whole);
    var atOpen := GroupSums(ev, step, AtOpen);
    var afterOpen := GroupSums(ev, step, AfterOpen);
    var rows: seq<Row> := [];
    for i := 0 to |bars|
      invariant |rows| == i && forall j | 0 <= j < i ::
                  rows[j] == Row(Received(ev, |ev|, bars[j], step, Whole), Received(ev, |ev|, bars[j], step, AtOpen),
                                 Received(ev, |ev|, bars[j], step, AfterOpen), LastKnown(ev, bars[j] + step))
    {
      var b := bars[i];
      rows := rows + [Row(if b in whole then whole[b] else 0.0, if b in atOpen then atOpen[b] else 0.0,
                          if b in afterOpen then afterOpen[b] else 0.0, LastKnown(ev, b + step))];
    }
    r := Success(rows);
  }

  // The payment at the open and those after it make up the bar's funding.
  lemma {:induction false} PartsAddUp(ev: seq<FundingEvent>, n: nat, bar: int, step: int)
    requires step > 0 && n <= |ev|
    ensures Received(ev, n, bar, step, Whole)
         == Received(ev, n, bar, step, AtOpen) + Received(ev, n, bar, step, AfterOpen)
  {
    if n > 0 {
      PartsAddUp(ev, n - 1, bar, step);
    }
  }

  // All payments; those that fall in one of the bars; the column over the first k bars.
  function Paid(ev: seq<FundingEvent>, n: nat): real
    requires n <= |ev|
  {
    if n == 0 then 0.0 else Paid(ev, n - 1) + ev[n - 1].rate
  }

  function Lost(ev: seq<FundingEvent>, n: nat, bars: seq<int>, step: int): real
    requires step > 0 && n <= |ev|
  {
    if n == 0 then 0.0
    else Lost(ev, n - 1, bars, step) + if Bucket(ev[n - 1].at, step) in bars then 0.0 else ev[n - 1].rate
  }

  function ColumnTotal(ev: seq<FundingEvent>, bars: seq<int>, step: int): real
    requires step > 0
  {
    if bars == [] then 0.0
    else ColumnTotal(ev, bars[..|bars| - 1], step) + Received(ev, |ev|, bars[|bars| - 1], step, Whole)
  }

  lemma {:induction false} OneMoreBar(ev: seq<FundingEvent>, n: nat, bars: seq<int>, b: int, step: int)
    requires step > 0 && n <= |ev| && b !in bars
    ensures Lost(ev, n, bars + [b], step) == Lost(ev, n, bars, step) - Received(ev, n, b, step, Whole)
  {
    if n > 0 {
      OneMoreBar(ev, n - 1, bars, b, step);
    }
  }

  lemma {:induction false} NothingCovered(ev: seq<FundingEvent>, n: nat, step: int)
    requires step > 0 && n <= |ev|
    ensures Lost(ev, n, [], step) == Paid(ev, n)
  {
    if n > 0 {
      NothingCovered(ev, n - 1, step);
    }
  }

  // Every payment is in exactly one bar or in none: the column holds what was paid, except what
  // falls in no bar.
  lemma {:induction false} FundingIsConserved(ev: seq<FundingEvent>, bars: seq<int>, step: int)
    requires step > 0 && forall i, j | 0 <= i < j < |bars| :: bars[i] < bars[j]
    ensures ColumnTotal(ev, bars, step) + Lost(ev, |ev|, bars, step) == Paid(ev, |ev|)
  {
    if bars == [] {
      NothingCovered(ev, |ev|, step);
    } else {
      var init := bars[..|bars| - 1];
      FundingIsConserved(ev, init, step);
      OneMoreBar(ev, |ev|, init, bars[|bars| - 1], step);
      assert bars == init + [bars[|bars| - 1]];
    }
  }

  // On whole-step bars a payment belongs to the bar whose span it falls in.
  lemma InBar(at: int, bar: int, step: int)
    requires step > 0 && bar % step == 0
    ensures Bucket(at, step) == bar <==> bar <= at < bar + step
  {
    var q, b := bar / step, at / step;
    assert bar == q * step && Bucket(at, step) == b * step <= at < b * step + step;
    if q < b {
      Apart(q, b, step);
    } else if b < q {
      Apart(b, q, step);
    }
  }

  lemma Apart(x: int, y: int, step: int)
    requires step > 0 && x < y
    ensures x * step + step <= y * step
  {
    Rounding.MulLeft(x + 1, y, step);
    assert (x + 1) * step == x * step + step;
  }

  // The last bar to open at or before t.
  lemma {:induction false} LastBar(bars: seq<int>, t: int) returns (k: nat)
    requires StrictlyIncreasing(bars) && bars != [] && bars[0] <= t
    ensures k < |bars| && bars[k] <= t && (k + 1 < |bars| ==> t < bars[k + 1])
  {
    k := |bars| - 1;
    if bars[k] > t {
      k := LastBar(bars[..k], t);
    }
  }

  ghost predicate InGap(bars: seq<int>, step: int, at: int, k: int) {
    0 <= k < |bars| - 1 && bars[k] + step <= at < bars[k + 1]
  }

  // Which accepted payments are lost: those before the first bar, those where bars are missing,
  // and one exactly at the close of the last, which the check on late payments lets through.
  lemma LostExactly(ev: seq<FundingEvent>, bars: seq<int>, step: int, i: nat)
    requires step > 0 && i < |ev| && Ordered(ev) && !TooLate(ev, bars, step) && bars != []
    requires StrictlyIncreasing(bars) && forall k | 0 <= k < |bars| :: bars[k] % step == 0
    ensures Bucket(ev[i].at, step) !in bars
       <==> || ev[i].at < bars[0] || ev[i].at == bars[|bars| - 1] + step
            || exists k :: InGap(bars, step, ev[i].at, k)
  {
    var at, last := ev[i].at, bars[|bars| - 1];
    assert at <= ev[|ev| - 1].at <= last + step;
    hide Bucket;
    if Bucket(at, step) in bars {
      var j :| 0 <= j < |bars| && bars[j] == Bucket(at, step);
      InBar(at, bars[j], step);
    } else if bars[0] <= at < last + step {
      var k := LastBar(bars, at);
      InBar(at, bars[k], step);
      assert InGap(bars, step, at, k);
    }
  }

  ghost predicate LatestAt(ev: seq<FundingEvent>, t: int, i: int) {
    0 <= i < |ev| && ev[i].at <= t && forall j | i < j < |ev| :: ev[j].at > t
  }

  lemma LatestExtends(ev: seq<FundingEvent>, t: int, i: int)
    requires ev != [] && ev[|ev| - 1].at > t && LatestAt(ev[..|ev| - 1], t, i)
    ensures LatestAt(ev, t, i) && ev[..|ev| - 1][i] == ev[i]
  {
    var init := ev[..|ev| - 1];
    forall j | i < j < |ev|
      ensures ev[j].at > t
    {
      assert j < |init| ==> init[j] == ev[j];
    }
  }

  // The filter of a bar is the latest payment at or before its close, whatever comes later.
  lemma {:induction false} LastKnownIsLatest(ev: seq<FundingEvent>, t: int)
    ensures LastKnown(ev, t).None? ==> forall i | 0 <= i < |ev| :: ev[i].at > t
    ensures LastKnown(ev, t).Some? ==> exists i :: LatestAt(ev, t, i) && ev[i].rate == LastKnown(ev, t).value
  {
    if ev != [] {
      if ev[|ev| - 1].at <= t {
        assert LatestAt(ev, t, |ev| - 1);
      } else {
        var init := ev[..|ev| - 1];
        LastKnownIsLatest(init, t);
        if LastKnown(init, t).Some? {
          hide LatestAt;
          var i :| LatestAt(init, t, i) && init[i].rate == LastKnown(init, t).value;
          LatestExtends(ev, t, i);
        } else {
          assert forall i | 0 <= i < |init| :: ev[i] == init[i];
        }
      }
    }
  }

  // ---- bar by bar ----

  // The rates of the first n payments that come at lo or later and before hi.
  function PaidWithin(ev: seq<FundingEvent>, n: nat, lo: int, hi: int): real
    requires n <= |ev|
  {
    if n == 0 then 0.0 else PaidWithin(ev, n - 1, lo, hi) + if lo <= ev[n - 1].at < hi then ev[n - 1].rate else 0.0
  }

  // A bar on whole steps gets what is paid from its open to its close: the payment at its very open in
  // one column, the later ones in the other.
  lemma {:induction false} ReceivedIsPaidWithin(ev: seq<FundingEvent>, n: nat, bar: int, step: int)
    requires step > 0 && bar % step == 0 && n <= |ev|
    ensures Received(ev, n, bar, step, Whole) == PaidWithin(ev, n, bar, bar + step)
    ensures Received(ev, n, bar, step, AtOpen) == PaidWithin(ev, n, bar, bar + 1)
    ensures Received(ev, n, bar, step, AfterOpen) == PaidWithin(ev, n, bar + 1, bar + step)
  {
    if n > 0 {
      ReceivedIsPaidWithin(ev, n - 1, bar, step);
      InBar(ev[n - 1].at, bar, step);
      hide Bucket;
    }
  }

  // The entry filter is the rate of a payment at or before the close, none of those being later, and
  // is missing exactly when all come later.
  lemma {:induction false} LastKnownExactly(ev: seq<FundingEvent>, t: int)
    requires Ordered(ev)
    ensures LastKnown(ev, t).Some? ==>
              exists e :: e in ev && e.at <= t && e.rate == LastKnown(ev, t).value
                          && forall f | f in ev && f.at <= t :: f.at <= e.at
    ensures LastKnown(ev, t).None? <==> forall e | e in ev :: e.at > t
  {
    LastKnownIsLatest(ev, t);
    if LastKnown(ev, t).Some? {
      var i :| LatestAt(ev, t, i) && ev[i].rate == LastKnown(ev, t).value;
      assert ev[i] in ev && ev[i].at <= t;
    }
    hide LastKnown;
  }

  // Funding is refused exactly when it is out of order, or some of it comes after the close of every bar.
  lemma {:induction false} TooLateExactly(ev: seq<FundingEvent>, bars: seq<int>, step: int)
    requires Ordered(ev) && StrictlyIncreasing(bars)
    ensures TooLate(ev, bars, step) <==> bars != [] && exists e :: e in ev && forall b | b in bars :: e.at > b + step
  {
    if TooLate(ev, bars, step) {
      var e := ev[|ev| - 1];
      assert e in ev && forall b | b in bars :: e.at > b + step;
    }
    if e :| e in ev && forall b | b in bars :: e.at > b + step {
      assert bars != [] ==> bars[|bars| - 1] in bars;
    }
  }
}
