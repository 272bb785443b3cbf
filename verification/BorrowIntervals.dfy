/** Borrow accrued over observed intervals, one series of amounts per call. */
module BorrowIntervals {
  import opened Prelude
  import opened CarryLedger
  import opened CarryAccounting

  datatype BorrowError = BadTimestamps | NegativeInput

  // The accrual of each timestamp covers the interval since the one before.
  function Accrual(ts: seq<int>, notional: seq<real>, rate: seq<real>, active: seq<real>, i: nat): real
    requires i < |ts| == |notional| == |rate| == |active|
  {
    if i == 0 then 0.0 else notional[i] * rate[i] * Years(ts[i - 1], ts[i]) * active[i]
  }

  predicate NonNegative(s: seq<real>) {
    forall i | 0 <= i < |s| :: s[i] >= 0.0
  }

  function BorrowCostForIntervals(ts: seq<int>, notional: seq<real>, rate: seq<real>,
                                  active: seq<real>): (r: Result<seq<real>, BorrowError>)
    requires |ts| == |notional| == |rate| == |active|
    ensures r.Success? ==> |r.value| == |ts|
  {
    if exists i :: 0 < i < |ts| && ts[i] <= ts[i - 1] then Failure(BadTimestamps)
    else if !NonNegative(notional) || !NonNegative(rate) then Failure(NegativeInput)
    else Success(seq(|ts|, i requires 0 <= i < |ts| => Accrual(ts, notional, rate, active, i)))
  }

  function Sum(s: seq<real>): real {
    if s == [] then 0.0 else Sum(s[..|s| - 1]) + s[|s| - 1]
  }

  // Fully active at a constant notional and rate: the total depends on the two ends only.
  lemma IntervalsTelescope(ts: seq<int>, notional: real, rate: real)
    requires ts != [] && notional >= 0.0 && rate >= 0.0 && forall i | 0 < i < |ts| :: ts[i - 1] < ts[i]
    ensures var r := BorrowCostForIntervals(ts, seq(|ts|, _ => notional), seq(|ts|, _ => rate), seq(|ts|, _ => 1.0));
            r.Success? && Sum(r.value) == notional * rate * Years(ts[0], ts[|ts| - 1])
  {
    hide Sum, Years;
    var r := BorrowCostForIntervals(ts, seq(|ts|, _ => notional), seq(|ts|, _ => rate), seq(|ts|, _ => 1.0));
    TelescopesUpTo(ts, notional, rate, r.value, |ts|);
    assert r.value[..|ts|] == r.value;
  }

  lemma {:induction false} TelescopesUpTo(ts: seq<int>, notional: real, rate: real, costs: seq<real>, n: nat)
    requires 0 < n <= |ts| == |costs|
    requires forall i | 0 <= i < |ts| ::
              costs[i] == if i == 0 then 0.0 else notional * rate * Years(ts[i - 1], ts[i]) * 1.0
    ensures Sum(costs[..n]) == notional * rate * Years(ts[0], ts[n - 1])
  {
    assert costs[..n][..n - 1] == costs[..n - 1];
    if n > 1 {
      TelescopesUpTo(ts, notional, rate, costs, n - 1);
      Distribute(notional * rate, Years(ts[0], ts[n - 2]), Years(ts[n - 2], ts[n - 1]));
    } else {
      assert costs[..0] == [];
      assert Years(ts[0], ts[0]) == 0.0;
    }
  }

  // Whether the interval that ends at i is charged for at all, at full activity.
  predicate Charging(ts: seq<int>, notional: seq<real>, rate: seq<real>, i: nat)
    requires i < |ts| == |notional| == |rate|
  {
    i > 0 && notional[i] > 0.0 && rate[i] > 0.0
  }

  // An accrual has the sign of the activity, which is not checked.
  lemma AccrualSign(ts: seq<int>, notional: seq<real>, rate: seq<real>, active: seq<real>, i: nat)
    requires i < |ts| == |notional| == |rate| == |active|
    requires BorrowCostForIntervals(ts, notional, rate, active).Success?
    ensures var cost := BorrowCostForIntervals(ts, notional, rate, active).value[i];
            && (cost > 0.0 <==> Charging(ts, notional, rate, i) && active[i] > 0.0)
            && (cost < 0.0 <==> Charging(ts, notional, rate, i) && active[i] < 0.0)
  {
    if i > 0 {
      assert ts[i - 1] < ts[i] && Years(ts[i - 1], ts[i]) > 0.0;
    }
  }

  // Accepted inputs accrue no negative borrow exactly when no charged interval has negative activity.
  lemma AccrualsAreCharges(ts: seq<int>, notional: seq<real>, rate: seq<real>, active: seq<real>)
    requires |ts| == |notional| == |rate| == |active|
    requires BorrowCostForIntervals(ts, notional, rate, active).Success?
    ensures NonNegative(BorrowCostForIntervals(ts, notional, rate, active).value)
       <==> forall i | 0 <= i < |ts| && Charging(ts, notional, rate, i) :: active[i] >= 0.0
  {
    forall i | 0 <= i < |ts|
      ensures BorrowCostForIntervals(ts, notional, rate, active).value[i] >= 0.0
         <==> Charging(ts, notional, rate, i) ==> active[i] >= 0.0
    {
      AccrualSign(ts, notional, rate, active, i);
    }
  }
}
