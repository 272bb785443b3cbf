/**
 * From funding events to a decision and an exposure: calendar smoothing, the decision fold and
 * the one-event lag.  Times are integer nanoseconds, rates exact reals, NaN is None.
 */
module CarrySignal {
  import opened Prelude
  import opened Rounding

  const NS_PER_DAY: int := 86_400_000_000_000
  const NS_PER_YEAR: real := 31557600000000000.0  // 365.25 days

  datatype FundingEvent = FundingEvent(at: int, rate: real)

  datatype SignalError = BadSmoothDays | BadCoverageRatio | Unordered | BadInterval

  // days, the explicit venue interval if any, and the least acceptable coverage
  datatype SmoothingTerms = SmoothingTerms(days: int, interval: Option<int>, minCoverage: real)

  // Any pure rule (in position, smoothed rate, enter threshold, exit threshold) -> in position.
  type Policy = (bool, Option<real>, real, real) -> bool

  predicate Ordered(ev: seq<FundingEvent>) {
    forall i, j | 0 <= i < j < |ev| :: ev[i].at < ev[j].at
  }

  // ---- the interval: explicit, or the median of all the deltas ----

  function Deltas(ev: seq<FundingEvent>): (d: seq<int>)
    ensures |d| == MaxInt(0, |ev| - 1)
  {
    if |ev| < 2 then [] else Deltas(ev[..|ev| - 1]) + [ev[|ev| - 1].at - ev[|ev| - 2].at]
  }

  function Insert(x: int, s: seq<int>): (r: seq<int>)
    ensures |r| == |s| + 1
  {
    if s == [] || x <= s[0] then [x] + s else [s[0]] + Insert(x, s[1..])
  }

  function Sorted(s: seq<int>): (r: seq<int>)
    ensures |r| == |s|
  {
    if s == [] then [] else Insert(s[0], Sorted(s[1..]))
  }

  // Twice the median, which stays an integer for an even number of values.
  function TwiceMedian(s: seq<int>): int
    requires s != []
  {
    var r, m := Sorted(s), |s| / 2;
    if |s| % 2 == 1 then 2 * r[m] else r[m - 1] + r[m]
  }

  // The interval in half nanoseconds.
  function HalfInterval(ev: seq<FundingEvent>, interval: Option<int>): Option<int> {
    var h := if interval.Some? then 2 * interval.value
             else if |ev| >= 2 then TwiceMedian(Deltas(ev))
             else 0;
    if h > 0 then Some(h) else None
  }

  function ExpectedEvents(days: int, half: int): int
    requires half > 0
  {
    MaxInt(1, RoundDiv(2 * days * NS_PER_DAY, half))
  }

  // ---- one smoothing window ----

  predicate InWindow(at: int, lo: int, hi: int) {
    lo < at <= hi
  }

  // Over the first n events: how many lie in (lo, hi], and the sum of their rates.
  function Observed(ev: seq<FundingEvent>, n: nat, lo: int, hi: int): nat
    requires n <= |ev|
  {
    if n == 0 then 0
    else Observed(ev, n - 1, lo, hi) + if InWindow(ev[n - 1].at, lo, hi) then 1 else 0
  }

  function WindowSum(ev: seq<FundingEvent>, n: nat, lo: int, hi: int): real
    requires n <= |ev|
  {
    if n == 0 then 0.0
    else WindowSum(ev, n - 1, lo, hi) + if InWindow(ev[n - 1].at, lo, hi) then ev[n - 1].rate else 0.0
  }

  datatype Coverage = Coverage(windowStart: int, windowEnd: int, expected: int, observed: nat, missing: int,
                               ratio: real, ok: bool)

  function CoverageAt(ev: seq<FundingEvent>, i: nat, days: int, half: int, minCoverage: real): Coverage
    requires i < |ev| && half > 0
  {
    var span := days * NS_PER_DAY;
    var start := ev[i].at - span;
    var expected := ExpectedEvents(days, half);
    var observed := Observed(ev, |ev|, start, ev[i].at);
    var missing := MaxInt(0, expected - observed);
    var ratio := if observed >= expected then 1.0 else observed as real / expected as real;
    var ok := ev[i].at - ev[0].at >= span && missing == 0 && ratio >= minCoverage;
    Coverage(start, ev[i].at, expected, observed, missing, ratio, ok)
  }

  // The annualised mean over a full, fully observed calendar window; nothing otherwise.
  function SmoothAt(ev: seq<FundingEvent>, i: nat, days: int, half: int, minCoverage: real): Option<real>
    requires i < |ev| && half > 0 && days >= 1
  {
    if CoverageAt(ev, i, days, half, minCoverage).ok then
      var span := days * NS_PER_DAY;
      Some(WindowSum(ev, |ev|, ev[i].at - span, ev[i].at) / (span as real / NS_PER_YEAR))
    else
      None
  }

  function Smoothed(ev: seq<FundingEvent>, days: int, half: int, minCoverage: real): (s: seq<Option<real>>)
    requires half > 0 && days >= 1
    ensures |s| == |ev|
  {
    seq(|ev|, i requires 0 <= i < |ev| => SmoothAt(ev, i, days, half, minCoverage))
  }

  function SignalFault(ev: seq<FundingEvent>, terms: SmoothingTerms): Option<SignalError> {
    if terms.days < 1 then Some(BadSmoothDays)
    else if !(0.0 < terms.minCoverage <= 1.0) then Some(BadCoverageRatio)
    else if !Ordered(ev) then Some(Unordered)
    else if HalfInterval(ev, terms.interval).None? then Some(BadInterval)
    else None
  }

  function Signals(ev: seq<FundingEvent>, terms: SmoothingTerms): (s: seq<Option<real>>)
    requires SignalFault(ev, terms).None?
    ensures |s| == |ev|
  {
    Smoothed(ev, terms.days, HalfInterval(ev, terms.interval).value, terms.minCoverage)
  }

  method MeasureWindow(ev: seq<FundingEvent>, lo: int, hi: int) returns (observed: nat, total: real)
    ensures observed == Observed(ev, |ev|, lo, hi) && total == WindowSum(ev, |ev|, lo, hi)
  {
    observed, total := 0, 0.0;
    for j := 0 to |ev|
      invariant observed == Observed(ev, j, lo, hi) && total == WindowSum(ev, j, lo, hi)
    {
      if InWindow(ev[j].at, lo, hi) {
        observed, total := observed + 1, total + ev[j].rate;
      }
    }
  }

  method SmoothFundingEvents(ev: seq<FundingEvent>, terms: SmoothingTerms)
    returns (r: Result<seq<Option<real>>, SignalError>, coverage: seq<Coverage>)
    ensures r == match SignalFault(ev, terms) case Some(e) => Failure(e) case None => Success(Signals(ev, terms))
    ensures r.Success? ==> |coverage| == |ev|
    ensures r.Success? ==> forall i | 0 <= i < |ev| ::
                coverage[i] == CoverageAt(ev, i, terms.days, HalfInterval(ev, terms.interval).value, terms.minCoverage)
    ensures r.Success? ==>
              forall interval, m: nat | EvenlySpaced(ev, terms, interval, m) :: MeansOfLast(ev, terms.days, m, r.value)
  {
    coverage := [];
    var fault := SignalFault(ev, terms);
    if fault.Some? {
      return Failure(fault.value), coverage;
    }
    var half := HalfInterval(ev, terms.interval).value;
    var span := terms.days * NS_PER_DAY;
    var expected := ExpectedEvents(terms.days, half);
    var annualized: seq<Option<real>> := [];
    for i := 0 to |ev|
      invariant |annualized| == |coverage| == i
      invariant forall j | 0 <= j < i :: annualized[j] == SmoothAt(ev, j, terms.days, half, terms.minCoverage)
      invariant forall j | 0 <= j < i :: coverage[j] == CoverageAt(ev, j, terms.days, half, terms.minCoverage)
    {
      var start := ev[i].at - span;
      var observed, total := MeasureWindow(ev, start, ev[i].at);
      var missing := MaxInt(0, expected - observed);
      var ratio := if observed >= expected then 1.0 else observed as real / expected as real;
      var ok := ev[i].at - ev[0].at >= span && missing == 0 && ratio >= terms.minCoverage;
      annualized := annualized + [if ok then Some(total / (span as real / NS_PER_YEAR)) else None];
      coverage := coverage + [Coverage(start, ev[i].at, expected, observed, missing, ratio, ok)];
    }
    assert annualized == Signals(ev, terms);
    r := Success(annualized);
    forall interval, m: nat | EvenlySpaced(ev, terms, interval, m)
      ensures MeansOfLast(ev, terms.days, m, annualized)
    {
      SignalsWhenSpaced(ev, terms, interval, m);
    }
  }

  // The coverage ratio can never reject a window: a window with nothing missing has ratio one.
  lemma {:induction false} MinCoverageIsInert(ev: seq<FundingEvent>, i: nat, days: int, half: int, a: real, b: real)
    requires i < |ev| && half > 0 && days >= 1
    requires 0.0 < a <= 1.0 && 0.0 < b <= 1.0
    ensures SmoothAt(ev, i, days, half, a) == SmoothAt(ev, i, days, half, b)
  {
  }

  // ---- what the signal is ----

  // The rates of the events from <= i < to.
  function RatesOf(ev: seq<FundingEvent>, from: nat, to: nat): real
    requires from <= to <= |ev|
  {
    if to == from then 0.0 else RatesOf(ev, from, to - 1) + ev[to - 1].rate
  }

  // Event a is the first one after lo, at or before event i.
  predicate FirstAfter(ev: seq<FundingEvent>, lo: int, a: nat, i: nat) {
    a <= i < |ev| && ev[a].at > lo && (a > 0 ==> ev[a - 1].at <= lo)
  }

  lemma {:induction false} WindowIsTail(ev: seq<FundingEvent>, lo: int, a: nat, i: nat, n: nat)
    requires Ordered(ev) && FirstAfter(ev, lo, a, i) && n <= |ev|
    ensures var to := MinInt(n, i + 1);
            && Observed(ev, n, lo, ev[i].at) == MaxInt(0, to - a)
            && WindowSum(ev, n, lo, ev[i].at) == if to <= a then 0.0 else RatesOf(ev, a, to)
  {
    if n > 0 {
      WindowIsTail(ev, lo, a, i, n - 1);
    }
  }

  // With event a the first of the smoothing days that end with event i: there is a signal exactly when
  // the events go back that far and a to i are at least as many as expected, and then it is their
  // rates added up over those days in years.
  lemma {:induction false} SignalIsMeanOfDays(ev: seq<FundingEvent>, terms: SmoothingTerms, a: nat, i: nat)
    requires SignalFault(ev, terms).None? && i < |ev|
    requires FirstAfter(ev, ev[i].at - terms.days * 86_400_000_000_000, a, i)
    ensures var span := terms.days * 86_400_000_000_000;
            var expected := ExpectedEvents(terms.days, HalfInterval(ev, terms.interval).value);
            Signals(ev, terms)[i] == if ev[i].at - ev[0].at < span || i + 1 - a < expected then None
                                     else Some(RatesOf(ev, a, i + 1) / (span as real / 31_557_600_000_000_000.0))
  {
    hide Observed, WindowSum, RatesOf, ExpectedEvents, TwiceMedian;
    var span := terms.days * 86_400_000_000_000;
    WindowIsTail(ev, ev[i].at - span, a, i, |ev|);
    SmoothAtMeans(ev, i, terms.days, HalfInterval(ev, terms.interval).value, terms.minCoverage);
  }

  // The coverage beside it: the days it spans, how many events were expected in them, how many were
  // there and how many are missing; it is in order exactly when there is a signal.
  lemma {:induction false} CoverageSays(ev: seq<FundingEvent>, terms: SmoothingTerms, a: nat, i: nat)
    requires SignalFault(ev, terms).None? && i < |ev|
    requires FirstAfter(ev, ev[i].at - terms.days * 86_400_000_000_000, a, i)
    ensures var half := HalfInterval(ev, terms.interval).value;
            var c, expected := CoverageAt(ev, i, terms.days, half, terms.minCoverage), ExpectedEvents(terms.days, half);
            && c.windowEnd == ev[i].at && c.windowEnd - c.windowStart == terms.days * 86_400_000_000_000
            && c.expected == expected && c.observed == i + 1 - a
            && c.missing == (if i + 1 - a < expected then expected - (i + 1 - a) else 0)
            && (c.ok <==> Signals(ev, terms)[i].Some?)
  {
    hide Observed, WindowSum, ExpectedEvents, TwiceMedian;
    WindowIsTail(ev, ev[i].at - terms.days * 86_400_000_000_000, a, i, |ev|);
  }

  // ---- the signal on evenly spaced events ----

  predicate Spaced(ev: seq<FundingEvent>, interval: int) {
    forall j | 0 < j < |ev| :: ev[j].at - ev[j - 1].at == interval
  }

  lemma {:induction false} SpacedAt(ev: seq<FundingEvent>, interval: int, i: nat, j: nat)
    requires Spaced(ev, interval) && i <= j < |ev|
    ensures ev[j].at == ev[i].at + (j - i) * interval
  {
    if j > i {
      SpacedAt(ev, interval, i, j - 1);
      assert (j - i) * interval == (j - 1 - i) * interval + interval;
    }
  }

  lemma {:induction false} DeltasOfSpaced(ev: seq<FundingEvent>, interval: int)
    requires Spaced(ev, interval)
    ensures forall d | d in Deltas(ev) :: d == interval
  {
    if |ev| >= 2 {
      DeltasOfSpaced(ev[..|ev| - 1], interval);
    }
  }

  lemma {:induction false} InsertMembers(x: int, s: seq<int>, y: int)
    ensures y in Insert(x, s) ==> y == x || y in s
  {
    if s != [] && x > s[0] {
      InsertMembers(x, s[1..], y);
    }
  }

  lemma {:induction false} SortedMembers(s: seq<int>, y: int)
    ensures y in Sorted(s) ==> y in s
  {
    if s != [] {
      SortedMembers(s[1..], y);
      InsertMembers(s[0], Sorted(s[1..]), y);
    }
  }

  // The interval inferred from evenly spaced events is their spacing.
  lemma SpacedInterval(ev: seq<FundingEvent>, interval: int)
    requires Spaced(ev, interval) && |ev| >= 2
    ensures TwiceMedian(Deltas(ev)) == 2 * interval
  {
    DeltasOfSpaced(ev, interval);
    var s := Deltas(ev);
    var r, k := Sorted(s), |s| / 2;
    forall j | 0 <= j < |r|
      ensures r[j] == interval
    {
      SortedMembers(s, r[j]);
    }
  }

  // Events one interval apart, m of which make up the smoothing days.
  predicate EvenlySpaced(ev: seq<FundingEvent>, terms: SmoothingTerms, interval: int, m: nat) {
    && Spaced(ev, interval) && (terms.interval.Some? ==> terms.interval.value == interval)
    && terms.days >= 1 && m > 0 && terms.days * 86_400_000_000_000 == m * interval
  }

  lemma SpacedExpectation(ev: seq<FundingEvent>, terms: SmoothingTerms, interval: int, m: nat)
    requires SignalFault(ev, terms).None? && EvenlySpaced(ev, terms, interval, m)
    ensures interval > 0 && HalfInterval(ev, terms.interval) == Some(2 * interval)
    ensures ExpectedEvents(terms.days, 2 * interval) == m
  {
    if terms.interval.None? {
      SpacedInterval(ev, interval);
    }
    hide TwiceMedian, Deltas, Spaced;
    RoundOfMultiple(terms.days * NS_PER_DAY, interval, m);
  }

  lemma RoundOfMultiple(span: int, interval: int, m: nat)
    requires interval > 0 && span == m * interval
    ensures RoundDiv(2 * span, 2 * interval) == m
  {
    RoundDivIsUnique(2 * span, 2 * interval, m);
  }

  // The last m rates up to event i, added up over that many days in years.
  function MeanOfLast(ev: seq<FundingEvent>, days: int, m: nat, i: nat): real
    requires days >= 1 && m <= i < |ev|
  {
    RatesOf(ev, i + 1 - m, i + 1) / ((days * 86_400_000_000_000) as real / 31_557_600_000_000_000.0)
  }

  // No signal at the first m events, and from then on the mean of the last m.
  predicate MeansOfLast(ev: seq<FundingEvent>, days: int, m: nat, signals: seq<Option<real>>)
    requires days >= 1
  {
    && |signals| == |ev|
    && forall i | 0 <= i < |ev| :: signals[i] == if i < m then None else Some(MeanOfLast(ev, days, m, i))
  }

  lemma SpacedSignal(ev: seq<FundingEvent>, terms: SmoothingTerms, interval: int, m: nat, i: nat)
    requires SignalFault(ev, terms).None? && EvenlySpaced(ev, terms, interval, m) && i < |ev|
    ensures Signals(ev, terms)[i] == if i < m then None else Some(MeanOfLast(ev, terms.days, m, i))
  {
    hide Signals, RatesOf, ExpectedEvents, HalfInterval;
    SpacedExpectation(ev, terms, interval, m);
    SpacedAt(ev, interval, 0, i);
    var a := if i < m then 0 else i + 1 - m;
    SpacedAt(ev, interval, a, i);
    if i < m {
      MulLeft(i + 1, m, interval);
    } else {
      MulLeft(m, i, interval);
      MulLeft(1, m, interval);
      assert (m - 1) * interval == m * interval - interval;
    }
    SignalIsMeanOfDays(ev, terms, a, i);
  }

  // Whether the interval is given or inferred.
  lemma SignalsWhenSpaced(ev: seq<FundingEvent>, terms: SmoothingTerms, interval: int, m: nat)
    requires SignalFault(ev, terms).None? && EvenlySpaced(ev, terms, interval, m)
    ensures MeansOfLast(ev, terms.days, m, Signals(ev, terms))
  {
    forall i | 0 <= i < |ev|
      ensures Signals(ev, terms)[i] == if i < m then None else Some(MeanOfLast(ev, terms.days, m, i))
    {
      SpacedSignal(ev, terms, interval, m, i);
    }
  }

  // ---- decisions and the exposure they cause ----

  function DecisionAfter(signals: seq<Option<real>>, decide: Policy, enter: real, exit: real, n: nat): bool
    requires n <= |signals|
  {
    n > 0 && decide(DecisionAfter(signals, decide, enter, exit, n - 1), signals[n - 1], enter, exit)
  }

  function Decisions(signals: seq<Option<real>>, decide: Policy, enter: real, exit: real): (d: seq<bool>)
    ensures |d| == |signals|
  {
    seq(|signals|, i requires 0 <= i < |signals| => DecisionAfter(signals, decide, enter, exit, i + 1))
  }

  // shift(1, fill_value=False)
  function Lagged(decisions: seq<bool>): (e: seq<bool>)
    ensures |e| == |decisions|
    ensures forall i | 0 <= i < |e| :: e[i] == (i > 0 && decisions[i - 1])
  {
    seq(|decisions|, i requires 0 <= i < |decisions| => i > 0 && decisions[i - 1])
  }

  method CarryAppliedPositions(ev: seq<FundingEvent>, terms: SmoothingTerms, decide: Policy, enter: real, exit: real)
    returns (r: Result<(seq<bool>, seq<bool>), SignalError>)
    ensures SignalFault(ev, terms).Some? ==> r == Failure(SignalFault(ev, terms).value)
    ensures SignalFault(ev, terms).None? ==>
              var d := Decisions(Signals(ev, terms), decide, enter, exit);
              r == Success((d, Lagged(d)))
  {
    hide SignalFault, Signals;
    var smoothing, _ := SmoothFundingEvents(ev, terms);
    if smoothing.Failure? {
      return Failure(smoothing.error);
    }
    var signals := smoothing.value;
    var state, decisions := false, [];
    for i := 0 to |signals|
      invariant |decisions| == i
      invariant state == DecisionAfter(signals, decide, enter, exit, i)
      invariant forall j | 0 <= j < i :: decisions[j] == DecisionAfter(signals, decide, enter, exit, j + 1)
    {
      state := decide(state, signals[i], enter, exit);
      decisions := decisions + [state];
    }
    assert decisions == Decisions(signals, decide, enter, exit);
    r := Success((decisions, Lagged(decisions)));
  }

  // The rule in use: strict comparisons, no transition without a signal.
  function DecideCarryPayment(inPosition: bool, smooth: Option<real>, enter: real, exit: real): bool {
    if smooth.None? then inPosition
    else if inPosition && smooth.value < exit then false
    else if !inPosition && smooth.value > enter then true
    else inPosition
  }

  // With the exit threshold at most the entry threshold: in position exactly when some signal was
  // above the entry threshold and none since then has been below the exit threshold.
  lemma {:induction false} PositionIsHysteresis(s: seq<Option<real>>, enter: real, exit: real, n: nat)
    requires n <= |s| && exit <= enter
    ensures DecisionAfter(s, DecideCarryPayment, enter, exit, n) <==>
              exists j :: 0 <= j < n && s[j].Some? && s[j].value > enter
                          && forall k | j < k < n :: s[k].Some? ==> s[k].value >= exit
  {
    if n > 0 {
      PositionIsHysteresis(s, enter, exit, n - 1);
      if s[n - 1].Some? && s[n - 1].value > enter {
        assert DecisionAfter(s, DecideCarryPayment, enter, exit, n);
      }
    }
  }

  // ---- causality of the signal ----

  lemma {:induction false} WindowIsCausal(ev: seq<FundingEvent>, k: nat, n: nat, lo: int, hi: int)
    requires Ordered(ev) && 0 < k <= n <= |ev| && hi <= ev[k - 1].at
    ensures Observed(ev, n, lo, hi) == Observed(ev[..k], k, lo, hi)
    ensures WindowSum(ev, n, lo, hi) == WindowSum(ev[..k], k, lo, hi)
  {
    if n > k {
      WindowIsCausal(ev, k, n - 1, lo, hi);
    } else {
      WindowOfPrefix(ev, k, k, lo, hi);
    }
  }

  lemma {:induction false} WindowOfPrefix(ev: seq<FundingEvent>, k: nat, n: nat, lo: int, hi: int)
    requires n <= k <= |ev|
    ensures Observed(ev, n, lo, hi) == Observed(ev[..k], n, lo, hi)
    ensures WindowSum(ev, n, lo, hi) == WindowSum(ev[..k], n, lo, hi)
  {
    if n > 0 {
      WindowOfPrefix(ev, k, n - 1, lo, hi);
    }
  }

  lemma SmoothedIsCausal(ev: seq<FundingEvent>, k: nat, days: int, half: int, minCoverage: real)
    requires Ordered(ev) && k <= |ev| && half > 0 && days >= 1
    ensures Smoothed(ev[..k], days, half, minCoverage) == Smoothed(ev, days, half, minCoverage)[..k]
  {
    forall i | 0 <= i < k
      ensures SmoothAt(ev[..k], i, days, half, minCoverage) == SmoothAt(ev, i, days, half, minCoverage)
    {
      WindowIsCausal(ev, k, |ev|, ev[i].at - days * NS_PER_DAY, ev[i].at);
    }
  }

  lemma {:induction false} DecisionIsCausal(s: seq<Option<real>>, k: nat, decide: Policy, enter: real, exit: real,
                                            n: nat)
    requires n <= k <= |s|
    ensures DecisionAfter(s[..k], decide, enter, exit, n) == DecisionAfter(s, decide, enter, exit, n)
  {
    if n > 0 {
      DecisionIsCausal(s, k, decide, enter, exit, n - 1);
    }
  }

  lemma DecisionsAreCausal(s: seq<Option<real>>, k: nat, decide: Policy, enter: real, exit: real)
    requires k <= |s|
    ensures Decisions(s[..k], decide, enter, exit) == Decisions(s, decide, enter, exit)[..k]
  {
    forall i | 0 <= i < k
      ensures Decisions(s[..k], decide, enter, exit)[i] == Decisions(s, decide, enter, exit)[i]
    {
      DecisionIsCausal(s, k, decide, enter, exit, i + 1);
    }
  }

  // With an explicit interval the whole signal is causal, for every policy.
  lemma SignalsAreCausal(ev: seq<FundingEvent>, k: nat, terms: SmoothingTerms, decide: Policy, enter: real, exit: real)
    requires terms.interval.Some? && SignalFault(ev, terms).None? && k <= |ev|
    ensures SignalFault(ev[..k], terms).None?
    ensures Signals(ev[..k], terms) == Signals(ev, terms)[..k]
    ensures Decisions(Signals(ev[..k], terms), decide, enter, exit)
         == Decisions(Signals(ev, terms), decide, enter, exit)[..k]
  {
    SmoothedIsCausal(ev, k, terms.days, HalfInterval(ev, terms.interval).value, terms.minCoverage);
    DecisionsAreCausal(Signals(ev, terms), k, decide, enter, exit);
  }

  // ---- when an inferred interval leaves a prefix alone ----

  // Enough events lie in the window of event i for the number that half the interval implies.
  predicate WindowFull(ev: seq<FundingEvent>, i: nat, days: int, half: int)
    requires i < |ev| && half > 0
  {
    Observed(ev, |ev|, ev[i].at - days * NS_PER_DAY, ev[i].at) >= ExpectedEvents(days, half)
  }

  // Under both intervals the same windows with a complete history count as full.
  ghost predicate Undisturbed(ev: seq<FundingEvent>, k: nat, days: int, half: int, half': int)
    requires k <= |ev| && half > 0 && half' > 0
  {
    forall i | 0 <= i < k && ev[i].at - ev[0].at >= days * NS_PER_DAY ::
      WindowFull(ev[..k], i, days, half) <==> WindowFull(ev[..k], i, days, half')
  }

  // A signal is there exactly when the history is complete and the window is full, and its value
  // does not depend on the interval.
  lemma SmoothAtMeans(ev: seq<FundingEvent>, i: nat, days: int, half: int, minCoverage: real)
    requires i < |ev| && half > 0 && days >= 1 && 0.0 < minCoverage <= 1.0
    ensures SmoothAt(ev, i, days, half, minCoverage) ==
              if ev[i].at - ev[0].at >= days * NS_PER_DAY && WindowFull(ev, i, days, half) then
                Some(WindowSum(ev, |ev|, ev[i].at - days * NS_PER_DAY, ev[i].at)
                     / ((days * NS_PER_DAY) as real / NS_PER_YEAR))
              else None
  {
    hide ExpectedEvents, WindowSum;
  }

  // Whatever the two intervals are, the signals of a prefix are the prefix of the signals exactly
  // when no window with a complete history is full under one and not under the other.
  lemma PrefixSmoothsAlike(ev: seq<FundingEvent>, k: nat, days: int, half: int, half': int, minCoverage: real)
    requires Ordered(ev) && k <= |ev| && half > 0 && half' > 0 && days >= 1 && 0.0 < minCoverage <= 1.0
    ensures Smoothed(ev[..k], days, half', minCoverage) == Smoothed(ev, days, half, minCoverage)[..k]
            <==> Undisturbed(ev, k, days, half, half')
  {
    SmoothedIsCausal(ev, k, days, half, minCoverage);
    var a, b := Smoothed(ev[..k], days, half', minCoverage), Smoothed(ev[..k], days, half, minCoverage);
    forall i | 0 <= i < k
      ensures a[i] == b[i] <==>
                (ev[i].at - ev[0].at >= days * NS_PER_DAY ==>
                   (WindowFull(ev[..k], i, days, half) <==> WindowFull(ev[..k], i, days, half')))
    {
      SmoothAtMeans(ev[..k], i, days, half, minCoverage);
      SmoothAtMeans(ev[..k], i, days, half', minCoverage);
    }
    hide WindowFull, SmoothAt;
    if a == b {
      forall i | 0 <= i < k
        ensures a[i] == b[i]
      {
      }
    }
  }

  // The exact condition for causality of the signal, with an explicit or an inferred interval.
  lemma SignalsAgreeExactly(ev: seq<FundingEvent>, k: nat, terms: SmoothingTerms)
    requires k <= |ev| && SignalFault(ev, terms).None? && SignalFault(ev[..k], terms).None?
    ensures var half, half' := HalfInterval(ev, terms.interval).value, HalfInterval(ev[..k], terms.interval).value;
            Signals(ev[..k], terms) == Signals(ev, terms)[..k] <==> Undisturbed(ev, k, terms.days, half, half')
  {
    hide TwiceMedian, Smoothed;
    PrefixSmoothsAlike(ev, k, terms.days, HalfInterval(ev, terms.interval).value,
                       HalfInterval(ev[..k], terms.interval).value, terms.minCoverage);
  }

  // Enough for it: the later events do not change the expected number of events per window.
  lemma SameExpectationSuffices(ev: seq<FundingEvent>, k: nat, terms: SmoothingTerms)
    requires k <= |ev| && SignalFault(ev, terms).None? && SignalFault(ev[..k], terms).None?
    requires ExpectedEvents(terms.days, HalfInterval(ev, terms.interval).value)
          == ExpectedEvents(terms.days, HalfInterval(ev[..k], terms.interval).value)
    ensures Signals(ev[..k], terms) == Signals(ev, terms)[..k]
  {
    hide TwiceMedian, Observed;
    SignalsAgreeExactly(ev, k, terms);
  }

  // The decisions agree under every policy exactly when the signals do.
  lemma PoliciesTellSignalsApart(a: seq<Option<real>>, b: seq<Option<real>>, enter: real, exit: real)
    requires |a| == |b|
    ensures a == b <==> forall decide: Policy :: Decisions(a, decide, enter, exit) == Decisions(b, decide, enter, exit)
  {
    if a != b {
      var i :| 0 <= i < |a| && a[i] != b[i];
      var decide: Policy := (_, smooth, _, _) => smooth == a[i];
      assert DecisionAfter(a, decide, enter, exit, i + 1) && !DecisionAfter(b, decide, enter, exit, i + 1);
      assert Decisions(a, decide, enter, exit)[i] != Decisions(b, decide, enter, exit)[i];
    }
  }

  // With the interval inferred from the whole series the condition can fail: a later, closer
  // event withdraws the signal that the first two had given.
  lemma {:induction false} InferredIntervalLooksAhead() returns (ev: seq<FundingEvent>, terms: SmoothingTerms)
    ensures |ev| == 3 && terms.interval == None
    ensures SignalFault(ev, terms).None? && SignalFault(ev[..2], terms).None?
    ensures Signals(ev[..2], terms)[1].Some? && Signals(ev, terms)[1].None?
    ensures DecisionAfter(Signals(ev[..2], terms), DecideCarryPayment, 0.0, 0.0, 2)
    ensures !DecisionAfter(Signals(ev, terms), DecideCarryPayment, 0.0, 0.0, 2)
  {
    var h := 3_600_000_000_000;
    ev := [FundingEvent(0, 1.0), FundingEvent(24 * h, 1.0), FundingEvent(30 * h, 1.0)];
    terms := SmoothingTerms(1, None, 1.0);
    var early := ev[..2];
    assert |early[..1]| == 1 && early == ev[..|ev| - 1];
    assert Deltas(early) == [24 * h];
    assert Deltas(ev) == [24 * h, 6 * h];
    assert Sorted([6 * h]) == [6 * h];
    assert [24 * h, 6 * h][1..] == [6 * h];
    assert Insert(24 * h, [6 * h]) == [6 * h, 24 * h];
    RoundDivIsUnique(48 * h, 30 * h, 2);
    RoundDivIsUnique(48 * h, 48 * h, 1);
    WindowIsCausal(ev, 2, 3, 0, 24 * h);
    assert Observed(early, 1, 0, 24 * h) == 0 && Observed(early, 2, 0, 24 * h) == 1;
    assert WindowSum(early, 1, 0, 24 * h) == 0.0 && WindowSum(early, 2, 0, 24 * h) == 1.0;
    assert CoverageAt(early, 0, 1, 48 * h, 1.0).ok == false && CoverageAt(ev, 0, 1, 30 * h, 1.0).ok == false;
    assert Signals(early, terms)[0].None? && Signals(ev, terms)[0].None?;
    assert DecisionAfter(Signals(early, terms), DecideCarryPayment, 0.0, 0.0, 1) == false;
    assert DecisionAfter(Signals(ev, terms), DecideCarryPayment, 0.0, 0.0, 1) == false;
    assert Signals(early, terms)[1].value > 0.0;
  }

  // Without a full window of history nothing is decided by the rule in use.
  lemma {:induction false} FlatUntilHistory(ev: seq<FundingEvent>, terms: SmoothingTerms, enter: real, exit: real,
                                            n: nat)
    requires SignalFault(ev, terms).None? && n <= |ev|
    requires n > 0 ==> ev[n - 1].at - ev[0].at < terms.days * NS_PER_DAY
    ensures !DecisionAfter(Signals(ev, terms), DecideCarryPayment, enter, exit, n)
  {
    if n > 0 {
      FlatUntilHistory(ev, terms, enter, exit, n - 1);
    }
  }
}
