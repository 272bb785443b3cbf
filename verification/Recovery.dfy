/**
 * The recovery gate: one marker per scope, written by a restore and advanced by evidence until
 * the scope may trade or search again.  Times are microseconds.
 */
module Recovery {
  import opened Prelude

  datatype Scope = Trading | Shadow | Research

  datatype Status = Required | Verified | Cleared | Unknown(text: string)

  // A JSON value where the code looks for true or for false.
  datatype Flag = Yes | No | Neither

  datatype Fact =
    | ExchangeReachable | LocalOrdersReconciled | ExternalOrdersReconciled | PositionsReconciled | StopsReconciled
    | NoUnbalancedState | NoAmbiguity | AccountingCheckpointCompatible
    | GovernanceLineageReconciled | TrialHistoryReconciled | HoldoutHistoryReconciled | DatasetUsageReconciled
    | PolicyFreezeConsistent
    | ReconciliationMarkerVerified | OtherFact(name: string)

  // Each fact with whether its value is true.
  type Evidence = map<Fact, bool>

  datatype Move = Move(before: Option<Status>, after: Status)

  datatype Origin = Origin(backupId: string, appSchema: Option<int>, sourceIdentity: string, restoredAt: Option<int>)

  // A marker file as read back: any field may have been edited.
  datatype Marker = Marker(version: int, scope: Option<Scope>, status: Status, origin: Origin, exchangeIncluded: Flag,
                           writerAllowed: Flag, searchAllowed: Flag, evidence: Evidence, transitions: seq<Move>)

  const FUTURE_TOLERANCE := 5_000_000

  function Reconciliation(scope: Scope): set<Fact> {
    if scope == Research then
      {GovernanceLineageReconciled, TrialHistoryReconciled, HoldoutHistoryReconciled,
       DatasetUsageReconciled, PolicyFreezeConsistent}
    else
      {ExchangeReachable, LocalOrdersReconciled, ExternalOrdersReconciled, PositionsReconciled, StopsReconciled,
       NoUnbalancedState, NoAmbiguity, AccountingCheckpointCompatible}
  }

  predicate Positive(evidence: Evidence, facts: set<Fact>) {
    forall f | f in facts :: f in evidence && evidence[f]
  }

  function Rank(status: Status): nat {
    match status
    case Required => 0
    case Verified => 1
    case Cleared => 2
    case Unknown(_) => 3
  }

  // The only history a status may have.
  function Lifecycle(status: Status): seq<Move>
    decreases Rank(status)
  {
    match status
    case Required => [Move(None, Required)]
    case Verified => Lifecycle(Required) + [Move(Some(Required), Verified)]
    case Cleared => Lifecycle(Verified) + [Move(Some(Verified), Cleared)]
    case Unknown(_) => []
  }

  predicate Valid(m: Marker, now: int) {
    && m.version == 1 && !m.status.Unknown? && m.scope.Some? && m.exchangeIncluded == No
    && m.origin.restoredAt.Some? && m.origin.restoredAt.value <= now + FUTURE_TOLERANCE
    && m.transitions == Lifecycle(m.status)
    && (m.status != Cleared ==> m.writerAllowed == No && m.searchAllowed == No)
    && (m.status != Required ==> Positive(m.evidence, Reconciliation(m.scope.value)))
    && (m.status == Cleared ==>
          Positive(m.evidence, {ReconciliationMarkerVerified})
          && ((m.writerAllowed == Yes) != (m.searchAllowed == Yes)))
  }

  method ValidateRecoveryMarker(m: Marker, now: int) returns (ok: bool)
    ensures ok <==> Valid(m, now)
  {
    if m.version != 1 || m.status.Unknown? || m.scope.None? || m.exchangeIncluded != No || m.origin.restoredAt.None? {
      return false;
    }
    if m.origin.restoredAt.value > now + FUTURE_TOLERANCE {
      return false;
    }
    var expected := [Move(None, Required)];
    if m.status != Required {
      expected := expected + [Move(Some(Required), Verified)];
    }
    if m.status == Cleared {
      expected := expected + [Move(Some(Verified), Cleared)];
    }
    if m.transitions != expected {
      return false;
    }
    if m.status == Required && (m.writerAllowed != No || m.searchAllowed != No) {
      return false;
    }
    var scope := m.scope.value;
    if m.status == Verified
       && (m.writerAllowed != No || m.searchAllowed != No || !Positive(m.evidence, Reconciliation(scope))) {
      return false;
    }
    if m.status == Cleared {
      if !Positive(m.evidence, Reconciliation(scope)) || !Positive(m.evidence, {ReconciliationMarkerVerified}) {
        return false;
      }
      if (m.writerAllowed == Yes) == (m.searchAllowed == Yes) {
        return false;
      }
    }
    ok := true;
  }

  // ---- the two writes ----

  type Markers = map<Scope, Marker>

  function Fresh(scope: Scope, origin: Origin): Marker {
    Marker(1, Some(scope), Required, origin, No, No, No, map[], Lifecycle(Required))
  }

  predicate Follows(before: Status, after: Status) {
    (before == Required && after == Verified) || (before == Verified && after == Cleared)
  }

  function Demanded(scope: Scope, to: Status): set<Fact> {
    if to == Verified then Reconciliation(scope) else {ReconciliationMarkerVerified}
  }

  function Advanced(m: Marker, scope: Scope, to: Status, evidence: Evidence): Marker {
    m.(status := to, evidence := m.evidence + evidence,
       writerAllowed := if to == Cleared && scope != Research then Yes else No,
       searchAllowed := if to == Cleared && scope == Research then Yes else No,
       transitions := m.transitions + [Move(Some(m.status), to)])
  }

  predicate Accepts(markers: Markers, scope: Scope, to: Status, evidence: Evidence, now: int) {
    && scope in markers
    && var m := markers[scope];
    && Valid(m, now) && Follows(m.status, to) && m.scope == Some(scope)
    && Positive(evidence, Demanded(scope, to))
    && Valid(Advanced(m, scope, to, evidence), now)
  }

  datatype Op = Write(scope: Scope, origin: Origin) | Advance(scope: Scope, to: Status, evidence: Evidence, now: int)

  function Step(markers: Markers, op: Op): Markers {
    match op
    case Write(s, origin) => if s in markers then markers else markers[s := Fresh(s, origin)]
    case Advance(s, to, e, now) =>
      if Accepts(markers, s, to, e, now) then markers[s := Advanced(markers[s], s, to, e)] else markers
  }

  // What lets a writer, or real research, start.
  predicate Open(markers: Markers, scope: Scope, now: int) {
    scope in markers ==> Valid(markers[scope], now) && markers[scope].status == Cleared
  }

  datatype Refusal = AlreadyExists | NoMarker | InvalidMarker | InvalidTransition | ScopeMismatch | InsufficientEvidence

  class RecoveryRoot {
    var markers: Markers

    constructor ()
      ensures markers == map[]
    {
      markers := map[];
    }

    method LoadRecoveryMarker(scope: Scope, now: int) returns (r: Result<Option<Marker>, Refusal>)
      ensures scope !in markers ==> r == Success(None)
      ensures scope in markers && Valid(markers[scope], now) ==> r == Success(Some(markers[scope]))
      ensures scope in markers && !Valid(markers[scope], now) ==> r == Failure(InvalidMarker)
    {
      if scope !in markers {
        return Success(None);
      }
      var ok := ValidateRecoveryMarker(markers[scope], now);
      r := if ok then Success(Some(markers[scope])) else Failure(InvalidMarker);
    }

    method AssertRecoveryClear(scope: Scope, now: int) returns (clear: bool)
      ensures clear <==> Open(markers, scope, now)
    {
      var loaded := LoadRecoveryMarker(scope, now);
      clear := loaded.Success? && (loaded.value.Some? ==> loaded.value.value.status == Cleared);
    }

    method WriteRecoveryMarker(scope: Scope, origin: Origin) returns (r: Result<Marker, Refusal>)
      modifies this
      ensures markers == Step(old(markers), Write(scope, origin))
      ensures r == if scope in old(markers) then Failure(AlreadyExists) else Success(markers[scope])
    {
      if scope in markers {
        return Failure(AlreadyExists);
      }
      var marker := Marker(1, Some(scope), Required, origin, No, No, No, map[], [Move(None, Required)]);
      markers := markers[scope := marker];
      r := Success(marker);
    }

    method AdvanceRecoveryMarker(scope: Scope, to: Status, evidence: Evidence, now: int)
      returns (r: Result<Marker, Refusal>)
      modifies this
      ensures markers == Step(old(markers), Advance(scope, to, evidence, now))
      ensures r.Success? <==> Accepts(old(markers), scope, to, evidence, now)
      ensures r.Failure? ==> markers == old(markers)
      ensures r == Failure(NoMarker) <==> scope !in old(markers)
      ensures r == Failure(InvalidTransition) <==>
                scope in old(markers) && Valid(old(markers)[scope], now) && !Follows(old(markers)[scope].status, to)
      ensures r.Success? ==> r.value == markers[scope]
      ensures forall s | s != scope ::
                (s in markers <==> s in old(markers)) && (s in markers ==> markers[s] == old(markers)[s])
    {
      hide Reconciliation, Positive;
      var loaded := LoadRecoveryMarker(scope, now);
      if loaded.Failure? {
        return Failure(loaded.error);
      }
      if loaded.value.None? {
        return Failure(NoMarker);
      }
      var m := loaded.value.value;
      if !((m.status == Required && to == Verified) || (m.status == Verified && to == Cleared)) {
        return Failure(InvalidTransition);
      }
      if m.scope != Some(scope) {
        return Failure(ScopeMismatch);
      }
      var demanded := if to == Verified then Reconciliation(scope) else {ReconciliationMarkerVerified};
      if !Positive(evidence, demanded) {
        return Failure(InsufficientEvidence);
      }
      var updated := m.(status := to, evidence := m.evidence + evidence,
                        writerAllowed := if to == Cleared && scope != Research then Yes else No,
                        searchAllowed := if to == Cleared && scope == Research then Yes else No,
                        transitions := m.transitions + [Move(Some(m.status), to)]);
      var ok := ValidateRecoveryMarker(updated, now);
      if !ok {
        return Failure(InvalidMarker);
      }
      markers := markers[scope := updated];
      r := Success(updated);
    }
  }

  // ---- runs ----

  // The markers after the first n calls, from a root without markers.
  function After(ops: seq<Op>, n: nat): Markers
    requires n <= |ops|
  {
    if n == 0 then map[] else Step(After(ops, n - 1), ops[n - 1])
  }

  ghost predicate Sound(s: Scope, m: Marker) {
    && m.version == 1 && m.scope == Some(s) && !m.status.Unknown? && m.exchangeIncluded == No
    && m.transitions == Lifecycle(m.status)
    && m.writerAllowed == (if m.status == Cleared && s != Research then Yes else No)
    && m.searchAllowed == (if m.status == Cleared && s == Research then Yes else No)
    && (m.status != Required ==> Positive(m.evidence, Reconciliation(s)))
    && (m.status == Cleared ==> Positive(m.evidence, {ReconciliationMarkerVerified}))
  }

  lemma {:induction false} MarkersStaySound(ops: seq<Op>, n: nat, s: Scope)
    requires n <= |ops| && s in After(ops, n)
    ensures Sound(s, After(ops, n)[s])
  {
    var before := After(ops, n - 1);
    if s in before {
      MarkersStaySound(ops, n - 1, s);
    }
  }

  predicate FromTheFuture(m: Marker, now: int) {
    m.origin.restoredAt.None? || m.origin.restoredAt.value > now + FUTURE_TOLERANCE
  }

  // Every marker the calls can produce passes validation, unless it claims a restore later than
  // the clock allows: the write does not look at that, every later call does.
  lemma {:induction false} ReachableMarkersAreValid(ops: seq<Op>, n: nat, s: Scope, now: int)
    requires n <= |ops| && s in After(ops, n)
    ensures Valid(After(ops, n)[s], now) <==> !FromTheFuture(After(ops, n)[s], now)
  {
    MarkersStaySound(ops, n, s);
  }

  lemma {:induction false} FutureRestoreWritesAnInvalidMarker(s: Scope, origin: Origin, now: int)
    requires origin.restoredAt.Some? && origin.restoredAt.value > now + FUTURE_TOLERANCE
    ensures s in After([Write(s, origin)], 1) && !Valid(After([Write(s, origin)], 1)[s], now)
    ensures !Open(After([Write(s, origin)], 1), s, now)
  {
    assert After([Write(s, origin)], 0) == map[];
  }

  // Exactly which advances succeed: the next status, its full evidence, and no earlier
  // reconciliation fact withdrawn.
  lemma {:induction false} AdvanceAcceptedExactly(ops: seq<Op>, n: nat, s: Scope, to: Status, evidence: Evidence,
                                                  now: int)
    requires n <= |ops| && s in After(ops, n)
    ensures var m := After(ops, n)[s];
            Accepts(After(ops, n), s, to, evidence, now) <==>
              && !FromTheFuture(m, now)
              && ((m.status == Required && to == Verified && Positive(evidence, Reconciliation(s)))
                  || (m.status == Verified && to == Cleared && Positive(evidence, {ReconciliationMarkerVerified})
                      && forall f | f in Reconciliation(s) && f in evidence :: evidence[f]))
  {
    MarkersStaySound(ops, n, s);
    var m := After(ops, n)[s];
    hide Reconciliation;
    if m.status == Verified && to == Cleared {
      assert Positive(m.evidence + evidence, Reconciliation(s))
        <==> forall f | f in Reconciliation(s) && f in evidence :: evidence[f];
    }
  }

  // A marker is never removed, keeps its origin, and only moves forward; reconciliation facts,
  // once established, stay.
  ghost predicate MovesForward(s: Scope, before: Marker, after: Marker) {
    && after.origin == before.origin && Rank(before.status) <= Rank(after.status)
    && before.transitions <= after.transitions
    && (before.status == after.status ==> before == after)
    && (before.status != Required ==> Positive(after.evidence, Reconciliation(s)))
  }

  lemma {:induction false} StatusOnlyMovesForward(ops: seq<Op>, i: nat, j: nat, s: Scope)
    requires i <= j <= |ops| && s in After(ops, i)
    ensures s in After(ops, j) && MovesForward(s, After(ops, i)[s], After(ops, j)[s])
    decreases j - i
  {
    hide Reconciliation;
    MarkersStaySound(ops, i, s);
    if i < j {
      StatusOnlyMovesForward(ops, i, j - 1, s);
      MarkersStaySound(ops, j - 1, s);
      MarkersStaySound(ops, j, s);
    }
  }

  // Call k moved the marker of s to the given status.
  ghost predicate ReachedBy(ops: seq<Op>, k: nat, s: Scope, status: Status) {
    && k < |ops| && ops[k].scope == s
    && (status == Required ==> ops[k].Write? && s !in After(ops, k))
    && (status != Required ==>
          && ops[k].Advance? && ops[k].to == status
          && Accepts(After(ops, k), s, status, ops[k].evidence, ops[k].now))
  }

  lemma {:induction false} LastMove(ops: seq<Op>, n: nat, s: Scope) returns (k: nat)
    requires n <= |ops| && s in After(ops, n)
    ensures k < n && ReachedBy(ops, k, s, After(ops, n)[s].status)
  {
    var before := After(ops, n - 1);
    if s in before && before[s] == After(ops, n)[s] {
      k := LastMove(ops, n - 1, s);
    } else {
      k := n - 1;
      assert ops[k].scope == s;
    }
  }

  // A scope whose marker is cleared was restored, then reconciled with every fact of its scope,
  // then cleared on the verified marker, in that order.
  lemma ClearedAfterBothSteps(ops: seq<Op>, n: nat, s: Scope) returns (w: nat, v: nat, c: nat)
    requires n <= |ops| && s in After(ops, n) && After(ops, n)[s].status == Cleared
    ensures w < v < c < n
    ensures ReachedBy(ops, w, s, Required) && ReachedBy(ops, v, s, Verified) && ReachedBy(ops, c, s, Cleared)
    ensures Positive(ops[v].evidence, Reconciliation(s)) && Positive(ops[c].evidence, {ReconciliationMarkerVerified})
    ensures forall f | f in Reconciliation(s) && f in ops[c].evidence :: ops[c].evidence[f]
  {
    c := LastMove(ops, n, s);
    v := LastMove(ops, c, s);
    w := LastMove(ops, v, s);
    AdvanceAcceptedExactly(ops, c, s, Cleared, ops[c].evidence, ops[c].now);
  }

  predicate Affirmed(evidence: Evidence, f: Fact) {
    f in evidence && evidence[f]
  }

  // The eight facts about the exchange, the orders, the positions and the accounts.
  predicate TradingReconciled(e: Evidence) {
    && Affirmed(e, ExchangeReachable) && Affirmed(e, LocalOrdersReconciled) && Affirmed(e, ExternalOrdersReconciled)
    && Affirmed(e, PositionsReconciled) && Affirmed(e, StopsReconciled) && Affirmed(e, NoUnbalancedState)
    && Affirmed(e, NoAmbiguity) && Affirmed(e, AccountingCheckpointCompatible)
  }

  // The five facts about lineage, trials, holdout, datasets and the frozen policy.
  predicate ResearchReconciled(e: Evidence) {
    && Affirmed(e, GovernanceLineageReconciled) && Affirmed(e, TrialHistoryReconciled)
    && Affirmed(e, HoldoutHistoryReconciled) && Affirmed(e, DatasetUsageReconciled)
    && Affirmed(e, PolicyFreezeConsistent)
  }

  // What it takes, by name: to verify a marker, these facts; an open gate of a restored scope has
  // them all, and that its marker had been verified.
  lemma {:induction false} FactsByName(ops: seq<Op>, n: nat, s: Scope, evidence: Evidence, now: int)
    requires n <= |ops| && s in After(ops, n) && !FromTheFuture(After(ops, n)[s], now)
    ensures var m := After(ops, n)[s];
            && (Accepts(After(ops, n), s, Verified, evidence, now) <==>
                  m.status == Required
                  && if s == Research then ResearchReconciled(evidence) else TradingReconciled(evidence))
            && (Open(After(ops, n), s, now) ==>
                  && Affirmed(m.evidence, ReconciliationMarkerVerified)
                  && if s == Research then ResearchReconciled(m.evidence) else TradingReconciled(m.evidence))
  {
    AdvanceAcceptedExactly(ops, n, s, Verified, evidence, now);
    GateOpensWhenCleared(ops, n, s, now);
    hide After, Accepts, Open;
  }

  // The gate of a restored scope opens exactly when its marker is cleared and the clock has
  // reached the restore; a writer or a search is allowed exactly then, each in its own scope,
  // and with all the evidence.
  lemma {:induction false} GateOpensWhenCleared(ops: seq<Op>, n: nat, s: Scope, now: int)
    requires n <= |ops| && s in After(ops, n)
    ensures var m := After(ops, n)[s];
            && (Open(After(ops, n), s, now) <==> m.status == Cleared && !FromTheFuture(m, now))
            && (m.writerAllowed == Yes <==> m.status == Cleared && s != Research)
            && (m.searchAllowed == Yes <==> m.status == Cleared && s == Research)
            && (m.status == Cleared ==> Positive(m.evidence, Reconciliation(s) + {ReconciliationMarkerVerified}))
  {
    MarkersStaySound(ops, n, s);
    hide Reconciliation;
  }

  // Once open, the gate of a restored scope stays open, whatever is called later.
  lemma {:induction false} OpenGateStaysOpen(ops: seq<Op>, i: nat, j: nat, s: Scope, now: int, later: int)
    requires i <= j <= |ops| && now <= later && s in After(ops, i) && Open(After(ops, i), s, now)
    ensures s in After(ops, j) && After(ops, j)[s] == After(ops, i)[s] && Open(After(ops, j), s, later)
  {
    StatusOnlyMovesForward(ops, i, j, s);
    MarkersStaySound(ops, i, s);
    MarkersStaySound(ops, j, s);
  }

  // ---- which marker files are accepted ----

  // The history of a marker, by name.
  lemma {:induction false} HistoryByName(ops: seq<Op>, n: nat, s: Scope)
    requires n <= |ops| && s in After(ops, n)
    ensures var m := After(ops, n)[s];
            m.transitions == match m.status
                             case Required => [Move(None, Required)]
                             case Verified => [Move(None, Required), Move(Some(Required), Verified)]
                             case Cleared =>
                               [Move(None, Required), Move(Some(Required), Verified), Move(Some(Verified), Cleared)]
                             case Unknown(_) => []
  {
    MarkersStaySound(ops, n, s);
    hide After, Positive, Reconciliation;
  }

  function AllTrue(facts: set<Fact>): Evidence {
    map f | f in facts :: true
  }

  // Restored, reconciled and cleared with nothing but what is asked for.
  function Course(s: Scope, origin: Origin, now: int): seq<Op> {
    [Write(s, origin), Advance(s, Verified, AllTrue(Reconciliation(s)), now),
     Advance(s, Cleared, AllTrue({ReconciliationMarkerVerified}), now)]
  }

  lemma CourseReaches(s: Scope, origin: Origin, now: int, k: nat)
    requires k <= 2 && origin.restoredAt.Some? && origin.restoredAt.value <= now + FUTURE_TOLERANCE
    ensures var m := After(Course(s, origin, now), k + 1);
            && s in m && Rank(m[s].status) == k && m[s].origin == origin
            && m[s].evidence == AllTrue(if k == 0 then {} else if k == 1 then Reconciliation(s)
                                        else Reconciliation(s) + {ReconciliationMarkerVerified})
  {
    hide Reconciliation;
    var ops := Course(s, origin, now);
    assert After(ops, 0) == map[];
    if k > 0 {
      CourseReaches(s, origin, now, k - 1);
      AdvanceAcceptedExactly(ops, k, s, if k == 1 then Verified else Cleared, ops[k].evidence, now);
    }
  }

  // The file says what the marker says: the same facts hold, and more may; when cleared, one of the
  // two flags is set, whichever it is.
  ghost predicate SaysWhat(m: Marker, r: Marker) {
    && m.version == r.version && m.scope == r.scope && m.status == r.status && m.origin == r.origin
    && m.exchangeIncluded == r.exchangeIncluded && m.transitions == r.transitions
    && (forall f | f in r.evidence && r.evidence[f] :: f in m.evidence && m.evidence[f])
    && if m.status == Cleared then (m.writerAllowed == Yes) != (m.searchAllowed == Yes)
       else m.writerAllowed == r.writerAllowed && m.searchAllowed == r.searchAllowed
  }

  // It says what the marker says after k steps of that course.
  ghost predicate LikeStage(m: Marker, now: int, k: nat) {
    && k <= 2 && m.scope.Some?
    && var reached := After(Course(m.scope.value, m.origin, now), k + 1);
    && m.scope.value in reached && SaysWhat(m, reached[m.scope.value])
  }

  lemma StageIsValid(m: Marker, now: int, k: nat)
    requires k <= 2 && m.scope.Some? && !FromTheFuture(m, now)
    ensures Valid(m, now) && Rank(m.status) == k ==> LikeStage(m, now, k)
    ensures LikeStage(m, now, k) ==> Valid(m, now)
  {
    var s, ops := m.scope.value, Course(m.scope.value, m.origin, now);
    CourseReaches(s, m.origin, now, k);
    MarkersStaySound(ops, k + 1, s);
    hide After, Course, Reconciliation;
  }

  // However a marker file came about, it is accepted exactly when it is not from the future and says
  // what some stage of that course says.
  lemma {:induction false} AcceptedLikeReached(m: Marker, now: int)
    ensures Valid(m, now) <==> m.scope.Some? && !FromTheFuture(m, now) && exists k: nat :: LikeStage(m, now, k)
  {
    if m.scope.Some? && !FromTheFuture(m, now) {
      StageIsValid(m, now, 0);
      StageIsValid(m, now, 1);
      StageIsValid(m, now, 2);
      hide After, Course, Reconciliation, SaysWhat;
      assert Valid(m, now) ==> Rank(m.status) <= 2;
      if k: nat :| LikeStage(m, now, k) {
        assert k == 0 || k == 1 || k == 2;
      }
    }
  }
}
