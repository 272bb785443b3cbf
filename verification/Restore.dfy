/**
 * Restoring a verified set into a staging directory, step by step: copy every entry, write the
 * recovery markers, rename.
 */
module Restore {
  import opened Prelude
  import opened BackupSets
  import Recovery

  // A directory with restored files and, when it is also the runtime root, markers.
  datatype Place = Place(files: Dir, markers: Recovery.Markers)

  datatype Site = Site(destination: Option<Place>, stage: Option<Place>, runtime: Recovery.Markers)

  // One restore of a verified set; the runtime root may be the destination itself.
  datatype Job = Job(dir: Dir, origin: Recovery.Origin, sameRoot: bool)

  function EntriesIn(dir: Dir): seq<Entry>
    requires HoldsManifest(dir)
  {
    ManifestIn(dir).core.entries
  }

  function TargetName(e: Entry): string {
    if e.logical == "trading_state" then "btcquant.db"
    else if e.logical == "shadow_state" then "execution-shadow.db"
    else if e.logical == "governance_state" then "governance.sqlite3"
    else e.logical + if e.kind == Some(Sqlite) then ".sqlite3" else ".bin"
  }

  function ClassOf(scope: Recovery.Scope): Class {
    match scope
    case Trading => TradingState
    case Shadow => ShadowState
    case Research => ResearchGovernance
  }

  // Some entry of the manifest has the classification, captured or not.
  predicate Needs(dir: Dir, scope: Recovery.Scope)
    requires HoldsManifest(dir)
  {
    exists i :: 0 <= i < |EntriesIn(dir)| && EntriesIn(dir)[i].classification == Some(ClassOf(scope))
  }

  const MARKER_ORDER: seq<Recovery.Scope> := [Recovery.Trading, Recovery.Shadow, Recovery.Research]

  // ---- one step at a time ----

  // 0 makes the stage, 1..n copy the n entries, then three markers, then the rename.
  function Steps(dir: Dir): nat
    requires HoldsManifest(dir)
  {
    |EntriesIn(dir)| + 5
  }

  function CopyEntry(job: Job, site: Site, e: Entry): Option<Site> {
    if e.presence == OptionalNotPresent then Some(site)
    else if site.stage.None? || e.filename !in job.dir || e.sha != Some(Sha(job.dir[e.filename])) then None
    else if e.kind == Some(Sqlite) && !SoundDatabase(job.dir[e.filename]) then None
    else
      var files := site.stage.value.files[TargetName(e) := job.dir[e.filename]];
      Some(site.(stage := Some(site.stage.value.(files := files))))
  }

  function Mark(job: Job, site: Site, scope: Recovery.Scope): Option<Site>
    requires HoldsManifest(job.dir)
  {
    if !Needs(job.dir, scope) then Some(site)
    else if job.sameRoot then
      if site.stage.None? || scope in site.stage.value.markers then None
      else
        var markers := site.stage.value.markers[scope := Recovery.Fresh(scope, job.origin)];
        Some(site.(stage := Some(site.stage.value.(markers := markers))))
    else if scope in site.runtime then None
    else Some(site.(runtime := site.runtime[scope := Recovery.Fresh(scope, job.origin)]))
  }

  // None: the step raises and changes nothing.
  function Perform(job: Job, site: Site, k: nat): Option<Site>
    requires HoldsManifest(job.dir) && k < Steps(job.dir)
  {
    var n := |EntriesIn(job.dir)|;
    if k == 0 then Some(site.(stage := Some(Place(map[], map[]))))
    else if k <= n then CopyEntry(job, site, EntriesIn(job.dir)[k - 1])
    else if k <= n + 3 then Mark(job, site, MARKER_ORDER[k - n - 1])
    else Some(site.(destination := site.stage, stage := None))
  }

  // The site after the first k steps, unless one of them raises.
  function RunTo(job: Job, site: Site, k: nat): Option<Site>
    requires HoldsManifest(job.dir) && k <= Steps(job.dir)
  {
    if k == 0 then Some(site)
    else
      var before := RunTo(job, site, k - 1);
      if before.None? then None else Perform(job, before.value, k - 1)
  }

  // The site when k steps were attempted and nothing was cleaned up.
  function Stopped(job: Job, site: Site, k: nat): Site
    requires HoldsManifest(job.dir) && k <= Steps(job.dir)
  {
    match RunTo(job, site, k)
    case Some(s) => s
    case None => if k == 0 then site else Stopped(job, site, k - 1)
  }

  datatype Interruption = Never | RaiseAfter(k: nat) | KillAfter(k: nat)

  // How many steps there is time for.
  function LastStep(job: Job, what: Interruption): (k: nat)
    requires HoldsManifest(job.dir)
    ensures k <= Steps(job.dir)
  {
    if what.Never? || what.k > Steps(job.dir) then Steps(job.dir) else what.k
  }

  // The exception handler removes the stage.
  function CleanedUp(site: Site): Site {
    site.(stage := None)
  }

  // Where a run that began with its preconditions met ends.
  function Outcome(job: Job, site: Site, what: Interruption): Site
    requires HoldsManifest(job.dir)
  {
    var k := LastStep(job, what);
    if what.KillAfter? && what.k <= Steps(job.dir) && RunTo(job, site, k).Some? then RunTo(job, site, k).value
    else CleanedUp(Stopped(job, site, k))
  }

  // ---- what every step keeps ----

  // The markers that will stand beside the destination.
  function Gates(job: Job, site: Site): Recovery.Markers {
    if !job.sameRoot then site.runtime
    else if site.destination.Some? then site.destination.value.markers
    else if site.stage.Some? then site.stage.value.markers
    else map[]
  }

  ghost predicate MarkersKept(job: Job, before: Site, after: Site)
    requires HoldsManifest(job.dir)
  {
    && (forall s | s in before.runtime :: s in after.runtime && after.runtime[s] == before.runtime[s])
    && (forall s | s in after.runtime && s !in before.runtime ::
          !job.sameRoot && Needs(job.dir, s) && after.runtime[s] == Recovery.Fresh(s, job.origin))
  }

  // After k steps: the destination appears with the last one only, and by then, each marker
  // due so far is in place.
  ghost predicate Progress(job: Job, before: Site, after: Site, k: nat)
    requires HoldsManifest(job.dir)
  {
    && (after.destination.Some? <==> k == Steps(job.dir))
    && (after.stage.Some? <==> 0 < k < Steps(job.dir))
    && MarkersKept(job, before, after)
    && (forall j | 0 <= j < 3 && k > |EntriesIn(job.dir)| + 1 + j && Needs(job.dir, MARKER_ORDER[j]) ::
          MARKER_ORDER[j] in Gates(job, after)
          && Gates(job, after)[MARKER_ORDER[j]] == Recovery.Fresh(MARKER_ORDER[j], job.origin))
    && (forall j | 0 <= j < 3 && k <= |EntriesIn(job.dir)| + 1 + j ::
          MARKER_ORDER[j] in Gates(job, after) ==> !job.sameRoot && MARKER_ORDER[j] in before.runtime)
  }

  lemma CopyProgress(job: Job, site: Site, mid: Site, k: nat)
    requires HoldsManifest(job.dir) && 0 < k <= |EntriesIn(job.dir)| && Progress(job, site, mid, k)
    requires Perform(job, mid, k).Some?
    ensures Progress(job, site, Perform(job, mid, k).value, k + 1)
  {
    hide Needs, TargetName, SoundDatabase, MarkersKept;
    var next := Perform(job, mid, k).value;
    assert next.runtime == mid.runtime && Gates(job, next) == Gates(job, mid);
    assert MarkersKept(job, site, next) by {
      SameRuntimeKept(job, site, mid, next);
    }
  }

  lemma SameRuntimeKept(job: Job, site: Site, mid: Site, next: Site)
    requires HoldsManifest(job.dir) && MarkersKept(job, site, mid) && next.runtime == mid.runtime
    ensures MarkersKept(job, site, next)
  {
  }

  lemma MarkProgress(job: Job, site: Site, mid: Site, k: nat, j: nat)
    requires HoldsManifest(job.dir) && j < 3 && k == |EntriesIn(job.dir)| + 1 + j && Progress(job, site, mid, k)
    requires Perform(job, mid, k).Some?
    ensures Progress(job, site, Perform(job, mid, k).value, k + 1)
  {
    hide Needs, TargetName, SoundDatabase, Recovery.Fresh;
  }

  lemma ReplaceProgress(job: Job, site: Site, mid: Site, k: nat)
    requires HoldsManifest(job.dir) && k == |EntriesIn(job.dir)| + 4 && Progress(job, site, mid, k)
    ensures Perform(job, mid, k).Some? && Progress(job, site, Perform(job, mid, k).value, k + 1)
  {
    hide Needs, MarkersKept;
    var next := Perform(job, mid, k).value;
    assert next.runtime == mid.runtime && Gates(job, next) == Gates(job, mid);
    assert MarkersKept(job, site, next) by {
      SameRuntimeKept(job, site, mid, next);
    }
  }

  lemma {:induction false} EveryStepKeepsGates(job: Job, site: Site, k: nat)
    requires HoldsManifest(job.dir) && k <= Steps(job.dir) && site.destination.None? && site.stage.None?
    requires RunTo(job, site, k).Some?
    ensures Progress(job, site, RunTo(job, site, k).value, k)
  {
    var n := |EntriesIn(job.dir)|;
    if k > 0 {
      EveryStepKeepsGates(job, site, k - 1);
      var mid := RunTo(job, site, k - 1).value;
      if k == 1 {
        hide Needs;
      } else if k <= n + 1 {
        hide *;
        CopyProgress(job, site, mid, k - 1);
      } else if k <= n + 4 {
        hide *;
        MarkProgress(job, site, mid, k - 1, k - n - 2);
      } else {
        hide *;
        ReplaceProgress(job, site, mid, k - 1);
      }
    }
  }

  lemma {:induction false} StoppedSomewhere(job: Job, site: Site, k: nat) returns (j: nat)
    requires HoldsManifest(job.dir) && k <= Steps(job.dir)
    ensures j <= k && RunTo(job, site, j) == Some(Stopped(job, site, k))
    ensures RunTo(job, site, k).Some? ==> j == k
    ensures RunTo(job, site, k).None? ==> j < k
  {
    if RunTo(job, site, k).Some? {
      j := k;
    } else {
      j := StoppedSomewhere(job, site, k - 1);
    }
  }

  lemma {:induction false} StoppedAtRefusal(job: Job, site: Site, k: nat, later: nat)
    requires HoldsManifest(job.dir) && k < later <= Steps(job.dir)
    requires RunTo(job, site, k).Some? && RunTo(job, site, k + 1).None?
    ensures RunTo(job, site, later).None? && Stopped(job, site, later) == RunTo(job, site, k).value
  {
    hide Perform;
    if later > k + 1 {
      StoppedAtRefusal(job, site, k, later - 1);
    }
  }

  // Wherever a restore stops, whether it raises or is killed: if the destination can be seen,
  // the gate of every scope its manifest names is shut, and no marker that was there is gone.
  lemma NoDataWithoutItsGate(job: Job, site: Site, what: Interruption, scope: Recovery.Scope, now: int)
    requires HoldsManifest(job.dir) && site.destination.None? && site.stage.None?
    ensures var after := Outcome(job, site, what);
            && MarkersKept(job, site, after)
            && (after.destination.Some? && Needs(job.dir, scope) ==>
                  scope in Gates(job, after) && !Recovery.Open(Gates(job, after), scope, now))
            && (after.destination.Some? ==> what.Never? || what.k >= Steps(job.dir))
            && (!what.KillAfter? ==> after.stage.None?)
  {
    hide Needs, Perform, RunTo, MarkersKept;
    var k := LastStep(job, what);
    var j := StoppedSomewhere(job, site, k);
    EveryStepKeepsGates(job, site, j);
    var after := Outcome(job, site, what);
    assert MarkersKept(job, site, after) by {
      SameRuntimeKept(job, site, Stopped(job, site, k), after);
    }
    if after.destination.Some? && Needs(job.dir, scope) {
      assert j == Steps(job.dir);
      var i := if scope.Trading? then 0 else if scope.Shadow? then 1 else 2;
      assert MARKER_ORDER[i] == scope;
    }
  }

  // ---- which class of state each gate guards ----

  ghost predicate OnlyDue(job: Job, place: Option<Place>)
    requires HoldsManifest(job.dir)
  {
    place.Some? ==> forall s | s in place.value.markers :: job.sameRoot && Needs(job.dir, s)
  }

  // No marker stands beside restored files unless it is due.
  lemma {:induction false} PlacedMarkersAreDue(job: Job, site: Site, k: nat)
    requires HoldsManifest(job.dir) && k <= Steps(job.dir) && site.destination.None? && site.stage.None?
    requires RunTo(job, site, k).Some?
    ensures OnlyDue(job, RunTo(job, site, k).value.destination) && OnlyDue(job, RunTo(job, site, k).value.stage)
  {
    hide Needs, TargetName, SoundDatabase, Recovery.Fresh;
    if k > 0 {
      PlacedMarkersAreDue(job, site, k - 1);
    }
  }

  // Some entry of the manifest, captured or not, is of the class.
  ghost predicate Lists(dir: Dir, c: Class)
    requires HoldsManifest(dir)
  {
    exists e :: e in ManifestIn(dir).core.entries && e.classification == Some(c)
  }

  lemma NeededByClass(dir: Dir)
    requires HoldsManifest(dir)
    ensures Needs(dir, Recovery.Trading) <==> Lists(dir, TradingState)
    ensures Needs(dir, Recovery.Shadow) <==> Lists(dir, ShadowState)
    ensures Needs(dir, Recovery.Research) <==> Lists(dir, ResearchGovernance)
  {
    var entries := EntriesIn(dir);
    forall e | e in entries
      ensures exists i :: 0 <= i < |entries| && entries[i] == e
    {
    }
  }

  // The gate of a scope is shut by a fresh marker, of that origin, that lets neither a writer nor a
  // search start.
  ghost predicate Shut(markers: Recovery.Markers, scope: Recovery.Scope, origin: Recovery.Origin, now: int) {
    && scope in markers && markers[scope].status == Recovery.Required && markers[scope].origin == origin
    && markers[scope].writerAllowed == Recovery.No && markers[scope].searchAllowed == Recovery.No
    && !Recovery.Open(markers, scope, now)
  }

  // Trading, shadow and research state are each behind their own gate.
  ghost predicate StateIsGated(dir: Dir, markers: Recovery.Markers, origin: Recovery.Origin, now: int)
    requires HoldsManifest(dir)
  {
    && (Lists(dir, TradingState) ==> Shut(markers, Recovery.Trading, origin, now))
    && (Lists(dir, ShadowState) ==> Shut(markers, Recovery.Shadow, origin, now))
    && (Lists(dir, ResearchGovernance) ==> Shut(markers, Recovery.Research, origin, now))
  }

  // Wherever a restore stops: once its files can be seen, trading, shadow and research state are each
  // behind their own shut gate, in the restored directory or in a separate runtime root.
  lemma {:induction false} RestoredStateIsGated(job: Job, site: Site, what: Interruption, now: int)
    requires HoldsManifest(job.dir) && site.destination.None? && site.stage.None?
    requires Outcome(job, site, what).destination.Some?
    ensures var after := Outcome(job, site, what);
            var gates := if job.sameRoot then after.destination.value.markers else after.runtime;
            StateIsGated(job.dir, gates, job.origin, now)
  {
    hide Needs, Lists, Perform, RunTo, MarkersKept;
    NeededByClass(job.dir);
    var k := LastStep(job, what);
    var j := StoppedSomewhere(job, site, k);
    EveryStepKeepsGates(job, site, j);
    assert MARKER_ORDER[0] == Recovery.Trading && MARKER_ORDER[1] == Recovery.Shadow
           && MARKER_ORDER[2] == Recovery.Research;
  }

  // A marker of a scope was there before.
  predicate HasMarker(site: Site, scope: Recovery.Scope) {
    || scope in site.runtime
    || (site.destination.Some? && scope in site.destination.value.markers)
    || (site.stage.Some? && scope in site.stage.value.markers)
  }

  // Conversely a marker that was not there before means that the manifest lists state of its class.
  lemma {:induction false} NewMarkerHasItsClass(job: Job, site: Site, what: Interruption, scope: Recovery.Scope)
    requires HoldsManifest(job.dir) && site.destination.None? && site.stage.None?
    requires HasMarker(Outcome(job, site, what), scope) && !HasMarker(site, scope)
    ensures scope == Recovery.Trading ==> Lists(job.dir, TradingState)
    ensures scope == Recovery.Shadow ==> Lists(job.dir, ShadowState)
    ensures scope == Recovery.Research ==> Lists(job.dir, ResearchGovernance)
  {
    hide Needs, Lists, Perform, RunTo;
    NeededByClass(job.dir);
    var k := LastStep(job, what);
    var j := StoppedSomewhere(job, site, k);
    EveryStepKeepsGates(job, site, j);
    PlacedMarkersAreDue(job, site, j);
  }

  // ---- when it succeeds ----

  lemma {:induction false} CopiesSucceed(job: Job, site: Site, k: nat)
    requires HoldsManifest(job.dir) && k <= |EntriesIn(job.dir)| + 1 && ContentsMatch(job.dir, EntriesIn(job.dir))
    requires site.destination.None? && site.stage.None?
    ensures RunTo(job, site, k).Some?
  {
    hide Needs, TargetName, Expected, SoundDatabase;
    if k > 0 {
      CopiesSucceed(job, site, k - 1);
      EveryStepKeepsGates(job, site, k - 1);
      if k > 1 {
        assert EntryHeld(job.dir, EntriesIn(job.dir)[k - 2]);
      }
    }
  }

  lemma {:induction false} RunToShorter(job: Job, site: Site, j: nat, k: nat)
    requires HoldsManifest(job.dir) && j <= k <= Steps(job.dir) && RunTo(job, site, k).Some?
    ensures RunTo(job, site, j).Some?
  {
    if j < k {
      RunToShorter(job, site, j, k - 1);
    }
  }

  // Marker j is written exactly when its place is free.
  lemma MarkSucceeds(job: Job, site: Site, j: nat)
    requires HoldsManifest(job.dir) && j < 3 && site.destination.None? && site.stage.None?
    requires RunTo(job, site, |EntriesIn(job.dir)| + 1 + j).Some?
    ensures RunTo(job, site, |EntriesIn(job.dir)| + 2 + j).Some? <==>
              job.sameRoot || !Needs(job.dir, MARKER_ORDER[j]) || MARKER_ORDER[j] !in site.runtime
  {
    var k := |EntriesIn(job.dir)| + 1 + j;
    EveryStepKeepsGates(job, site, k);
    hide Needs, Recovery.Fresh;
  }

  ghost predicate Blocked(job: Job, site: Site, j: nat)
    requires HoldsManifest(job.dir) && j < 3
  {
    !job.sameRoot && Needs(job.dir, MARKER_ORDER[j]) && MARKER_ORDER[j] in site.runtime
  }

  // All steps of a verified set's restore succeed exactly when no marker it has to write is
  // already there.
  lemma RestoreCompletesExactly(job: Job, site: Site)
    requires HoldsManifest(job.dir) && ContentsMatch(job.dir, EntriesIn(job.dir)) && site.destination.None?
    requires site.stage.None?
    ensures RunTo(job, site, Steps(job.dir)).Some?
       <==> !Blocked(job, site, 0) && !Blocked(job, site, 1) && !Blocked(job, site, 2)
  {
    hide Perform, Needs;
    var n := |EntriesIn(job.dir)|;
    CopiesSucceed(job, site, n + 1);
    if RunTo(job, site, n + 5).Some? {
      RunToShorter(job, site, n + 2, n + 5);
      RunToShorter(job, site, n + 3, n + 5);
      RunToShorter(job, site, n + 4, n + 5);
    }
    MarkSucceeds(job, site, 0);
    if RunTo(job, site, n + 2).Some? {
      MarkSucceeds(job, site, 1);
      if RunTo(job, site, n + 3).Some? {
        MarkSucceeds(job, site, 2);
        if RunTo(job, site, n + 4).Some? {
          EveryStepKeepsGates(job, site, n + 4);
          ReplaceProgress(job, site, RunTo(job, site, n + 4).value, n + 4);
        }
      }
    }
  }

  // A restore that fails after writing a marker into a separate runtime root cannot be repeated:
  // its own marker stands in the way.  A retry succeeds exactly when no marker had been written.
  lemma RetryExactly(job: Job, site: Site, k: nat)
    requires HoldsManifest(job.dir) && ContentsMatch(job.dir, EntriesIn(job.dir)) && site.destination.None?
    requires site.stage.None?
    requires !job.sameRoot && k < Steps(job.dir) && forall j | 0 <= j < 3 :: !Blocked(job, site, j)
    ensures var failed := Outcome(job, site, RaiseAfter(k));
            && failed.destination.None? && failed.stage.None?
            && (Outcome(job, failed, Never).destination.Some? <==>
                  forall j | 0 <= j < 3 && k > |EntriesIn(job.dir)| + 1 + j :: !Needs(job.dir, MARKER_ORDER[j]))
  {
    hide Perform, Needs, RunTo, MarkersKept;
    RestoreCompletesExactly(job, site);
    RunToShorter(job, site, k, Steps(job.dir));
    EveryStepKeepsGates(job, site, k);
    var failed := Outcome(job, site, RaiseAfter(k));
    assert failed == CleanedUp(RunTo(job, site, k).value);
    RestoreCompletesExactly(job, failed);
    var j := StoppedSomewhere(job, failed, Steps(job.dir));
    EveryStepKeepsGates(job, failed, j);
    if forall i | 0 <= i < 3 && k > |EntriesIn(job.dir)| + 1 + i :: !Needs(job.dir, MARKER_ORDER[i]) {
      assert !Blocked(job, failed, 0) && !Blocked(job, failed, 1) && !Blocked(job, failed, 2);
    } else {
      var i :| 0 <= i < 3 && k > |EntriesIn(job.dir)| + 1 + i && Needs(job.dir, MARKER_ORDER[i]);
      assert Blocked(job, failed, i);
    }
  }

  // ---- the restored files ----

  // The first n entries under their target names.
  function Copied(dir: Dir, n: nat): Dir
    requires HoldsManifest(dir) && n <= |EntriesIn(dir)|
  {
    if n == 0 then map[]
    else
      var e := EntriesIn(dir)[n - 1];
      if e.presence == OptionalNotPresent || e.filename !in dir then Copied(dir, n - 1)
      else Copied(dir, n - 1)[TargetName(e) := dir[e.filename]]
  }

  lemma {:induction false} FilesSoFar(job: Job, site: Site, k: nat)
    requires HoldsManifest(job.dir) && 0 < k <= Steps(job.dir) && site.destination.None? && site.stage.None?
    requires RunTo(job, site, k).Some?
    ensures var s := RunTo(job, site, k).value;
            var n := |EntriesIn(job.dir)|;
            && (k < Steps(job.dir) ==>
                  s.stage.Some? && s.stage.value.files == Copied(job.dir, if k - 1 < n then k - 1 else n))
            && (k == Steps(job.dir) ==> s.destination.Some? && s.destination.value.files == Copied(job.dir, n))
  {
    hide Needs, TargetName, SoundDatabase, Recovery.Fresh;
    if k > 1 {
      FilesSoFar(job, site, k - 1);
    }
  }

  predicate Named(e: Entry) {
    e.classification.Some? && e.logical == NameOf(e.classification.value)
  }

  // The first letters of the target names tell the classifications apart.
  lemma TargetsDiffer(e: Entry, f: Entry)
    requires Named(e) && Named(f) && e.logical != f.logical
    ensures TargetName(e) != TargetName(f)
  {
    TargetLetter(e);
    TargetLetter(f);
  }

  lemma TargetLetter(e: Entry)
    requires Named(e)
    ensures TargetName(e) != ""
    ensures TargetName(e)[0] == match e.classification.value
                                case TradingState => 'b'
                                case ShadowState => 'e'
                                case ResearchGovernance => 'g'
                                case AuditEvidence => 'a'
                                case Configuration => 'c'
                                case DerivedState => 'd'
  {
    assert |NameOf(TradingState)| == 13 && |NameOf(ShadowState)| == 12 && |NameOf(ResearchGovernance)| == 16;
    match e.classification.value
    case TradingState =>
    case ShadowState => assert e.logical != "trading_state";
    case ResearchGovernance => assert e.logical != "trading_state" && e.logical != "shadow_state";
    case AuditEvidence => assert e.logical[0] == 'a';
    case Configuration => assert e.logical[0] == 'c';
    case DerivedState => assert e.logical[0] == 'd';
  }

  ghost predicate Holds(files: Dir, dir: Dir, e: Entry) {
    e.filename in dir && TargetName(e) in files && files[TargetName(e)] == dir[e.filename]
  }

  lemma {:induction false} CopiedHolds(dir: Dir, n: nat, i: nat)
    requires HoldsManifest(dir) && i < n <= |EntriesIn(dir)| && DistinctNames(EntriesIn(dir))
    requires (forall j | 0 <= j < n :: Named(EntriesIn(dir)[j])) && EntriesIn(dir)[i].filename in dir
    requires EntriesIn(dir)[i].presence != OptionalNotPresent
    ensures Holds(Copied(dir, n), dir, EntriesIn(dir)[i])
  {
    hide TargetName, Named;
    if i < n - 1 {
      CopiedHolds(dir, n - 1, i);
      TargetsDiffer(EntriesIn(dir)[i], EntriesIn(dir)[n - 1]);
    }
  }

  ghost predicate ComesFrom(f: string, e: Entry) {
    e.presence != OptionalNotPresent && TargetName(e) == f
  }

  lemma {:induction false} CopiedNames(dir: Dir, n: nat, f: string)
    requires HoldsManifest(dir) && n <= |EntriesIn(dir)| && f in Copied(dir, n)
    ensures exists i :: 0 <= i < n && ComesFrom(f, EntriesIn(dir)[i])
  {
    hide TargetName;
    var e := EntriesIn(dir)[n - 1];
    if e.presence != OptionalNotPresent && f == TargetName(e) {
      assert ComesFrom(f, EntriesIn(dir)[n - 1]);
    } else {
      CopiedNames(dir, n - 1, f);
    }
  }

  // What a restore makes visible holds, for each captured entry, its bytes under its own target
  // name, and nothing else.
  lemma RestoredBytes(job: Job, site: Site, what: Interruption, name: string, now: int, expected: Option<int>)
    requires Verifies(job.dir, name, now, expected) && site.destination.None? && site.stage.None?
    requires Outcome(job, site, what).destination.Some?
    ensures var files := Outcome(job, site, what).destination.value.files;
            var entries := EntriesIn(job.dir);
            && (forall i | 0 <= i < |entries| && entries[i].presence == Present :: Holds(files, job.dir, entries[i]))
            && (forall i, j | 0 <= i < j < |entries| :: TargetName(entries[i]) != TargetName(entries[j]))
            && (forall f | f in files :: exists i :: 0 <= i < |entries| && ComesFrom(f, entries[i]))
  {
    hide Needs, TargetName, SkewConsistent, SchemaAccepted;
    VisibleAfterAll(job, site, what);
    var entries := EntriesIn(job.dir);
    var files := Outcome(job, site, what).destination.value.files;
    var n := |entries|;
    forall i | 0 <= i < n
      ensures Named(entries[i])
      ensures entries[i].presence == Present ==> entries[i].filename in job.dir
    {
      assert Identified(entries[i], ManifestIn(job.dir).core.appSchema) && EntryHeld(job.dir, entries[i]);
    }
    forall i | 0 <= i < n && entries[i].presence == Present
      ensures Holds(files, job.dir, entries[i])
    {
      CopiedHolds(job.dir, n, i);
    }
    forall i, j | 0 <= i < j < n
      ensures TargetName(entries[i]) != TargetName(entries[j])
    {
      TargetsDiffer(entries[i], entries[j]);
    }
    forall f | f in files
      ensures exists i :: 0 <= i < n && ComesFrom(f, entries[i])
    {
      CopiedNames(job.dir, n, f);
    }
  }

  // Where a reader of each class of state looks for it.
  function FileOf(c: Class, sqlite: bool): string {
    var extension := if sqlite then ".sqlite3" else ".bin";
    match c
    case TradingState => "btcquant.db"
    case ShadowState => "execution-shadow.db"
    case ResearchGovernance => "governance.sqlite3"
    case AuditEvidence => "audit_evidence" + extension
    case Configuration => "configuration" + extension
    case DerivedState => "derived_state" + extension
  }

  // Each captured file of a verified set is there, by its classification alone.
  lemma {:induction false} RestoredUnderItsName(job: Job, site: Site, what: Interruption, name: string, now: int,
                                                expected: Option<int>, e: Entry)
    requires Verifies(job.dir, name, now, expected) && site.destination.None? && site.stage.None?
    requires Outcome(job, site, what).destination.Some?
    requires e in ManifestIn(job.dir).core.entries && e.presence == Present
    ensures e.classification.Some? && e.filename in job.dir
    ensures var target := FileOf(e.classification.value, e.kind == Some(Sqlite));
            var files := Outcome(job, site, what).destination.value.files;
            target in files && files[target] == job.dir[e.filename]
  {
    hide Needs, SkewConsistent, SchemaAccepted, Outcome, TargetName, ContentsMatch, FileOf;
    RestoredBytes(job, site, what, name, now, expected);
    var entries := EntriesIn(job.dir);
    var i :| 0 <= i < |entries| && entries[i] == e;
    assert Identified(entries[i], ManifestIn(job.dir).core.appSchema);
    TargetOfClass(e);
  }

  lemma TargetOfClass(e: Entry)
    requires Named(e)
    ensures TargetName(e) == FileOf(e.classification.value, e.kind == Some(Sqlite))
  {
    match e.classification.value
    case TradingState =>
    case ShadowState => assert e.logical[0] == 's';
    case ResearchGovernance => assert e.logical[0] == 'g';
    case AuditEvidence => assert e.logical[0] == 'a';
    case Configuration => assert e.logical[0] == 'c';
    case DerivedState => assert e.logical[0] == 'd';
  }

  lemma VisibleAfterAll(job: Job, site: Site, what: Interruption)
    requires HoldsManifest(job.dir) && site.destination.None? && site.stage.None?
    requires Outcome(job, site, what).destination.Some?
    ensures RunTo(job, site, Steps(job.dir)).Some?
    ensures Outcome(job, site, what).destination.value.files == Copied(job.dir, |EntriesIn(job.dir)|)
  {
    hide Needs, Perform, Copied, MarkersKept;
    var k := LastStep(job, what);
    var j := StoppedSomewhere(job, site, k);
    EveryStepKeepsGates(job, site, j);
    FilesSoFar(job, site, Steps(job.dir));
  }

  // ---- the procedure ----

  class RestoreRoot {
    var destination: Option<Place>
    var stage: Option<Place>
    var runtime: Recovery.Markers

    constructor (runtime: Recovery.Markers)
      ensures Current() == Site(None, None, runtime)
    {
      destination, stage, this.runtime := None, None, runtime;
    }

    ghost function Current(): Site
      reads this
    {
      Site(destination, stage, runtime)
    }

    method CleanUp()
      modifies this`stage
      ensures Current() == CleanedUp(old(Current()))
    {
      stage := None;
    }

    method CopyInto(dir: Dir, e: Entry, ghost job: Job) returns (ok: bool)
      requires job.dir == dir
      modifies this`stage
      ensures ok <==> CopyEntry(job, old(Current()), e).Some?
      ensures Current() == if ok then CopyEntry(job, old(Current()), e).value else old(Current())
    {
      if e.presence == OptionalNotPresent {
        return true;
      }
      if stage.None? || e.filename !in dir || e.sha != Some(Sha(dir[e.filename])) {
        return false;
      }
      if e.kind == Some(Sqlite) && !SoundDatabase(dir[e.filename]) {
        return false;
      }
      stage := Some(stage.value.(files := stage.value.files[TargetName(e) := dir[e.filename]]));
      ok := true;
    }

    method WriteMarker(job: Job, scope: Recovery.Scope) returns (ok: bool)
      requires HoldsManifest(job.dir)
      modifies this`stage, this`runtime
      ensures ok <==> Mark(job, old(Current()), scope).Some?
      ensures Current() == if ok then Mark(job, old(Current()), scope).value else old(Current())
    {
      if !Needs(job.dir, scope) {
        return true;
      }
      var marker := Recovery.Fresh(scope, job.origin);
      if job.sameRoot {
        if stage.None? || scope in stage.value.markers {
          return false;
        }
        stage := Some(stage.value.(markers := stage.value.markers[scope := marker]));
      } else {
        if scope in runtime {
          return false;
        }
        runtime := runtime[scope := marker];
      }
      ok := true;
    }

    // The steps under the exception handler; `stop` says that one of them raised or was struck.
    method RunSteps(job: Job, what: Interruption) returns (stop: Option<Fault>)
      requires HoldsManifest(job.dir) && destination.None? && stage.None?
      modifies this
      ensures Current() == if what.KillAfter? && what.k <= Steps(job.dir) && RunTo(job, old(Current()), what.k).Some?
                           then RunTo(job, old(Current()), what.k).value
                           else Stopped(job, old(Current()), LastStep(job, what))
      ensures stop == Some(Killed)
         <==> what.KillAfter? && what.k <= Steps(job.dir) && RunTo(job, old(Current()), what.k).Some?
      ensures stop.None?
         <==> RunTo(job, old(Current()), Steps(job.dir)).Some? && (what.Never? || what.k > Steps(job.dir))
      ensures stop.None? ==> destination.Some? && stage.None?
    {
      hide Perform, Needs, CopyEntry, Mark, Copied;
      ghost var start := Current();
      var n := |ManifestIn(job.dir).core.entries|;
      var k := 0;
      while k < n + 5
        invariant 0 <= k <= n + 5 && RunTo(job, start, k) == Some(Current())
        invariant what.Never? || what.k >= k
      {
        if !what.Never? && what.k == k {
          return Some(if what.KillAfter? then Killed else Raised);
        }
        var ok := OneStep(job, k);
        if !ok {
          StoppedAtRefusal(job, start, k, LastStep(job, what));
          StoppedAtRefusal(job, start, k, Steps(job.dir));
          return Some(MarkerExists);
        }
        k := k + 1;
      }
      EveryStepKeepsGates(job, start, k);
      if !what.Never? && what.k == k {
        return Some(if what.KillAfter? then Killed else Raised);
      }
      stop := None;
    }

    method OneStep(job: Job, k: nat) returns (ok: bool)
      requires HoldsManifest(job.dir) && k < Steps(job.dir)
      modifies this
      ensures ok <==> Perform(job, old(Current()), k).Some?
      ensures Current() == if ok then Perform(job, old(Current()), k).value else old(Current())
    {
      hide Needs, CopyEntry, Mark;
      var entries := ManifestIn(job.dir).core.entries;
      if k == 0 {
        stage := Some(Place(map[], map[]));
        ok := true;
      } else if k <= |entries| {
        ok := CopyInto(job.dir, entries[k - 1], job);
      } else if k <= |entries| + 3 {
        ok := WriteMarker(job, MARKER_ORDER[k - |entries| - 1]);
      } else {
        destination, stage := stage, None;
        ok := true;
      }
    }

    // It succeeds exactly for a trusted, completed set, when nothing is in the way: no destination,
    // no leftover stage, none of the markers it has to write, no interruption.
    method RestoreToStaging(dir: Dir, name: string, now: int, expected: Option<int>, sameRoot: bool, what: Interruption)
      returns (r: Result<string, Fault>)
      modifies this
      ensures var attempted := Verifies(dir, name, now, expected) && ManifestIn(dir).core.state == Completed
                               && old(destination).None? && old(stage).None?;
              && (!attempted ==> Current() == old(Current()) && r.Failure?)
              && (attempted ==> Current() == Outcome(JobFor(dir, now, sameRoot), old(Current()), what))
      ensures r.Success? <==>
                && Verifies(dir, name, now, expected) && ManifestIn(dir).core.state == Completed
                && old(destination).None? && old(stage).None?
                && (what.Never? || what.k > Steps(dir))
                && forall j | 0 <= j < 3 :: !Blocked(JobFor(dir, now, sameRoot), old(Current()), j)
      ensures r.Success? ==> destination.Some? && r.value == name
      ensures destination.Some? && old(destination).None? ==>
                && HoldsManifest(dir)
                && var core := ManifestIn(dir).core;
                StateIsGated(dir, if sameRoot then destination.value.markers else runtime,
                             Recovery.Origin(core.id, Some(core.appSchema), core.identity, Some(now)), now)
    {
      hide Perform, Needs, RunTo, SkewConsistent, ContentsMatch, MetadataMatches, Blocked, StateIsGated;
      var verified := VerifyBackupSet(dir, name, now, expected);
      if verified.Failure? {
        return Failure(verified.error);
      }
      if !verified.value.trusted {
        return Failure(NotTrusted);
      }
      if destination.Some? {
        return Failure(DestinationExists);
      }
      if stage.Some? {
        return Failure(StageExists);
      }
      var job := JobFor(dir, now, sameRoot);
      RestoreCompletesExactly(job, Current());
      if Outcome(job, Current(), what).destination.Some? {
        RestoredStateIsGated(job, Current(), what, now);
      }
      var stop := RunSteps(job, what);
      if stop.Some? {
        if stop.value != Killed {
          CleanUp();
        }
        return Failure(stop.value);
      }
      assert Current() == CleanedUp(Current());
      r := Success(verified.value.manifest.core.id);
    }
  }

  // The marker's origin comes from the manifest and the time of the restore.
  function JobFor(dir: Dir, now: int, sameRoot: bool): Job
    requires HoldsManifest(dir)
  {
    var core := ManifestIn(dir).core;
    Job(dir, Recovery.Origin(core.id, Some(core.appSchema), core.identity, Some(now)), sameRoot)
  }
}

/** Creating a set and restoring it. */
module BackupRoundTrip {
  import opened Prelude
  import opened BackupSets
  import C = BackupCreation
  import Restore

  // A completed set, published from sources with distinct names and a non-negative limit and
  // restored by a run that gets to the rename, gives back each captured file byte for byte, and
  // nothing for the sources that were absent.
  lemma {:induction false} RestoreReturnsCaptures(req: C.Request, captures: seq<C.Capture>, hex: Hash -> string,
                                                  visible: map<string, Dir>, now: int,
                               site: Restore.Site, sameRoot: bool, what: Restore.Interruption)
    requires |req.sources| == |captures| && (forall s | s in req.sources :: C.WellFormed(s))
    requires C.DistinctSources(req.sources)
    requires C.Publishable(req, captures, hex, visible) && C.IdOf(req, captures, hex) != "" && req.limit >= 0.0
    requires req.created <= now + CLOCK_TOLERANCE && site.destination.None? && site.stage.None?
    ensures var dir := C.Published(req, captures, C.IdOf(req, captures, hex));
            Verifies(dir, C.IdOf(req, captures, hex), now, Some(req.appSchema))
    ensures var dir := C.Published(req, captures, C.IdOf(req, captures, hex));
            var after := Restore.Outcome(Restore.JobFor(dir, now, sameRoot), site, what);
            after.destination.Some? ==>
              && (forall i | 0 <= i < |captures| && captures[i].Found? ::
                    var target := Restore.TargetName(C.EntryOf(req.sources[i], captures[i]));
                    target in after.destination.value.files
                    && after.destination.value.files[target] == captures[i].blob)
              && (forall f | f in after.destination.value.files ::
                    exists i :: 0 <= i < |captures| && captures[i].Found?
                                && Restore.ComesFrom(f, C.EntryOf(req.sources[i], captures[i])))
  {
    hide C.Publishable, C.IdOf, Restore.Outcome, Restore.TargetName, C.WellFormed, Verifies, C.Published, C.EntryOf;
    C.IdIsFresh(req, captures, hex, visible);
    var id := C.IdOf(req, captures, hex);
    var dir := C.Published(req, captures, id);
    C.PublishedSetVerifies(req, captures, hex, visible, now, Some(req.appSchema));
    PublishedEntries(req, captures, id, now);
    var job := Restore.JobFor(dir, now, sameRoot);
    if Restore.Outcome(job, site, what).destination.Some? {
      Restore.RestoredBytes(job, site, what, id, now, Some(req.appSchema));
      var files := Restore.Outcome(job, site, what).destination.value.files;
      forall i | 0 <= i < |captures| && captures[i].Found?
        ensures Restore.Holds(files, dir, C.EntryOf(req.sources[i], captures[i]))
      {
        assert Restore.EntriesIn(dir)[i].presence == Present;
      }
      forall f | f in files
        ensures exists i ::
                  0 <= i < |captures| && captures[i].Found?
                  && Restore.ComesFrom(f, C.EntryOf(req.sources[i], captures[i]))
      {
        var i :| 0 <= i < |captures| && Restore.ComesFrom(f, Restore.EntriesIn(dir)[i]);
        assert captures[i].Found? && Restore.ComesFrom(f, C.EntryOf(req.sources[i], captures[i]));
      }
    }
  }

  // The manifest of a verifying published set lists its sources, and each file holds its capture.
  lemma PublishedEntries(req: C.Request, captures: seq<C.Capture>, id: string, now: int)
    requires |req.sources| == |captures| && C.Times(captures) != []
    requires Verifies(C.Published(req, captures, id), id, now, Some(req.appSchema))
    ensures var dir := C.Published(req, captures, id);
            && HoldsManifest(dir) && Restore.EntriesIn(dir) == C.EntriesOf(req.sources, captures)
            && |Restore.EntriesIn(dir)| == |captures|
            && forall i | 0 <= i < |captures| ::
                 var e := C.EntryOf(req.sources[i], captures[i]);
                 && Restore.EntriesIn(dir)[i] == e
                 && (e.presence == OptionalNotPresent <==> captures[i].Absent?)
                 && (e.presence == Present <==> captures[i].Found?)
                 && (captures[i].Found? ==> e.filename in dir && dir[e.filename] == captures[i].blob)
  {
    hide C.Staged, C.Filename, C.Times, C.Skew, C.Earliest, SkewConsistent, MetadataMatches, Expected, IsGitSha,
         TotalSize;
    NamesApart();
    var dir := C.Published(req, captures, id);
    var entries := Restore.EntriesIn(dir);
    assert entries == C.EntriesOf(req.sources, captures);
    forall i | 0 <= i < |captures|
      ensures EntryHeld(dir, entries[i])
    {
    }
  }
}
