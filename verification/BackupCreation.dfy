/** Capturing sources into a hidden stage and publishing it in one rename. */
module BackupCreation {
  import opened Prelude
  import opened BackupSets

  // The constructor of a source refuses a name its classification does not allow.
  datatype Source = Source(logical: string, classification: Class, kind: Kind, optional: bool)

  predicate WellFormed(s: Source) {
    s.logical == NameOf(s.classification)
  }

  // What the file system shows for one source: nothing, or the blob the copy received, whether
  // the original passed its own checks, the schema read from the original after the copy, and
  // the clock around it.
  datatype Capture =
    | Absent
    | Found(blob: Blob, soundOriginal: bool, schemaRead: Option<int>, started: int, completed: int)

  datatype Request = Request(sources: seq<Source>, gitSha: string, appSchema: int, identity: string, created: int,
                             limit: real, margin: int, enoughSpace: bool)

  // Where the source lets a failure be injected.
  datatype Hook = AfterEntry(i: nat) | BeforeManifest | AfterManifest | BeforePublish | AfterPublish

  // Raised is an exception, with its cleanup; killed is not.
  datatype Interruption = Never | RaiseAt(hook: Hook) | KillAt(hook: Hook)

  predicate Strikes(what: Interruption, hook: Hook) {
    !what.Never? && what.hook == hook
  }

  // ---- what a capture produces ----

  function Filename(s: Source): string {
    s.logical + if s.kind == Sqlite then ".sqlite3" else ".bin"
  }

  function EntryOf(s: Source, c: Capture): Entry {
    if c.Absent? then
      Entry(s.logical, Some(s.classification), Some(s.kind), true, OptionalNotPresent,
            Filename(s), 0, None, None, false)
    else
      Entry(s.logical, Some(s.classification), Some(s.kind), s.optional, Present,
            Filename(s), Size(c.blob), Some(Sha(c.blob)),
            if s.kind == Sqlite then c.schemaRead else None, s.kind == Sqlite)
  }

  function EntriesOf(sources: seq<Source>, captures: seq<Capture>): seq<Entry>
    requires |sources| == |captures|
  {
    seq(|sources|, i requires 0 <= i < |sources| => EntryOf(sources[i], captures[i]))
  }

  // The stage after the first n sources; a later capture overwrites an earlier one of the same name.
  function Staged(sources: seq<Source>, captures: seq<Capture>, n: nat): Dir
    requires n <= |sources| == |captures|
  {
    if n == 0 then map[]
    else if captures[n - 1].Absent? then Staged(sources, captures, n - 1)
    else Staged(sources, captures, n - 1)[Filename(sources[n - 1]) := captures[n - 1].blob]
  }

  predicate Capturable(s: Source, c: Capture) {
    && (c.Absent? ==> s.optional)
    && (c.Found? && s.kind == Sqlite ==> c.soundOriginal && SoundDatabase(c.blob))
  }

  // Clock readings around the captures.
  function Times(captures: seq<Capture>): seq<int> {
    if captures == [] then []
    else
      var last := captures[|captures| - 1];
      Times(captures[..|captures| - 1]) + if last.Absent? then [] else [last.started, last.completed]
  }

  function Earliest(times: seq<int>): int
    requires times != []
  {
    if |times| == 1 then times[0]
    else
      var rest := Earliest(times[..|times| - 1]);
      if times[|times| - 1] < rest then times[|times| - 1] else rest
  }

  function Latest(times: seq<int>): (t: int)
    requires times != []
    ensures Earliest(times) <= t
  {
    if |times| == 1 then times[0] else MaxInt(Latest(times[..|times| - 1]), times[|times| - 1])
  }

  function Skew(times: seq<int>): real
    requires times != []
  {
    (Latest(times) - Earliest(times)) as real / 1000000.0
  }

  function CoreOf(req: Request, captures: seq<Capture>, id: string): Core
    requires |req.sources| == |captures| && Times(captures) != []
  {
    var times := Times(captures);
    var entries := EntriesOf(req.sources, captures);
    Core(if Skew(times) > req.limit then Degraded else Completed, id, req.created,
         Earliest(times), Latest(times), Skew(times), req.limit,
         req.gitSha, req.appSchema, req.identity, TotalSize(entries), entries)
  }

  // The id prints the hash of the manifest that still says "pending".
  function IdOf(req: Request, captures: seq<Capture>, hex: Hash -> string): string
    requires |req.sources| == |captures| && Times(captures) != []
  {
    hex(Sha(CoreText(CoreOf(req, captures, "pending"))))
  }

  function ManifestFor(core: Core): Manifest {
    Manifest(core, Sha(CoreText(core)))
  }

  function Sealed(stage: Dir, m: Manifest): Dir {
    stage[MANIFEST_NAME := ManifestText(m)][DIGEST_NAME := DigestText(Sha(ManifestText(m)))]
  }

  // The directory that publication makes visible.
  function Published(req: Request, captures: seq<Capture>, id: string): Dir
    requires |req.sources| == |captures| && Times(captures) != []
  {
    var m := ManifestFor(CoreOf(req, captures, id));
    Sealed(Staged(req.sources, captures, |captures|), m)[RECORD_NAME := RecordText(m.sha)]
  }

  // Everything the procedure checks before publishing.
  predicate Publishable(req: Request, captures: seq<Capture>, hex: Hash -> string, visible: map<string, Dir>)
    requires |req.sources| == |captures|
  {
    && IsGitSha(req.gitSha) && req.appSchema >= 1 && req.margin >= 0 && req.sources != [] && req.enoughSpace
    && (forall i | 0 <= i < |captures| :: Capturable(req.sources[i], captures[i]))
    && Times(captures) != []
    && var core := CoreOf(req, captures, IdOf(req, captures, hex));
    && ContentsMatch(Sealed(Staged(req.sources, captures, |captures|), ManifestFor(core)), core.entries)
    && MetadataMatches(core, core.total)
    && core.id !in visible
  }

  // The interruption's point is reached by a run that nothing else stops.
  predicate Fires(what: Interruption, captures: seq<Capture>) {
    !what.Never? && (what.hook.AfterEntry? ==> what.hook.i < |captures| && captures[what.hook.i].Found?)
  }

  predicate FiresBeforePublication(what: Interruption, captures: seq<Capture>) {
    Fires(what, captures) && what.hook != AfterPublish
  }

  predicate DistinctSources(sources: seq<Source>) {
    forall i, j | 0 <= i < j < |sources| :: sources[i].logical != sources[j].logical
  }

  // ---- what the skew is ----

  // The clock was read around the capture at time t.
  predicate ReadAt(c: Capture, t: int) {
    c.Found? && (t == c.started || t == c.completed)
  }

  lemma {:induction false} TimesAreReadings(captures: seq<Capture>, t: int)
    ensures t in Times(captures) <==> exists i :: 0 <= i < |captures| && ReadAt(captures[i], t)
  {
    if captures != [] {
      var init := captures[..|captures| - 1];
      TimesAreReadings(init, t);
      if i :| 0 <= i < |init| && ReadAt(init[i], t) {
        assert ReadAt(captures[i], t);
      }
      if i :| 0 <= i < |captures| && ReadAt(captures[i], t) {
        assert i < |init| ==> ReadAt(init[i], t);
      }
    }
  }

  lemma {:induction false} EarliestAndLatest(times: seq<int>)
    requires times != []
    ensures Earliest(times) in times && Latest(times) in times
    ensures forall t | t in times :: Earliest(times) <= t <= Latest(times)
  {
    if |times| > 1 {
      var init, last := times[..|times| - 1], times[|times| - 1];
      EarliestAndLatest(init);
      assert times == init + [last];
    }
  }

  // The manifest spans every clock reading of every capture, and the set is complete exactly when no
  // two of them are further apart than the limit, in seconds.
  lemma {:induction false} SkewSpansCaptures(req: Request, captures: seq<Capture>, id: string)
    requires |req.sources| == |captures| && Times(captures) != []
    ensures var core := CoreOf(req, captures, id);
            && (forall i, t | 0 <= i < |captures| && ReadAt(captures[i], t) ::
                  core.captureStarted <= t <= core.captureCompleted)
            && (exists i :: 0 <= i < |captures| && ReadAt(captures[i], core.captureStarted))
            && (exists i :: 0 <= i < |captures| && ReadAt(captures[i], core.captureCompleted))
            && core.skew == (core.captureCompleted - core.captureStarted) as real / 1_000_000.0
            && (core.state == Completed <==>
                  forall i, j, t, u | 0 <= i < |captures| && 0 <= j < |captures| && ReadAt(captures[i], t)
                                      && ReadAt(captures[j], u) :: (u - t) as real / 1_000_000.0 <= req.limit)
  {
    hide ReadAt, Times, Earliest, Latest;
    var times := Times(captures);
    EarliestAndLatest(times);
    TimesAreReadings(captures, Earliest(times));
    TimesAreReadings(captures, Latest(times));
    forall i, t | 0 <= i < |captures| && ReadAt(captures[i], t)
      ensures Earliest(times) <= t <= Latest(times)
    {
      TimesAreReadings(captures, t);
    }
  }

  // ---- what publication means ----

  // The first letter tells the classification, and no captured file is named like a manifest file.
  lemma FirstLetter(s: Source, t: Source)
    requires WellFormed(s) && WellFormed(t)
    ensures s.logical != "" && Filename(s)[0] == s.logical[0]
    ensures s.logical[0] == t.logical[0] <==> s.classification == t.classification
    ensures Filename(s) !in {MANIFEST_NAME, DIGEST_NAME, RECORD_NAME}
  {
  }

  lemma FilenamesDiffer(s: Source, t: Source)
    requires WellFormed(s) && WellFormed(t) && s.logical != t.logical
    ensures Filename(s) != Filename(t)
  {
    FirstLetter(s, t);
    FirstLetter(t, s);
    hide Filename;
  }

  // The verification record disturbs nothing.
  lemma RecordIsAllowed(dir: Dir, sources: seq<Source>, captures: seq<Capture>, record: Blob)
    requires |sources| == |captures| && forall s | s in sources :: WellFormed(s)
    requires ContentsMatch(dir, EntriesOf(sources, captures))
    ensures ContentsMatch(dir[RECORD_NAME := record], EntriesOf(sources, captures))
  {
    hide Filename, WellFormed;
    var entries := EntriesOf(sources, captures);
    forall i | 0 <= i < |entries|
      ensures EntryHeld(dir[RECORD_NAME := record], entries[i])
    {
      FirstLetter(sources[i], sources[i]);
      assert EntryHeld(dir, entries[i]);
    }
  }

  lemma EntriesDistinct(sources: seq<Source>, captures: seq<Capture>)
    requires |sources| == |captures|
    ensures |EntriesOf(sources, captures)| == |sources|
    ensures DistinctNames(EntriesOf(sources, captures)) <==> DistinctSources(sources)
    ensures forall i | 0 <= i < |sources| :: WellShaped(EntriesOf(sources, captures)[i])
  {
    var entries := EntriesOf(sources, captures);
    forall i | 0 <= i < |sources|
      ensures entries[i].logical == sources[i].logical && WellShaped(entries[i])
    {
      assert entries[i] == EntryOf(sources[i], captures[i]);
    }
    if DistinctNames(entries) {
      forall i, j | 0 <= i < j < |sources|
        ensures sources[i].logical != sources[j].logical
      {
        assert entries[i].logical != entries[j].logical;
      }
    }
    hide WellShaped;
    if DistinctSources(sources) {
      forall i, j | 0 <= i < j < |entries|
        ensures entries[i].logical != entries[j].logical
      {
        assert sources[i].logical != sources[j].logical;
      }
    }
  }

  // A published set verifies, now and later, exactly when no two sources share a name and the
  // skew limit is not negative: neither is checked before the rename.
  lemma {:induction false} PublishedSetVerifies(req: Request, captures: seq<Capture>, hex: Hash -> string,
                                                visible: map<string, Dir>, now: int, expected: Option<int>)
    requires |req.sources| == |captures| && (forall s | s in req.sources :: WellFormed(s))
    requires Publishable(req, captures, hex, visible) && IdOf(req, captures, hex) != ""
    ensures var id := IdOf(req, captures, hex);
            Verifies(Published(req, captures, id), id, now, expected) <==>
              && DistinctSources(req.sources) && req.limit >= 0.0
              && req.created <= now + CLOCK_TOLERANCE && SchemaAccepted(req.appSchema, expected)
  {
    hide ContentsMatch, MetadataMatches, EntriesOf, Staged, WellShaped, WellFormed, Times, Filename, Earliest,
         TotalSize;
    NamesApart();
    var id := IdOf(req, captures, hex);
    var core := CoreOf(req, captures, id);
    var m := ManifestFor(core);
    var dir := Published(req, captures, id);
    assert HoldsManifest(dir) && ManifestIn(dir) == m;
    EntriesDistinct(req.sources, captures);
    RecordIsAllowed(Sealed(Staged(req.sources, captures, |captures|), m), req.sources, captures, RecordText(m.sha));
    assert core.skew >= 0.0;
  }

  predicate SchemaKept(s: Source, c: Capture) {
    c.Found? && s.kind == Sqlite ==> c.blob.Database? && c.schemaRead == c.blob.schema
  }

  lemma {:induction false} StagedHolds(sources: seq<Source>, captures: seq<Capture>, n: nat, i: nat)
    requires i < n <= |sources| == |captures| && DistinctSources(sources) && forall s | s in sources :: WellFormed(s)
    requires captures[i].Found?
    ensures Filename(sources[i]) in Staged(sources, captures, n)
    ensures Staged(sources, captures, n)[Filename(sources[i])] == captures[i].blob
  {
    hide Filename, WellFormed;
    if i < n - 1 {
      StagedHolds(sources, captures, n - 1, i);
      assert sources[n - 1] in sources && sources[i] in sources;
      FilenamesDiffer(sources[i], sources[n - 1]);
    }
  }

  lemma {:induction false} StagedNames(sources: seq<Source>, captures: seq<Capture>, n: nat, f: string)
    requires n <= |sources| == |captures| && f in Staged(sources, captures, n)
    ensures Expected(EntriesOf(sources, captures), f)
  {
    if captures[n - 1].Found? && f == Filename(sources[n - 1]) {
      assert EntriesOf(sources, captures)[n - 1].filename == f;
    } else {
      StagedNames(sources, captures, n - 1, f);
    }
  }

  // With distinct names, the checks on the stage come down to the schema read after each
  // database copy being the schema of the copy.
  lemma {:induction false} StagedChecksMean(sources: seq<Source>, captures: seq<Capture>, m: Manifest)
    requires |sources| == |captures| && DistinctSources(sources) && (forall s | s in sources :: WellFormed(s))
    requires forall i | 0 <= i < |captures| :: Capturable(sources[i], captures[i])
    ensures ContentsMatch(Sealed(Staged(sources, captures, |captures|), m), EntriesOf(sources, captures)) <==>
              forall i | 0 <= i < |captures| :: SchemaKept(sources[i], captures[i])
  {
    hide Filename, WellFormed, Staged, Expected;
    var entries := EntriesOf(sources, captures);
    var stage := Staged(sources, captures, |captures|);
    var dir := Sealed(stage, m);
    forall f | f in dir
      ensures Expected(entries, f)
    {
      if f in stage {
        StagedNames(sources, captures, |captures|, f);
      } else {
        ManifestFilesExpected(entries, f);
      }
    }
    forall i | 0 <= i < |entries|
      ensures EntryHeld(dir, entries[i]) <==> SchemaKept(sources[i], captures[i])
    {
      if captures[i].Found? {
        StagedHolds(sources, captures, |captures|, i);
        FirstLetter(sources[i], sources[i]);
        assert Capturable(sources[i], captures[i]);
      }
    }
  }

  // Exactly which requests with distinct names are published.
  lemma {:induction false} PublishableExactly(req: Request, captures: seq<Capture>, hex: Hash -> string,
                                              visible: map<string, Dir>)
    requires |req.sources| == |captures| && DistinctSources(req.sources) && forall s | s in req.sources :: WellFormed(s)
    ensures Publishable(req, captures, hex, visible) <==>
              && IsGitSha(req.gitSha) && req.appSchema >= 1 && req.margin >= 0 && req.sources != [] && req.enoughSpace
              && (forall i | 0 <= i < |captures| ::
                    Capturable(req.sources[i], captures[i]) && SchemaKept(req.sources[i], captures[i]))
              && (forall i | 0 <= i < |captures| :: AtAppSchema(req.sources[i], captures[i], req.appSchema))
              && Times(captures) != [] && IdOf(req, captures, hex) !in visible
  {
    hide WellFormed, Capturable, Staged, Times, TotalSize, SchemaKept, IsGitSha, ContentsMatch, Skew, Earliest,
         Filename, AtAppSchema, MetadataMatches, EntriesOf;
    if Times(captures) != [] && (forall i | 0 <= i < |captures| :: Capturable(req.sources[i], captures[i])) {
      var core := CoreOf(req, captures, IdOf(req, captures, hex));
      StagedChecksMean(req.sources, captures, ManifestFor(core));
      MetadataMeans(req, captures, core);
    }
  }

  lemma MetadataMeans(req: Request, captures: seq<Capture>, core: Core)
    requires |req.sources| == |captures| && forall s | s in req.sources :: WellFormed(s)
    requires core.entries == EntriesOf(req.sources, captures) && core.appSchema == req.appSchema
    requires core.gitSha == req.gitSha
    ensures MetadataMatches(core, core.total) <==>
              && req.sources != [] && req.appSchema >= 1 && IsGitSha(req.gitSha)
              && forall i | 0 <= i < |captures| :: AtAppSchema(req.sources[i], captures[i], req.appSchema)
  {
    hide IsGitSha, Filename, WellFormed;
    forall i | 0 <= i < |captures|
      ensures Identified(core.entries[i], req.appSchema) <==> AtAppSchema(req.sources[i], captures[i], req.appSchema)
    {
      NameIsAllowed(req.sources[i]);
      assert core.entries[i] == EntryOf(req.sources[i], captures[i]);
    }
  }

  predicate AtAppSchema(s: Source, c: Capture, appSchema: int) {
    c.Found? && s.classification == TradingState && s.kind == Sqlite ==> c.schemaRead == Some(appSchema)
  }

  lemma NameIsAllowed(s: Source)
    requires WellFormed(s)
    ensures s.logical == NameOf(s.classification)
  {
  }

  // What publication means for source i: absent only if optional; otherwise, if it is a database, both
  // the original and the copy were sound, and with distinct names its blob lies under its own name.
  lemma {:induction false} PublishedSays(req: Request, captures: seq<Capture>, hex: Hash -> string,
                                         visible: map<string, Dir>, i: nat)
    requires |req.sources| == |captures| && i < |captures| && (forall s | s in req.sources :: WellFormed(s))
    requires Publishable(req, captures, hex, visible)
    ensures captures[i].Absent? ==> req.sources[i].optional
    ensures captures[i].Found? && req.sources[i].kind == Sqlite ==>
              captures[i].soundOriginal && captures[i].blob.Database? && captures[i].blob.sound
    ensures captures[i].Found? && DistinctSources(req.sources) ==>
              var f := req.sources[i].logical + if req.sources[i].kind == Sqlite then ".sqlite3" else ".bin";
              var dir := Published(req, captures, IdOf(req, captures, hex));
              f in dir && dir[f] == captures[i].blob
  {
    hide ContentsMatch, MetadataMatches, EntriesOf, Times, WellFormed, TotalSize, Earliest;
    assert Capturable(req.sources[i], captures[i]);
    if captures[i].Found? && DistinctSources(req.sources) {
      StagedHolds(req.sources, captures, |captures|, i);
      FirstLetter(req.sources[i], req.sources[i]);
    }
  }

  // One plain file listed twice passes every check before the rename and is published; what
  // becomes visible never verifies.
  lemma SameFileTwiceIsPublished(req: Request, s: Source, c: Capture, hex: Hash -> string, now: int,
                                 expected: Option<int>)
    requires WellFormed(s) && s.kind == PlainFile && c.Found? && req.sources == [s, s]
    requires hex(Sha(CoreText(CoreOf(req, [c, c], "pending")))) != ""
    requires IsGitSha(req.gitSha) && req.appSchema >= 1 && req.margin >= 0 && req.enoughSpace
    ensures Publishable(req, [c, c], hex, map[])
    ensures !Verifies(Published(req, [c, c], IdOf(req, [c, c], hex)), IdOf(req, [c, c], hex), now, expected)
  {
    hide Skew, TotalSize, NameOf, IsGitSha, Size;
    var captures := [c, c];
    assert captures[..1] == [c];
    assert Times([c]) == [c.started, c.completed];
    var core := CoreOf(req, captures, IdOf(req, captures, hex));
    var entries := core.entries;
    assert entries == [EntryOf(s, c), EntryOf(s, c)];
    FirstLetter(s, s);
    NamesApart();
    var stage := Staged(req.sources, captures, 2);
    assert stage == map[Filename(s) := c.blob] by {
      assert Staged(req.sources, captures, 1) == map[Filename(s) := c.blob];
    }
    forall f | f in Sealed(stage, ManifestFor(core))
      ensures Expected(entries, f)
    {
      assert entries[0].filename == Filename(s);
    }
    assert Publishable(req, captures, hex, map[]);
    PublishedSetVerifies(req, captures, hex, map[], now, expected);
    assert req.sources[0].logical == req.sources[1].logical;
  }

  lemma ManifestFilesExpected(entries: seq<Entry>, f: string)
    requires f == MANIFEST_NAME || f == DIGEST_NAME
    ensures Expected(entries, f)
  {
  }

  // ---- the procedure ----

  method CaptureSources(sources: seq<Source>, captures: seq<Capture>, what: Interruption)
    returns (stage: Dir, entries: seq<Entry>, times: seq<int>, stop: Option<Fault>)
    requires |sources| == |captures|
    ensures stop.None? <==>
              && (forall i | 0 <= i < |captures| :: Capturable(sources[i], captures[i]))
              && !(Fires(what, captures) && what.hook.AfterEntry?)
    ensures stop.None? ==>
              stage == Staged(sources, captures, |captures|) && entries == EntriesOf(sources, captures)
              && times == Times(captures)
    ensures stop == Some(Killed) ==> what.KillAt?
  {
    hide Filename, SoundDatabase, Size, EntryOf;
    stage, entries, times, stop := map[], [], [], None;
    for i := 0 to |sources|
      invariant stage == Staged(sources, captures, i)
      invariant times == Times(captures[..i])
      invariant |entries| == i && forall j | 0 <= j < i :: entries[j] == EntryOf(sources[j], captures[j])
      invariant forall j | 0 <= j < i :: Capturable(sources[j], captures[j])
      invariant forall j | 0 <= j < i && captures[j].Found? :: !Strikes(what, AfterEntry(j))
    {
      var s, c := sources[i], captures[i];
      assert captures[..i + 1][..i] == captures[..i];
      if c.Absent? {
        if !s.optional {
          stop := Some(SourceUnavailable);
          return;
        }
        entries := entries + [EntryOf(s, c)];
        continue;
      }
      if s.kind == Sqlite && (!c.soundOriginal || !SoundDatabase(c.blob)) {
        stop := Some(IntegrityError);
        return;
      }
      stage := stage[Filename(s) := c.blob];
      times := times + [c.started, c.completed];
      entries := entries + [EntryOf(s, c)];
      if Strikes(what, AfterEntry(i)) {
        stop := Some(if what.KillAt? then Killed else Raised);
        return;
      }
    }
    assert captures[..|captures|] == captures;
  }

  class BackupStore {
    var visible: map<string, Dir>
    // Hidden stages a killed run left behind.
    var abandoned: seq<Dir>

    constructor ()
      ensures visible == map[] && abandoned == []
    {
      visible, abandoned := map[], [];
    }

    ghost predicate AllVerify(now: int)
      reads this
    {
      forall name | name in visible :: Verifies(visible[name], name, now, None)
    }

    method Abandon(stage: Dir, stop: Fault)
      modifies this`abandoned
      ensures abandoned == if stop == Killed then old(abandoned) + [stage] else old(abandoned)
    {
      if stop == Killed {
        abandoned := abandoned + [stage];
      }
    }

    // All before the rename; nothing here is visible.
    method Prepare(req: Request, captures: seq<Capture>, hex: Hash -> string, what: Interruption)
      returns (r: Result<Manifest, Fault>, stage: Dir)
      requires |req.sources| == |captures|
      ensures r.Success? <==> Publishable(req, captures, hex, visible) && !FiresBeforePublication(what, captures)
      ensures r.Success? ==>
                Times(captures) != [] && r.value == ManifestFor(CoreOf(req, captures, IdOf(req, captures, hex)))
      ensures r.Success? ==> stage == Published(req, captures, r.value.core.id)
      ensures r == Failure(Killed) ==> what.KillAt?
    {
      hide ContentsMatch, MetadataMatches, Capturable, EntriesOf, Staged, Times, Skew, TotalSize, IsGitSha;
      stage := map[];
      if !IsGitSha(req.gitSha) || req.appSchema < 1 || req.margin < 0 || req.sources == [] {
        return Failure(InvalidRequest), stage;
      }
      if !req.enoughSpace {
        return Failure(InsufficientDisk), stage;
      }
      var files, entries, times, stop := CaptureSources(req.sources, captures, what);
      stage := files;
      if stop.Some? {
        return Failure(stop.value), stage;
      }
      if times == [] {
        return Failure(SourceUnavailable), stage;
      }
      var skew := Skew(times);
      var pending := Core(if skew > req.limit then Degraded else Completed, "pending", req.created,
                          Earliest(times), Latest(times), skew, req.limit,
                          req.gitSha, req.appSchema, req.identity, TotalSize(entries), entries);
      var core := pending.(id := hex(Sha(CoreText(pending))));
      assert core == CoreOf(req, captures, IdOf(req, captures, hex));
      if Strikes(what, BeforeManifest) {
        return Failure(if what.KillAt? then Killed else Raised), stage;
      }
      var m := Manifest(core, Sha(CoreText(core)));
      stage := stage[MANIFEST_NAME := ManifestText(m)][DIGEST_NAME := DigestText(Sha(ManifestText(m)))];
      if Strikes(what, AfterManifest) {
        return Failure(if what.KillAt? then Killed else Raised), stage;
      }
      var staged := VerifyDirectoryContents(stage, entries);
      if staged.Failure? {
        return Failure(staged.error), stage;
      }
      var consistent := ValidateManifestMetadata(core, staged.value);
      if !consistent {
        return Failure(ManifestInvalid), stage;
      }
      stage := stage[RECORD_NAME := RecordText(m.sha)];
      if core.id in visible {
        return Failure(IdExists), stage;
      }
      if Strikes(what, BeforePublish) {
        return Failure(if what.KillAt? then Killed else Raised), stage;
      }
      r := Success(m);
    }

    // Whatever strikes and wherever, the visible sets are the earlier ones, or those and the
    // whole new one.
    method CreateBackupSet(req: Request, captures: seq<Capture>, hex: Hash -> string, what: Interruption)
      returns (r: Result<string, Fault>)
      requires |req.sources| == |captures| && forall s | s in req.sources :: WellFormed(s)
      requires forall h :: hex(h) != ""
      modifies this
      ensures Publishable(req, captures, hex, old(visible)) && !FiresBeforePublication(what, captures) ==>
                visible == old(visible)[IdOf(req, captures, hex) := Published(req, captures, IdOf(req, captures, hex))]
      ensures !(Publishable(req, captures, hex, old(visible)) && !FiresBeforePublication(what, captures)) ==>
                visible == old(visible)
      ensures !what.Never? && what.hook in {BeforeManifest, AfterManifest, BeforePublish} ==> visible == old(visible)
      ensures !what.Never? && what.hook.AfterEntry? && what.hook.i < |captures| && captures[what.hook.i].Found? ==>
                visible == old(visible)
      ensures Publishable(req, captures, hex, old(visible)) && (what.Never? || what.hook == AfterPublish) ==>
                IdOf(req, captures, hex) in visible && (r.Success? ==> what.Never?)
      ensures abandoned != old(abandoned) ==> what.KillAt? && visible == old(visible)
      ensures r.Success? <==>
                && Publishable(req, captures, hex, old(visible)) && !Fires(what, captures)
                && DistinctSources(req.sources) && req.limit >= 0.0
      ensures r.Success? ==> r.value == IdOf(req, captures, hex)
      ensures forall now | now + CLOCK_TOLERANCE >= req.created && DistinctSources(req.sources) && req.limit >= 0.0 ::
                old(AllVerify(now)) ==> AllVerify(now)
    {
      hide Publishable, Verifies, Published, CoreOf;
      var prepared, stage := Prepare(req, captures, hex, what);
      if prepared.Failure? {
        Abandon(stage, prepared.error);
        return Failure(prepared.error);
      }
      var id := prepared.value.core.id;
      IdIsFresh(req, captures, hex, visible);
      ghost var before := visible;
      visible := visible[id := stage];
      forall now: int, expected: Option<int>
        ensures Verifies(stage, id, now, expected) <==>
                  && DistinctSources(req.sources) && req.limit >= 0.0
                  && req.created <= now + CLOCK_TOLERANCE && SchemaAccepted(req.appSchema, expected)
      {
        PublishedSetVerifies(req, captures, hex, before, now, expected);
      }
      if Strikes(what, AfterPublish) {
        return Failure(if what.KillAt? then Killed else Raised);
      }
      var verified := VerifyBackupSet(visible[id], id, req.created, Some(req.appSchema));
      if verified.Failure? {
        return Failure(verified.error);
      }
      r := Success(id);
    }
  }

  lemma IdIsFresh(req: Request, captures: seq<Capture>, hex: Hash -> string, visible: map<string, Dir>)
    requires |req.sources| == |captures| && Publishable(req, captures, hex, visible)
    ensures Times(captures) != [] && IdOf(req, captures, hex) !in visible && req.appSchema >= 1
    ensures CoreOf(req, captures, IdOf(req, captures, hex)).id == IdOf(req, captures, hex)
  {
  }
}
