/**
 * Backup sets: a directory of captured files with a manifest that pins every one of them.
 * SHA-256 is an injective constructor, a JSON text the value it prints.  Times are microseconds.
 */
module BackupSets {
  import opened Prelude

  datatype Class = TradingState | ShadowState | ResearchGovernance | AuditEvidence | Configuration | DerivedState

  datatype Kind = Sqlite | PlainFile

  // The one logical name each classification allows.
  function NameOf(c: Class): string {
    match c
    case TradingState => "trading_state"
    case ShadowState => "shadow_state"
    case ResearchGovernance => "governance_state"
    case AuditEvidence => "audit_evidence"
    case Configuration => "configuration"
    case DerivedState => "derived_state"
  }

  // ---- files ----

  datatype Hash = Sha(of: Blob)

  datatype Blob =
    | Raw(bytes: seq<int>)
    | Database(pages: seq<int>, schema: Option<int>, sound: bool)
    | CoreText(core: Core)
    | ManifestText(manifest: Manifest)
    | DigestText(digest: Hash)
    | RecordText(manifestSha: Hash)

  datatype Presence = Present | OptionalNotPresent | OtherPresence

  datatype Entry = Entry(logical: string, classification: Option<Class>, kind: Option<Kind>, optional: bool,
                         presence: Presence, filename: string, size: int, sha: Option<Hash>, schema: Option<int>,
                         integrityOk: bool)

  datatype State = Completed | Degraded | OtherState

  datatype Core = Core(state: State, id: string, created: int, captureStarted: int, captureCompleted: int,
                       skew: real, limit: real, gitSha: string, appSchema: int, identity: string, total: int,
                       entries: seq<Entry>)

  datatype Manifest = Manifest(core: Core, sha: Hash)

  type Dir = map<string, Blob>

  const MANIFEST_NAME := "backup-manifest.json"
  const DIGEST_NAME := "backup-manifest.sha256"
  const RECORD_NAME := "verification-record.json"
  const CLOCK_TOLERANCE := 5_000_000

  function Size(b: Blob): nat {
    match b
    case Raw(bytes) => |bytes|
    case Database(pages, _, _) => |pages|
    case _ => 0
  }

  predicate SoundDatabase(b: Blob) {
    b.Database? && b.sound
  }

  predicate IsGitSha(s: string) {
    |s| == 40 && forall i | 0 <= i < 40 :: '0' <= s[i] <= '9' || 'a' <= s[i] <= 'f'
  }

  // ---- what a valid set is ----

  predicate DistinctNames(entries: seq<Entry>) {
    forall i, j | 0 <= i < j < |entries| :: entries[i].logical != entries[j].logical
  }

  predicate WellShaped(e: Entry) {
    if e.presence == OptionalNotPresent then e.optional && e.size == 0 && e.sha == None else e.presence == Present
  }

  predicate HoldsManifest(dir: Dir) {
    MANIFEST_NAME in dir && dir[MANIFEST_NAME].ManifestText?
  }

  function ManifestIn(dir: Dir): Manifest
    requires HoldsManifest(dir)
  {
    dir[MANIFEST_NAME].manifest
  }

  // The manifest is there, matches its digest file and its own hash, and is well formed.
  predicate ManifestReads(dir: Dir) {
    && HoldsManifest(dir)
    && var m := ManifestIn(dir);
    && DIGEST_NAME in dir && dir[DIGEST_NAME] == DigestText(Sha(ManifestText(m)))
    && m.sha == Sha(CoreText(m.core))
    && IsGitSha(m.core.gitSha) && m.core.appSchema >= 1
    && m.core.entries != [] && DistinctNames(m.core.entries)
    && forall i | 0 <= i < |m.core.entries| :: WellShaped(m.core.entries[i])
  }

  // The entry's file is there, with its size, its hash and, for a database, its schema.
  predicate EntryHeld(dir: Dir, e: Entry) {
    e.presence != OptionalNotPresent ==>
      && e.filename in dir && e.sha.Some?
      && e.size == Size(dir[e.filename]) && e.sha.value == Sha(dir[e.filename])
      && (e.kind == Some(Sqlite) ==>
            SoundDatabase(dir[e.filename]) && dir[e.filename].schema == e.schema && e.integrityOk)
  }

  predicate Expected(entries: seq<Entry>, f: string) {
    || f in {MANIFEST_NAME, DIGEST_NAME, RECORD_NAME}
    || exists i :: 0 <= i < |entries| && entries[i].presence != OptionalNotPresent && entries[i].filename == f
  }

  predicate ContentsMatch(dir: Dir, entries: seq<Entry>) {
    && (forall i | 0 <= i < |entries| :: EntryHeld(dir, entries[i]))
    && forall f | f in dir :: Expected(entries, f)
  }

  function TotalSize(entries: seq<Entry>): int {
    if entries == [] then 0
    else
      var last := entries[|entries| - 1];
      TotalSize(entries[..|entries| - 1]) + if last.presence == OptionalNotPresent then 0 else last.size
  }

  predicate Identified(e: Entry, appSchema: int) {
    && e.classification.Some? && e.logical == NameOf(e.classification.value) && e.kind.Some?
    && e.presence != OtherPresence
    && (e.presence == Present && e.classification == Some(TradingState) && e.kind == Some(Sqlite) ==>
          e.schema == Some(appSchema))
  }

  predicate MetadataMatches(core: Core, total: int) {
    && core.entries != [] && core.total == total && core.appSchema >= 1 && IsGitSha(core.gitSha)
    && forall i | 0 <= i < |core.entries| :: Identified(core.entries[i], core.appSchema)
  }

  predicate SkewConsistent(core: Core) {
    core.skew >= 0.0 && core.limit >= 0.0 && core.state == if core.skew > core.limit then Degraded else Completed
  }

  predicate SchemaAccepted(appSchema: int, expected: Option<int>) {
    expected.None? || (expected.value >= 1 && appSchema <= expected.value)
  }

  // The set passes verification at that time under that directory name.
  predicate Verifies(dir: Dir, name: string, now: int, expected: Option<int>) {
    && ManifestReads(dir)
    && var m := ManifestIn(dir);
    && m.core.id != "" && m.core.id == name
    && m.core.created <= now + CLOCK_TOLERANCE
    && SkewConsistent(m.core)
    && ContentsMatch(dir, m.core.entries) && MetadataMatches(m.core, TotalSize(m.core.entries))
    && SchemaAccepted(m.core.appSchema, expected)
  }

  datatype Fault = ManifestInvalid | HashMismatch | ClockSkew | SchemaIncompatible | SourceUnavailable | IntegrityError
                 | InvalidRequest | InsufficientDisk | IdExists | Raised | Killed
                 | NotTrusted | DestinationExists | StageExists | MarkerExists

  method ReadManifest(dir: Dir) returns (r: Result<Manifest, Fault>)
    ensures r.Success? <==> ManifestReads(dir)
    ensures r.Success? ==> r.value == ManifestIn(dir)
  {
    if MANIFEST_NAME !in dir || DIGEST_NAME !in dir || !dir[DIGEST_NAME].DigestText? {
      return Failure(ManifestInvalid);
    }
    if dir[DIGEST_NAME].digest != Sha(dir[MANIFEST_NAME]) {
      return Failure(HashMismatch);
    }
    if !dir[MANIFEST_NAME].ManifestText? {
      return Failure(ManifestInvalid);
    }
    var m := dir[MANIFEST_NAME].manifest;
    if m.sha != Sha(CoreText(m.core)) {
      return Failure(HashMismatch);
    }
    if !IsGitSha(m.core.gitSha) || m.core.appSchema < 1 || m.core.entries == [] {
      return Failure(ManifestInvalid);
    }
    var seen: set<string> := {};
    for i := 0 to |m.core.entries|
      invariant forall name :: name in seen <==> exists j :: 0 <= j < i && m.core.entries[j].logical == name
      invariant DistinctNames(m.core.entries[..i])
      invariant forall j | 0 <= j < i :: WellShaped(m.core.entries[j])
    {
      var e := m.core.entries[i];
      if e.logical in seen {
        return Failure(ManifestInvalid);
      }
      seen := seen + {e.logical};
      if e.presence == OptionalNotPresent {
        if !e.optional || e.size != 0 || e.sha != None {
          return Failure(ManifestInvalid);
        }
      } else if e.presence != Present {
        return Failure(ManifestInvalid);
      }
    }
    assert m.core.entries[..|m.core.entries|] == m.core.entries;
    r := Success(m);
  }

  method VerifyDirectoryContents(dir: Dir, entries: seq<Entry>) returns (r: Result<int, Fault>)
    ensures r.Success? <==> ContentsMatch(dir, entries)
    ensures r.Success? ==> r.value == TotalSize(entries)
    ensures r.Failure? ==> r.error == HashMismatch || r.error == ManifestInvalid
  {
    var allowed := {MANIFEST_NAME, DIGEST_NAME, RECORD_NAME};
    var total := 0;
    for i := 0 to |entries|
      invariant forall j | 0 <= j < i :: EntryHeld(dir, entries[j])
      invariant total == TotalSize(entries[..i])
      invariant forall f :: f in allowed <==> Expected(entries[..i], f)
    {
      var e := entries[i];
      assert entries[..i + 1][..i] == entries[..i];
      ExpectedGrows(entries, i);
      if e.presence != OptionalNotPresent {
        if e.filename !in dir || e.sha.None? || e.size != Size(dir[e.filename]) || e.sha.value != Sha(dir[e.filename]) {
          return Failure(HashMismatch);
        }
        allowed := allowed + {e.filename};
        if e.kind == Some(Sqlite)
           && !(SoundDatabase(dir[e.filename]) && dir[e.filename].schema == e.schema && e.integrityOk) {
          return Failure(ManifestInvalid);
        }
        total := total + Size(dir[e.filename]);
      }
    }
    assert entries[..|entries|] == entries;
    if exists f | f in dir :: f !in allowed {
      return Failure(ManifestInvalid);
    }
    r := Success(total);
  }

  lemma ExpectedGrows(entries: seq<Entry>, i: nat)
    requires i < |entries|
    ensures forall f :: Expected(entries[..i + 1], f) <==>
              Expected(entries[..i], f) || (entries[i].presence != OptionalNotPresent && entries[i].filename == f)
  {
    var longer, shorter := entries[..i + 1], entries[..i];
    forall f
      ensures Expected(longer, f)
         <==> Expected(shorter, f) || (entries[i].presence != OptionalNotPresent && entries[i].filename == f)
    {
      if Expected(shorter, f) && f !in {MANIFEST_NAME, DIGEST_NAME, RECORD_NAME} {
        var j :| 0 <= j < i && shorter[j].presence != OptionalNotPresent && shorter[j].filename == f;
        assert longer[j] == shorter[j];
      }
      if Expected(longer, f) && f !in {MANIFEST_NAME, DIGEST_NAME, RECORD_NAME} {
        var j :| 0 <= j < i + 1 && longer[j].presence != OptionalNotPresent && longer[j].filename == f;
        assert j < i ==> shorter[j] == longer[j];
      }
      assert longer[i] == entries[i];
    }
  }

  datatype Verification = Verification(manifest: Manifest, trusted: bool)

  method VerifyBackupSet(dir: Dir, name: string, now: int, expected: Option<int>)
    returns (r: Result<Verification, Fault>)
    ensures r.Success? <==> Verifies(dir, name, now, expected)
    ensures r.Success? ==> r.value.manifest == ManifestIn(dir)
    ensures r.Success? ==> r.value.trusted == (r.value.manifest.core.state == Completed)
    ensures r.Success? ==> (r.value.trusted <==> r.value.manifest.core.skew <= r.value.manifest.core.limit)
  {
    hide ContentsMatch, MetadataMatches;
    var read := ReadManifest(dir);
    if read.Failure? {
      return Failure(read.error);
    }
    var m := read.value;
    if m.core.id == "" || m.core.id != name || m.core.state == OtherState {
      return Failure(ManifestInvalid);
    }
    if m.core.created > now + CLOCK_TOLERANCE {
      return Failure(ClockSkew);
    }
    if m.core.skew < 0.0 || m.core.limit < 0.0
       || m.core.state != (if m.core.skew > m.core.limit then Degraded else Completed) {
      return Failure(ManifestInvalid);
    }
    var contents := VerifyDirectoryContents(dir, m.core.entries);
    if contents.Failure? {
      return Failure(contents.error);
    }
    var consistent := ValidateManifestMetadata(m.core, contents.value);
    if !consistent {
      return Failure(ManifestInvalid);
    }
    if expected.Some? && (expected.value < 1 || m.core.appSchema > expected.value) {
      return Failure(SchemaIncompatible);
    }
    r := Success(Verification(m, m.core.state == Completed));
  }

  method ValidateManifestMetadata(core: Core, total: int) returns (ok: bool)
    ensures ok <==> MetadataMatches(core, total)
  {
    hide NameOf, IsGitSha;
    if core.entries == [] || core.total != total || core.appSchema < 1 || !IsGitSha(core.gitSha) {
      return false;
    }
    for i := 0 to |core.entries|
      invariant forall j | 0 <= j < i :: Identified(core.entries[j], core.appSchema)
    {
      var e := core.entries[i];
      if e.classification.None? || e.logical != NameOf(e.classification.value)
         || e.kind.None? || e.presence == OtherPresence {
        return false;
      }
      if e.presence == Present && e.classification.value == TradingState && e.kind.value == Sqlite
         && e.schema != Some(core.appSchema) {
        return false;
      }
    }
    ok := true;
  }

  // What verification pins: two sets that both verify with the same manifest, even at different
  // times and under different schema limits, hold the same bytes for every captured entry.
  lemma {:induction false} ManifestPinsContents(dir: Dir, other: Dir, name: string, name': string, now: int, now': int,
                             expected: Option<int>, expected': Option<int>, e: Entry)
    requires Verifies(dir, name, now, expected) && Verifies(other, name', now', expected')
    requires ManifestIn(dir) == ManifestIn(other)
    requires e in ManifestIn(dir).core.entries && e.presence == Present
    ensures e.filename in dir && e.filename in other && dir[e.filename] == other[e.filename]
  {
    var entries := ManifestIn(dir).core.entries;
    var i :| 0 <= i < |entries| && entries[i] == e;
    assert EntryHeld(dir, entries[i]) && EntryHeld(other, entries[i]);
  }

  // A verified set verifies again exactly under its own name, not more than five seconds before it was
  // created, and under a schema limit, if there is one, that is not below its own schema.
  lemma {:induction false} VerifiesAgainExactly(dir: Dir, name: string, now: int, expected: Option<int>, name': string,
                                                now': int, expected': Option<int>)
    requires Verifies(dir, name, now, expected)
    ensures var core := ManifestIn(dir).core;
            Verifies(dir, name', now', expected') <==>
              && name' == name && core.created - 5_000_000 <= now'
              && (expected'.None? || core.appSchema <= expected'.value)
  {
    hide ContentsMatch, MetadataMatches, SkewConsistent;
  }

  // Apart from file f the two directories hold the same.
  ghost predicate DifferAt(dir: Dir, other: Dir, f: string) {
    forall g | g != f :: (g in dir <==> g in other) && (g in dir ==> dir[g] == other[g])
  }

  // No captured entry is called like the verification record.
  predicate RecordIsFree(entries: seq<Entry>) {
    forall e | e in entries && e.presence != OptionalNotPresent :: e.filename != "verification-record.json"
  }

  // One file of a verified set changed, added or taken away: it no longer verifies, unless the file is
  // the verification record, which nothing pins.
  lemma {:induction false} ChangeIsCaughtExactly(dir: Dir, other: Dir, f: string, name: string, now: int,
                                                 expected: Option<int>)
    requires Verifies(dir, name, now, expected) && DifferAt(dir, other, f)
    ensures Verifies(other, name, now, expected) <==>
              other == dir || (f == "verification-record.json" && RecordIsFree(ManifestIn(dir).core.entries))
  {
    hide SkewConsistent, MetadataMatches;
    var entries := ManifestIn(dir).core.entries;
    if f == RECORD_NAME && RecordIsFree(entries) {
      NamesApart();
      RecordChanges(dir, other, entries);
    } else if Verifies(other, name, now, expected) {
      NothingElseChanges(dir, other, f, name, now, expected);
    }
  }

  lemma NamesApart()
    ensures MANIFEST_NAME != DIGEST_NAME && MANIFEST_NAME != RECORD_NAME && DIGEST_NAME != RECORD_NAME
  {
    assert |MANIFEST_NAME| == 20 && |DIGEST_NAME| == 22 && |RECORD_NAME| == 24;
  }

  lemma RecordChanges(dir: Dir, other: Dir, entries: seq<Entry>)
    requires ContentsMatch(dir, entries) && DifferAt(dir, other, RECORD_NAME) && RecordIsFree(entries)
    ensures ContentsMatch(other, entries)
  {
    forall i | 0 <= i < |entries|
      ensures EntryHeld(other, entries[i])
    {
      assert EntryHeld(dir, entries[i]) && entries[i] in entries;
    }
    forall g | g in other
      ensures Expected(entries, g)
    {
    }
  }

  lemma NothingElseChanges(dir: Dir, other: Dir, f: string, name: string, now: int, expected: Option<int>)
    requires Verifies(dir, name, now, expected) && Verifies(other, name, now, expected) && DifferAt(dir, other, f)
    requires f == RECORD_NAME ==> !RecordIsFree(ManifestIn(dir).core.entries)
    ensures other == dir
  {
    hide SkewConsistent, MetadataMatches;
    NamesApart();
    var entries := ManifestIn(dir).core.entries;
    assert ManifestIn(other) == ManifestIn(dir);
    assert dir[MANIFEST_NAME] == other[MANIFEST_NAME] && dir[DIGEST_NAME] == other[DIGEST_NAME];
    if f != MANIFEST_NAME && f != DIGEST_NAME && (f in dir || f in other) {
      var i :| 0 <= i < |entries| && entries[i].presence != OptionalNotPresent && entries[i].filename == f;
      assert EntryHeld(dir, entries[i]) && EntryHeld(other, entries[i]);
      assert Sha(dir[f]) == Sha(other[f]);
    }
  }

  // What a reader may rely on for an entry of a verified set: an absent one was optional and claims
  // nothing; a captured one has its file with that many bytes, a database sound and of the schema it
  // says, the trading database of the schema of the application.
  lemma {:induction false} VerifiedEntrySays(dir: Dir, name: string, now: int, expected: Option<int>, e: Entry)
    requires Verifies(dir, name, now, expected) && e in ManifestIn(dir).core.entries
    ensures e.classification.Some? && e.kind.Some?
    ensures e.presence == OptionalNotPresent ==> e.optional && e.size == 0 && e.sha.None?
    ensures e.presence != OptionalNotPresent ==>
              && e.presence == Present && e.filename in dir && e.sha == Some(Sha(dir[e.filename]))
              && (dir[e.filename].Raw? ==> e.size == |dir[e.filename].bytes|)
              && (e.kind == Some(Sqlite) ==>
                    && dir[e.filename].Database? && dir[e.filename].sound
                    && e.size == |dir[e.filename].pages| && dir[e.filename].schema == e.schema)
              && (e.kind == Some(Sqlite) && e.classification == Some(TradingState) ==>
                    dir[e.filename].schema == Some(ManifestIn(dir).core.appSchema))
  {
    hide SkewConsistent, SchemaAccepted, NameOf;
    var core := ManifestIn(dir).core;
    var i :| 0 <= i < |core.entries| && core.entries[i] == e;
    assert WellShaped(core.entries[i]) && EntryHeld(dir, core.entries[i]);
    assert Identified(core.entries[i], core.appSchema);
  }

  // And for the set: its own name, the hash of what it says, 40 lower-case hexadecimal digits of
  // source, an application schema, and a total that adds up the sizes of the captured entries.
  lemma {:induction false} VerifiedSetSays(dir: Dir, name: string, now: int, expected: Option<int>)
    requires Verifies(dir, name, now, expected)
    ensures var core := ManifestIn(dir).core;
            && core.id == name && name != "" && ManifestIn(dir).sha == Sha(CoreText(core))
            && |core.gitSha| == 40 && (forall c | c in core.gitSha :: c in "0123456789abcdef")
            && core.appSchema >= 1 && core.total == CapturedBytes(core.entries, |core.entries|)
            && core.skew >= 0.0 && (core.state == Completed <==> core.skew <= core.limit)
  {
    hide ContentsMatch, SchemaAccepted, NameOf;
    var core := ManifestIn(dir).core;
    GitShaExactly(core.gitSha);
    TotalIsCaptured(core.entries, |core.entries|);
    assert core.entries[..|core.entries|] == core.entries;
  }

  lemma HexDigit(c: char)
    ensures '0' <= c <= '9' || 'a' <= c <= 'f' <==> c in "0123456789abcdef"
  {
    var digits := "0123456789abcdef";
    if '0' <= c <= '9' || 'a' <= c <= 'f' {
      var i := if c <= '9' then c as int - '0' as int else c as int - 'a' as int + 10;
      assert digits[i] == c;
    }
  }

  lemma {:induction false} GitShaExactly(s: string)
    ensures IsGitSha(s) <==> |s| == 40 && forall c | c in s :: c in "0123456789abcdef"
  {
    if IsGitSha(s) {
      forall c | c in s
        ensures c in "0123456789abcdef"
      {
        HexDigit(c);
      }
    } else if |s| == 40 {
      var i :| 0 <= i < 40 && !('0' <= s[i] <= '9' || 'a' <= s[i] <= 'f');
      HexDigit(s[i]);
      assert s[i] in s;
    }
  }

  // The sizes of those of the first n entries that were captured.
  function CapturedBytes(entries: seq<Entry>, n: nat): int
    requires n <= |entries|
  {
    if n == 0 then 0
    else CapturedBytes(entries, n - 1) + match entries[n - 1].presence
                                         case OptionalNotPresent => 0
                                         case _ => entries[n - 1].size
  }

  lemma {:induction false} TotalIsCaptured(entries: seq<Entry>, n: nat)
    requires n <= |entries|
    ensures TotalSize(entries[..n]) == CapturedBytes(entries, n)
  {
    if n > 0 {
      TotalIsCaptured(entries, n - 1);
      assert entries[..n][..n - 1] == entries[..n - 1];
    }
  }
}
