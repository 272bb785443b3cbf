/**
 * The encrypt-once backup of archive segments and their manifests, in runs that may stop
 * anywhere, and its restore.
 */
module Evidence {
  import opened Prelude

  datatype Hash = Sha(of: File)

  // A segment, or a manifest document that names one and pins it.
  datatype File = Segment(data: seq<int>) | Document(archive: Option<string>, sha: Option<Hash>, notes: seq<int>)

  // Salted encryption: the salt varies, decryption gives the plain file.
  datatype Cipher = Cipher(plain: File, salt: int)

  type Folder = map<string, File>

  type Store = map<string, Cipher>

  const MANIFEST := ".manifest.json"
  const SEGMENT := ".jsonl.gz"

  // The stored name of a file.
  function Enc(name: string): string {
    name + ".enc"
  }

  predicate EndsWith(s: string, suffix: string) {
    |s| >= |suffix| && s[|s| - |suffix|..] == suffix
  }

  // A file name without directory part.
  predicate IsPlainName(s: string) {
    s != "" && '/' !in s
  }

  predicate Names(f: File, a: string) {
    f.Document? && f.archive == Some(a) && IsPlainName(a)
  }

  // The collector's check of one manifest against its archive; `records` is what it says of the
  // records inside.
  predicate ArchiveVerifies(folder: Folder, m: string, records: (File, File) -> bool) {
    && m in folder && folder[m].Document? && folder[m].archive.Some?
    && var a := folder[m].archive.value;
    && IsPlainName(a) && EndsWith(a, SEGMENT) && a in folder
    && folder[m].sha == Some(Sha(folder[a]))
    && records(folder[m], folder[a])
  }

  datatype Failure = InvalidManifest | ArchiveInvalid | SourceMissing | StoredMismatch | Interrupted | NothingStored
                   | UnexpectedFile
                   | DuplicateArchive | Incomplete

  // ---- what a run may do ----

  // The stored file n came from the source: a verified manifest after its archive, or a
  // verified manifest's archive.
  ghost predicate CameFrom(source: Folder, records: (File, File) -> bool, after: Store, n: string, m: string) {
    && EndsWith(m, MANIFEST) && ArchiveVerifies(source, m, records) && n in after
    && var a := source[m].archive.value;
    && Enc(a) in after && Sha(after[Enc(a)].plain) == source[m].sha.value
    && ((n == Enc(m) && after[n].plain == source[m]) || (n == Enc(a) && after[n].plain == source[a]))
  }

  ghost predicate Extends(before: Store, after: Store) {
    forall n | n in before :: n in after && after[n] == before[n]
  }

  // Nothing stored is rewritten, and what is new came from the source.
  ghost predicate Ran(source: Folder, records: (File, File) -> bool, before: Store, after: Store) {
    && Extends(before, after)
    && forall n | n in after && n !in before :: exists m :: CameFrom(source, records, after, n, m)
  }

  ghost predicate Covered(source: Folder, after: Store, m: string)
    requires m in source
  {
    && Enc(m) in after && after[Enc(m)].plain == source[m]
    && source[m].Document? && source[m].archive.Some? && source[m].sha.Some?
    && Enc(source[m].archive.value) in after && Sha(after[Enc(source[m].archive.value)].plain) == source[m].sha.value
  }

  // Every manifest of the source and the archive it pins are stored.
  ghost predicate Complete(source: Folder, after: Store) {
    forall m | m in source && EndsWith(m, MANIFEST) :: Covered(source, after, m)
  }

  lemma CameFromStays(source: Folder, records: (File, File) -> bool, before: Store, after: Store, n: string, m: string)
    requires CameFrom(source, records, before, n, m) && Extends(before, after)
    ensures CameFrom(source, records, after, n, m)
  {
    hide Enc, EndsWith;
  }

  lemma RanGrows(source: Folder, records: (File, File) -> bool, before: Store, mid: Store, n: string, c: Cipher,
                 m: string)
    requires Ran(source, records, before, mid) && n !in mid && CameFrom(source, records, mid[n := c], n, m)
    ensures Ran(source, records, before, mid[n := c])
  {
    hide CameFrom;
    var after := mid[n := c];
    forall k | k in after && k !in before
      ensures exists m' :: CameFrom(source, records, after, k, m')
    {
      if k != n {
        var m' :| CameFrom(source, records, mid, k, m');
        CameFromStays(source, records, mid, after, k, m');
      }
    }
  }

  lemma NewFile(source: Folder, records: (File, File) -> bool, after: Store, n: string, m: string)
    requires EndsWith(m, MANIFEST) && ArchiveVerifies(source, m, records)
    requires n in after && Enc(source[m].archive.value) in after
    requires Sha(after[Enc(source[m].archive.value)].plain) == source[m].sha.value
    requires || (n == Enc(m) && after[n].plain == source[m])
             || (n == Enc(source[m].archive.value) && after[n].plain == source[source[m].archive.value])
    ensures CameFrom(source, records, after, n, m)
  {
  }

  lemma VerifiedFacts(source: Folder, m: string, records: (File, File) -> bool)
    requires ArchiveVerifies(source, m, records) && EndsWith(m, MANIFEST)
    ensures source[m].Document? && source[m].archive.Some? && IsPlainName(source[m].archive.value)
    ensures source[m].archive.value in source
    ensures source[m].sha == Some(Sha(source[source[m].archive.value])) && Enc(source[m].archive.value) != Enc(m)
  {
    NamesApart(source[m].archive.value, m);
  }

  lemma NamesApart(a: string, m: string)
    requires EndsWith(a, SEGMENT) && EndsWith(m, MANIFEST)
    ensures Enc(a) != Enc(m)
  {
    SuffixesApart(a);
    if Enc(a) == Enc(m) {
      EncInjective(a, m);
    }
  }

  function Manifests(source: Folder): set<string> {
    set m | m in source && EndsWith(m, MANIFEST)
  }

  class EvidenceStore {
    var stored: Store

    constructor ()
      ensures stored == map[]
    {
      stored := map[];
    }

    // What is stored must decrypt to the expected hash; otherwise the file is encrypted, checked
    // and renamed into place.  `budget` stores may still succeed before the run is cut off.
    method EncryptVerified(file: File, name: string, expected: Hash, budget: nat, salt: int)
      returns (r: Result<bool, Failure>)
      modifies this
      ensures name in old(stored) ==>
                && stored == old(stored)
                && r == if Sha(old(stored)[name].plain) == expected then Success(false) else Failure(StoredMismatch)
      ensures name !in old(stored) ==>
                if budget > 0 && Sha(file) == expected then
                  stored == old(stored)[name := Cipher(file, salt)] && r == Success(true)
                else stored == old(stored) && r.Failure?
    {
      if name in stored {
        return if Sha(stored[name].plain) == expected then Success(false) else Failure(StoredMismatch);
      }
      if budget == 0 {
        return Failure(Interrupted);
      }
      if Sha(file) != expected {
        return Failure(StoredMismatch);
      }
      stored := stored[name := Cipher(file, salt)];
      r := Success(true);
    }

    // The archive first, then its manifest; the result is the budget left.
    method StorePair(source: Folder, a: string, m: string, records: (File, File) -> bool, budget: nat, salt: int)
      returns (r: Result<nat, Failure>)
      requires m in source && EndsWith(m, MANIFEST) && Names(source[m], a) && source[m].sha.Some? && a in source
      requires (Enc(a) in stored && Enc(m) in stored) || ArchiveVerifies(source, m, records)
      modifies this
      ensures Ran(source, records, old(stored), stored)
      ensures r.Success? ==>
                Covered(source, stored, m) && r.value <= budget && budget - r.value == |stored| - |old(stored)|
      ensures ArchiveVerifies(source, m, records) && Faithful(source, records, old(stored)) && budget >= 2 ==>
                r.Success? && r.value >= budget - 2
    {
      hide Enc, EndsWith, Ran, Faithful, CameFrom, ArchiveVerifies;
      RanIsReflexive(source, records, stored);
      if ArchiveVerifies(source, m, records) {
        VerifiedFacts(source, m, records);
        if Faithful(source, records, stored) {
          StoredAgrees(source, records, stored, m);
        }
      }
      ghost var before := stored;
      var segment := EncryptVerified(source[a], Enc(a), source[m].sha.value, budget, salt);
      if segment.Failure? {
        return Failure(segment.error);
      }
      if segment.value {
        NewFile(source, records, stored, Enc(a), m);
        RanGrows(source, records, before, before, Enc(a), Cipher(source[a], salt), m);
      }
      ghost var middle := stored;
      var left: nat := if segment.value then budget - 1 else budget;
      var manifest := EncryptVerified(source[m], Enc(m), Sha(source[m]), left, salt);
      if manifest.Failure? {
        return Failure(manifest.error);
      }
      if manifest.value {
        NewFile(source, records, stored, Enc(m), m);
        RanGrows(source, records, before, middle, Enc(m), Cipher(source[m], salt), m);
      }
      r := Success(if manifest.value then left - 1 else left);
    }

    // One manifest and its archive.
    method StoreOne(source: Folder, m: string, records: (File, File) -> bool, budget: nat, salt: int)
      returns (r: Result<nat, Failure>)
      requires m in source && EndsWith(m, MANIFEST)
      modifies this
      ensures Ran(source, records, old(stored), stored)
      ensures r.Success? ==>
                Covered(source, stored, m) && r.value <= budget && budget - r.value == |stored| - |old(stored)|
      ensures ArchiveVerifies(source, m, records) && Faithful(source, records, old(stored)) && budget >= 2 ==>
                r.Success? && r.value >= budget - 2
    {
      hide Enc, EndsWith, Ran, Faithful, CameFrom, Covered;
      RanIsReflexive(source, records, stored);
      if !source[m].Document? || source[m].archive.None? || !IsPlainName(source[m].archive.value) {
        return Failure(InvalidManifest);
      }
      var a := source[m].archive.value;
      if !(Enc(a) in stored && Enc(m) in stored) {
        var verified := ArchiveVerifies(source, m, records);
        if !verified {
          return Failure(ArchiveInvalid);
        }
      }
      if source[m].sha.None? {
        return Failure(InvalidManifest);
      }
      if a !in source {
        return Failure(SourceMissing);
      }
      r := StorePair(source, a, m, records, budget, salt);
    }

    // The manifests are taken in name order; any order will do.
    method BackupEvidence(source: Folder, records: (File, File) -> bool, budget: nat, salt: int)
      returns (r: Result<nat, Failure>)
      modifies this
      ensures Ran(source, records, old(stored), stored)
      ensures r.Success? ==> Complete(source, stored) && r.value == |stored| - |old(stored)|
      ensures (AllVerify(source, records) && Faithful(source, records, old(stored))
               && budget >= 2 * |Manifests(source)|) ==> r.Success?
    {
      hide Covered, Ran, ArchiveVerifies, EndsWith, Enc, Faithful;
      var rest := Manifests(source);
      var left: nat := budget;
      RanIsReflexive(source, records, stored);
      while rest != {}
        invariant forall m | m in rest :: m in source && EndsWith(m, MANIFEST)
        invariant Ran(source, records, old(stored), stored)
        invariant forall m | m in source && EndsWith(m, MANIFEST) && m !in rest :: Covered(source, stored, m)
        invariant left <= budget && budget - left == |stored| - |old(stored)|
        invariant Faithful(source, records, old(stored)) ==> Faithful(source, records, stored)
        invariant (AllVerify(source, records) && Faithful(source, records, old(stored))
                   && budget >= 2 * |Manifests(source)|) ==> left >= 2 * |rest|
        decreases |rest|
      {
        var m :| m in rest;
        ghost var mid := stored;
        var one := StoreOne(source, m, records, left, salt);
        RanTransitive(source, records, old(stored), mid, stored);
        if Faithful(source, records, mid) {
          FaithfulGrows(source, source, records, mid, stored);
        }
        if one.Failure? {
          return Failure(one.error);
        }
        left := one.value;
        forall k | k in source && EndsWith(k, MANIFEST) && k !in rest - {m}
          ensures Covered(source, stored, k)
        {
          if k != m {
            CoveredStays(source, records, mid, stored, k);
          }
        }
        rest := rest - {m};
      }
      r := Success(budget - left);
    }
  }

  lemma RanIsReflexive(source: Folder, records: (File, File) -> bool, s: Store)
    ensures Ran(source, records, s, s)
  {
  }

  lemma RanTransitive(source: Folder, records: (File, File) -> bool, a: Store, b: Store, c: Store)
    requires Ran(source, records, a, b) && Ran(source, records, b, c)
    ensures Ran(source, records, a, c)
  {
    hide CameFrom;
    forall n | n in c && n !in a
      ensures exists m :: CameFrom(source, records, c, n, m)
    {
      if n in b {
        var m :| CameFrom(source, records, b, n, m);
        CameFromStays(source, records, b, c, n, m);
      }
    }
  }

  lemma CoveredStays(source: Folder, records: (File, File) -> bool, before: Store, after: Store, m: string)
    requires m in source && Covered(source, before, m) && Ran(source, records, before, after)
    ensures Covered(source, after, m)
  {
  }

  // ---- any sequence of runs ----

  ghost predicate Within(part: Folder, whole: Folder) {
    forall f | f in part :: f in whole && whole[f] == part[f]
  }

  // Everything stored came from the source, every manifest after its archive.
  ghost predicate Faithful(source: Folder, records: (File, File) -> bool, s: Store) {
    forall n | n in s :: exists m :: CameFrom(source, records, s, n, m)
  }

  ghost predicate History(states: seq<Store>, sources: seq<Folder>, whole: Folder, records: (File, File) -> bool) {
    && |states| == |sources| + 1 && states[0] == map[]
    && (forall i | 0 <= i < |sources| :: Within(sources[i], whole))
    && forall i | 0 <= i < |sources| :: Ran(sources[i], records, states[i], states[i + 1])
  }

  lemma CameFromWhole(part: Folder, whole: Folder, records: (File, File) -> bool, s: Store, n: string, m: string)
    requires Within(part, whole) && CameFrom(part, records, s, n, m)
    ensures CameFrom(whole, records, s, n, m)
  {
    hide Enc, EndsWith;
  }

  lemma FaithfulGrows(part: Folder, whole: Folder, records: (File, File) -> bool, before: Store, after: Store)
    requires Within(part, whole) && Ran(part, records, before, after) && Faithful(whole, records, before)
    ensures Faithful(whole, records, after)
  {
    hide CameFrom, Within;
    forall n | n in after
      ensures exists m :: CameFrom(whole, records, after, n, m)
    {
      if n in before {
        var m :| CameFrom(whole, records, before, n, m);
        CameFromStays(whole, records, before, after, n, m);
      } else {
        var m :| CameFrom(part, records, after, n, m);
        CameFromWhole(part, whole, records, after, n, m);
      }
    }
  }

  // Along any sequence of runs over a growing source, each stopped anywhere.
  lemma {:induction false} EveryStateIsFaithful(states: seq<Store>, sources: seq<Folder>, whole: Folder,
                                                records: (File, File) -> bool, k: nat)
    requires History(states, sources, whole, records) && k < |states|
    ensures Faithful(whole, records, states[k])
  {
    hide Ran, Within;
    if k > 0 {
      EveryStateIsFaithful(states, sources, whole, records, k - 1);
      hide Faithful;
      FaithfulGrows(sources[k - 1], whole, records, states[k - 1], states[k]);
    }
  }

  lemma {:induction false} NothingIsRewritten(states: seq<Store>, sources: seq<Folder>, whole: Folder,
                                              records: (File, File) -> bool,
                                              i: nat, j: nat, n: string)
    requires History(states, sources, whole, records) && i <= j < |states| && n in states[i]
    ensures n in states[j] && states[j][n] == states[i][n]
    decreases j
  {
    hide CameFrom, Within;
    if i < j {
      NothingIsRewritten(states, sources, whole, records, i, j - 1, n);
      assert Ran(sources[j - 1], records, states[j - 1], states[j]);
    }
  }

  // A stored manifest has its archive stored, with the pinned contents.
  lemma StoredManifestHasArchive(states: seq<Store>, sources: seq<Folder>, whole: Folder, records: (File, File) -> bool,
                                 k: nat, n: string)
    requires History(states, sources, whole, records) && k < |states| && n in states[k] && EndsWith(n, Enc(MANIFEST))
    ensures var f := states[k][n].plain;
            && f.Document? && f.archive.Some? && Enc(f.archive.value) in states[k]
            && f.sha == Some(Sha(states[k][Enc(f.archive.value)].plain))
  {
    hide History, Enc;
    EveryStateIsFaithful(states, sources, whole, records, k);
    ManifestHasArchive(whole, records, states[k], n);
  }

  lemma ManifestHasArchive(source: Folder, records: (File, File) -> bool, s: Store, n: string)
    requires Faithful(source, records, s) && n in s && EndsWith(n, Enc(MANIFEST))
    ensures var f := s[n].plain;
            && f.Document? && f.archive.Some? && Enc(f.archive.value) in s
            && f.sha == Some(Sha(s[Enc(f.archive.value)].plain))
  {
    hide Enc, EndsWith, Faithful, CameFrom;
    var m := Origin(source, records, s, n);
    CameFromMeans(source, records, s, n, m);
    SuffixesApart(source[m].archive.value);
  }

  lemma CameFromMeans(source: Folder, records: (File, File) -> bool, s: Store, n: string, m: string)
    requires CameFrom(source, records, s, n, m)
    ensures m in source && source[m].Document? && source[m].archive.Some? && EndsWith(source[m].archive.value, SEGMENT)
    ensures Enc(source[m].archive.value) in s && source[m].sha == Some(Sha(s[Enc(source[m].archive.value)].plain))
    ensures (n == Enc(m) && s[n].plain == source[m]) || n == Enc(source[m].archive.value)
  {
    hide Enc, EndsWith;
  }

  // Some source manifest a stored file came from.
  lemma Origin(source: Folder, records: (File, File) -> bool, s: Store, n: string) returns (m: string)
    requires Faithful(source, records, s) && n in s
    ensures CameFrom(source, records, s, n, m)
  {
    hide CameFrom;
    m :| CameFrom(source, records, s, n, m);
  }

  lemma LastOf(s: string, suffix: string)
    requires suffix != "" && EndsWith(s, suffix)
    ensures s != "" && s[|s| - 1] == suffix[|suffix| - 1]
  {
    assert s[|s| - |suffix|..][|suffix| - 1] == s[|s| - 1];
  }

  lemma EncEnds(s: string, suffix: string)
    ensures EndsWith(Enc(s), Enc(suffix)) <==> EndsWith(s, suffix)
  {
    if |s| >= |suffix| {
      var k := |s| - |suffix|;
      assert Enc(s)[k..] == s[k..] + ".enc";
      if Enc(s)[k..] == Enc(suffix) {
        assert s[k..] == Enc(s)[k..][..|suffix|] && suffix == Enc(suffix)[..|suffix|];
      }
    }
  }

  lemma SuffixesApart(a: string)
    ensures EndsWith(a, SEGMENT) ==> !EndsWith(Enc(a), Enc(MANIFEST)) && !EndsWith(a, MANIFEST)
    ensures EndsWith(a, MANIFEST) <==> EndsWith(Enc(a), Enc(MANIFEST))
  {
    EncEnds(a, MANIFEST);
    if EndsWith(a, SEGMENT) {
      LastOf(a, SEGMENT);
    }
    if EndsWith(a, MANIFEST) {
      LastOf(a, MANIFEST);
    }
  }

  ghost function Decrypted(s: Store): map<string, File> {
    map n | n in s :: s[n].plain
  }

  // However the runs were interrupted, once one completes, the decrypted contents are those of
  // any other completed history of the same source, in particular of one clean run.
  lemma {:induction false} CompletedRunsAgree(source: Folder, records: (File, File) -> bool, s: Store, t: Store)
    requires Faithful(source, records, s) && Complete(source, s)
    requires Faithful(source, records, t) && Complete(source, t)
    ensures Decrypted(s) == Decrypted(t)
  {
    hide Faithful, Complete;
    forall n
      ensures n in s ==> n in t && t[n].plain == s[n].plain
      ensures n in t ==> n in s
    {
      if n in s {
        AlsoStored(source, records, s, t, n);
      }
      if n in t {
        AlsoStored(source, records, t, s, n);
      }
    }
  }

  lemma AlsoStored(source: Folder, records: (File, File) -> bool, s: Store, t: Store, n: string)
    requires Faithful(source, records, s) && Complete(source, t) && n in s
    ensures n in t && t[n].plain == s[n].plain
  {
    var m := Origin(source, records, s, n);
    assert Covered(source, t, m);
    hide Faithful, Complete;
    CoveredAgrees(source, records, s, t, n, m);
  }

  lemma CoveredAgrees(source: Folder, records: (File, File) -> bool, s: Store, t: Store, n: string, m: string)
    requires CameFrom(source, records, s, n, m) && Covered(source, t, m)
    ensures n in t && t[n].plain == s[n].plain
  {
    hide Enc, EndsWith;
  }

  // ---- restore ----

  predicate IsEncrypted(n: string) {
    EndsWith(n, ".enc")
  }

  function Stripped(n: string): string
    requires IsEncrypted(n)
  {
    n[..|n| - 4]
  }

  lemma StrippedEnc(n: string, t: string)
    ensures IsEncrypted(Enc(t)) && Stripped(Enc(t)) == t
    ensures IsEncrypted(n) ==> Enc(Stripped(n)) == n
  {
    assert Enc(t)[|t|..] == ".enc" && Enc(t)[..|t|] == t;
  }

  // What decrypting every stored file gives.
  ghost predicate Opens(s: Store, files: Folder) {
    && (forall t :: t in files <==> Enc(t) in s)
    && forall t | t in files :: files[t] == s[Enc(t)].plain
  }

  // The checks on the decrypted folder.
  ghost predicate Accepted(files: Folder, records: (File, File) -> bool) {
    && (exists m :: m in files && EndsWith(m, MANIFEST))
    && (forall f | f in files :: EndsWith(f, MANIFEST) || EndsWith(f, SEGMENT))
    && AllVerify(files, records) && DistinctArchives(files) && AllListed(files)
  }

  ghost predicate Lists(files: Folder, m: string, a: string) {
    m in files && EndsWith(m, MANIFEST) && files[m].Document? && files[m].archive == Some(a)
  }

  ghost predicate DistinctArchives(files: Folder) {
    forall m, m', a | Lists(files, m, a) && Lists(files, m', a) :: m == m'
  }

  method DecryptAll(s: Store) returns (files: Folder)
    requires forall n | n in s :: IsEncrypted(n)
    ensures Opens(s, files)
  {
    hide EndsWith, Enc;
    var rest := s.Keys;
    files := map[];
    while rest != {}
      invariant rest <= s.Keys
      invariant forall t :: t in files <==> Enc(t) in s && Enc(t) !in rest
      invariant forall t | t in files :: files[t] == s[Enc(t)].plain
      decreases |rest|
    {
      var n :| n in rest;
      StrippedEnc(n, Stripped(n));
      forall t | Enc(t) == n
        ensures t == Stripped(n)
      {
        StrippedEnc(n, t);
      }
      files := files[Stripped(n) := s[n].plain];
      rest := rest - {n};
    }
  }

  ghost predicate AllVerify(files: Folder, records: (File, File) -> bool) {
    forall m | m in files && EndsWith(m, MANIFEST) :: ArchiveVerifies(files, m, records)
  }

  ghost predicate AllListed(files: Folder) {
    forall f | f in files && EndsWith(f, SEGMENT) :: exists m :: Lists(files, m, f)
  }

  // What a folder that passes every check holds: manifests, each with its verified archive beside it,
  // and archives, each named by exactly one of them.
  lemma {:induction false} AcceptedFileSays(files: Folder, records: (File, File) -> bool, f: string)
    requires Accepted(files, records) && f in files
    ensures EndsWith(f, ".manifest.json") ==>
              && files[f].Document? && files[f].archive.Some?
              && var a := files[f].archive.value;
              && a != "" && '/' !in a && EndsWith(a, ".jsonl.gz") && a in files
              && files[f].sha == Some(Sha(files[a])) && records(files[f], files[a])
    ensures !EndsWith(f, ".manifest.json") ==>
              && EndsWith(f, ".jsonl.gz")
              && exists m :: m in files && EndsWith(m, ".manifest.json") && files[m].Document?
                             && files[m].archive == Some(f) && forall m' | Lists(files, m', f) :: m' == m
  {
    hide EndsWith;
    if !EndsWith(f, MANIFEST) {
      var m :| Lists(files, m, f);
    }
  }

  // The archives the manifests name, refusing a bad or repeated name.
  method ExpectedArchives(files: Folder, manifests: set<string>, ghost records: (File, File) -> bool)
    returns (r: Result<set<string>, Failure>)
    requires manifests == set f | f in files && EndsWith(f, MANIFEST)
    ensures r.Failure? ==> !AllVerify(files, records) || !DistinctArchives(files)
    ensures r.Success? ==> DistinctArchives(files) && forall a :: a in r.value <==> exists m :: Lists(files, m, a)
  {
    hide EndsWith;
    var expected: set<string> := {};
    var rest := manifests;
    while rest != {}
      invariant rest <= manifests
      invariant forall a :: a in expected <==> exists m :: m !in rest && Lists(files, m, a)
      invariant forall m, m', a | m !in rest && m' !in rest && Lists(files, m, a) && Lists(files, m', a) :: m == m'
      decreases |rest|
    {
      var m :| m in rest;
      assert m in files && EndsWith(m, MANIFEST);
      if !files[m].Document? || files[m].archive.None? || !IsPlainName(files[m].archive.value) {
        assert !ArchiveVerifies(files, m, records);
        return Failure(InvalidManifest);
      }
      var a := files[m].archive.value;
      assert Lists(files, m, a);
      if a in expected {
        ghost var m' :| m' !in rest && Lists(files, m', a);
        return Failure(DuplicateArchive);
      }
      expected := expected + {a};
      rest := rest - {m};
    }
    r := Success(expected);
  }

  method VerifyManifests(files: Folder, manifests: set<string>, records: (File, File) -> bool) returns (ok: bool)
    requires manifests == set f | f in files && EndsWith(f, MANIFEST)
    ensures ok <==> AllVerify(files, records)
  {
    hide EndsWith, ArchiveVerifies;
    var left := manifests;
    while left != {}
      invariant left <= manifests
      invariant forall m | m in manifests && m !in left :: ArchiveVerifies(files, m, records)
      decreases |left|
    {
      var m :| m in left;
      var verified := ArchiveVerifies(files, m, records);
      if !verified {
        return false;
      }
      left := left - {m};
    }
    ok := true;
  }

  method RestoreEvidence(s: Store, records: (File, File) -> bool) returns (r: Result<Folder, Failure>)
    requires forall n | n in s :: IsEncrypted(n)
    ensures forall files | Opens(s, files) :: r.Success? <==> Accepted(files, records)
    ensures r.Success? ==> Opens(s, r.value)
  {
    var files := DecryptAll(s);
    r := CheckRestored(files, records);
    forall other | Opens(s, other)
      ensures other == files
    {
    }
  }

  method CheckRestored(files: Folder, records: (File, File) -> bool) returns (r: Result<Folder, Failure>)
    ensures r.Success? <==> Accepted(files, records)
    ensures r.Success? ==> r.value == files
  {
    hide EndsWith, ArchiveVerifies, Lists, DistinctArchives, AllVerify;
    if exists f | f in files :: !EndsWith(f, MANIFEST) && !EndsWith(f, SEGMENT) {
      return Failure(UnexpectedFile);
    }
    var manifests := set f | f in files && EndsWith(f, MANIFEST);
    assert manifests == {} <==> !exists m :: m in files && EndsWith(m, MANIFEST) by {
      if m :| m in files && EndsWith(m, MANIFEST) {
        assert m in manifests;
      }
    }
    if manifests == {} {
      return Failure(NothingStored);
    }
    var expected := ExpectedArchives(files, manifests, records);
    if expected.Failure? {
      return Failure(expected.error);
    }
    var archives := set f | f in files && EndsWith(f, SEGMENT);
    if archives != expected.value {
      UnequalSets(files, archives, expected.value, records);
      return Failure(Incomplete);
    }
    forall f | f in files && EndsWith(f, SEGMENT)
      ensures exists m :: Lists(files, m, f)
    {
      assert f in archives;
    }
    assert AllListed(files);
    var verified := VerifyManifests(files, manifests, records);
    if !verified {
      return Failure(ArchiveInvalid);
    }
    r := Success(files);
  }

  lemma UnequalSets(files: Folder, archives: set<string>, expected: set<string>, records: (File, File) -> bool)
    requires archives == set f | f in files && EndsWith(f, SEGMENT)
    requires forall a :: a in expected <==> exists m :: Lists(files, m, a)
    requires archives != expected
    ensures !AllVerify(files, records) || !AllListed(files)
  {
    hide EndsWith;
    if AllVerify(files, records) && AllListed(files) {
      forall a
        ensures a in archives <==> a in expected
      {
        if a in expected {
          var m :| Lists(files, m, a);
          assert ArchiveVerifies(files, m, records);
        }
      }
    }
  }

  // Files reached by runs can be restored exactly when there is a manifest, no two manifests name
  // the same archive, and no archive was left without its manifest.
  lemma {:induction false} RestorableExactly(source: Folder, records: (File, File) -> bool, s: Store, files: Folder)
    requires Faithful(source, records, s) && Opens(s, files)
    ensures Accepted(files, records) <==>
              (exists m :: m in files && EndsWith(m, MANIFEST)) && DistinctArchives(files) && AllListed(files)
  {
    hide EndsWith, Enc, DistinctArchives, AllListed, Faithful;
    forall f | f in files
      ensures EndsWith(f, MANIFEST) || EndsWith(f, SEGMENT)
      ensures EndsWith(f, MANIFEST) ==> ArchiveVerifies(files, f, records)
    {
      RestoredFile(source, records, s, files, f);
    }
  }

  lemma EncInjective(a: string, b: string)
    requires Enc(a) == Enc(b)
    ensures a == b
  {
    StrippedEnc(Enc(a), a);
    StrippedEnc(Enc(b), b);
  }

  // Which file of the source a stored name stands for.
  lemma StoredAs(source: Folder, records: (File, File) -> bool, s: Store, f: string, m: string)
    requires CameFrom(source, records, s, Enc(f), m)
    ensures ArchiveVerifies(source, m, records) && EndsWith(m, MANIFEST)
    ensures f == m || f == source[m].archive.value
    ensures f in source && s[Enc(f)].plain == source[f]
    ensures Enc(source[m].archive.value) in s
    ensures s[Enc(source[m].archive.value)].plain == source[source[m].archive.value]
  {
    hide Enc, EndsWith;
    if Enc(f) == Enc(m) {
      EncInjective(f, m);
    }
    if Enc(f) == Enc(source[m].archive.value) {
      EncInjective(f, source[m].archive.value);
    }
  }

  // What is already stored under the names of a verified manifest and its archive is what
  // another run would store.
  lemma StoredAgrees(source: Folder, records: (File, File) -> bool, s: Store, m: string)
    requires Faithful(source, records, s) && EndsWith(m, MANIFEST) && ArchiveVerifies(source, m, records)
    ensures Enc(m) in s ==> s[Enc(m)].plain == source[m]
    ensures Enc(source[m].archive.value) in s ==>
              s[Enc(source[m].archive.value)].plain == source[source[m].archive.value]
  {
    hide Enc, Faithful, CameFrom, EndsWith;
    var a := source[m].archive.value;
    if Enc(m) in s {
      var k := Origin(source, records, s, Enc(m));
      StoredAs(source, records, s, m, k);
    }
    if Enc(a) in s {
      var k := Origin(source, records, s, Enc(a));
      StoredAs(source, records, s, a, k);
    }
  }

  lemma RestoredFile(source: Folder, records: (File, File) -> bool, s: Store, files: Folder, f: string)
    requires Faithful(source, records, s) && Opens(s, files) && f in files
    ensures f in source && files[f] == source[f]
    ensures EndsWith(f, MANIFEST) || EndsWith(f, SEGMENT)
    ensures EndsWith(f, MANIFEST) ==> ArchiveVerifies(files, f, records)
  {
    hide Enc, Faithful, CameFrom, EndsWith;
    var m := Origin(source, records, s, Enc(f));
    StoredAs(source, records, s, f, m);
    var a := source[m].archive.value;
    SuffixesApart(a);
    assert a in files && files[a] == source[a];
  }

  // After a completed history, restore returns the source's manifests and the archives they
  // name, unchanged, exactly when there is one and no two name the same archive.
  lemma {:induction false} RestoreReturnsSource(source: Folder, records: (File, File) -> bool, s: Store, files: Folder)
    requires Faithful(source, records, s) && Complete(source, s) && Opens(s, files)
    ensures Within(files, source)
    ensures forall m | m in source && EndsWith(m, MANIFEST) ::
              m in files && source[m].archive.Some? && source[m].archive.value in files
    ensures Accepted(files, records) <==> (exists m :: m in source && EndsWith(m, MANIFEST)) && DistinctArchives(source)
  {
    hide EndsWith, Enc, Faithful, ArchiveVerifies;
    forall f | f in files
      ensures f in source && files[f] == source[f]
    {
      RestoredFile(source, records, s, files, f);
    }
    forall m | m in source && EndsWith(m, MANIFEST)
      ensures m in files && source[m].Document? && source[m].archive.Some? && source[m].archive.value in files
    {
      assert Covered(source, s, m);
    }
    forall f | f in files && EndsWith(f, SEGMENT)
      ensures exists m :: Lists(source, m, f)
    {
      var m := SegmentIsListed(source, records, s, files, f);
    }
    hide Complete, Opens;
    forall m, a
      ensures Lists(files, m, a) <==> Lists(source, m, a)
    {
    }
    RestorableExactly(source, records, s, files);
  }

  lemma SegmentIsListed(source: Folder, records: (File, File) -> bool, s: Store, files: Folder, f: string)
    returns (m: string)
    requires Faithful(source, records, s) && Opens(s, files) && f in files && EndsWith(f, SEGMENT)
    ensures Lists(source, m, f)
  {
    hide Enc, Faithful, CameFrom, EndsWith;
    m := Origin(source, records, s, Enc(f));
    StoredAs(source, records, s, f, m);
    SuffixesApart(f);
  }

  // ---- one archive, two manifests ----

  lemma EndsWithSuffix(s: string, suffix: string)
    ensures EndsWith(s + suffix, suffix)
  {
    assert (s + suffix)[|s|..] == suffix;
  }

  function AnyRecords(manifest: File, archive: File): bool {
    true
  }

  // Two manifests that pin the same archive all verify, so a run with room to finish completes; what
  // it stored is refused by every restore.
  lemma SharedArchiveIsRefused() returns (source: Folder)
    ensures AllVerify(source, AnyRecords) && |Manifests(source)| == 2
    ensures forall s, files | Faithful(source, AnyRecords, s) && Complete(source, s) && Opens(s, files) ::
              !Accepted(files, AnyRecords)
  {
    var m, m', a := "x" + MANIFEST, "y" + MANIFEST, "x" + SEGMENT;
    var segment := Segment([]);
    var manifest := Document(Some(a), Some(Sha(segment)), []);
    source := map[m := manifest, m' := manifest, a := segment];
    EndsWithSuffix("x", MANIFEST);
    EndsWithSuffix("y", MANIFEST);
    EndsWithSuffix("x", SEGMENT);
    SuffixesApart(a);
    assert m[0] == 'x' && m'[0] == 'y';
    assert IsPlainName(a);
    hide EndsWith, IsPlainName;
    assert Manifests(source) == {m, m'};
    assert ArchiveVerifies(source, m, AnyRecords) && ArchiveVerifies(source, m', AnyRecords);
    assert Lists(source, m, a) && Lists(source, m', a);
    assert !DistinctArchives(source);
    hide Faithful, Complete, Opens, Accepted, DistinctArchives;
    forall s, files | Faithful(source, AnyRecords, s) && Complete(source, s) && Opens(s, files)
      ensures !Accepted(files, AnyRecords)
    {
      RestoreReturnsSource(source, AnyRecords, s, files);
    }
  }
}
