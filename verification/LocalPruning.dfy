/** Which two local archives stay, the removal of the others, and the swap of the mirror's object store. */
module RetainedArchives {
  import opened Text

  // state-<8 digits>-<4 digits>.tar.gz.enc
  datatype Stamp = Stamp(day: nat, minute: nat)

  predicate ValidStamp(s: Stamp) {
    s.day < 100_000_000 && s.minute < 10_000
  }

  function FileName(s: Stamp): string {
    "state-" + (Digits(s.day, 8) + ("-" + (Digits(s.minute, 4) + ".tar.gz.enc")))
  }

  predicate Before(a: Stamp, b: Stamp) {
    a.day < b.day || (a.day == b.day && a.minute < b.minute)
  }

  lemma Powers()
    ensures Pow10(4) == 10_000 && Pow10(8) == 100_000_000
  {
    assert Pow10(1) == 10 && Pow10(2) == 100 && Pow10(3) == 1000 && Pow10(4) == 10_000;
    assert Pow10(5) == 100_000 && Pow10(6) == 1_000_000 && Pow10(7) == 10_000_000;
  }

  // Sorting the file names sorts the stamps.
  lemma NamesSortLikeStamps(a: Stamp, b: Stamp)
    requires ValidStamp(a) && ValidStamp(b)
    ensures LexLess(FileName(a), FileName(b)) <==> Before(a, b)
    ensures FileName(a) == FileName(b) <==> a == b
  {
    if Before(a, b) {
      NameBefore(a, b);
    } else if Before(b, a) {
      NameBefore(b, a);
      if LexLess(FileName(a), FileName(b)) {
        LexLessTransitive(FileName(a), FileName(b), FileName(a));
      }
    }
    LexLessIrreflexive(FileName(a));
    if a == b {
      assert FileName(a) == FileName(b);
    }
  }

  lemma NameBefore(a: Stamp, b: Stamp)
    requires ValidStamp(a) && ValidStamp(b) && Before(a, b)
    ensures LexLess(FileName(a), FileName(b))
  {
    Powers();
    var x, y := "-" + (Digits(a.minute, 4) + ".tar.gz.enc"), "-" + (Digits(b.minute, 4) + ".tar.gz.enc");
    if a.day < b.day {
      DigitsKeepOrder(a.day, b.day, 8);
      LexLessExtends(Digits(a.day, 8), Digits(b.day, 8), x, y);
    } else {
      DigitsKeepOrder(a.minute, b.minute, 4);
      LexLessExtends(Digits(a.minute, 4), Digits(b.minute, 4), ".tar.gz.enc", ".tar.gz.enc");
      LexLessAfterPrefix("-", Digits(a.minute, 4) + ".tar.gz.enc", Digits(b.minute, 4) + ".tar.gz.enc");
      LexLessAfterPrefix(Digits(a.day, 8), x, y);
    }
    LexLessAfterPrefix("state-", Digits(a.day, 8) + x, Digits(b.day, 8) + y);
  }

  // k is the latest of the set, if any.
  ghost predicate LatestOf(s: set<Stamp>, k: Stamp) {
    k in s && forall x | x in s :: x == k || Before(x, k)
  }

  ghost function EarlierThan(s: set<Stamp>, day: nat): set<Stamp> {
    set x | x in s && x.day < day
  }

  // The latest archive, and the latest of the day before it that has any.
  ghost predicate Retained(s: set<Stamp>, newest: Stamp, previous: Stamp) {
    && LatestOf(s, newest)
    && previous.day < newest.day
    && LatestOf(EarlierThan(s, newest.day), previous)
  }

  ghost predicate TwoDays(s: set<Stamp>) {
    exists x, y :: x in s && y in s && x.day < y.day
  }

  // Day by day: the first is the last minute of the last day, the other the last minute of the last
  // day before it; there are two days unless all archives are of one.
  lemma RetainedSays(s: set<Stamp>, newest: Stamp, previous: Stamp)
    ensures Retained(s, newest, previous) <==>
              && newest in s && previous in s && previous.day < newest.day
              && (forall x | x in s :: x.day <= newest.day && (x.day == newest.day ==> x.minute <= newest.minute))
              && (forall x | x in s && x.day != newest.day ::
                    x.day <= previous.day && (x.day == previous.day ==> x.minute <= previous.minute))
    ensures !TwoDays(s) <==> forall x, y | x in s && y in s :: x.day == y.day
  {
    assert forall x | x in s && x.day < newest.day :: x in EarlierThan(s, newest.day);
  }

  lemma {:induction false} RetainedIsUnique(s: set<Stamp>, n: Stamp, p: Stamp, n': Stamp, p': Stamp)
    requires Retained(s, n, p) && Retained(s, n', p')
    ensures n == n' && p == p'
  {
  }

  method MaxOf(s: set<Stamp>) returns (k: Stamp)
    requires s != {}
    ensures LatestOf(s, k)
  {
    k :| k in s;
    var rest := s - {k};
    while rest != {}
      invariant k in s && rest <= s && forall x | x in s && x !in rest :: x == k || Before(x, k)
      decreases |rest|
    {
      var x :| x in rest;
      if Before(k, x) {
        k := x;
      }
      rest := rest - {x};
    }
  }

  method LatestDay(days: set<nat>) returns (d: nat)
    requires days != {}
    ensures d in days && forall x | x in days :: x <= d
  {
    d :| d in days;
    var rest := days - {d};
    while rest != {}
      invariant d in days && rest <= days && forall x | x in days && x !in rest :: x <= d
      decreases |rest|
    {
      var x :| x in rest;
      if d < x {
        d := x;
      }
      rest := rest - {x};
    }
  }

  // The latest name of each of the two latest days; refused when there are not two days.
  method RetainedNames(s: set<Stamp>) returns (ok: bool, newest: Stamp, previous: Stamp)
    ensures ok <==> TwoDays(s)
    ensures ok ==> Retained(s, newest, previous)
  {
    newest, previous := Stamp(0, 0), Stamp(0, 0);
    var days := set x | x in s :: x.day;
    if days == {} {
      forall x | x in s
        ensures x.day in days
      {
      }
      return false, newest, previous;
    }
    var latest := LatestDay(days);
    var others := days - {latest};
    forall x | x in s
      ensures x.day in days && x.day <= latest
    {
    }
    forall x | x in s && x.day != latest
      ensures x.day in others
    {
    }
    if others == {} {
      return false, newest, previous;
    }
    var second := LatestDay(others);
    var lastDay, dayBefore := set x | x in s && x.day == latest, set x | x in s && x.day == second;
    ghost var x, y :| x in s && x.day == latest && y in s && y.day == second;
    assert x in lastDay && y in dayBefore;
    newest := MaxOf(lastDay);
    previous := MaxOf(dayBefore);
    forall x | x in EarlierThan(s, latest)
      ensures x == previous || Before(x, previous)
    {
      assert x.day in others;
    }
    ok := true;
  }
}

/** Removing the superseded local archives, each behind a receipt. */
module LocalRetention {
  import opened Prelude
  import opened RetainedArchives

  type Blob = seq<int>

  // Injective.
  datatype Digest = Sha256(of: Blob)

  // A verification record: its own bytes and what it says of the archive.
  datatype Record = Record(text: Blob, sha: Digest, passes: bool)

  // A receipt that was opened but not yet written through is torn.
  datatype Receipt = Torn | Whole(sha: Digest, commit: int)

  // The remote branch: its head and what that commit holds.
  datatype Remote = Remote(head: int, archives: map<Stamp, Blob>, sidecars: map<Stamp, Blob>)

  datatype Refusal = MirrorNotReady | TooFewDays | Unverified | NotOffHost | MirrorDiffers | RemoteMoved | Stopped

  type Archives = map<Stamp, Blob>

  // Each removed archive is gone, and its whole receipt names a commit that holds its bytes.
  ghost predicate Accounted(archives: Archives, receipts: map<Stamp, Receipt>, removed: Archives,
                            commits: map<int, Archives>) {
    forall n | n in removed :: n !in archives && n in receipts && Proves(receipts[n], n, removed[n], commits)
  }

  ghost predicate Proves(receipt: Receipt, n: Stamp, archive: Blob, commits: map<int, Archives>) {
    && receipt.Whole? && receipt.sha == Sha256(archive)
    && receipt.commit in commits && n in commits[receipt.commit] && commits[receipt.commit][n] == archive
  }

  // What is left was there before; what is not is among the removed.
  ghost predicate Shrunk(before: Archives, after: Archives, removed: Archives) {
    && (forall n | n in after :: n in before && after[n] == before[n])
    && forall n | n in before && n !in after :: n in removed && removed[n] == before[n]
  }

  // Verified here and stored off-host.
  ghost predicate Trustworthy(n: Stamp, archives: Archives, sidecars: map<Stamp, Record>, remote: Remote) {
    && n in archives && n in sidecars && sidecars[n].passes && sidecars[n].sha == Sha256(archives[n])
    && n in remote.archives && remote.archives[n] == archives[n]
  }

  // An archive that was there before a run is there unchanged, or there is a whole receipt of its bytes
  // that names a commit of the remote which holds them.
  lemma {:induction false} GoneIsStored(before: Archives, after: Archives, removed: Archives,
                                        receipts: map<Stamp, Receipt>, commits: map<int, Archives>, n: Stamp)
    requires Shrunk(before, after, removed) && Accounted(after, receipts, removed, commits) && n in before
    ensures n in after ==> after[n] == before[n]
    ensures n !in after ==>
              && n in receipts && receipts[n].Whole? && receipts[n].sha.of == before[n]
              && receipts[n].commit in commits && n in commits[receipts[n].commit]
              && commits[receipts[n].commit][n] == before[n]
  {
    if n !in after {
      assert n in removed && Proves(receipts[n], n, removed[n], commits);
    }
  }

  // Trustworthy, with the record it had.
  ghost predicate Untouched(n: Stamp, archives: Archives, sidecars: map<Stamp, Record>, before: map<Stamp, Record>,
                            remote: Remote) {
    Trustworthy(n, archives, sidecars, remote) && n in before && sidecars[n] == before[n]
  }

  lemma UntouchedSays(n: Stamp, archives: Archives, sidecars: map<Stamp, Record>, before: map<Stamp, Record>,
                      remote: Remote)
    requires Untouched(n, archives, sidecars, before, remote)
    ensures n in archives && n in before && n in sidecars && sidecars[n] == before[n] && sidecars[n].passes
    ensures sidecars[n].sha.of == archives[n] && n in remote.archives && remote.archives[n] == archives[n]
  {
  }

  lemma OtherUntouched(n: Stamp, k: Stamp, archives: Archives, archives': Archives, sidecars: map<Stamp, Record>,
                       sidecars': map<Stamp, Record>, before: map<Stamp, Record>, remote: Remote)
    requires Untouched(n, archives, sidecars, before, remote) && k != n
    requires archives' == archives || archives' == archives - {k}
    requires sidecars' == sidecars || sidecars' == sidecars - {k}
    ensures Untouched(n, archives', sidecars', before, remote)
  {
  }

  lemma ShrinksFurther(before: Archives, mid: Archives, removed: Archives, after: Archives, removed': Archives,
                       k: Stamp)
    requires Shrunk(before, mid, removed) && k in mid
    requires (after == mid && removed' == removed) || (after == mid - {k} && removed' == removed[k := mid[k]])
    requires forall n | n in removed :: n !in mid
    ensures Shrunk(before, after, removed')
  {
  }

  lemma AccountedAreGone(archives: Archives, receipts: map<Stamp, Receipt>, removed: Archives,
                         commits: map<int, Archives>)
    requires Accounted(archives, receipts, removed, commits)
    ensures forall n | n in removed :: n !in archives
  {
  }

  lemma ReceiptMayChange(archives: Archives, receipts: map<Stamp, Receipt>, removed: Archives,
                         commits: map<int, Archives>, n: Stamp, r: Receipt)
    requires Accounted(archives, receipts, removed, commits) && n in archives
    ensures Accounted(archives, receipts[n := r], removed, commits)
  {
    hide Proves;
  }

  lemma RemovalIsAccounted(archives: Archives, receipts: map<Stamp, Receipt>, removed: Archives,
                           commits: map<int, Archives>, n: Stamp)
    requires Accounted(archives, receipts, removed, commits) && n in archives && n in receipts
    requires Proves(receipts[n], n, archives[n], commits)
    ensures Accounted(archives - {n}, receipts, removed[n := archives[n]], commits)
  {
    hide Proves;
  }

  lemma OneFewer(archives: Archives, kept: set<Stamp>, rest: set<Stamp>, n: Stamp)
    requires archives.Keys == kept + rest && n in rest && n !in kept
    ensures (archives - {n}).Keys == kept + (rest - {n})
  {
  }

  class LocalBackups {
    var archives: Archives
    var sidecars: map<Stamp, Record>
    var mirrorArchives: Archives
    var mirrorSidecars: Archives
    var receipts: map<Stamp, Receipt>
    // Every archive these runs ever removed, with its bytes.
    ghost var removed: Archives

    constructor (archives: Archives, sidecars: map<Stamp, Record>)
      ensures this.archives == archives && this.sidecars == sidecars && removed == map[]
    {
      this.archives, this.sidecars := archives, sidecars;
      mirrorArchives, mirrorSidecars, receipts, removed := map[], map[], map[], map[];
    }

    // The record of an archive, if any, must hold.
    method VerifiedRecord(n: Stamp) returns (r: Result<bool, Refusal>)
      requires n in archives
      ensures n !in sidecars ==> r == Success(false)
      ensures n in sidecars ==>
                r == if sidecars[n].passes && sidecars[n].sha == Sha256(archives[n]) then Success(true)
                     else Failure(Unverified)
    {
      if n !in sidecars {
        return Success(false);
      }
      r := if sidecars[n].passes && sidecars[n].sha == Sha256(archives[n]) then Success(true) else Failure(Unverified);
    }

    // Everything that must hold before a candidate is touched: it is verified, by its record or by
    // opening it, and every copy of it and of its record agrees.
    method MayRemove(n: Stamp, remote: Remote, integrity: Blob -> bool, headStays: bool)
      returns (problem: Option<Refusal>)
      requires n in archives
      ensures problem.None? <==>
                && n in remote.archives && remote.archives[n] == archives[n] && headStays
                && (n in mirrorArchives ==> mirrorArchives[n] == archives[n])
                && if n in sidecars then
                     && sidecars[n].passes && sidecars[n].sha == Sha256(archives[n])
                     && n in remote.sidecars && remote.sidecars[n] == sidecars[n].text
                     && (n in mirrorSidecars ==> mirrorSidecars[n] == sidecars[n].text)
                   else integrity(archives[n])
    {
      var archive := archives[n];
      if n !in remote.archives || Sha256(remote.archives[n]) != Sha256(archive) {
        return Some(NotOffHost);
      }
      var verified := VerifiedRecord(n);
      if verified.Failure? {
        return Some(verified.error);
      }
      if !verified.value && !integrity(archive) {
        return Some(Unverified);
      }
      if n in mirrorArchives && mirrorArchives[n] != archive {
        return Some(MirrorDiffers);
      }
      if n in sidecars {
        if n !in remote.sidecars || remote.sidecars[n] != sidecars[n].text {
          return Some(NotOffHost);
        }
        if n in mirrorSidecars && mirrorSidecars[n] != sidecars[n].text {
          return Some(MirrorDiffers);
        }
      }
      problem := if headStays then None else Some(RemoteMoved);
    }

    // Receipt first, then the mirror's copy, then the archive, then its record; at most `budget`
    // changes reach the disk before the run is cut off.
    method Remove(n: Stamp, head: int, budget: nat, ghost commits: map<int, Archives>) returns (r: Result<nat, Refusal>)
      requires n in archives && Accounted(archives, receipts, removed, commits)
      requires head in commits && n in commits[head] && commits[head][n] == archives[n]
      modifies this
      ensures Accounted(archives, receipts, removed, commits)
      ensures || (archives == old(archives) && removed == old(removed))
              || (archives == old(archives) - {n} && removed == old(removed)[n := old(archives)[n]])
      ensures sidecars == old(sidecars) || sidecars == old(sidecars) - {n}
      ensures r.Success? ==> n !in archives && n !in sidecars
    {
      hide Accounted;
      ReceiptMayChange(archives, receipts, removed, commits, n, Torn);
      ReceiptMayChange(archives, receipts, removed, commits, n, Whole(Sha256(archives[n]), head));
      if budget == 0 {
        return Failure(Stopped);
      }
      receipts := receipts[n := Torn];
      if budget == 1 {
        return Failure(Stopped);
      }
      receipts := receipts[n := Whole(Sha256(archives[n]), head)];
      assert receipts == old(receipts)[n := Whole(Sha256(archives[n]), head)];
      if budget == 2 {
        return Failure(Stopped);
      }
      mirrorArchives := mirrorArchives - {n};
      if budget == 3 {
        return Failure(Stopped);
      }
      RemovalIsAccounted(archives, receipts, removed, commits, n);
      removed := removed[n := archives[n]];
      archives := archives - {n};
      if n in sidecars {
        if budget == 4 {
          return Failure(Stopped);
        }
        mirrorSidecars := mirrorSidecars - {n};
        if budget == 5 {
          return Failure(Stopped);
        }
        sidecars := sidecars - {n};
      }
      r := Success(if budget >= 6 then budget - 6 else 0);
    }

    // Wherever a run stops, the two retained archives and their records are untouched and every
    // removal so far is accounted for; a run that completes leaves exactly the two.
    method Prune(remote: Remote, integrity: Blob -> bool, mirrorReady: bool, headStays: Stamp -> bool, apply: bool,
                 budget: nat, ghost commits: map<int, Archives>)
      returns (r: Result<set<Stamp>, Refusal>, ghost newest: Stamp, ghost previous: Stamp)
      requires Accounted(archives, receipts, removed, commits) && remote.head in commits
      requires commits[remote.head] == remote.archives
      modifies this
      ensures Accounted(archives, receipts, removed, commits) && Shrunk(old(archives), archives, removed)
      ensures archives != old(archives) ==> apply && Retained(old(archives).Keys, newest, previous)
      ensures archives != old(archives) ==>
                && Untouched(newest, archives, sidecars, old(sidecars), remote)
                && Untouched(previous, archives, sidecars, old(sidecars), remote)
      ensures archives != old(archives) ==> forall n | n == newest || n == previous ::
                && n in archives && n in old(sidecars) && n in sidecars && sidecars[n] == old(sidecars)[n]
                && sidecars[n].passes && sidecars[n].sha.of == archives[n]
                && n in remote.archives && remote.archives[n] == archives[n]
      ensures r.Success? ==>
                Retained(old(archives).Keys, newest, previous) && r.value == old(archives).Keys - {newest, previous}
      ensures r.Success? ==> archives.Keys == if apply then {newest, previous} else old(archives).Keys
    {
      hide LatestOf, Retained, TwoDays, Accounted, Untouched, Trustworthy;
      newest, previous := Stamp(0, 0), Stamp(0, 0);
      if !mirrorReady {
        return Failure(MirrorNotReady), newest, previous;
      }
      var ok, first, second := RetainedNames(archives.Keys);
      newest, previous := first, second;
      if !ok {
        return Failure(TooFewDays), newest, previous;
      }
      RetainedMembers(archives.Keys, first, second);
      var problem := CheckRetained(first, remote);
      if problem.None? {
        problem := CheckRetained(second, remote);
      }
      if problem.Some? {
        return Failure(problem.value), newest, previous;
      }
      var candidates := archives.Keys - {first, second};
      if !apply {
        return Success(candidates), newest, previous;
      }
      var stop := RemoveAll(candidates, first, second, remote, integrity, headStays, budget, commits);
      UntouchedSays(first, archives, sidecars, old(sidecars), remote);
      UntouchedSays(second, archives, sidecars, old(sidecars), remote);
      r := if stop.Some? then Failure(stop.value) else Success(candidates);
    }

    // Since a run began with the given archives and records.
    ghost predicate Safe(first: Stamp, second: Stamp, archives0: Archives, sidecars0: map<Stamp, Record>,
                         remote: Remote, commits: map<int, Archives>)
      reads this
    {
      && Accounted(archives, receipts, removed, commits)
      && Shrunk(archives0, archives, removed)
      && Untouched(first, archives, sidecars, sidecars0, remote)
      && Untouched(second, archives, sidecars, sidecars0, remote)
    }

    method RemoveNext(n: Stamp, ghost first: Stamp, ghost second: Stamp, ghost archives0: Archives,
                      ghost sidecars0: map<Stamp, Record>, remote: Remote, integrity: Blob -> bool, headStays: bool,
                      budget: nat, ghost commits: map<int, Archives>)
      returns (r: Result<nat, Refusal>)
      requires n in archives && n != first && n != second
      requires Safe(first, second, archives0, sidecars0, remote, commits)
      requires remote.head in commits && commits[remote.head] == remote.archives
      modifies this
      ensures Safe(first, second, archives0, sidecars0, remote, commits)
      ensures r.Success? ==> archives == old(archives) - {n}
    {
      hide Accounted, Untouched, Trustworthy, Shrunk;
      var problem := MayRemove(n, remote, integrity, headStays);
      if problem.Some? {
        return Failure(problem.value);
      }
      ghost var archives', sidecars', removed' := archives, sidecars, removed;
      AccountedAreGone(archives, receipts, removed, commits);
      r := Remove(n, remote.head, budget, commits);
      OtherUntouched(first, n, archives', archives, sidecars', sidecars, sidecars0, remote);
      OtherUntouched(second, n, archives', archives, sidecars', sidecars, sidecars0, remote);
      ShrinksFurther(archives0, archives', removed', archives, removed, n);
    }

    method RemoveAll(candidates: set<Stamp>, ghost first: Stamp, ghost second: Stamp, remote: Remote,
                     integrity: Blob -> bool, headStays: Stamp -> bool, budget: nat, ghost commits: map<int, Archives>)
      returns (stop: Option<Refusal>)
      requires archives.Keys == {first, second} + candidates && first !in candidates && second !in candidates
      requires Trustworthy(first, archives, sidecars, remote) && Trustworthy(second, archives, sidecars, remote)
      requires Accounted(archives, receipts, removed, commits)
      requires remote.head in commits && commits[remote.head] == remote.archives
      modifies this
      ensures Safe(first, second, old(archives), old(sidecars), remote, commits)
      ensures stop.None? ==> archives.Keys == {first, second}
    {
      assert Safe(first, second, archives, sidecars, remote, commits);
      hide Accounted, Trustworthy, Safe;
      var rest := candidates;
      var left: nat := budget;
      while rest != {}
        invariant rest <= candidates && archives.Keys == {first, second} + rest
        invariant Safe(first, second, old(archives), old(sidecars), remote, commits)
        decreases |rest|
      {
        var n :| n in rest;
        ghost var archives0 := archives;
        var one := RemoveNext(n, first, second, old(archives), old(sidecars), remote, integrity, headStays(n), left,
                              commits);
        if one.Failure? {
          return Some(one.error);
        }
        OneFewer(archives0, {first, second}, rest, n);
        left := one.value;
        rest := rest - {n};
      }
      stop := None;
    }

    // A retained archive must be verified and stored off-host.
    method CheckRetained(n: Stamp, remote: Remote) returns (problem: Option<Refusal>)
      requires n in archives
      ensures problem.None? <==> Trustworthy(n, archives, sidecars, remote)
    {
      var verified := VerifiedRecord(n);
      if verified.Failure? || !verified.value {
        return Some(Unverified);
      }
      if n !in remote.archives || Sha256(remote.archives[n]) != Sha256(archives[n]) {
        return Some(NotOffHost);
      }
      problem := None;
    }
  }

  lemma RetainedMembers(s: set<Stamp>, newest: Stamp, previous: Stamp)
    requires Retained(s, newest, previous)
    ensures newest in s && previous in s && newest != previous
  {
  }
}

/** Replacing the mirror's object store by renames, with rollback. */
module MirrorSwap {
  import opened Prelude

  datatype ObjectStore = Original | Replacement

  datatype Step = RetireOriginal | InstallReplacement | Validate | TakeOut | PutBack

  // An exception, an interruption that `except Exception` does not see, or the end of the process.
  datatype Event = Fine | Raises | Interrupts | Killed

  datatype Exit = Committed | RolledBack | Preserved | Dead

  class Mirror {
    var live: Option<ObjectStore>
    var staged: Option<ObjectStore>
    var retired: Option<ObjectStore>

    constructor ()
      ensures live == Some(Original) && staged == Some(Replacement) && retired == None
    {
      live, staged, retired := Some(Original), Some(Replacement), None;
    }

    ghost predicate HoldsOriginal()
      reads this
    {
      live == Some(Original) || staged == Some(Original) || retired == Some(Original)
    }

    // The `finally` clause: a retired store that was not replaced for good is preserved.
    method Finish(committed: bool) returns (exit: Exit)
      modifies this
      ensures live == old(live)
      ensures old(retired).Some? && !committed ==> exit == Preserved && staged == old(staged) && retired == old(retired)
      ensures !(old(retired).Some? && !committed) ==>
                staged == None && retired == None && exit == if committed then Committed else RolledBack
    {
      if retired.Some? && !committed {
        return Preserved;
      }
      staged, retired := None, None;
      exit := if committed then Committed else RolledBack;
    }

    method UndoSwap(event: Step -> Event) returns (exit: Exit)
      requires retired == Some(Original) && (live.None? || (live == Some(Replacement) && staged.None?))
      modifies this
      ensures HoldsOriginal()
      ensures exit == RolledBack ==> live == Some(Original) && retired == None
      ensures exit == Preserved ==> retired == Some(Original)
      ensures exit != Committed
      ensures exit == RolledBack <==> event(PutBack) == Fine && (old(live).None? || event(TakeOut) == Fine)
    {
      if live.Some? {
        if event(TakeOut) == Killed {
          return Dead;
        }
        if event(TakeOut) != Fine {
          exit := Finish(false);
          return;
        }
        staged, live := live, None;
      }
      if event(PutBack) == Killed {
        return Dead;
      }
      if event(PutBack) != Fine {
        exit := Finish(false);
        return;
      }
      live, retired := retired, None;
      exit := Finish(false);
    }

    // The original is destroyed only once the replacement is in place and has passed validation.
    method Swap(event: Step -> Event, valid: bool) returns (exit: Exit)
      requires live == Some(Original) && staged == Some(Replacement) && retired == None
      modifies this
      ensures exit == Committed <==>
                valid && event(RetireOriginal) == Fine && event(InstallReplacement) == Fine && event(Validate) == Fine
      ensures exit == Committed ==> live == Some(Replacement)
      ensures exit != Committed ==> HoldsOriginal()
      ensures exit == RolledBack ==> live == Some(Original)
      ensures exit == Preserved ==> retired == Some(Original)
    {
      if event(RetireOriginal) == Killed {
        return Dead;
      }
      if event(RetireOriginal) != Fine {
        exit := Finish(false);
        return;
      }
      retired, live := live, None;
      var e := event(InstallReplacement);
      if e == Fine {
        live, staged := staged, None;
        e := event(Validate);
        if e == Fine && !valid {
          e := Raises;
        }
      }
      if e == Killed {
        return Dead;
      }
      if e == Interrupts {
        exit := Finish(false);
        return;
      }
      if e == Raises {
        exit := UndoSwap(event);
        return;
      }
      exit := Finish(true);
    }
  }
}
