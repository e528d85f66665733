/**
 * `backup_in_case_of_error`: an atomic replace of the objects under
 * `<folder>/`, built from the store's non-atomic calls. Before the caller's
 * writes run, every object under `<folder>/` is copied to `<folder>.bak/` and
 * the folder is cleared; if the writes (or the clear) fail, the partial writes
 * are deleted and the backup is copied back; whenever a backup was made it is
 * deleted on the way out.
 */
module FolderTransaction {
  import opened Strings
  import opened ObjectStore

  /** The prefix listed, backed up and cleared: the folder name and a slash. */
  function LivePrefix(folder: Key): Key { folder + "/" }

  /** The backup prefix: the folder name, `.bak` and a slash. */
  function BackupPrefix(folder: Key): Key { folder + ".bak/" }

  /** Two keys prefixed by both `a` and `b` force one prefix to extend the other. */
  lemma PrefixesComparable(k: Key, a: Key, b: Key)
    requires HasPrefix(k, a) && HasPrefix(k, b)
    ensures HasPrefix(a, b) || HasPrefix(b, a)
  {
    if |a| <= |b| {
      assert b[..|a|] == k[..|a|];
    } else {
      assert a[..|b|] == k[..|b|];
    }
  }

  /** Neither prefix extends the other, so no key is under both. */
  predicate Apart(a: Key, b: Key) {
    !HasPrefix(a, b) && !HasPrefix(b, a)
  }

  /**
   * The backup prefix is not under the live prefix (and the other way round):
   * position |folder| holds '.' in one and '/' in the other.
   */
  lemma LiveAndBackupApart(folder: Key)
    ensures Apart(LivePrefix(folder), BackupPrefix(folder))
  {
    var live, bak := LivePrefix(folder), BackupPrefix(folder);
    assert live[|folder|] == '/' && bak[|folder|] == '.';
  }

  /** No key is under both the live and the backup prefix. */
  lemma BackupKeyNotLive(folder: Key, k: Key)
    requires HasPrefix(k, BackupPrefix(folder))
    ensures !HasPrefix(k, LivePrefix(folder))
  {
    LiveAndBackupApart(folder);
    if HasPrefix(k, LivePrefix(folder)) {
      PrefixesComparable(k, LivePrefix(folder), BackupPrefix(folder));
    }
  }

  // ---------------------------------------------------------------------------
  // Map facts used by the proofs

  /** The objects of `m` whose keys are listed in `ks`. */
  function Pick(m: Objects, ks: seq<Key>): Objects {
    map k | k in m && k in ks :: m[k]
  }

  /**
   * `s` is `s0` with some of the `copies` written over it: every key holds its
   * old object or its copy, and nothing was removed.
   */
  ghost predicate PartlyCopied(s0: Objects, s: Objects, copies: Objects) {
    && s0.Keys <= s.Keys
    && forall k :: k in s ==> (k in s0 && s[k] == s0[k]) || (k in copies && s[k] == copies[k])
  }

  lemma RebaseUpdate(m: Objects, k: Key, v: StoredObject, from: Key, to: Key)
    requires HasPrefix(k, from)
    ensures Rebase(m[k := v], from, to) == Rebase(m, from, to)[Rebased(k, from, to) := v]
  {
    var a, b := Rebase(m[k := v], from, to), Rebase(m, from, to)[Rebased(k, from, to) := v];
    forall t | t in a ensures t in b && a[t] == b[t] {
      var src := Origin(t, from, to);
      if src != k {
        assert Rebased(src, from, to) == t;
      }
    }
    forall t | t in b ensures t in a {
      if t != Rebased(k, from, to) {
        var src := Origin(t, from, to);
        assert Rebased(src, from, to) == t;
      }
    }
  }

  lemma PickStep(m: Objects, keys: seq<Key>, i: nat)
    requires i < |keys| && keys[i] in m
    ensures Pick(m, keys[..i + 1]) == Pick(m, keys[..i])[keys[i] := m[keys[i]]]
  {
    assert keys[..i + 1] == keys[..i] + [keys[i]];
  }

  /** Copies of the picked objects are some of the copies of all of them. */
  lemma PickedCopiesArePartial(s0: Objects, ks: seq<Key>, from: Key, to: Key)
    ensures PartlyCopied(s0, s0 + Rebase(Pick(s0, ks), from, to), Rebase(s0, from, to))
  {
    var part, all := Rebase(Pick(s0, ks), from, to), Rebase(s0, from, to);
    forall t | t in part ensures t in all && part[t] == all[t] {
      var src := Origin(t, from, to);
      assert Rebased(src, from, to) == t;
    }
  }

  lemma RebasePickAll(s0: Objects, keys: seq<Key>, from: Key, to: Key)
    requires forall k :: k in keys <==> k in s0 && HasPrefix(k, from)
    ensures Rebase(Pick(s0, keys), from, to) == Rebase(s0, from, to)
  {
    var a, b := Rebase(Pick(s0, keys), from, to), Rebase(s0, from, to);
    forall t | t in b ensures t in a {
      var src := Origin(t, from, to);
      assert Rebased(src, from, to) == t;
    }
  }

  // ---------------------------------------------------------------------------
  // The loops of the transaction

  /**
   * The copy loop of the backup (each key's first occurrence of the live
   * prefix rewritten to the backup prefix) and of the restore (the inverse
   * rewrite):
   * every listed key under `from` is copied to the same key under `to`,
   * stopping at the first copy that raises.
   */
  method CopyEach(store: Store, keys: seq<Key>, from: Key, to: Key) returns (ok: bool)
    requires forall k :: k in keys <==> k in store.objects && HasPrefix(k, from)
    requires Apart(from, to)
    modifies store
    ensures ok ==> store.objects == old(store.objects) + Rebase(old(store.objects), from, to)
    ensures !ok ==> PartlyCopied(old(store.objects), store.objects, Rebase(old(store.objects), from, to))
    ensures |old(store.log)| <= |store.log| && store.log[..|old(store.log)|] == old(store.log)
    ensures NoDeleteOrPut(store.log[|old(store.log)|..])
    ensures Ran(store.faults, old(store.calls), |keys|, store.calls, ok)
  {
    ghost var s0, log0, c0 := store.objects, store.log, store.calls;
    var i := 0;
    while i < |keys|
      invariant 0 <= i <= |keys|
      invariant store.objects == s0 + Rebase(Pick(s0, keys[..i]), from, to)
      invariant |log0| <= |store.log| && store.log[..|log0|] == log0
      invariant NoDeleteOrPut(store.log[|log0|..])
      invariant Ran(store.faults, c0, i, store.calls, true)
    {
      var k := keys[i];
      ReplaceFirstAtPrefix(k, from, to);
      ghost var log1, c1 := store.log, store.calls;
      var copied := store.Copy(k, ReplaceFirst(k, from, to));
      LogGrows(log0, log1, CopyCall(k, ReplaceFirst(k, from, to)));
      RanStep(store.faults, c0, i, c1, copied, |keys|);
      if !copied {
        PickedCopiesArePartial(s0, keys[..i], from, to);
        return false;
      }
      CopyStep(s0, keys, i, from, to);
      i := i + 1;
    }
    assert keys[..i] == keys;
    RebasePickAll(s0, keys, from, to);
    ok := true;
  }

  lemma LogGrows(log0: seq<Call>, log1: seq<Call>, c: Call)
    requires |log0| <= |log1| && log1[..|log0|] == log0
    requires NoDeleteOrPut(log1[|log0|..])
    requires c.ListCall? || c.CopyCall?
    ensures (log1 + [c])[..|log0|] == log0
    ensures NoDeleteOrPut((log1 + [c])[|log0|..])
  {
    assert (log1 + [c])[|log0|..] == log1[|log0|..] + [c];
  }

  lemma LogsCompose(log0: seq<Call>, log1: seq<Call>, log2: seq<Call>)
    requires |log0| <= |log1| && log1[..|log0|] == log0 && NoDeleteOrPut(log1[|log0|..])
    requires |log1| <= |log2| && log2[..|log1|] == log1 && NoDeleteOrPut(log2[|log1|..])
    ensures |log0| <= |log2| && log2[..|log0|] == log0 && NoDeleteOrPut(log2[|log0|..])
  {
    assert log2[|log0|..] == log1[|log0|..] + log2[|log1|..];
  }

  /** One more copy extends the copied part by the next listed key. */
  lemma CopyStep(s0: Objects, keys: seq<Key>, i: nat, from: Key, to: Key)
    requires i < |keys| && keys[i] in s0 && HasPrefix(keys[i], from)
    requires Apart(from, to)
    ensures var s := s0 + Rebase(Pick(s0, keys[..i]), from, to);
      keys[i] in s && s[keys[i]] == s0[keys[i]] &&
      s[Rebased(keys[i], from, to) := s[keys[i]]] == s0 + Rebase(Pick(s0, keys[..i + 1]), from, to)
  {
    var k := keys[i];
    var x := Rebase(Pick(s0, keys[..i]), from, to);
    var t := Rebased(k, from, to);
    if HasPrefix(k, to) {
      PrefixesComparable(k, from, to);
    }
    assert k !in x;
    PickStep(s0, keys, i);
    RebaseUpdate(Pick(s0, keys[..i]), k, s0[k], from, to);
    UnionUpdate(s0, x, t, s0[k]);
  }

  lemma UnionUpdate(a: Objects, b: Objects, t: Key, v: StoredObject)
    ensures (a + b)[t := v] == a + b[t := v]
  {
  }

  /** The calls of an enumerate-then-delete pass when none raises: the listing, and one delete when it found keys. */
  function DeleteCalls(m: Objects, prefix: Key): nat {
    if Within(m, prefix) == map[] then 1 else 2
  }

  /**
   * One paginated enumerate-then-delete pass over `prefix`: on success nothing
   * is left under `prefix`; a call that raises leaves the store as it was.
   * An empty listing issues no delete.
   */
  method DeleteUnder(store: Store, prefix: Key) returns (ok: bool)
    modifies store
    ensures store.objects == if ok then Without(old(store.objects), prefix) else old(store.objects)
    ensures Ran(store.faults, old(store.calls), DeleteCalls(old(store.objects), prefix), store.calls, ok)
  {
    ghost var c0 := store.calls;
    var keys;
    ok, keys := store.List(prefix);
    RanOne(store.faults, c0);
    if !ok {
      RanStops(store.faults, c0, 1, store.calls, DeleteCalls(old(store.objects), prefix) - 1);
    } else if |keys| > 0 {
      ok := store.Delete(keys);
      RanOne(store.faults, c0 + 1);
      RanThen(store.faults, c0, 1, c0 + 1, 1, store.calls, ok);
    }
    if ok {
      assert store.objects == Without(old(store.objects), prefix);
    }
  }

  /**
   * The write action: the puts run in order and the first one that raises
   * ends it. `done` is how many succeeded.
   */
  method WriteAll(store: Store, writes: seq<PutRequest>) returns (done: nat)
    modifies store
    ensures done <= |writes|
    ensures store.objects == ApplyPuts(old(store.objects), writes[..done])
    ensures store.log == old(store.log) + PutCalls(writes[..if done == |writes| then done else done + 1])
    ensures Ran(store.faults, old(store.calls), |writes|, store.calls, done == |writes|)
    ensures store.calls == old(store.calls) + if done == |writes| then done else done + 1
  {
    ghost var s0, log0, c0 := store.objects, store.log, store.calls;
    done := 0;
    while done < |writes|
      invariant done <= |writes|
      invariant store.objects == ApplyPuts(s0, writes[..done])
      invariant store.log == log0 + PutCalls(writes[..done])
      invariant store.calls == c0 + done && Ran(store.faults, c0, done, store.calls, true)
    {
      ghost var c1 := store.calls;
      var ok := store.Put(writes[done]);
      assert writes[..done + 1][..done] == writes[..done];
      assert PutCalls(writes[..done + 1]) == PutCalls(writes[..done]) + [PutCall(writes[done].key)];
      RanStep(store.faults, c0, done, c1, ok, |writes|);
      if !ok {
        return;
      }
      done := done + 1;
    }
  }

  // ---------------------------------------------------------------------------
  // The transaction

  /** Where the transaction stopped: the call that raised first. */
  datatype Phase =
    | Probe                  // the MaxKeys=1 listing
    | Backup                 // listing or copying into the backup
    | Clear                  // listing or deleting the old folder
    | Write(completed: nat)  // the write action; `completed` puts had succeeded

  /** Normal exit, or the triggering exception re-raised. */
  datatype Outcome = Committed | Raised(phase: Phase)

  /**
   * What the call did: its outcome and the two flags of `backup_in_case_of_error`
   * (`folder_exists`, `backup_created`), plus whether the restore path and
   * the backup cleanup ran to completion (their failures are only logged).
   */
  datatype TxReport = TxReport(
    outcome: Outcome,
    folderExisted: bool,
    backupCreated: bool,
    restored: bool,
    backupRemoved: bool)

  /** Every put of the write action targets a key under `p`. */
  predicate WritesUnder(writes: seq<PutRequest>, p: Key) {
    forall i :: 0 <= i < |writes| ==> HasPrefix(writes[i].key, p)
  }

  /** How many puts of the write action succeeded. */
  function Completed(outcome: Outcome, n: nat): nat {
    if outcome.Raised? && outcome.phase.Write? then outcome.phase.completed else n
  }

  /** How many puts the write action issued, the failing one included. */
  function Attempted(outcome: Outcome, n: nat): nat {
    if outcome.Raised? && outcome.phase.Write? then outcome.phase.completed + 1 else n
  }

  /** The store once the backup copies are all made. */
  function BackedUp(s0: Objects, folder: Key): Objects {
    s0 + Rebase(s0, LivePrefix(folder), BackupPrefix(folder))
  }

  /**
   * The store when the write action ends or the clear step fails, for a
   * transaction that made a backup.
   */
  function Pending(s0: Objects, folder: Key, writes: seq<PutRequest>, outcome: Outcome): Objects
    requires Completed(outcome, |writes|) <= |writes|
  {
    if outcome == Raised(Clear) then BackedUp(s0, folder)
    else ApplyPuts(Without(BackedUp(s0, folder), LivePrefix(folder)), writes[..Completed(outcome, |writes|)])
  }

  /** The restore path run to completion: partial writes deleted, backup copied back. */
  function Restored(m: Objects, folder: Key): Objects {
    var live := Without(m, LivePrefix(folder));
    live + Rebase(live, BackupPrefix(folder), LivePrefix(folder))
  }

  // ---------------------------------------------------------------------------
  // How the fault schedule decides the outcome

  /**
   * The calls of the probe, the backup and the clear when none raises: the
   * probe alone for a missing folder; otherwise the probe, the backup's
   * listing and one copy per object, and the clear's listing and delete.
   */
  function PrepareCalls(s0: Objects, folder: Key): nat {
    var n := |Within(s0, LivePrefix(folder))|;
    if n == 0 then 1 else 1 + (1 + n + 2)
  }

  /** The calls up to the end of the write action when none raises. */
  function MainCalls(s0: Objects, folder: Key, writes: seq<PutRequest>): nat {
    PrepareCalls(s0, folder) + |writes|
  }

  /**
   * The phase that issues call `c` of a transaction whose first call is
   * `c0`, on a folder of `n` objects.
   */
  function PhaseOf(c0: nat, n: nat, c: int): Phase {
    if c <= c0 then Probe
    else if n == 0 then Write(c - c0 - 1)
    else if c <= c0 + n + 1 then Backup
    else if c <= c0 + n + 3 then Clear
    else Write(c - c0 - n - 4)
  }

  /**
   * The outcome the fault schedule dictates for a transaction started at call
   * `c0`: committed when none of its calls up to the end of the write action
   * raises, otherwise the exception of the phase whose call raised first.
   */
  function ScheduledOutcome(faults: set<nat>, c0: nat, s0: Objects, folder: Key, writes: seq<PutRequest>): Outcome {
    var total := c0 + MainCalls(s0, folder, writes);
    var f := FirstFault(faults, c0, total);
    if f == total then Committed else Raised(PhaseOf(c0, |Within(s0, LivePrefix(folder))|, f))
  }

  /** The call counter when the write action ends or the exception is raised. */
  function MainEnd(faults: set<nat>, c0: nat, s0: Objects, folder: Key, writes: seq<PutRequest>): nat {
    StepEnd(faults, c0, MainCalls(s0, folder, writes))
  }

  /** The calls of the restore path when none raises: clear the folder, list the backup, copy each backup object. */
  function RestoreCalls(p: Objects, folder: Key): nat {
    DeleteCalls(p, LivePrefix(folder)) + 1 + |Within(p, BackupPrefix(folder))|
  }

  /**
   * The report of a transaction started at call `c0` on the store `s0` and
   * ended at call `c`, as the folder and the fault schedule decide it: the
   * outcome, `folder_exists`, `backup_created`, and whether the restore and
   * the clean-up ran to completion. `BackupInCaseOfError` states each of
   * these clauses about its report.
   */
  predicate ReportFollowsSchedule(r: TxReport, faults: set<nat>, c0: nat, s0: Objects, c: nat,
                                  folder: Key, writes: seq<PutRequest>) {
    && r.outcome == ScheduledOutcome(faults, c0, s0, folder, writes)
    && Completed(r.outcome, |writes|) <= |writes|
    && (r.outcome == Raised(Probe) ==> !r.folderExisted)
    && (r.outcome != Raised(Probe) ==> (r.folderExisted <==> Within(s0, LivePrefix(folder)) != map[]))
    && (r.backupCreated <==> r.folderExisted && r.outcome != Raised(Backup))
    && (r.restored ==> r.backupCreated && r.outcome.Raised?)
    && (r.backupRemoved ==> r.backupCreated)
    && (r.backupCreated ==>
          var p := Pending(s0, folder, writes, r.outcome);
          var e := MainEnd(faults, c0, s0, folder, writes);
          && r.restored == (r.outcome.Raised? && Clean(faults, e, e + RestoreCalls(p, folder)))
          && Ran(faults, if r.outcome.Raised? then StepEnd(faults, e, RestoreCalls(p, folder)) else e,
                 DeleteCalls(p, BackupPrefix(folder)), c, r.backupRemoved))
  }

  /** A prefix stage that raised decides the outcome, and nothing after it runs. */
  lemma PrepareRaised(faults: set<nat>, c0: nat, s0: Objects, folder: Key, writes: seq<PutRequest>, phase: Phase, c1: nat)
    requires Ran(faults, c0, PrepareCalls(s0, folder), c1, false)
    requires phase == PhaseOf(c0, |Within(s0, LivePrefix(folder))|, c1 - 1)
    ensures ScheduledOutcome(faults, c0, s0, folder, writes) == Raised(phase)
    ensures MainEnd(faults, c0, s0, folder, writes) == c1
  {
    RanStops(faults, c0, PrepareCalls(s0, folder), c1, |writes|);
    RanCalls(faults, c0, MainCalls(s0, folder, writes), c1, false);
  }

  /** After a prefix stage that succeeded, the write action decides the outcome. */
  lemma WritesDecide(faults: set<nat>, c0: nat, s0: Objects, folder: Key, writes: seq<PutRequest>,
                     c1: nat, done: nat, c2: nat)
    requires Ran(faults, c0, PrepareCalls(s0, folder), c1, true)
    requires Ran(faults, c1, |writes|, c2, done == |writes|)
    requires done <= |writes| && c2 == c1 + if done == |writes| then done else done + 1
    ensures ScheduledOutcome(faults, c0, s0, folder, writes) ==
            if done == |writes| then Committed else Raised(Write(done))
    ensures MainEnd(faults, c0, s0, folder, writes) == c2
  {
    var total := MainCalls(s0, folder, writes);
    RanCalls(faults, c0, PrepareCalls(s0, folder), c1, true);
    RanThen(faults, c0, PrepareCalls(s0, folder), c1, |writes|, c2, done == |writes|);
    RanCalls(faults, c0, total, c2, done == |writes|);
    if done == |writes| {
      FirstFaultIs(faults, c0, c0 + total, c0 + total);
    }
  }

  /** With no call from `lo` on raising, every step from `lo` succeeds. */
  lemma CleanFrom(faults: set<nat>, lo: nat, n: nat)
    requires forall c: nat :: c >= lo ==> c !in faults
    ensures Clean(faults, lo, lo + n) && StepEnd(faults, lo, n) == lo + n
  {
    FirstFaultIs(faults, lo, lo + n, lo + n);
  }

  /** With no call raising, the transaction commits and its write action ends after all of its calls. */
  lemma NoFaultCommits(faults: set<nat>, c0: nat, s0: Objects, folder: Key, writes: seq<PutRequest>)
    requires forall c: nat :: c >= c0 ==> c !in faults
    ensures ScheduledOutcome(faults, c0, s0, folder, writes) == Committed
    ensures MainEnd(faults, c0, s0, folder, writes) == c0 + MainCalls(s0, folder, writes)
  {
    CleanFrom(faults, c0, MainCalls(s0, folder, writes));
  }

  /** The probe raises exactly when the transaction's first call is in the schedule. */
  lemma ProbeRaisesOnFirstCall(faults: set<nat>, c0: nat, s0: Objects, folder: Key, writes: seq<PutRequest>)
    ensures ScheduledOutcome(faults, c0, s0, folder, writes) == Raised(Probe) <==> c0 in faults
  {
    if c0 in faults {
      FirstFaultIs(faults, c0, c0 + MainCalls(s0, folder, writes), c0);
    }
  }

  /**
   * A fresh listing of `from`, then each listed object copied to the same key
   * under `to`: the backup loop (`from` the folder, `to` the backup) and the
   * restore loop (the other way round). `backup_created` is set only when the
   * backup's run returns true.
   */
  method CopyRegion(store: Store, from: Key, to: Key) returns (ok: bool)
    requires Apart(from, to)
    modifies store
    ensures ok ==> store.objects == old(store.objects) + Rebase(old(store.objects), from, to)
    ensures !ok ==> PartlyCopied(old(store.objects), store.objects, Rebase(old(store.objects), from, to))
    ensures |old(store.log)| <= |store.log| && store.log[..|old(store.log)|] == old(store.log)
    ensures NoDeleteOrPut(store.log[|old(store.log)|..])
    ensures Ran(store.faults, old(store.calls), 1 + |Within(old(store.objects), from)|, store.calls, ok)
  {
    ghost var s0, log0, c0 := store.objects, store.log, store.calls;
    ghost var n := |Within(s0, from)|;
    var keys;
    ok, keys := store.List(from);
    assert ok ==> |keys| == n;
    RanStep(store.faults, c0, 0, c0, ok, 1 + n);
    assert store.log[|log0|..] == [ListCall(from)];
    if !ok {
      assert PartlyCopied(s0, store.objects, Rebase(s0, from, to));
      return;
    }
    ghost var log1, c1 := store.log, store.calls;
    ok := CopyEach(store, keys, from, to);
    RanThen(store.faults, c0, 1, c1, n, store.calls, ok);
    LogsCompose(log0, log1, store.log);
  }

  /**
   * Probe, backup and clear (the part of the `try` before `yield`). Returns
   * `Committed` when the write action may run.
   */
  method BackupAndClear(store: Store, folder: Key) returns (outcome: Outcome, existed: bool, created: bool)
    modifies store
    ensures outcome.Raised? ==> !outcome.phase.Write?
    ensures !existed ==> outcome == Committed || outcome == Raised(Probe)
    ensures outcome == Raised(Probe) ==> store.objects == old(store.objects) && !existed
    ensures outcome != Raised(Probe) ==>
      (existed <==> Within(old(store.objects), LivePrefix(folder)) != map[])
    ensures created <==> existed && outcome != Raised(Backup)
    ensures outcome == Raised(Backup) ==>
      PartlyCopied(old(store.objects), store.objects,
                   Rebase(old(store.objects), LivePrefix(folder), BackupPrefix(folder)))
    ensures outcome == Raised(Backup) ==>
      |old(store.log)| <= |store.log| && NoDeleteOrPut(store.log[|old(store.log)|..])
    ensures !existed && outcome == Committed ==>
      store.objects == old(store.objects) && store.log == old(store.log) + [ListCall(LivePrefix(folder))]
    ensures created ==>
      store.objects == (if outcome == Raised(Clear) then BackedUp(old(store.objects), folder)
       else Without(BackedUp(old(store.objects), folder), LivePrefix(folder)))
    // the schedule: the stage succeeds exactly when none of its calls raises, and the phase is the one that raised
    ensures Ran(store.faults, old(store.calls), PrepareCalls(old(store.objects), folder), store.calls, outcome == Committed)
    ensures outcome.Raised? ==>
      outcome.phase == PhaseOf(old(store.calls), |Within(old(store.objects), LivePrefix(folder))|, store.calls - 1)
  {
    var live, bak := LivePrefix(folder), BackupPrefix(folder);
    LiveAndBackupApart(folder);
    ghost var s0, log0, c0 := store.objects, store.log, store.calls;
    ghost var n := |Within(s0, live)|;
    existed, created := false, false;
    outcome := Committed;
    var ok, keys := store.List(live);
    if !ok {
      outcome := Raised(Probe);
      ProbeRaised(store.faults, c0, PrepareCalls(s0, folder));
      return;
    }
    existed := |keys| > 0;
    if !existed {
      RanOne(store.faults, c0);
      assert PrepareCalls(s0, folder) == 1;
      return;
    }
    assert PrepareCalls(s0, folder) == 1 + (1 + n + 2);
    ghost var log1, c1 := store.log, store.calls;
    assert store.objects == s0 && c1 == c0 + 1;
    outcome := BackupThenClear(store, folder, n);
    created := outcome != Raised(Backup);
    AfterProbe(store.faults, c0, n, c1, store.calls, outcome == Committed, outcome == Raised(Backup));
    if outcome == Raised(Backup) {
      LogsCompose(log0, log1, store.log);
    }
  }

  /** A probe that raised ends the preparing stage at its own call. */
  lemma ProbeRaised(faults: set<nat>, c0: nat, total: nat)
    requires c0 in faults && total >= 1
    ensures Ran(faults, c0, total, c0 + 1, false)
  {
    RanOne(faults, c0);
    RanStops(faults, c0, 1, c0 + 1, total - 1);
  }

  /**
   * A probe that succeeded followed by a backup-and-clear stage: together
   * they make the preparing stage, and the phase that raised is the one the
   * failing call belongs to.
   */
  lemma AfterProbe(faults: set<nat>, c0: nat, n: nat, c1: nat, c2: nat, committed: bool, inBackup: bool)
    requires n > 0 && c1 == c0 + 1 && c0 !in faults
    requires Ran(faults, c1, 1 + n + 2, c2, committed)
    requires inBackup ==> c2 <= c1 + n + 1
    requires !committed && !inBackup ==> c2 > c1 + n + 1
    ensures Ran(faults, c0, 1 + (1 + n + 2), c2, committed)
    ensures !committed ==> PhaseOf(c0, n, c2 - 1) == if inBackup then Backup else Clear
  {
    RanOne(faults, c0);
    RanThen(faults, c0, 1, c1, 1 + n + 2, c2, committed);
    RanCalls(faults, c1, 1 + n + 2, c2, committed);
  }

  /** The backup and the clear of a folder that exists. */
  method BackupThenClear(store: Store, folder: Key, ghost n: nat) returns (outcome: Outcome)
    requires n == |Within(store.objects, LivePrefix(folder))| && n > 0
    modifies store
    ensures outcome == Committed || outcome == Raised(Backup) || outcome == Raised(Clear)
    ensures outcome == Raised(Backup) ==>
      && PartlyCopied(old(store.objects), store.objects,
                      Rebase(old(store.objects), LivePrefix(folder), BackupPrefix(folder)))
      && |old(store.log)| <= |store.log| && store.log[..|old(store.log)|] == old(store.log)
      && NoDeleteOrPut(store.log[|old(store.log)|..])
      && Within(store.objects, LivePrefix(folder)) == Within(old(store.objects), LivePrefix(folder))
      && Without(store.objects, BackupPrefix(folder)) == Without(old(store.objects), BackupPrefix(folder))
    ensures outcome != Raised(Backup) ==>
      store.objects == (if outcome == Raised(Clear) then BackedUp(old(store.objects), folder)
       else Without(BackedUp(old(store.objects), folder), LivePrefix(folder)))
    // the backup's listing and copies come first, then the clear's listing and delete
    ensures Ran(store.faults, old(store.calls), 1 + n + 2, store.calls, outcome == Committed)
    ensures outcome == Raised(Backup) ==> store.calls <= old(store.calls) + n + 1
    ensures outcome == Raised(Clear) ==> store.calls > old(store.calls) + n + 1
  {
    var live := LivePrefix(folder);
    ghost var s0, c0 := store.objects, store.calls;
    outcome := Committed;
    LiveAndBackupApart(folder);
    var ok := CopyRegion(store, live, BackupPrefix(folder));
    if !ok {
      outcome := Raised(Backup);
      BackupRaisedFirst(store.faults, c0, n, store.calls);
      FailedBackupKeepsFolder(s0, store.objects, folder);
      return;
    }
    ghost var c1 := store.calls;
    FolderOfBackedUp(s0, folder);
    ok := DeleteUnder(store, live);
    ClearRanSecond(store.faults, c0, n, c1, store.calls, ok);
    if !ok {
      outcome := Raised(Clear);
    }
  }

  /** A backup that raised ends the stage within the backup's calls. */
  lemma BackupRaisedFirst(faults: set<nat>, c0: nat, n: nat, c: nat)
    requires Ran(faults, c0, 1 + n, c, false)
    ensures Ran(faults, c0, 1 + n + 2, c, false) && c <= c0 + n + 1
  {
    RanStops(faults, c0, 1 + n, c, 2);
    RanCalls(faults, c0, 1 + n, c, false);
  }

  /** After a backup that succeeded, the clear decides the stage and raises after the backup's calls. */
  lemma ClearRanSecond(faults: set<nat>, c0: nat, n: nat, c1: nat, c2: nat, ok: bool)
    requires Ran(faults, c0, 1 + n, c1, true) && Ran(faults, c1, 2, c2, ok)
    ensures Ran(faults, c0, 1 + n + 2, c2, ok) && (!ok ==> c2 > c0 + n + 1)
  {
    RanThen(faults, c0, 1 + n, c1, 2, c2, ok);
    RanCalls(faults, c0, 1 + n, c1, true);
    RanCalls(faults, c1, 2, c2, ok);
  }

  /** A backup that stopped early left the folder, and everything outside the backup prefix, as they were. */
  lemma FailedBackupKeepsFolder(s0: Objects, s: Objects, folder: Key)
    requires PartlyCopied(s0, s, Rebase(s0, LivePrefix(folder), BackupPrefix(folder)))
    ensures Within(s, LivePrefix(folder)) == Within(s0, LivePrefix(folder))
    ensures Without(s, BackupPrefix(folder)) == Without(s0, BackupPrefix(folder))
  {
    var live, bak := LivePrefix(folder), BackupPrefix(folder);
    forall k | k in Rebase(s0, live, bak) ensures !HasPrefix(k, live) {
      BackupKeyNotLive(folder, k);
    }
  }

  /** Making the backup copies does not change the folder itself. */
  lemma FolderOfBackedUp(s0: Objects, folder: Key)
    ensures Within(BackedUp(s0, folder), LivePrefix(folder)) == Within(s0, LivePrefix(folder))
  {
    var live, bak := LivePrefix(folder), BackupPrefix(folder);
    forall k | k in Rebase(s0, live, bak) ensures !HasPrefix(k, live) {
      BackupKeyNotLive(folder, k);
    }
  }

  /**
   * The `except` branch when a backup exists: delete what is under the folder,
   * then copy every backup object back. A failure here is swallowed;
   * `restored` says whether every step succeeded.
   */
  method RestoreFromBackup(store: Store, folder: Key) returns (restored: bool)
    modifies store
    ensures restored ==> store.objects == Restored(old(store.objects), folder)
    ensures !restored ==>
      var p, live, bak := old(store.objects), LivePrefix(folder), BackupPrefix(folder);
      && Without(store.objects, live) == Without(p, live)
      && (Within(store.objects, live) == Within(p, live) ||
          PartlyCopied(map[], Within(store.objects, live), Rebase(p, bak, live)))
    ensures Within(store.objects, BackupPrefix(folder)) == Within(old(store.objects), BackupPrefix(folder))
    ensures Ran(store.faults, old(store.calls), RestoreCalls(old(store.objects), folder), store.calls, restored)
    // a first call that raises stops the restore before it changes anything
    ensures old(store.calls) in store.faults ==> store.objects == old(store.objects)
  {
    var live, bak := LivePrefix(folder), BackupPrefix(folder);
    LiveAndBackupApart(folder);
    ghost var p, c0 := store.objects, store.calls;
    RegionsOfWithout(p, live, bak);
    restored := DeleteUnder(store, live);
    ghost var c1 := store.calls;
    if !restored {
      RanStops(store.faults, c0, DeleteCalls(p, live), c1, 1 + |Within(p, bak)|);
      return;
    }
    restored := CopyRegion(store, bak, live);
    RanThen(store.faults, c0, DeleteCalls(p, live), c1, 1 + |Within(p, bak)|, store.calls, restored);
    if !restored {
      PartialRestoreShape(p, store.objects, folder);
      RegionsOfWithout(store.objects, live, bak);
    } else {
      RestoredKeepsBackup(p, folder);
    }
  }

  /** The restore writes only under the folder: the backup region stays as it was. */
  lemma RestoredKeepsBackup(p: Objects, folder: Key)
    ensures Within(Restored(p, folder), BackupPrefix(folder)) == Within(p, BackupPrefix(folder))
  {
    var live, bak := LivePrefix(folder), BackupPrefix(folder);
    LiveAndBackupApart(folder);
    RegionsOfWithout(p, live, bak);
    forall k | k in Rebase(Without(p, live), bak, live) ensures !HasPrefix(k, bak) {
      if HasPrefix(k, bak) {
        BackupKeyNotLive(folder, k);
      }
    }
  }

  /** A restore copy loop that stopped early filled the folder with backup copies only. */
  lemma PartialRestoreShape(p: Objects, s: Objects, folder: Key)
    requires PartlyCopied(Without(p, LivePrefix(folder)), s,
                          Rebase(Without(p, LivePrefix(folder)), BackupPrefix(folder), LivePrefix(folder)))
    ensures Without(s, LivePrefix(folder)) == Without(p, LivePrefix(folder))
    ensures PartlyCopied(map[], Within(s, LivePrefix(folder)), Rebase(p, BackupPrefix(folder), LivePrefix(folder)))
  {
    var live, bak := LivePrefix(folder), BackupPrefix(folder);
    LiveAndBackupApart(folder);
    var w := Without(p, live);
    var c := Rebase(w, bak, live);
    assert forall t :: t in c ==> HasPrefix(t, live);
    forall t | t in Rebase(w, bak, live) ensures t in Rebase(p, bak, live) && c[t] == Rebase(p, bak, live)[t] {
      var src := Origin(t, bak, live);
      assert Rebased(src, bak, live) == t;
    }
  }

  /** Facts about removing one of two apart regions. */
  lemma RegionsOfWithout(m: Objects, a: Key, b: Key)
    requires Apart(a, b)
    ensures Within(Without(m, a), b) == Within(m, b)
    ensures Within(Without(m, b), a) == Within(m, a)
    ensures Without(Without(Without(m, b), a), b) == Without(Without(m, a), b)
  {
    forall k | k in m && HasPrefix(k, a) ensures !HasPrefix(k, b) {
      if HasPrefix(k, b) { PrefixesComparable(k, a, b); }
    }
  }

  /**
   * The `try` up to and including `yield`: probe, backup and clear, then the
   * write action the caller runs at `yield`. The outcome and the call counter
   * at its end are those the fault schedule dictates.
   */
  method PrepareAndWrite(store: Store, folder: Key, writes: seq<PutRequest>)
    returns (outcome: Outcome, existed: bool, created: bool)
    modifies store
    ensures outcome == Raised(Probe) ==> store.objects == old(store.objects) && !existed
    ensures outcome != Raised(Probe) ==>
      (existed <==> Within(old(store.objects), LivePrefix(folder)) != map[])
    ensures created <==> existed && outcome != Raised(Backup)
    ensures outcome == Raised(Backup) ==>
      && PartlyCopied(old(store.objects), store.objects,
                      Rebase(old(store.objects), LivePrefix(folder), BackupPrefix(folder)))
      && |old(store.log)| <= |store.log| && NoDeleteOrPut(store.log[|old(store.log)|..])
    ensures Completed(outcome, |writes|) <= |writes|
    ensures outcome.Raised? && outcome.phase.Write? ==> outcome.phase.completed < |writes|
    ensures !existed && outcome != Raised(Probe) ==>
      && store.objects == ApplyPuts(old(store.objects), writes[..Completed(outcome, |writes|)])
      && store.log == old(store.log) + [ListCall(LivePrefix(folder))]
                      + PutCalls(writes[..Attempted(outcome, |writes|)])
    ensures created ==> store.objects == Pending(old(store.objects), folder, writes, outcome)
    ensures outcome == ScheduledOutcome(store.faults, old(store.calls), old(store.objects), folder, writes)
    ensures store.calls == MainEnd(store.faults, old(store.calls), old(store.objects), folder, writes)
  {
    ghost var s0, c0 := store.objects, store.calls;
    outcome, existed, created := BackupAndClear(store, folder);
    ghost var c1 := store.calls;
    if outcome != Committed {
      PrepareRaised(store.faults, c0, s0, folder, writes, outcome.phase, c1);
      return;
    }
    // yield: the caller's write action
    var done := WriteAll(store, writes);
    assert writes[..|writes|] == writes;
    WritesDecide(store.faults, c0, s0, folder, writes, c1, done, store.calls);
    if done < |writes| {
      outcome := Raised(Write(done));
    }
  }

  /**
   * The transaction around a write action made of `writes`. Models the whole
   * context manager: the `try` up to `yield`, the write action the caller runs
   * at `yield`, the `except` branch and the `finally` branch.
   */
  method BackupInCaseOfError(store: Store, folder: Key, writes: seq<PutRequest>) returns (r: TxReport)
    modifies store
    // the probe
    ensures r.outcome == Raised(Probe) ==> store.objects == old(store.objects) && !r.folderExisted
    // the outcome and the flags, as the folder and the fault schedule decide them: the backup counts
    // as made only once every copy succeeded, and the restore and the clean-up each complete exactly
    // when none of their calls raises
    ensures ReportFollowsSchedule(r, store.faults, old(store.calls), old(store.objects), store.calls, folder, writes)
    ensures r.outcome == Raised(Backup) ==>
      PartlyCopied(old(store.objects), store.objects,
                   Rebase(old(store.objects), LivePrefix(folder), BackupPrefix(folder)))
    ensures r.outcome == Raised(Backup) ==>
      |old(store.log)| <= |store.log| && NoDeleteOrPut(store.log[|old(store.log)|..])
    // a failed backup leaves the folder, and everything but the backup prefix, as it was
    ensures r.outcome == Raised(Backup) ==>
      && Within(store.objects, LivePrefix(folder)) == Within(old(store.objects), LivePrefix(folder))
      && Without(store.objects, BackupPrefix(folder)) == Without(old(store.objects), BackupPrefix(folder))
    ensures Completed(r.outcome, |writes|) <= |writes|
    ensures r.outcome.Raised? && r.outcome.phase.Write? ==> r.outcome.phase.completed < |writes|
    // an empty folder: no copy, no delete, no restore; partial writes stay
    ensures !r.folderExisted && r.outcome != Raised(Probe) ==>
      && store.objects == ApplyPuts(old(store.objects), writes[..Completed(r.outcome, |writes|)])
      && store.log == old(store.log) + [ListCall(LivePrefix(folder))]
                      + PutCalls(writes[..Attempted(r.outcome, |writes|)])
    // a backup was made: success, or a completed restore
    ensures r.backupCreated && (r.outcome == Committed || r.restored) ==>
      var p := Pending(old(store.objects), folder, writes, r.outcome);
      var q := if r.outcome == Committed then p else Restored(p, folder);
      store.objects == if r.backupRemoved then Without(q, BackupPrefix(folder)) else q
    // a backup was made and the restore path itself raised
    ensures r.backupCreated && r.outcome.Raised? && !r.restored ==>
      var p := Pending(old(store.objects), folder, writes, r.outcome);
      var live, bak := LivePrefix(folder), BackupPrefix(folder);
      && Without(Without(store.objects, live), bak) == Without(Without(p, live), bak)
      && Within(store.objects, bak) == (if r.backupRemoved then map[] else Within(p, bak))
      && (Within(store.objects, live) == Within(p, live) ||
          PartlyCopied(map[], Within(store.objects, live), Rebase(p, bak, live)))
    // without a backup nothing runs after the write action
    ensures var e := MainEnd(store.faults, old(store.calls), old(store.objects), folder, writes);
      !r.backupCreated ==> store.calls == e
    // with no call raising, the transaction commits and removes any backup it made
    ensures (forall c: nat :: c >= old(store.calls) ==> c !in store.faults) ==>
      r.outcome == Committed && r.backupRemoved == r.backupCreated
    // with no call raising after the write action, a failed transaction that made a backup rolls back fully
    ensures var e := MainEnd(store.faults, old(store.calls), old(store.objects), folder, writes);
      r.backupCreated && r.outcome.Raised? && (forall c: nat :: c >= e ==> c !in store.faults) ==>
      r.restored && r.backupRemoved
    // a restore whose first call raises leaves the folder as the failure left it
    ensures var e := MainEnd(store.faults, old(store.calls), old(store.objects), folder, writes);
      r.backupCreated && r.outcome.Raised? && e in store.faults ==>
      Within(store.objects, LivePrefix(folder)) ==
        Within(Pending(old(store.objects), folder, writes, r.outcome), LivePrefix(folder))
  {
    ghost var s0, c0 := store.objects, store.calls;
    var outcome, folderExists, backupCreated := PrepareAndWrite(store, folder, writes);
    ghost var e, p := store.calls, store.objects;
    if outcome == Raised(Backup) {
      FailedBackupKeepsFolder(s0, p, folder);
    }
    ghost var quiet := forall c: nat :: c >= c0 ==> c !in store.faults;
    if quiet {
      NoFaultCommits(store.faults, c0, s0, folder, writes);
    }
    if !backupCreated {
      r := TxReport(outcome, folderExists, false, false, false);
      assert ReportFollowsSchedule(r, store.faults, c0, s0, store.calls, folder, writes);
      return;
    }
    var restored, backupRemoved := RestoreAndCleanUp(store, folder, outcome.Raised?);
    r := TxReport(outcome, folderExists, backupCreated, restored, backupRemoved);
    if quiet {
      CleanFrom(store.faults, e, DeleteCalls(p, BackupPrefix(folder)));
    }
    if outcome.Raised? && forall c: nat :: c >= e ==> c !in store.faults {
      QuietRollback(store.faults, e, p, folder, restored, backupRemoved, store.calls);
    }
    RolledBackReport(r, store.faults, c0, s0, store.calls, folder, writes, e, p);
  }

  /** The report of a transaction that made a backup, from what its two stages state. */
  lemma RolledBackReport(r: TxReport, faults: set<nat>, c0: nat, s0: Objects, c: nat,
                         folder: Key, writes: seq<PutRequest>, e: nat, p: Objects)
    requires r.backupCreated && r.folderExisted && r.outcome != Raised(Backup) && r.outcome != Raised(Probe)
    requires Within(s0, LivePrefix(folder)) != map[]
    requires r.outcome == ScheduledOutcome(faults, c0, s0, folder, writes)
    requires Completed(r.outcome, |writes|) <= |writes|
    requires e == MainEnd(faults, c0, s0, folder, writes) && p == Pending(s0, folder, writes, r.outcome)
    requires r.restored == (r.outcome.Raised? && Clean(faults, e, e + RestoreCalls(p, folder)))
    requires Ran(faults, if r.outcome.Raised? then StepEnd(faults, e, RestoreCalls(p, folder)) else e,
                 DeleteCalls(p, BackupPrefix(folder)), c, r.backupRemoved)
    ensures ReportFollowsSchedule(r, faults, c0, s0, c, folder, writes)
  {
  }

  /**
   * With no call raising after the write action ends, a failed transaction that
   * made a backup restores it completely and removes it.
   */
  lemma QuietRollback(faults: set<nat>, e: nat, p: Objects, folder: Key, restored: bool, backupRemoved: bool, c: nat)
    requires forall c: nat :: c >= e ==> c !in faults
    requires restored == Clean(faults, e, e + RestoreCalls(p, folder))
    requires Ran(faults, StepEnd(faults, e, RestoreCalls(p, folder)), DeleteCalls(p, BackupPrefix(folder)), c, backupRemoved)
    ensures restored && backupRemoved
  {
    CleanFrom(faults, e, RestoreCalls(p, folder));
    CleanFrom(faults, e + RestoreCalls(p, folder), DeleteCalls(p, BackupPrefix(folder)));
  }

  /**
   * The `except` branch (when `failed`) and the `finally` branch of a
   * transaction that made a backup; neither raises.
   */
  method RestoreAndCleanUp(store: Store, folder: Key, failed: bool) returns (restored: bool, backupRemoved: bool)
    modifies store
    ensures restored ==> failed
    ensures !failed || restored ==>
      var q := if failed then Restored(old(store.objects), folder) else old(store.objects);
      store.objects == if backupRemoved then Without(q, BackupPrefix(folder)) else q
    ensures failed && !restored ==>
      var p, live, bak := old(store.objects), LivePrefix(folder), BackupPrefix(folder);
      && Without(Without(store.objects, live), bak) == Without(Without(p, live), bak)
      && Within(store.objects, bak) == (if backupRemoved then map[] else Within(p, bak))
      && (Within(store.objects, live) == Within(p, live) ||
          PartlyCopied(map[], Within(store.objects, live), Rebase(p, bak, live)))
    // the restore runs first and succeeds exactly when none of its calls raises; the clean-up follows
    ensures var c0, p := old(store.calls), old(store.objects);
      && restored == (failed && Clean(store.faults, c0, c0 + RestoreCalls(p, folder)))
      && Ran(store.faults, if failed then StepEnd(store.faults, c0, RestoreCalls(p, folder)) else c0,
             DeleteCalls(p, BackupPrefix(folder)), store.calls, backupRemoved)
    // a restore whose first call raises leaves the folder as it was; the clean-up still runs
    ensures failed && old(store.calls) in store.faults ==>
      Within(store.objects, LivePrefix(folder)) == Within(old(store.objects), LivePrefix(folder))
  {
    var live, bak := LivePrefix(folder), BackupPrefix(folder);
    LiveAndBackupApart(folder);
    ghost var p := store.objects;
    restored := false;
    if failed {
      restored := RestoreFromBackup(store, folder);
    }
    ghost var q := store.objects;
    backupRemoved := DeleteUnder(store, bak);
    RegionsOfWithout(q, live, bak);
    if failed && !restored {
      RegionsOfWithout(p, live, bak);
    }
  }

  // ---------------------------------------------------------------------------
  // What the transaction guarantees

  /** Puts under `p` change only the region under `p`, and there they act alone. */
  lemma {:induction false} ApplyPutsUnder(m: Objects, w: seq<PutRequest>, p: Key)
    requires WritesUnder(w, p)
    ensures Without(ApplyPuts(m, w), p) == Without(m, p)
    ensures Within(ApplyPuts(m, w), p) == ApplyPuts(Within(m, p), w)
    decreases |w|
  {
    if w != [] {
      var init := w[..|w| - 1];
      assert WritesUnder(init, p) by {
        forall i | 0 <= i < |init| ensures HasPrefix(init[i].key, p) {
          assert init[i] == w[i];
        }
      }
      ApplyPutsUnder(m, init, p);
      assert HasPrefix(w[|w| - 1].key, p);
    }
  }

  /** Outside the folder, every store the write phase passes through looks like the finished backup. */
  lemma PendingOutsideFolder(s0: Objects, folder: Key, writes: seq<PutRequest>, outcome: Outcome)
    requires Completed(outcome, |writes|) <= |writes|
    requires WritesUnder(writes, LivePrefix(folder))
    ensures Without(Pending(s0, folder, writes, outcome), LivePrefix(folder)) ==
            Without(BackedUp(s0, folder), LivePrefix(folder))
  {
    var live := LivePrefix(folder);
    if outcome != Raised(Clear) {
      var w := writes[..Completed(outcome, |writes|)];
      assert WritesUnder(w, live) by {
        forall i | 0 <= i < |w| ensures HasPrefix(w[i].key, live) {
          assert w[i] == writes[i];
        }
      }
      ApplyPutsUnder(Without(BackedUp(s0, folder), live), w, live);
    }
  }

  /** Re-keying distributes over map union. */
  lemma RebaseUnion(a: Objects, b: Objects, from: Key, to: Key)
    ensures Rebase(a + b, from, to) == Rebase(a, from, to) + Rebase(b, from, to)
  {
    var lhs, rhs := Rebase(a + b, from, to), Rebase(a, from, to) + Rebase(b, from, to);
    forall t | t in lhs ensures t in rhs && lhs[t] == rhs[t] {
      var src := Origin(t, from, to);
      assert Rebased(src, from, to) == t;
    }
    forall t | t in rhs ensures t in lhs {
      var src := Origin(t, from, to);
      assert Rebased(src, from, to) == t;
    }
  }

  /** Dropping a region apart from `from` does not change what is re-keyed. */
  lemma RebaseIgnoresApart(m: Objects, p: Key, from: Key, to: Key)
    requires Apart(p, from)
    ensures Rebase(Without(m, p), from, to) == Rebase(m, from, to)
  {
    var lhs, rhs := Rebase(Without(m, p), from, to), Rebase(m, from, to);
    forall t | t in rhs ensures t in lhs {
      var src := Origin(t, from, to);
      if HasPrefix(src, p) { PrefixesComparable(src, p, from); }
      assert Rebased(src, from, to) == t;
    }
  }

  /** Re-keying there and back gives the region that was re-keyed. */
  lemma RebaseRoundTrip(m: Objects, from: Key, to: Key)
    ensures Rebase(Rebase(m, from, to), to, from) == Within(m, from)
  {
    var there := Rebase(m, from, to);
    var lhs := Rebase(there, to, from);
    forall k | k in Within(m, from) ensures k in lhs {
      var t := Rebased(k, from, to);
      assert Rebased(t, to, from) == k;
    }
    forall k | k in lhs ensures k in Within(m, from) && lhs[k] == m[k] {
      var t := Origin(k, to, from);
      assert Origin(t, from, to) == k;
    }
  }

  /** The finished backup, seen outside the folder: the rest of the store plus the copies. */
  lemma BackedUpOutsideFolder(s0: Objects, folder: Key)
    ensures Without(BackedUp(s0, folder), LivePrefix(folder)) ==
            Without(s0, LivePrefix(folder)) + Rebase(s0, LivePrefix(folder), BackupPrefix(folder))
  {
    var live, bak := LivePrefix(folder), BackupPrefix(folder);
    var copies := Rebase(s0, live, bak);
    forall t | t in copies ensures !HasPrefix(t, live) {
      BackupKeyNotLive(folder, t);
    }
  }

  /**
   * Copying the backup region of the half-done store back: the backup copies
   * return every original object to its own key, and any object that was
   * already under the backup prefix before the call comes along.
   */
  lemma RebaseBackupBack(s0: Objects, folder: Key)
    ensures Rebase(Without(BackedUp(s0, folder), LivePrefix(folder)), BackupPrefix(folder), LivePrefix(folder))
            == Rebase(s0, BackupPrefix(folder), LivePrefix(folder)) + Within(s0, LivePrefix(folder))
  {
    var live, bak := LivePrefix(folder), BackupPrefix(folder);
    LiveAndBackupApart(folder);
    BackedUpOutsideFolder(s0, folder);
    RebaseUnion(Without(s0, live), Rebase(s0, live, bak), bak, live);
    RebaseIgnoresApart(s0, live, bak, live);
    RebaseRoundTrip(s0, live, bak);
  }

  /** The region under `p` of a union whose left part has nothing under `p` and right part only that. */
  lemma WithinOfSplitUnion(a: Objects, b: Objects, p: Key)
    requires forall k :: k in a ==> !HasPrefix(k, p)
    requires forall k :: k in b ==> HasPrefix(k, p)
    ensures Within(a + b, p) == b
  {
  }

  /** A store is its region under `p` together with the rest. */
  lemma SplitRejoins(m: Objects, p: Key)
    ensures Without(m, p) + Within(m, p) == m
  {
  }

  /**
   * After a failure once the backup exists, a restore that runs to completion
   * puts back every object the folder held before the call (and, with them,
   * objects left under the backup prefix by an earlier call).
   */
  lemma RollbackRestoresFolder(s0: Objects, folder: Key, writes: seq<PutRequest>, outcome: Outcome)
    requires Completed(outcome, |writes|) <= |writes|
    requires WritesUnder(writes, LivePrefix(folder))
    ensures Within(Restored(Pending(s0, folder, writes, outcome), folder), LivePrefix(folder)) ==
            Rebase(s0, BackupPrefix(folder), LivePrefix(folder)) + Within(s0, LivePrefix(folder))
    ensures Within(s0, BackupPrefix(folder)) == map[] ==>
            Without(Restored(Pending(s0, folder, writes, outcome), folder), BackupPrefix(folder)) == s0
  {
    PendingOutsideFolder(s0, folder, writes, outcome);
    RestoredFromHalfDone(s0, folder, Pending(s0, folder, writes, outcome));
  }

  /** The same, for any store that agrees with the finished backup outside the folder. */
  lemma RestoredFromHalfDone(s0: Objects, folder: Key, p: Objects)
    requires Without(p, LivePrefix(folder)) == Without(BackedUp(s0, folder), LivePrefix(folder))
    ensures Within(Restored(p, folder), LivePrefix(folder)) ==
            Rebase(s0, BackupPrefix(folder), LivePrefix(folder)) + Within(s0, LivePrefix(folder))
    ensures Within(s0, BackupPrefix(folder)) == map[] ==>
            Without(Restored(p, folder), BackupPrefix(folder)) == s0
  {
    var live, bak := LivePrefix(folder), BackupPrefix(folder);
    RestoredShape(s0, folder, p);
    FolderOfRestored(s0, folder);
    if Within(s0, bak) == map[] {
      var w := Without(s0, live) + Rebase(s0, live, bak);
      NoBackupKeysNothingToRestore(s0, folder);
      EmptyUnion(Rebase(s0, bak, live), Within(s0, live));
      assert Restored(p, folder) == w + Within(s0, live);
      DropCopies(s0, folder);
    }
  }

  lemma EmptyUnion(a: Objects, b: Objects)
    requires a == map[]
    ensures a + b == b
  {
  }

  /** The restored store, whatever the write phase left in the folder. */
  lemma RestoredShape(s0: Objects, folder: Key, p: Objects)
    requires Without(p, LivePrefix(folder)) == Without(BackedUp(s0, folder), LivePrefix(folder))
    ensures Restored(p, folder) ==
      (Without(s0, LivePrefix(folder)) + Rebase(s0, LivePrefix(folder), BackupPrefix(folder))) +
      (Rebase(s0, BackupPrefix(folder), LivePrefix(folder)) + Within(s0, LivePrefix(folder)))
  {
    BackedUpOutsideFolder(s0, folder);
    RebaseBackupBack(s0, folder);
  }

  lemma FolderOfRestored(s0: Objects, folder: Key)
    ensures Within((Without(s0, LivePrefix(folder)) + Rebase(s0, LivePrefix(folder), BackupPrefix(folder))) +
              (Rebase(s0, BackupPrefix(folder), LivePrefix(folder)) + Within(s0, LivePrefix(folder))),
              LivePrefix(folder)) ==
            Rebase(s0, BackupPrefix(folder), LivePrefix(folder)) + Within(s0, LivePrefix(folder))
  {
    var live, bak := LivePrefix(folder), BackupPrefix(folder);
    var copies := Rebase(s0, live, bak);
    var w := Without(s0, live) + copies;
    var back := Rebase(s0, bak, live) + Within(s0, live);
    forall k | k in copies ensures !HasPrefix(k, live) {
      BackupKeyNotLive(folder, k);
    }
    assert forall k :: k in w ==> !HasPrefix(k, live);
    assert forall k :: k in back ==> HasPrefix(k, live);
    WithinOfSplitUnion(w, back, live);
  }

  lemma NoBackupKeysNothingToRestore(s0: Objects, folder: Key)
    requires Within(s0, BackupPrefix(folder)) == map[]
    ensures Rebase(s0, BackupPrefix(folder), LivePrefix(folder)) == map[]
  {
    var live, bak := LivePrefix(folder), BackupPrefix(folder);
    forall t | t in Rebase(s0, bak, live) ensures Origin(t, bak, live) in Within(s0, bak) {
    }
  }

  /** Removing a region that only one part of a union touches. */
  lemma WithoutDropsMiddle(x: Objects, c: Objects, y: Objects, p: Key)
    requires forall k :: k in c ==> HasPrefix(k, p)
    requires forall k :: k in x ==> !HasPrefix(k, p)
    requires forall k :: k in y ==> !HasPrefix(k, p)
    ensures Without(x + c + y, p) == x + y
  {
  }

  /** Deleting the backup region of the restored store leaves exactly `s0` when `s0` had none. */
  lemma DropCopies(s0: Objects, folder: Key)
    requires Within(s0, BackupPrefix(folder)) == map[]
    ensures Without((Without(s0, LivePrefix(folder)) + Rebase(s0, LivePrefix(folder), BackupPrefix(folder)))
                    + Within(s0, LivePrefix(folder)), BackupPrefix(folder)) == s0
  {
    var live, bak := LivePrefix(folder), BackupPrefix(folder);
    LiveAndBackupApart(folder);
    var x, y := Without(s0, live), Within(s0, live);
    forall k | k in x ensures !HasPrefix(k, bak) {
      assert k in s0 && (HasPrefix(k, bak) ==> k in Within(s0, bak));
    }
    forall k | k in y ensures !HasPrefix(k, bak) {
      if HasPrefix(k, bak) { PrefixesComparable(k, live, bak); }
    }
    WithoutDropsMiddle(x, Rebase(s0, live, bak), y, bak);
    SplitRejoins(s0, live);
  }

  /**
   * A committed transaction replaces the folder by exactly what the write
   * action put there, and leaves every key outside the folder and its backup
   * as it was.
   */
  lemma CommitReplacesFolder(s0: Objects, folder: Key, writes: seq<PutRequest>)
    requires WritesUnder(writes, LivePrefix(folder))
    ensures Within(Pending(s0, folder, writes, Committed), LivePrefix(folder)) == ApplyPuts(map[], writes)
    ensures Without(Without(Pending(s0, folder, writes, Committed), LivePrefix(folder)), BackupPrefix(folder)) ==
            Without(Without(s0, LivePrefix(folder)), BackupPrefix(folder))
  {
    var live, bak := LivePrefix(folder), BackupPrefix(folder);
    var cleared := Without(BackedUp(s0, folder), live);
    assert writes[..|writes|] == writes;
    ApplyPutsUnder(cleared, writes, live);
    assert Within(cleared, live) == map[];
    PendingOutsideFolder(s0, folder, writes, Committed);
    BackedUpOutsideFolder(s0, folder);
    CopiesUnderBackup(s0, folder);
  }

  /** Dropping the backup region from the rest of the store plus the backup copies. */
  lemma CopiesUnderBackup(s0: Objects, folder: Key)
    ensures Without(Without(s0, LivePrefix(folder)) + Rebase(s0, LivePrefix(folder), BackupPrefix(folder)),
                    BackupPrefix(folder)) ==
            Without(Without(s0, LivePrefix(folder)), BackupPrefix(folder))
  {
  }

  /**
   * With no objects left under the backup prefix by an earlier call, a
   * committed transaction whose backup was removed leaves the store equal to
   * the old one with the folder replaced by the writes.
   */
  lemma CommitWithoutStaleBackup(s0: Objects, folder: Key, writes: seq<PutRequest>)
    requires WritesUnder(writes, LivePrefix(folder))
    requires Within(s0, BackupPrefix(folder)) == map[]
    ensures Without(Pending(s0, folder, writes, Committed), BackupPrefix(folder)) ==
            Without(s0, LivePrefix(folder)) + ApplyPuts(map[], writes)
  {
    var live, bak := LivePrefix(folder), BackupPrefix(folder);
    var p := Pending(s0, folder, writes, Committed);
    CommitReplacesFolder(s0, folder, writes);
    LiveAndBackupApart(folder);
    RegionsOfWithout(p, live, bak);
    SplitRejoins(Without(p, bak), live);
    NoStaleBackup(s0, folder);
  }

  /** With nothing under the backup prefix, dropping it from the rest of the store changes nothing. */
  lemma NoStaleBackup(s0: Objects, folder: Key)
    requires Within(s0, BackupPrefix(folder)) == map[]
    ensures Without(Without(s0, LivePrefix(folder)), BackupPrefix(folder)) == Without(s0, LivePrefix(folder))
  {
    var live, bak := LivePrefix(folder), BackupPrefix(folder);
    forall k | k in Without(s0, live) ensures !HasPrefix(k, bak) {
      assert k in s0 && (HasPrefix(k, bak) ==> k in Within(s0, bak));
    }
  }

  // ---------------------------------------------------------------------------
  // A run that loses the folder

  /**
   * The folder `doc` holds one object. The transaction's put (call 5) raises,
   * and so does the restore's first listing (call 6); the clean-up (calls 7
   * and 8) succeeds. The old object ends up neither in the folder nor in its
   * backup.
   */
  method RestoreFailureLosesFolder() returns (before: Objects, after: Objects, r: TxReport)
    ensures before == map["doc/a" := StoredObject([0x61], "text/plain")]
    ensures r.outcome == Raised(Write(0)) && r.backupCreated && !r.restored && r.backupRemoved
    ensures Within(after, LivePrefix("doc")) == map[] && Within(after, BackupPrefix("doc")) == map[]
  {
    before := map["doc/a" := StoredObject([0x61], "text/plain")];
    var writes := [PutRequest("doc/b", [0x62], "text/plain")];
    var store := new Store(before, {5, 6});
    LosingSchedule(before, writes, store.faults);
    r := BackupInCaseOfError(store, "doc", writes);
    after := store.objects;
  }

  /** What the schedule of `RestoreFailureLosesFolder` dictates for the transaction itself. */
  lemma LosingSchedule(before: Objects, writes: seq<PutRequest>, faults: set<nat>)
    requires before == map["doc/a" := StoredObject([0x61], "text/plain")]
    requires writes == [PutRequest("doc/b", [0x62], "text/plain")] && faults == {5, 6}
    ensures ScheduledOutcome(faults, 0, before, "doc", writes) == Raised(Write(0))
    ensures MainEnd(faults, 0, before, "doc", writes) == 6
    ensures var p := Pending(before, "doc", writes, Raised(Write(0)));
      && Within(p, LivePrefix("doc")) == map[] && p != map[]
      && !Clean(faults, 6, 6 + RestoreCalls(p, "doc")) && StepEnd(faults, 6, RestoreCalls(p, "doc")) == 7
      && Clean(faults, 7, 7 + DeleteCalls(p, BackupPrefix("doc")))
      && StepEnd(faults, 7, DeleteCalls(p, BackupPrefix("doc"))) == 7 + DeleteCalls(p, BackupPrefix("doc"))
  {
    var p := LosingBackup(before, writes);
    FirstFaultIs(faults, 0, 6, 5);
    LosingRollback(p, faults);
  }

  /** What the same schedule dictates for the rollback of the backup `p` left behind. */
  lemma LosingRollback(p: Objects, faults: set<nat>)
    requires p == map["doc.bak/a" := StoredObject([0x61], "text/plain")] && faults == {5, 6}
    requires Within(p, LivePrefix("doc")) == map[] && Within(p, BackupPrefix("doc")) == p
    ensures !Clean(faults, 6, 6 + RestoreCalls(p, "doc")) && StepEnd(faults, 6, RestoreCalls(p, "doc")) == 7
    ensures Clean(faults, 7, 7 + DeleteCalls(p, BackupPrefix("doc")))
    ensures StepEnd(faults, 7, DeleteCalls(p, BackupPrefix("doc"))) == 7 + DeleteCalls(p, BackupPrefix("doc"))
  {
    FirstFaultIs(faults, 6, 9, 6);
    FirstFaultIs(faults, 7, 9, 9);
  }

  /** The folder of the run has one object, and the clear leaves only its backup copy. */
  lemma LosingBackup(before: Objects, writes: seq<PutRequest>) returns (p: Objects)
    requires before == map["doc/a" := StoredObject([0x61], "text/plain")]
    requires writes == [PutRequest("doc/b", [0x62], "text/plain")]
    ensures |Within(before, LivePrefix("doc"))| == 1
    ensures p == Pending(before, "doc", writes, Raised(Write(0)))
    ensures p == map["doc.bak/a" := StoredObject([0x61], "text/plain")]
    ensures Within(p, LivePrefix("doc")) == map[] && Within(p, BackupPrefix("doc")) == p
  {
    var live, bak := LivePrefix("doc"), BackupPrefix("doc");
    assert HasPrefix("doc/a", live) && !HasPrefix("doc/a", bak);
    assert Within(before, live) == before;
    var copies := Rebase(before, live, bak);
    assert Rebased("doc/a", live, bak) == "doc.bak/a";
    forall t | t in copies ensures t == "doc.bak/a" {
      assert Origin(t, live, bak) == "doc/a";
      assert t[|bak|..] == "doc/a"[|live|..];
      assert t == t[..|bak|] + t[|bak|..];
    }
    assert copies == map["doc.bak/a" := StoredObject([0x61], "text/plain")];
    BackupKeyNotLive("doc", "doc.bak/a");
    assert Without(before + copies, live) == copies;
    p := Pending(before, "doc", writes, Raised(Write(0)));
    assert writes[..0] == [];
    assert p == Without(BackedUp(before, "doc"), live);
  }
}
