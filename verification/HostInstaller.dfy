/** The installer process itself: installing, rolling back and recovering, one atomic
    write at a time. `trace` lists every disk state passed through, so "the process dies
    here" is any state of the trace. */
module HostInstaller {
  import opened Wrappers
  import opened HostRecords
  import opened HostInvariant
  import opened HostProtocol

  class Host {
    /** In the run at hand, service manager commands and other steps that might raise all succeed. */
    var healthy: bool
    var disk: Disk
    var clock: nat
    /** Every disk state so far: one more than the writes performed. */
    var trace: seq<Disk>
    /** How many such steps have failed so far. */
    ghost var faults: nat

    ghost predicate Valid()
      reads this`disk, this`trace, this`clock
    {
      && 0 < |trace| && trace[|trace| - 1] == disk
      && WriteByWrite(trace)
      && ClockAhead(trace, clock)
    }

    constructor (files: map<Target, File>, healthy: bool)
      requires Active !in files
      ensures Valid() && trace == [disk] && disk.targets == files && Inv(disk) && AtRest(disk)
    {
      this.healthy := healthy;
      disk := Disk(files, map[], map[], map[], map[], map[], map[]);
      clock, faults := 0, 0;
      trace := [Disk(files, map[], map[], map[], map[], map[], map[])];
    }

    /** A step outside the disk, such as a service manager command. */
    method Command() returns (ok: bool)
      modifies this`faults
      ensures healthy ==> ok
      ensures faults == old(faults) + if ok then 0 else 1
    {
      ok := *;
      ok := ok || healthy;
      faults := faults + if ok then 0 else 1;
    }

    // ---- Primitive writes ----------------------------------------------------------------

    method Perform(w: Write)
      requires Valid() && (w.WritePrepared? ==> w.j.preparedAt <= clock)
      modifies this`disk, this`trace
      ensures Valid() && disk == Apply(old(disk), w) && trace == old(trace) + [disk]
    {
      disk := Apply(disk, w);
      trace := trace + [disk];
      assert OneWrite(old(disk), disk);
    }

    method WriteNewFile(w: Write) returns (o: Outcome)
      requires Valid() && (w.WritePrepared? ==> w.j.preparedAt <= clock)
      modifies this`disk, this`trace
      ensures Valid()
      ensures o == if Collides(old(disk), w) then Rejected("COLLISION") else Done
      ensures o.Done? ==> disk == Apply(old(disk), w) && trace == old(trace) + [disk]
      ensures !o.Done? ==> disk == old(disk) && trace == old(trace)
    {
      if Collides(disk, w) {
        o := Rejected("COLLISION");
      } else {
        Perform(w);
        o := Done;
      }
    }

    // ---- Undo ------------------------------------------------------------------------------

    method RestoreTarget(j: Journal, t: Target) returns (o: Outcome)
      requires Valid() && t in j.before && t in j.after
      modifies this`disk, this`trace
      ensures Valid() && (trace == old(trace) || trace == old(trace) + [disk])
      ensures disk == old(disk).(targets := disk.targets)
      ensures forall u: Target :: u != t ==> Lookup(disk.targets, u) == Lookup(old(disk).targets, u)
      ensures o.Done? || (o.Rejected? && disk == old(disk))
      ensures o.Rejected? <==> Decide(old(disk), j, t).Refuse?
      ensures o.Done? ==> Settled(old(disk), disk, j, t)
    {
      DecideMeaning(disk, j, t);
      o := Done;
      match Decide(disk, j, t) {
        case Keep =>
        case PutBack(f) => Perform(Replace(t, f));
        case Delete => Perform(Remove(t));
        case Refuse(code) => o := Rejected(code);
      }
    }

    /** Puts every target back, stopping at the first one it may not touch. */
    method RestoreTransaction(j: Journal) returns (o: Outcome)
      requires Valid() && forall t: Target :: t in j.before && t in j.after
      modifies this`disk, this`trace, this`faults
      ensures Valid() && old(trace) <= trace
      ensures forall i :: |old(trace)| <= i < |trace| ==> Undoing(old(disk), trace[i], j)
      ensures Undoing(old(disk), disk, j)
      ensures o.Rejected? <==> exists t: Target :: Decide(old(disk), j, t).Refuse?
      ensures !o.Rejected? ==> forall t: Target :: Settled(old(disk), disk, j, t)
      ensures !o.Rejected? ==>
                ((forall t: Target :: IsBefore(Lookup(disk.targets, t), j.before[t])) <==>
                 (forall t: Target :: !Mixed(Lookup(old(disk).targets, t), j.before[t], j.after[t])))
      ensures healthy && !o.Rejected? ==> o.Done?
      ensures faults == old(faults) + if o.CommandFailed? then 1 else 0
    {
      hide OneWrite, WriteByWrite, ClockAhead, Decide, Settled, Undoing, Mixed, IsBefore, SORTED_TARGETS;
      UndoStarts(disk, j);
      o := Done;
      var i := 0;
      while i < |SORTED_TARGETS| && o.Done?
        invariant 0 <= i <= |SORTED_TARGETS|
        invariant Valid() && old(trace) <= trace
        invariant forall k :: |old(trace)| <= k < |trace| ==> Undoing(old(disk), trace[k], j)
        invariant Undoing(old(disk), disk, j) && disk == old(disk).(targets := disk.targets) && faults == old(faults)
        invariant o.Done? || (o.Rejected? && exists t: Target :: Decide(old(disk), j, t).Refuse?)
        invariant forall t: Target :: t in SORTED_TARGETS[i..] ==>
            Lookup(disk.targets, t) == Lookup(old(disk).targets, t)
        invariant o.Done? ==> forall t: Target :: t in SORTED_TARGETS[..i] ==>
                    !Decide(old(disk), j, t).Refuse? && Settled(old(disk), disk, j, t)
      {
        var t := SORTED_TARGETS[i];
        DistinctTargets(i);
        ghost var d := disk;
        o := RestoreTarget(j, t);
        UndoContinues(old(disk), d, disk, j, t, SORTED_TARGETS[..i]);
        i := i + 1;
      }
      AllTargetsSorted();
      if o.Done? {
        assert SORTED_TARGETS[..i] == SORTED_TARGETS;
        forall t: Target
          ensures IsBefore(Lookup(disk.targets, t), j.before[t]) <==>
              !Mixed(Lookup(old(disk).targets, t), j.before[t], j.after[t])
        {
          SettledExactly(old(disk), disk, j, t);
        }
        var reloaded := Command();
        if !reloaded {
          o := CommandFailed;
        }
      }
    }

    /** Stops the timers, restores the targets, restarts an installation that was there before
        and writes the marker. */
    method RollbackTransaction(j: Journal) returns (o: Outcome)
      requires Valid() && Pending(disk, j) && Half(disk, j)
      modifies this`disk, this`trace, this`faults
      ensures Valid() && old(trace) <= trace
      ensures forall i :: |old(trace)| <= i < |trace| ==> RollingBack(old(disk), trace[i], j)
      ensures o.Done? ==> RolledBack(old(disk), disk, j)
      ensures healthy ==> o.Done?
      ensures !o.Done? ==> o == CommandFailed && Undoing(old(disk), disk, j)
      ensures faults == old(faults) + if o.CommandFailed? then 1 else 0
    {
      hide OneWrite, WriteByWrite, ClockAhead, Half, Undoing, Decide, Settled, Mixed, IsBefore, HoldsBefore, Lookup,
           RolledBack, Pending;
      UndoStarts(disk, j);
      var disabled := Command();
      if !disabled {
        return CommandFailed;
      }
      NothingRefused(disk, j);
      o := RestoreTransaction(j);
      if o.Done? && j.before[Active].Present? {
        var restarted := Command();
        if !restarted {
          o := CommandFailed;
        }
      }
      if o.Done? {
        AllRestored(old(disk), disk, j);
        MarkerFresh(old(disk), disk, j);
        o := WriteNewFile(WriteRolledBack(j.transactionId, j));
      }
    }

    /** Undoes an open transaction without a receipt and closes it. */
    method RollbackOpen(j: Journal) returns (o: Outcome)
      requires Valid() && Inv(disk) && Pending(disk, j) && j.transactionId !in disk.receipts
      modifies this`disk, this`trace, this`faults
      ensures Valid() && old(trace) <= trace
      ensures Steady(trace, |old(trace)|, Effective(old(disk)))
      ensures Inv(disk) && Effective(disk) == Effective(old(disk))
      ensures disk == old(disk).(targets := disk.targets, rolledBack := disk.rolledBack)
      ensures o.Done? ==> AtRest(disk) && disk.rolledBack == old(disk).rolledBack[j.transactionId := j]
      ensures healthy ==> o.Done?
      ensures !o.Done? ==> o == CommandFailed && disk == old(disk).(targets := disk.targets)
      ensures faults == old(faults) + if o.CommandFailed? then 1 else 0
    {
      hide Inv, Steady, OneWrite, AtRest, Effective, Half, WriteByWrite, ClockAhead;
      HalfOfOpen(disk, j);
      o := RollbackTransaction(j);
      RollbackTrace(old(disk), trace, |old(trace)|, j);
      RollbackSteady(old(disk), disk, j);
    }

    // ---- Recovery ----------------------------------------------------------------------------

    method CloseCommitted(j: Journal) returns (o: Outcome)
      requires Valid() && Inv(disk) && Pending(disk, j) && j.transactionId in disk.receipts
      modifies this`disk, this`trace
      ensures Valid() && o == Done && trace == old(trace) + [disk]
      ensures disk == Apply(old(disk), WriteCommitted(j.transactionId, Committed(j, Sha(ReceiptJson(j.receipt)))))
      ensures Inv(disk) && Effective(disk) == Effective(old(disk)) && OpenSet(disk) == {}
      ensures Effective(disk) == disk.targets
    {
      hide Inv, OneWrite, AtRest, Effective, Head;
      CommitFresh(disk, j);
      var w := WriteCommitted(j.transactionId, Committed(j, Sha(ReceiptJson(j.receipt))));
      CommitKeeps(disk, Apply(disk, w), j.transactionId);
      o := WriteNewFile(w);
    }

    /** Writes the activation record of the installed head. */
    method RecordActivation(a: Activation) returns (o: Outcome)
      requires Valid() && Inv(disk) && OpenSet(disk) == {} && Head(disk) == Some(a)
      modifies this`disk, this`trace
      ensures Valid() && o == Done && trace == old(trace) + [disk]
      ensures disk == Apply(old(disk), WriteActivation(a))
      ensures Inv(disk) && Effective(disk) == Effective(old(disk)) && AtRest(disk)
    {
      hide Inv, OneWrite, AtRest, Effective, Head;
      RecordFresh(disk, a);
      RecordKeeps(disk, Apply(disk, WriteActivation(a)));
      o := WriteNewFile(WriteActivation(a));
    }

    /** Completes a transaction whose receipt is on disk; `finalized` is false if there is none. */
    method FinalizeRecoveredCommit(j: Journal) returns (finalized: bool, o: Outcome)
      requires Valid() && Inv(disk) && Pending(disk, j)
      modifies this`disk, this`trace, this`faults
      ensures Valid() && old(trace) <= trace
      ensures Steady(trace, |old(trace)|, Effective(old(disk)))
      ensures Inv(disk) && Effective(disk) == Effective(old(disk))
      ensures finalized <==> j.transactionId in old(disk).receipts
      ensures !finalized ==> o.Done? && disk == old(disk) && trace == old(trace)
      ensures disk == old(disk).(committed := disk.committed, activations := disk.activations)
      ensures finalized && o.Done? ==> AtRest(disk)
      ensures finalized && o.Done? ==>
                disk.committed == old(disk).committed[j.transactionId := Committed(j, Sha(ReceiptJson(j.receipt)))]
      ensures healthy ==> o.Done?
      ensures !o.Done? ==> o == CommandFailed && disk == old(disk)
      ensures faults == old(faults) + if o.CommandFailed? then 1 else 0
    {
      hide Inv, OneWrite, AtRest, FinalizeFault, Steady, Effective, WriteByWrite, ClockAhead;
      finalized := j.transactionId in disk.receipts;
      o := Done;
      NothingSteady(trace, Effective(disk));
      if finalized {
        CommitAccepted(disk, j);
        o := if FinalizeFault(disk, j) then Rejected("MONITOR_INSTALL_RECOVERY_COMMITTED_FILE_INVALID") else Done;
        var started := Command();
        if o.Done? && !started {
          o := CommandFailed;
        }
        if o.Done? {
          var active := ReadActivation(Lookup(disk.targets, Active));
          o := CloseCommitted(j);
          ghost var closed := trace;
          SteadyGrows(old(trace), |old(trace)|, Effective(old(disk)), disk);
          HeadOfTargets(disk);
          o := RecordActivation(active.value);
          SteadyGrows(closed, |old(trace)|, Effective(old(disk)), disk);
        }
      }
    }

    /** Verifies a finished transaction and writes the activation record it may still owe. */
    method RecoverTerminal(tx: Digest) returns (o: Outcome)
      requires Valid() && Inv(disk) && tx in disk.prepared && (tx in disk.committed || tx in disk.rolledBack)
      modifies this`disk, this`trace
      ensures Valid() && old(trace) <= trace
      ensures Steady(trace, |old(trace)|, Effective(old(disk)))
      ensures Inv(disk) && Effective(disk) == Effective(old(disk))
      ensures disk == old(disk).(activations := disk.activations)
      ensures disk == old(disk) || AtRest(disk)
      ensures o == Done && Closed(disk, tx)
    {
      hide Inv, OneWrite, AtRest, Steady, TerminalCheck, Effective, Head;
      NothingSteady(trace, Effective(disk));
      TerminalAccepted(disk, tx);
      o := TerminalCheck(disk, tx);
      var j := disk.prepared[tx];
      if o.Done? && tx in disk.committed && j.activationSha !in disk.activations {
        o := RecordActivation(ReadActivation(Lookup(disk.targets, Active)).value);
        SteadyGrows(old(trace), |old(trace)|, Effective(old(disk)), disk);
        RestClosed(disk);
      }
    }

    /** Finishes or undoes an open transaction. */
    method RecoverOpen(j: Journal) returns (o: Outcome)
      requires Valid() && Inv(disk) && Pending(disk, j)
      modifies this`disk, this`trace, this`faults
      ensures Valid() && old(trace) <= trace
      ensures Steady(trace, |old(trace)|, Effective(old(disk)))
      ensures Inv(disk) && Effective(disk) == Effective(old(disk))
      ensures disk.prepared == old(disk).prepared && disk.receipts == old(disk).receipts
          && disk.backups == old(disk).backups
      ensures o.Done? ==> AtRest(disk)
      ensures o.Done? && j.transactionId in old(disk).receipts ==>
                && j.transactionId in disk.committed && j.transactionId !in disk.rolledBack
                && disk.targets == AfterFiles(j)
      ensures o.Done? && j.transactionId !in old(disk).receipts ==>
                && j.transactionId in disk.rolledBack && j.transactionId !in disk.committed
                && disk.targets == BeforeFiles(j)
      ensures healthy ==> o.Done?
      ensures !o.Done? ==> o == CommandFailed && disk == old(disk).(targets := disk.targets)
      ensures faults == old(faults) + if o.CommandFailed? then 1 else 0
    {
      hide Inv, OneWrite, AtRest, Steady, Effective, Head;
      PendingStands(disk, j);
      var finalized;
      finalized, o := FinalizeRecoveredCommit(j);
      if !finalized {
        o := RollbackOpen(j);
      }
      if o.Done? {
        RestStands(disk);
        Exclusive(disk);
      }
    }

    /** Deals with one prepared transaction. */
    method RecoverOne(tx: Digest) returns (o: Outcome)
      requires Valid() && Inv(disk) && tx in disk.prepared
      modifies this`disk, this`trace, this`faults
      ensures Valid() && old(trace) <= trace
      ensures Steady(trace, |old(trace)|, Effective(old(disk)))
      ensures Inv(disk) && Effective(disk) == Effective(old(disk))
      ensures disk.prepared == old(disk).prepared && disk.receipts == old(disk).receipts
          && disk.backups == old(disk).backups
      ensures forall x :: Closed(old(disk), x) ==> Closed(disk, x)
      ensures o.Done? ==> Closed(disk, tx)
      ensures healthy ==> o.Done?
      ensures !o.Done? ==> o == CommandFailed
      ensures faults == old(faults) + if o.CommandFailed? then 1 else 0
    {
      hide Inv, OneWrite, AtRest, Steady, Effective, Head;
      if tx in disk.committed || tx in disk.rolledBack {
        o := RecoverTerminal(tx);
      } else {
        OpenJournal(disk, tx);
        o := RecoverOpen(disk.prepared[tx]);
      }
      if disk.committed == old(disk).committed && disk.activations == old(disk).activations
          && disk.rolledBack == old(disk).rolledBack {
        StillOpen(old(disk), disk);
      }
      if AtRest(disk) {
        RestClosed(disk);
      }
    }

    /** Finishes or undoes whatever earlier processes left behind. */
    method Recover() returns (o: Outcome)
      requires Valid() && Inv(disk)
      modifies this`disk, this`trace, this`faults
      ensures Valid() && old(trace) <= trace
      ensures Steady(trace, |old(trace)|, Effective(old(disk)))
      ensures Inv(disk) && Effective(disk) == Effective(old(disk))
      ensures disk.prepared == old(disk).prepared && disk.receipts == old(disk).receipts
          && disk.backups == old(disk).backups
      ensures o.Done? ==> AtRest(disk)
      ensures healthy ==> o.Done?
      ensures !o.Done? ==> o == CommandFailed
      ensures faults == old(faults) + if o.CommandFailed? then 1 else 0
    {
      hide Inv, OneWrite, AtRest, Steady, Effective, Head, Closed;
      o := Done;
      var todo := disk.prepared.Keys;
      NothingSteady(trace, Effective(disk));
      while todo != {} && o.Done?
        invariant Valid() && old(trace) <= trace
        invariant Steady(trace, |old(trace)|, Effective(old(disk)))
        invariant Inv(disk) && Effective(disk) == Effective(old(disk))
        invariant disk.prepared == old(disk).prepared && disk.receipts == old(disk).receipts
            && disk.backups == old(disk).backups
        invariant todo <= disk.prepared.Keys
        invariant o.Done? ==> forall x :: x in disk.prepared && x !in todo ==> Closed(disk, x)
        invariant (o.Done? || o == CommandFailed) && (healthy ==> o.Done?)
        invariant faults == old(faults) + if o.CommandFailed? then 1 else 0
        decreases |todo|
      {
        var tx :| tx in todo;
        todo := todo - {tx};
        ghost var sofar := trace;
        o := RecoverOne(tx);
        SteadyJoins(sofar, trace, |old(trace)|, Effective(old(disk)));
      }
      if o.Done? {
        AllClosed(disk);
      }
    }

    // ---- Installing ----------------------------------------------------------------------------

    /** Accepts exactly the activations that took effect. */
    method AssertActivationWasCommitted(a: Activation) returns (ok: bool)
      requires Valid() && Inv(disk) && ValidActivation(a)
      ensures ok <==> exists tx :: tx in disk.committed && Proposed(disk, tx) == Some(a)
    {
      hide Inv, OneWrite, ProofHolds;
      ok := true;
      var matches := 0;
      var todo := disk.committed.Keys;
      while todo != {}
        invariant todo <= disk.committed.Keys
        invariant matches == |Matching(disk, a, disk.committed.Keys - todo)|
        invariant ok <==> forall tx :: tx in Matching(disk, a, disk.committed.Keys - todo) ==> ProofHolds(disk, tx, a)
        decreases |todo|
      {
        var tx :| tx in todo;
        MatchingGrows(disk, a, disk.committed.Keys - todo, tx);
        assert disk.committed.Keys - (todo - {tx}) == disk.committed.Keys - todo + {tx};
        todo := todo - {tx};
        if disk.committed[tx].journal.activationSha == a.sha {
          ok := ok && ProofHolds(disk, tx, a);
          matches := matches + 1;
        }
      }
      assert disk.committed.Keys - todo == disk.committed.Keys;
      CommitProof(disk, a);
      ok := ok && matches == 1;
    }

    /** Backs up one target and reports what was found there. */
    method SnapshotFile(tx: Digest, t: Target, index: nat) returns (ok: bool, s: Snapshot)
      requires Valid() && Inv(disk) && AtRest(disk) && tx !in disk.prepared
      modifies this`disk, this`trace
      ensures Valid() && old(trace) <= trace
      ensures Steady(trace, |old(trace)|, Effective(old(disk)))
      ensures Inv(disk) && AtRest(disk) && Effective(disk) == Effective(old(disk))
      ensures disk == old(disk).(backups := disk.backups)
      ensures forall key :: key in old(disk).backups && key != (tx, index) ==>
                key in disk.backups && disk.backups[key] == old(disk).backups[key]
      ensures forall key :: key in disk.backups && key != (tx, index) ==> key in old(disk).backups
      ensures ok ==> SnapshotSound(disk, tx, t, map[t := s]) && (s.Present? ==> s.backup == index)
      ensures !ok <==>
                && t in disk.targets
                && var f := disk.targets[t];
                   || f.meta.uid != 0 || f.meta.mode !in {0x100, 0x120, 0x124, 0x16d}
                   || ((tx, index) in old(disk).backups && old(disk).backups[(tx, index)] != f.raw)
    {
      hide Inv, OneWrite, AtRest, Steady, Effective;
      NothingSteady(trace, Effective(disk));
      var f := Lookup(disk.targets, t);
      ok, s := true, Absent;
      if f.Some? {
        ok := TrustedMeta(f.value.meta);
        if ok {
          var w := SaveBackup((tx, index), f.value.raw);
          BackupAtRest(disk, Apply(disk, w), tx, index, f.value.raw);
          var o := WriteNewFile(w);
          ok, s := o.Done?, Present(Sha(f.value.raw), f.value.meta, index);
          if ok {
            SteadyGrows(old(trace), |old(trace)|, Effective(old(disk)), disk);
          }
        }
      }
    }

    /** Backs up every target that exists and reports what was found. */
    method SnapshotTargets(tx: Digest) returns (ok: bool, before: map<Target, Snapshot>)
      requires Valid() && Inv(disk) && AtRest(disk) && tx !in disk.prepared
      modifies this`disk, this`trace
      ensures Valid() && old(trace) <= trace
      ensures Steady(trace, |old(trace)|, Effective(old(disk)))
      ensures Inv(disk) && AtRest(disk) && Effective(disk) == Effective(old(disk))
      ensures disk == old(disk).(backups := disk.backups)
      ensures ok ==> forall t: Target :: SnapshotSound(disk, tx, t, before)
      ensures !ok <==> Unbackable(old(disk), tx)
    {
      hide Inv, OneWrite, AtRest, Steady, Effective, SnapshotSound, Unsaved, FIXED_TARGETS;
      NothingSteady(trace, Effective(disk));
      ok := true;
      before := map[];
      var i := 0;
      while i < |FIXED_TARGETS| && ok
        invariant 0 <= i <= |FIXED_TARGETS|
        invariant Valid() && old(trace) <= trace
        invariant Steady(trace, |old(trace)|, Effective(old(disk)))
        invariant Inv(disk) && AtRest(disk) && Effective(disk) == Effective(old(disk))
        invariant disk == old(disk).(backups := disk.backups)
        invariant ok ==> forall t :: t in FIXED_TARGETS[..i] ==> SnapshotSound(disk, tx, t, before)
        invariant ok <==> forall k: nat :: k < i ==> !Unsaved(old(disk), tx, k)
        invariant forall k: nat :: i <= k ==>
                    ((tx, k) in disk.backups <==> (tx, k) in old(disk).backups)
                    && ((tx, k) in disk.backups ==> disk.backups[(tx, k)] == old(disk).backups[(tx, k)])
        invariant forall t :: t in before && before[t].Present? ==> before[t].backup < i
      {
        var t := FIXED_TARGETS[i];
        var s;
        ghost var d, sofar := disk, trace;
        ok, s := SnapshotFile(tx, t, i);
        SnapshotVerdict(old(disk), d, tx, i, ok);
        SteadyJoins(sofar, trace, |old(trace)|, Effective(old(disk)));
        if ok {
          DistinctFixed(i);
          SnapshotsStay(d, disk, tx, i, before, s);
          before := before[t := s];
        }
        i := i + 1;
      }
      AllTargetsFixed();
      UnsavedWithin(old(disk), tx);
      assert i == |FIXED_TARGETS| ==> FIXED_TARGETS[..i] == FIXED_TARGETS;
    }

    /** Replaces one target, or raises before. */
    method ReplaceTarget(req: Request, a: Activation, j: Journal, t: Target) returns (ok: bool)
      requires Valid() && Inv(disk) && Pending(disk, j) && j.transactionId !in disk.receipts
      requires j == CreateJournal(req, a, j.before)
      modifies this`disk, this`trace, this`faults
      ensures Valid() && old(trace) <= trace
      ensures Steady(trace, |old(trace)|, Effective(old(disk)))
      ensures Inv(disk) && Effective(disk) == Effective(old(disk))
      ensures disk == if ok then old(disk).(targets := old(disk).targets[t := NewFile(req, a, t)]) else old(disk)
      ensures healthy ==> ok
      ensures faults == old(faults) + if ok then 0 else 1
    {
      hide Inv, OneWrite, Steady, Effective, CreateJournal, NewFile, WriteByWrite, ClockAhead;
      NothingSteady(trace, Effective(disk));
      ok := Command();
      if ok {
        ReplaceForward(disk, Apply(disk, Replace(t, NewFile(req, a, t))), req, a, j, t);
        Perform(Replace(t, NewFile(req, a, t)));
        SteadyGrows(old(trace), |old(trace)|, Effective(old(disk)), disk);
      }
    }

    /** Replaces the targets one by one, the active record last. Any step may raise. */
    method ApplyChanges(req: Request, a: Activation, j: Journal) returns (ok: bool)
      requires Valid() && Inv(disk) && Pending(disk, j) && j.transactionId !in disk.receipts
      requires j == CreateJournal(req, a, j.before)
      modifies this`disk, this`trace, this`faults
      ensures Valid() && old(trace) <= trace
      ensures Steady(trace, |old(trace)|, Effective(old(disk)))
      ensures Inv(disk) && Effective(disk) == Effective(old(disk)) && disk == old(disk).(targets := disk.targets)
      ensures ok ==> forall t: Target :: Lookup(disk.targets, t) == Some(NewFile(req, a, t))
      ensures healthy ==> ok
      ensures faults == old(faults) + if ok then 0 else 1
    {
      hide Inv, OneWrite, Steady, Effective, CreateJournal, NewFile, FIXED_TARGETS, WriteByWrite, ClockAhead;
      NothingSteady(trace, Effective(disk));
      ok := Command();
      var i := 0;
      while i < |FIXED_TARGETS| && ok
        invariant 0 <= i <= |FIXED_TARGETS|
        invariant Valid() && old(trace) <= trace
        invariant Steady(trace, |old(trace)|, Effective(old(disk)))
        invariant Inv(disk) && Effective(disk) == Effective(old(disk)) && disk == old(disk).(targets := disk.targets)
        invariant forall t :: t in FIXED_TARGETS[..i] ==> Lookup(disk.targets, t) == Some(NewFile(req, a, t))
        invariant healthy ==> ok
        invariant faults == old(faults) + if ok then 0 else 1
        decreases |FIXED_TARGETS| - i, ok
      {
        var t := FIXED_TARGETS[i];
        ghost var sofar := trace;
        ok := ReplaceTarget(req, a, j, t);
        SteadyJoins(sofar, trace, |old(trace)|, Effective(old(disk)));
        if ok {
          assert FIXED_TARGETS[..i + 1] == FIXED_TARGETS[..i] + [t];
          i := i + 1;
        }
      }
      if ok {
        AllTargetsFixed();
        assert FIXED_TARGETS[..i] == FIXED_TARGETS;
        ok := Command();
      }
    }

    /** Receipt, committed marker, activation record: the first of the three writes is the commit point. */
    method CommitTransaction(a: Activation, j: Journal) returns (o: Outcome)
      requires Valid() && Inv(disk) && Pending(disk, j) && j.transactionId !in disk.receipts
      requires Proposed(disk, j.transactionId) == Some(a)
      requires forall t: Target :: HoldsAfter(disk, j.transactionId, t)
      modifies this`disk, this`trace
      ensures Valid() && old(trace) < trace && o == Done
      ensures Steady(trace, |old(trace)|, old(disk).targets)
      ensures CommitPoint(old(disk), trace[|old(trace)|])
      ensures Inv(disk) && Effective(disk) == disk.targets == old(disk).targets && AtRest(disk) && Head(disk) == Some(a)
      ensures disk.receipts == old(disk).receipts[j.transactionId := j.receipt] && j.transactionId in disk.committed
      ensures disk.prepared == old(disk).prepared
    {
      hide Inv, OneWrite, Steady, Effective, AtRest, Head, CommitPoint;
      var w := WriteReceipt(j.transactionId, j.receipt);
      ReceiptIsCommit(disk, Apply(disk, w), a, j);
      NothingSteady(trace, disk.targets);
      Perform(w);
      SteadyGrows(old(trace), |old(trace)|, disk.targets, disk);
      ghost var sofar := trace;
      o := CloseCommitted(j);
      SteadyGrows(sofar, |old(trace)|, disk.targets, disk);
      sofar := trace;
      HeadOfTargets(disk);
      o := RecordActivation(a);
      SteadyGrows(sofar, |old(trace)|, disk.targets, disk);
      HeadOfTargets(disk);
    }

    /** Backs up the targets and opens the transaction. */
    method Prepare(req: Request, a: Activation) returns (ok: bool, j: Journal)
      requires Valid() && Inv(disk) && AtRest(disk)
      requires a == CreateActivation(req, clock) && ClockBehind(disk, clock)
      requires req.previous == ShaOf(Head(disk)) && req.generation == GenerationOf(Head(disk)) + 1
      modifies this`disk, this`trace
      ensures Valid() && old(trace) <= trace
      ensures Steady(trace, |old(trace)|, Effective(old(disk)))
      ensures Inv(disk) && Effective(disk) == Effective(old(disk))
      ensures ok ==> Pending(disk, j) && j.transactionId !in disk.receipts && j == CreateJournal(req, a, j.before)
      ensures ok ==> Proposed(disk, j.transactionId) == Some(a)
      ensures !ok ==> AtRest(disk)
      ensures !ok <==> Unbackable(old(disk), Sha(TransactionJson(a.sha, req.authorization)))
      ensures Remembers(old(disk), disk)
    {
      hide Inv, OneWrite, Steady, Effective, AtRest, Head, FIXED_TARGETS, CreateActivation, CreateJournal, Proposed,
           SnapshotSound, Unbackable;
      var tx := Sha(TransactionJson(a.sha, req.authorization));
      FreshTransaction(disk, req, clock);
      var before;
      ok, before := SnapshotTargets(tx);
      j := CreateJournal(req, a, before);
      if ok {
        SameHead(old(disk), disk);
        HeadPositive(disk);
        JournalName(req, a, before);
        JournalOpens(disk, Apply(disk, WritePrepared(tx, j)), req, a, clock, before);
        ghost var sofar := trace;
        Perform(WritePrepared(tx, j));
        SteadyGrows(sofar, |old(trace)|, Effective(old(disk)), disk);
      }
    }

    /** A forward rollback must name a recorded activation with the requested bundle and runtime.
        That the named activation was committed needs no separate luck: every recorded one was. */
    method CheckRollbackTarget(req: Request) returns (ok: bool)
      requires Valid() && Inv(disk)
      ensures req.operation.Install? ==> ok
      ensures req.operation.Rollback? ==>
                (ok <==>
                  && req.rollbackTarget != req.previous && req.rollbackTarget != ZERO
                  && req.rollbackTarget in disk.activations
                  && disk.activations[req.rollbackTarget].body.bundle == req.bundle
                  && disk.activations[req.rollbackTarget].body.runtime == req.runtime)
    {
      hide Inv, OneWrite;
      if req.operation.Install? {
        ok := true;
      } else if req.rollbackTarget == req.previous || req.rollbackTarget == ZERO
                || req.rollbackTarget !in disk.activations {
        ok := false;
      } else {
        var record := disk.activations[req.rollbackTarget];
        ok := record.body.bundle == req.bundle && record.body.runtime == req.runtime;
        RecordedWasCommitted(disk, req.rollbackTarget);
        if ok {
          ok := AssertActivationWasCommitted(record);
        }
      }
    }

    /** The requested installation is already there: make sure its record and its timers are. */
    method Reaffirm(existing: Activation) returns (o: InstallOutcome)
      requires Valid() && Inv(disk) && AtRest(disk) && Head(disk) == Some(existing)
      modifies this`disk, this`trace, this`faults
      ensures Valid() && old(trace) <= trace
      ensures Steady(trace, |old(trace)|, Effective(old(disk)))
      ensures Inv(disk) && AtRest(disk) && Effective(disk) == Effective(old(disk)) && Head(disk) == Head(old(disk))
      ensures o == AlreadyCommitted(existing.sha) || (o == Failed && !healthy)
      ensures disk == old(disk).(activations := disk.activations)
      ensures o.Failed? <==> faults != old(faults)
    {
      hide Inv, OneWrite, Steady, Effective, AtRest, Head;
      NothingSteady(trace, Effective(disk));
      ClosedSet(disk);
      HeadValid(disk);
      HeadProven(disk);
      var proved := AssertActivationWasCommitted(existing);
      var verified := Command();
      if proved {
        var r := RecordActivation(existing);
        SteadyGrows(old(trace), |old(trace)|, Effective(old(disk)), disk);
        SameHead(old(disk), disk);
      }
      o := if proved && verified then AlreadyCommitted(existing.sha) else Failed;
    }

    /** Opens a transaction, applies it and either commits it or undoes it. */
    method Execute(req: Request, a: Activation) returns (o: InstallOutcome, ghost commit: nat)
      requires Valid() && Inv(disk) && AtRest(disk)
      requires a == CreateActivation(req, clock) && ClockBehind(disk, clock)
      requires req.previous == ShaOf(Head(disk)) && req.generation == GenerationOf(Head(disk)) + 1
      modifies this`disk, this`trace, this`faults
      ensures Valid() && old(trace) <= trace && |old(trace)| <= commit <= |trace|
      ensures Steady(trace[..commit], |old(trace)|, Effective(old(disk)))
      ensures Steady(trace, commit, Effective(disk)) && Inv(disk)
      ensures commit == |trace| ==> Effective(disk) == Effective(old(disk))
      ensures commit < |trace| ==>
                CommitPoint(trace[commit - 1], trace[commit]) && AtRest(disk) && InstalledAs(disk, req)
      ensures o.Installed? ==> commit < |trace|
      ensures o.Refused? ==> commit == |trace| && AtRest(disk)
      ensures !o.AlreadyCommitted? && (healthy ==> !o.Failed?)
      ensures o.Refused? ==> o.code == "MONITOR_INSTALL_BACKUP_FILE_INVALID"
      ensures o.Refused? <==> Unbackable(old(disk), Sha(TransactionJson(a.sha, req.authorization)))
      ensures commit < |trace| ==> Head(disk).value.body.committedAt == clock
      ensures o.Installed? ==> IsReceipt(disk, o.receipt, req, clock)
      ensures Remembers(old(disk), disk)
      ensures o.Failed? <==> faults != old(faults)
    {
      hide Inv, OneWrite, Steady, Effective, AtRest, Head, CommitPoint, CreateActivation, CreateJournal, RecordOf,
           InstalledAs, HoldsAfter, NewFile, Unbackable, IsReceipt, Remembers, WriteByWrite, ClockAhead, Lookup;
      var ok, j := Prepare(req, a);
      commit := |trace|;
      SteadyEnds(trace, |old(trace)|, Effective(old(disk)), Effective(disk));
      if !ok {
        return Refused("MONITOR_INSTALL_BACKUP_FILE_INVALID"), commit;
      }
      ghost var begun, d := trace, disk;
      ok := ApplyChanges(req, a, j);
      SteadyJoins(begun, trace, |old(trace)|, Effective(old(disk)));
      ghost var applied := trace;
      if !ok {
        var r := RollbackOpen(j);
        SteadyJoins(applied, trace, |old(trace)|, Effective(old(disk)));
        commit := |trace|;
        SteadyEnds(trace, |old(trace)|, Effective(old(disk)), Effective(disk));
        RemembersOn(old(disk), d, disk);
        return Failed, commit;
      }
      AllApplied(d, disk, req, a, j);
      var r := CommitTransaction(a, j);
      commit := |applied|;
      assert trace[..commit] == applied;
      AsRequested(disk, req, a, clock);
      ReceiptOf(disk, req, a, j, clock);
      RemembersOn(old(disk), d, disk);
      var verified := Command();
      o := if verified then InstallOutcome.Installed(j.receipt) else Failed;
    }

    /** One run of the installer: recover, check, and then install as a whole or not at all.
        `commit` is the position in the trace of the one state that switches the contents,
        or the end of the trace if there is none; `inputsOk` is the verdict on configuration,
        policy and runtime files. */
    method Install(req: Request, inputsOk: bool) returns (o: InstallOutcome, ghost commit: nat)
      requires Valid() && Inv(disk)
      modifies this`disk, this`trace, this`clock, this`faults
      ensures Valid() && old(trace) <= trace && |old(trace)| <= commit <= |trace|
      ensures Steady(trace[..commit], |old(trace)|, Effective(old(disk)))
      ensures Steady(trace, commit, Effective(disk)) && Inv(disk)
      ensures commit == |trace| ==> Effective(disk) == Effective(old(disk))
      ensures commit < |trace| ==>
                CommitPoint(trace[commit - 1], trace[commit]) && AtRest(disk) && InstalledAs(disk, req)
      ensures o.Installed? ==> commit < |trace|
      ensures o.AlreadyCommitted? || o.Refused? ==> commit == |trace| && AtRest(disk)
      ensures o.AlreadyCommitted? ==> IsStable(Head(disk), req) && o.sha == ShaOf(Head(disk))
      ensures o.Installed? || o.AlreadyCommitted? ==> inputsOk
      ensures o.Installed? ==> Continues(Head(old(disk)), req)
      ensures commit < |trace| ==> Head(disk).value.body.committedAt == clock
      ensures o.Installed? ==> IsReceipt(disk, o.receipt, req, clock)
      ensures Remembers(old(disk), disk)
      ensures healthy ==> !o.Failed?
      ensures o.Installed? || o.AlreadyCommitted? ==> TargetOk(old(disk), req)
      ensures healthy ==> (o.AlreadyCommitted? <==>
          inputsOk && TargetOk(old(disk), req) && IsStable(Head(old(disk)), req))
      ensures var unbackable := Unbackable(old(disk).(targets := Effective(old(disk))),
                                           Sha(TransactionJson(CreateActivation(req, clock).sha, req.authorization)));
              && (o == Refused("MONITOR_INSTALL_BACKUP_FILE_INVALID") ==> unbackable)
              && (healthy ==>
                    (o.Installed? || o == Refused("MONITOR_INSTALL_BACKUP_FILE_INVALID") <==>
                      && inputsOk && TargetOk(old(disk), req)
                      && !IsStable(Head(old(disk)), req) && Continues(Head(old(disk)), req)))
              && (healthy && o.Installed? ==> !unbackable)
      ensures o.Failed? <==> faults != old(faults)
    {
      hide Inv, OneWrite, Steady, Effective, AtRest, Head, CommitPoint, StableMatch, CreateActivation, InstalledAs,
           ClockAhead, WriteByWrite, TargetOk, Unbackable, IsReceipt, WrongPredecessor, Lookup, ReadActivation;
      var r := Recover();
      ghost var recovered := trace;
      commit := |trace|;
      SteadyEnds(trace, |old(trace)|, Effective(old(disk)), Effective(disk));
      if !r.Done? {
        return Failed, commit;
      }
      RestStands(disk);
      SameHead(old(disk), disk);
      ghost var stood, ready := old(disk).(targets := Effective(old(disk))), disk;
      var existing := ReadActivation(Lookup(disk.targets, Active));
      var targetOk := CheckRollbackTarget(req);
      RequestedTarget(old(disk), disk, req, targetOk);
      var stable := IsStable(existing, req);
      NextIsNotStable(existing, req);
      ContinuesExactly(existing, req);
      if !targetOk || !inputsOk || (!stable && WrongPredecessor(existing, req)) {
        return Refused("MONITOR_INSTALL_REQUEST_REFUSED"), commit;
      }
      if stable {
        o := Reaffirm(existing.value);
        commit := |trace|;
        SteadyJoins(recovered, trace, |old(trace)|, Effective(old(disk)));
        SteadyEnds(trace, |old(trace)|, Effective(old(disk)), Effective(disk));
      } else {
        TickFits(trace, clock);
        clock := clock + 1;
        SameUnbackable(stood, ready, Sha(TransactionJson(CreateActivation(req, clock).sha, req.authorization)));
        o, commit := Execute(req, CreateActivation(req, clock));
        SteadyPrefixJoins(recovered, trace[..commit], |old(trace)|, Effective(old(disk)));
      }
    }

    /** An installation, then the same request again: the second run finds it there. */
    method InstallAgain(req: Request, inputsOk: bool) returns (first: InstallOutcome, again: InstallOutcome)
      requires Valid() && Inv(disk)
      modifies this`disk, this`trace, this`clock, this`healthy, this`faults
      ensures Valid() && Inv(disk)
      ensures first.Installed? ==>
                again == AlreadyCommitted(ShaOf(Head(disk))) && AtRest(disk) && InstalledAs(disk, req)
    {
      hide Inv, OneWrite, WriteByWrite, ClockAhead, Effective, AtRest, Steady, CommitPoint, InstalledAs, Head, TargetOk,
           Unbackable, IsReceipt, IsStable, Continues, Remembers;
      ghost var commit;
      ghost var start := disk;
      first, commit := Install(req, inputsOk);
      ghost var middle := disk;
      if first.Installed? {
        InstalledIsStable(disk, req);
        TargetStaysOk(start, disk, req);
        RestStands(disk);
      }
      healthy := true;
      again, commit := Install(req, inputsOk);
      if first.Installed? {
        RestStands(disk);
        SameHead(middle, disk);
        SameContents(middle, disk, req);
      }
    }

    // ---- Whole histories -------------------------------------------------------------------------

    /** The process is killed right after write `k`: later writes never happened. */
    method Die(k: nat)
      requires Valid() && k < |trace|
      modifies this`disk, this`trace
      ensures Valid() && disk == old(trace)[k] && trace == old(trace)[..k + 1]
    {
      hide OneWrite;
      disk := trace[k];
      trace := trace[..k + 1];
    }

    /** On any disk whatsoever, an undo killed after any write and started again, any number of
        times: in the end it refuses exactly when the first attempt would have, and otherwise
        every target is settled as one undo would have settled it. From targets that each hold
        their old or new file it never refuses and puts all of them back, whether the
        transaction has a receipt or not. */
    method RestoreRepeatedly(j: Journal, attempts: nat, lastHealthy: bool) returns (o: Outcome)
      requires Valid() && forall t: Target :: t in j.before && t in j.after
      modifies this`disk, this`trace, this`healthy, this`faults
      ensures Valid() && Undoing(old(disk), disk, j)
      ensures o.Rejected? <==> exists t: Target :: Decide(old(disk), j, t).Refuse?
      ensures lastHealthy && !o.Rejected? ==> o.Done?
      ensures !o.Rejected? ==> forall t: Target :: Settled(old(disk), disk, j, t)
      ensures Half(old(disk), j) ==> !o.Rejected? && forall t: Target :: HoldsBefore(disk, j.transactionId, t)
      ensures Inv(old(disk)) && Pending(old(disk), j) && j.transactionId !in old(disk).receipts ==>
                Inv(disk) && Effective(disk) == Effective(old(disk))
    {
      hide Inv, OneWrite, WriteByWrite, ClockAhead, Effective, Undoing, HoldsBefore, Mixed, IsBefore, Settled, Decide,
           Half;
      var n := attempts;
      UndoStarts(disk, j);
      while n > 0
        invariant Valid() && Undoing(old(disk), disk, j)
      {
        var from := |trace|;
        ghost var start := disk;
        healthy := *;
        o := RestoreTransaction(j);
        var k: nat :| from - 1 <= k < |trace|;
        Die(k);
        UndoStarts(start, j);
        UndoJoins(old(disk), start, disk, j);
        n := n - 1;
      }
      ghost var start := disk;
      healthy := lastHealthy;
      o := RestoreTransaction(j);
      UndoJoins(old(disk), start, disk, j);
      UndoneInParts(old(disk), start, disk, j, o.Rejected?);
    }

    /** Recovery of one transaction that a run began to undo although it had a receipt. */
    method RecoverLate(j: Journal, ghost d: Disk) returns (o: Outcome)
      requires Valid() && Inv(d) && Pending(d, j) && j.transactionId in d.receipts && RollingBack(d, disk, j)
      modifies this`disk, this`trace, this`faults
      ensures Valid() && !(o.CommandFailed? && healthy)
      ensures o.Rejected? <==> j.transactionId !in old(disk).rolledBack && old(disk).targets != d.targets
      ensures o.Rejected? || j.transactionId in old(disk).rolledBack ==> disk == old(disk)
      ensures o.Done? && j.transactionId !in old(disk).rolledBack ==>
                j.transactionId in disk.committed && disk.targets == d.targets && AtRest(disk)
    {
      hide Inv, OneWrite, WriteByWrite, ClockAhead, Effective, AtRest, Steady, FinalizeFault, TerminalCheck, Undoing,
           RolledBack;
      LateUndoExactly(d, disk, j);
      LateUndoParts(d, disk, j);
      if j.transactionId in disk.rolledBack {
        o := TerminalCheck(disk, j.transactionId);
      } else if FinalizeFault(disk, j) {
        o := Rejected("MONITOR_INSTALL_RECOVERY_COMMITTED_FILE_INVALID");
      } else {
        var finalized;
        finalized, o := FinalizeRecoveredCommit(j);
      }
    }

    /** An exception between receipt and committed marker, the undo it starts killed after any
        write, and any number of recoveries: all of them refuse exactly when the kill came
        after a target had moved and before the marker. Otherwise the transaction ends as
        committed, if nothing had moved, or as rolled back. */
    method FailAfterReceipt(j: Journal, attempts: nat) returns (o: Outcome, ghost left: Disk)
      requires Valid() && Inv(disk) && Pending(disk, j) && j.transactionId in disk.receipts
      modifies this`disk, this`trace, this`healthy, this`faults
      ensures Valid() && RollingBack(old(disk), left, j)
      ensures o.Rejected? <==> j.transactionId !in left.rolledBack && left.targets != old(disk).targets
      ensures o.Rejected? || j.transactionId in left.rolledBack ==> disk == left
      ensures o.Done? && j.transactionId !in left.rolledBack ==>
                j.transactionId in disk.committed && disk.targets == old(disk).targets && AtRest(disk)
    {
      hide Inv, OneWrite, WriteByWrite, ClockAhead, Effective, AtRest, Undoing, RolledBack, Half;
      var first := |trace| - 1;
      UndoStarts(disk, j);
      HalfOfOpen(disk, j);
      var _ := RollbackTransaction(j);
      var k: nat :| first <= k < |trace|;
      Die(k);
      left := disk;
      healthy := *;
      o := RecoverLate(j, old(disk));
      var n := attempts;
      while n > 0 && o.Rejected?
        invariant Valid()
        invariant o.Rejected? ==> disk == left
        invariant o.Rejected? <==> j.transactionId !in left.rolledBack && left.targets != old(disk).targets
        invariant j.transactionId in left.rolledBack ==> disk == left
        invariant o.Done? && j.transactionId !in left.rolledBack ==>
                    j.transactionId in disk.committed && disk.targets == old(disk).targets && AtRest(disk)
      {
        healthy := *;
        o := RecoverLate(j, old(disk));
        n := n - 1;
      }
    }

    /** One run of the installer killed after any of its writes, then any number of
        recoveries killed likewise, then one that is left alone: the targets are all as
        they were or all as requested, and a receipt appeared in the second case only. The
        last recovery finishes whenever its own outside steps succeed, whatever happened to
        those of the runs before it. */
    method InstallUnderCrashes(req: Request, inputsOk: bool, attempts: nat, lastHealthy: bool)
      returns (r: InstallOutcome, completed: bool, o: Outcome, ghost installed: bool)
      requires Valid() && Inv(disk)
      modifies this
      ensures Valid() && Inv(disk) && !o.Rejected? && (lastHealthy ==> o.Done?)
      ensures completed && r.Installed? ==> installed
      ensures o.Done? ==> AtRest(disk) && AllOrNothing(old(disk), disk, req, installed)
    {
      hide Inv, OneWrite, WriteByWrite, ClockAhead, Effective, AtRest, Steady, CommitPoint, InstalledAs, StableMatch,
           Head, AllOrNothing, OneReceiptMore, WrongPredecessor, Unbackable;
      ghost var start := |trace| - 1;
      var first := |trace| - 1;
      ghost var commit;
      r, commit := Install(req, inputsOk);
      ghost var full, final := trace, disk;
      var k: nat :| first <= k < |trace|;
      completed := k == |trace| - 1;
      installed := commit <= k;
      CrashPoint(full, start, commit, k, Effective(old(disk)), Effective(final));
      Die(k);
      ghost var left := disk;
      var n := attempts;
      while n > 0
        invariant Valid() && Inv(disk)
        invariant Effective(disk) == Effective(left) && disk.receipts.Keys == left.receipts.Keys
      {
        healthy := *;
        RecoverAndDie();
        n := n - 1;
      }
      healthy := lastHealthy;
      o := Recover();
      if o.Done? {
        CameToRest(old(disk), final, left, disk, req, installed);
      }
    }

    /** A recovery killed after any of its writes. */
    method RecoverAndDie()
      requires Valid() && Inv(disk)
      modifies this`disk, this`trace, this`faults
      ensures Valid() && Inv(disk)
      ensures Effective(disk) == Effective(old(disk)) && disk.receipts.Keys == old(disk).receipts.Keys
    {
      hide Inv, OneWrite, WriteByWrite, ClockAhead, Effective, AtRest, Steady;
      var first := |trace| - 1;
      var _ := Recover();
      var k: nat :| first <= k < |trace|;
      SteadyReceipts(trace, first, k, Effective(old(disk)));
      Die(k);
    }

    /** Any number of runs, each killed after any of its writes. */
    method Lifetimes(requests: seq<Request>)
      requires Valid() && Inv(disk)
      modifies this
      ensures Valid() && Inv(disk) && old(trace) <= trace && Lawful(trace, |old(trace)| - 1)
    {
      hide Inv, OneWrite, WriteByWrite, ClockAhead, Effective, AtRest, Steady, CommitPoint, InstalledAs, StableMatch,
           Head, Lawful;
      LawfulStart(trace);
      for n := 0 to |requests|
        invariant Valid() && Inv(disk) && old(trace) <= trace && Lawful(trace, |old(trace)| - 1)
      {
        ghost var sofar, stood := trace, Effective(disk);
        var first := |trace| - 1;
        var inputsOk: bool := *;
        healthy := *;
        var _, commit := Install(requests[n], inputsOk);
        var k: nat :| first <= k < |trace|;
        RunLawful(trace, first, commit, stood, Effective(disk));
        LawfulJoins(sofar, trace, |old(trace)| - 1);
        LawfulPrefix(trace, |old(trace)| - 1, k + 1);
        Die(k);
        LawfulSound(trace, |old(trace)| - 1);
      }
    }
  }
}
