/** The installer's single writes and checks, and what they do to a sound disk: the
    vocabulary and the lemmas the installer process is proved with. */
module HostProtocol {
  import opened Wrappers
  import opened HostRecords
  import opened HostInvariant

  datatype Outcome = Done | Rejected(code: string) | CommandFailed

  /** One atomic write: a single file appears, is replaced or goes away. */
  datatype Write =
    | Replace(t: Target, f: File)
    | Remove(t: Target)
    | SaveBackup(key: (Digest, nat), raw: Blob)
    | WritePrepared(tx: Digest, j: Journal)
    | WriteReceipt(tx: Digest, r: Receipt)
    | WriteCommitted(tx: Digest, c: Committed)
    | WriteRolledBack(tx: Digest, j: Journal)
    | WriteActivation(a: Activation)

  function Apply(d: Disk, w: Write): Disk {
    match w
    case Replace(t, f) => d.(targets := d.targets[t := f])
    case Remove(t) => d.(targets := d.targets - {t})
    case SaveBackup(key, raw) => d.(backups := d.backups[key := raw])
    case WritePrepared(tx, j) => d.(prepared := d.prepared[tx := j])
    case WriteReceipt(tx, r) => d.(receipts := d.receipts[tx := r])
    case WriteCommitted(tx, c) => d.(committed := d.committed[tx := c])
    case WriteRolledBack(tx, j) => d.(rolledBack := d.rolledBack[tx := j])
    case WriteActivation(a) => d.(activations := d.activations[a.sha := a])
  }

  /** `write_new_file` finds the name taken by different contents. */
  predicate Collides(d: Disk, w: Write) {
    match w
    case Replace(_, _) => false
    case Remove(_) => false
    case SaveBackup(key, raw) => key in d.backups && d.backups[key] != raw
    case WritePrepared(tx, j) => tx in d.prepared && d.prepared[tx] != j
    case WriteReceipt(tx, r) => tx in d.receipts && d.receipts[tx] != r
    case WriteCommitted(tx, c) => tx in d.committed && d.committed[tx] != c
    case WriteRolledBack(tx, j) => tx in d.rolledBack && d.rolledBack[tx] != j
    case WriteActivation(a) => a.sha in d.activations && d.activations[a.sha] != a
  }

  /** Every file but the targets is still there with the same contents. */
  ghost predicate Extends(d: Disk, e: Disk) {
    && (forall k :: k in d.backups ==> k in e.backups && e.backups[k] == d.backups[k])
    && (forall tx :: tx in d.prepared ==> tx in e.prepared && e.prepared[tx] == d.prepared[tx])
    && (forall tx :: tx in d.receipts ==> tx in e.receipts && e.receipts[tx] == d.receipts[tx])
    && (forall tx :: tx in d.committed ==> tx in e.committed && e.committed[tx] == d.committed[tx])
    && (forall tx :: tx in d.rolledBack ==> tx in e.rolledBack && e.rolledBack[tx] == d.rolledBack[tx])
    && (forall sha :: sha in d.activations ==> sha in e.activations && e.activations[sha] == d.activations[sha])
  }

  /** A write collides exactly when it would change a file that is not a target. */
  lemma CollidesExactly(d: Disk, w: Write)
    ensures Collides(d, w) <==> !Extends(d, Apply(d, w))
  {
  }

  /** One call of the installer: `source` is the new contents of every target but the active record. */
  datatype Request = Request(
    operation: Operation,
    rollbackTarget: Digest,
    activationId: string,
    generation: int,
    previous: Digest,
    bundle: Digest,
    runtime: Digest,
    authorization: Digest,
    source: Target -> Blob)

  datatype InstallOutcome =
    | Installed(receipt: Receipt)
    | AlreadyCommitted(sha: Digest)
    | Refused(code: string)
    | Failed

  function CreateActivation(req: Request, now: nat): Activation {
    var body := Body(req.activationId, req.generation, req.bundle, req.runtime,
                     Sha(req.source(PrivateConfig)), req.previous, now);
    Activation(Sha(BodyJson(body)), body)
  }

  /** What the installation of `a` leaves at each target. */
  function NewFile(req: Request, a: Activation, t: Target): File {
    File(if t == Active then ActivationJson(a) else req.source(t), MetaOf(t))
  }

  function CreateJournal(req: Request, a: Activation, before: map<Target, Snapshot>): Journal {
    var tx := Sha(TransactionJson(a.sha, req.authorization));
    var after := map t | t in FIXED_TARGETS :: Mark(Sha(NewFile(req, a, t).raw), MetaOf(t));
    var receipt := Receipt(req.operation, tx, a.sha, req.bundle, req.runtime, a.body.privateConfig,
                           req.authorization, a.body.committedAt);
    Journal(tx, a.sha, req.authorization, before, after, receipt, a.body.committedAt)
  }

  /** The installation on disk is already the requested one. */
  predicate StableMatch(existing: Activation, req: Request) {
    && existing.body.activationId == req.activationId
    && existing.body.generation == req.generation
    && existing.body.bundle == req.bundle
    && existing.body.runtime == req.runtime
    && existing.body.privateConfig == Sha(req.source(PrivateConfig))
    && existing.body.previous == req.previous
  }

  /** There is an installation and it is the requested one. */
  predicate IsStable(existing: Option<Activation>, req: Request) {
    existing.Some? && StableMatch(existing.value, req)
  }

  /** The request does not continue from the installation on disk. */
  predicate WrongPredecessor(existing: Option<Activation>, req: Request) {
    match existing
    case None => req.previous != ZERO || req.generation != 1
    case Some(a) => a.sha != req.previous || req.generation != a.body.generation + 1
  }

  /** The request continues from the installation there is, or is the first. */
  ghost predicate Continues(existing: Option<Activation>, req: Request) {
    req.previous == ShaOf(existing) && req.generation == GenerationOf(existing) + 1
  }

  lemma ContinuesExactly(existing: Option<Activation>, req: Request)
    ensures Continues(existing, req) <==> !WrongPredecessor(existing, req)
  {
  }

  /** Modes `snapshot_file` accepts for a file it is about to replace. */
  predicate TrustedMeta(m: Meta) {
    m.uid == 0 && m.mode in {0x100, 0x120, 0x124, 0x16d}
  }

  /** The `k`-th target cannot be backed up: its owner or mode is not one the installer
      replaces, or an earlier attempt left other bytes under the name of the backup. */
  ghost predicate Unsaved(d: Disk, tx: Digest, k: nat) {
    k < |FIXED_TARGETS| && FIXED_TARGETS[k] in d.targets &&
    var f := d.targets[FIXED_TARGETS[k]];
    || f.meta.uid != 0 || f.meta.mode !in {0x100, 0x120, 0x124, 0x16d}
    || ((tx, k) in d.backups && d.backups[(tx, k)] != f.raw)
  }

  lemma UnsavedWithin(d: Disk, tx: Digest)
    ensures forall k: nat :: Unsaved(d, tx, k) ==> k < |FIXED_TARGETS|
  {
  }

  /** The verdict of backing up target `i` on `e`, where earlier targets have been backed up. */
  lemma SnapshotVerdict(d: Disk, e: Disk, tx: Digest, i: nat, ok: bool)
    requires i < |FIXED_TARGETS| && e.targets == d.targets
    requires (tx, i) in e.backups <==> (tx, i) in d.backups
    requires (tx, i) in e.backups ==> e.backups[(tx, i)] == d.backups[(tx, i)]
    requires !ok <==>
             && FIXED_TARGETS[i] in e.targets
             && var f := e.targets[FIXED_TARGETS[i]];
                || f.meta.uid != 0 || f.meta.mode !in {0x100, 0x120, 0x124, 0x16d}
                || ((tx, i) in e.backups && e.backups[(tx, i)] != f.raw)
    ensures ok <==> !Unsaved(d, tx, i)
  {
    hide FIXED_TARGETS;
  }

  ghost predicate Unbackable(d: Disk, tx: Digest) {
    exists k: nat :: Unsaved(d, tx, k)
  }

  lemma SameUnbackable(d: Disk, e: Disk, tx: Digest)
    requires e.targets == d.targets && e.backups == d.backups
    ensures Unbackable(e, tx) <==> Unbackable(d, tx)
  {
    forall k: nat
      ensures Unsaved(e, tx, k) <==> Unsaved(d, tx, k)
    {
    }
  }

  /** One committed marker proves that `a` took effect. */
  predicate ProofHolds(d: Disk, tx: Digest, a: Activation) {
    && tx in d.committed && tx !in d.rolledBack && tx in d.receipts
    && ReceiptMatches(d.receipts[tx], d.committed[tx].journal, a)
    && d.receipts[tx] == d.committed[tx].journal.receipt
    && Sha(ReceiptJson(d.receipts[tx])) == d.committed[tx].receiptSha
  }

  /** Such a marker proves it, on any disk, exactly when it is the only one of its transaction,
      names the digest of the receipt on disk and that is the receipt of its journal, which
      agrees with the activation. */
  lemma ProofExactly(d: Disk, tx: Digest, a: Activation)
    ensures ProofHolds(d, tx, a) <==>
            && tx in d.committed && tx !in d.rolledBack && tx in d.receipts
            && var j := d.committed[tx].journal;
               && d.committed[tx] == Committed(j, Sha(ReceiptJson(j.receipt))) && d.receipts[tx] == j.receipt
               && j.preparedAt == a.body.committedAt
               && j.receipt == Receipt(j.receipt.operation, j.transactionId, j.activationSha, a.body.bundle,
                                       a.body.runtime, a.body.privateConfig, j.authorization, j.preparedAt)
  {
    hide ReceiptMatches;
    if tx in d.committed {
      MatchingReceipt(d.committed[tx].journal.receipt, d.committed[tx].journal, a);
    }
  }

  // ---- Undoing one target ------------------------------------------------------------------

  datatype Decision = Keep | PutBack(f: File) | Delete | Refuse(code: string)

  /** What `restore_transaction` does about one target. */
  function Decide(d: Disk, j: Journal, t: Target): Decision
    requires t in j.before && t in j.after
  {
    var f, s, m := Lookup(d.targets, t), j.before[t], j.after[t];
    if f.Some? && f.value.meta != m.meta then
      if s.Present? && f.value.meta == s.meta && Sha(f.value.raw) == s.sha then Keep
      else Refuse("MONITOR_INSTALL_RECOVERY_FILE_DRIFT")
    else if f.Some? && Sha(f.value.raw) != m.sha then
      if s.Present? && Sha(f.value.raw) == s.sha then Keep
      else Refuse("MONITOR_INSTALL_RECOVERY_FILE_DRIFT")
    else if s.Present? then
      var key := (j.transactionId, s.backup);
      if key in d.backups && Sha(d.backups[key]) == s.sha then PutBack(File(d.backups[key], s.meta))
      else Refuse("MONITOR_INSTALL_RECOVERY_BACKUP_INVALID")
    else if f.Some? then Delete
    else Keep
  }

  /** The old bytes under the new owner and mode: neither the old file nor the new one. */
  predicate Mixed(f: Option<File>, s: Snapshot, m: Mark) {
    && f.Some? && s.Present?
    && Sha(f.value.raw) == s.sha && f.value.meta == m.meta
    && f.value.meta != s.meta && Sha(f.value.raw) != m.sha
  }

  /** A present file is left or replaced only when it is the old file, the new file or the
      mixture of the two; anything else is refused. A target is left away from its old
      file exactly when it holds that mixture. What was there before is put back from its
      backup, refused exactly when the backup is missing or wrong; what was not is deleted. */
  lemma DecideMeaning(d: Disk, j: Journal, t: Target)
    requires t in j.before && t in j.after
    ensures var f, s, m := Lookup(d.targets, t), j.before[t], j.after[t];
            && (f.Some? && !IsBefore(f, s) && !IsAfter(f, m) && !Mixed(f, s, m) <==>
                  Decide(d, j, t) == Refuse("MONITOR_INSTALL_RECOVERY_FILE_DRIFT"))
            && (Decide(d, j, t).Keep? <==>
                  || Mixed(f, s, m)
                  || (IsBefore(f, s) && (s.Present? ==> !IsAfter(f, m))))
            && (Decide(d, j, t).PutBack? ==> IsBefore(Some(Decide(d, j, t).f), s))
            && (Decide(d, j, t).Delete? <==> s.Absent? && IsAfter(f, m))
            && (s.Present? ==>
                  var needed := f.None? || IsAfter(f, m);
                  var key := (j.transactionId, s.backup);
                  var stored := key in d.backups && Sha(d.backups[key]) == s.sha;
                  && (Decide(d, j, t).PutBack? <==> needed && stored)
                  && (Decide(d, j, t) == Refuse("MONITOR_INSTALL_RECOVERY_BACKUP_INVALID") <==> needed && !stored))
  {
  }

  /** A launcher with its old bytes under the new mode is left as it is. */
  lemma MixtureIsKept(was: Blob, becomes: Blob, j: Journal)
    requires was != becomes
    requires j.before == map[Launcher := Present(Sha(was), ACTIVE_META, 0)]
    requires j.after == map[Launcher := Mark(Sha(becomes), LAUNCHER_META)]
    ensures var d := Disk(map[Launcher := File(was, LAUNCHER_META)], map[], map[], map[], map[], map[], map[]);
            Decide(d, j, Launcher).Keep? && !IsBefore(Lookup(d.targets, Launcher), j.before[Launcher])
  {
  }

  /** The undo may put this target back: it is neither refused nor a mixture. */
  predicate Restorable(d: Disk, j: Journal, t: Target) {
    && t in j.before && t in j.after
    && !Decide(d, j, t).Refuse? && !Mixed(Lookup(d.targets, t), j.before[t], j.after[t])
  }

  /** A state an undo of `j` may pass through: nothing but targets moved, and each moved
      target is one the undo may put back and is back at its old file. */
  ghost predicate Undoing(d: Disk, e: Disk, j: Journal) {
    && e == d.(targets := e.targets)
    && (forall t: Target ::
          || Lookup(e.targets, t) == Lookup(d.targets, t)
          || (Restorable(d, j, t) && IsBefore(Lookup(e.targets, t), j.before[t])))
  }

  /** Between `d` and `e` the undo dealt with target `t`: a mixture stayed, anything else is
      back at its old file. */
  predicate Settled(d: Disk, e: Disk, j: Journal, t: Target) {
    && t in j.before && t in j.after
    && if Mixed(Lookup(d.targets, t), j.before[t], j.after[t]) then Lookup(e.targets, t) == Lookup(d.targets, t)
       else IsBefore(Lookup(e.targets, t), j.before[t])
  }

  /** A settled target is at its old file exactly when it was no mixture. */
  lemma SettledExactly(d: Disk, e: Disk, j: Journal, t: Target)
    requires Settled(d, e, j, t)
    ensures IsBefore(Lookup(e.targets, t), j.before[t]) <==> !Mixed(Lookup(d.targets, t), j.before[t], j.after[t])
  {
  }

  // ---- Checks made while recovering ----------------------------------------------------------

  /** The checks recovery makes on a transaction that already has a terminal marker. */
  function TerminalCheck(d: Disk, tx: Digest): Outcome
    requires tx in d.prepared
  {
    var j := d.prepared[tx];
    if tx in d.committed && tx in d.rolledBack then Rejected("MONITOR_INSTALL_RECOVERY_TERMINAL_AMBIGUOUS")
    else if tx in d.committed then
      if || d.committed[tx].journal != j
         || tx !in d.receipts
         || Sha(ReceiptJson(d.receipts[tx])) != d.committed[tx].receiptSha
         || d.receipts[tx] != j.receipt
      then Rejected("MONITOR_INSTALL_RECOVERY_TERMINAL_INVALID")
      else if j.activationSha in d.activations then
        if ValidActivation(d.activations[j.activationSha]) && d.activations[j.activationSha].sha == j.activationSha
        then Done else Rejected("MONITOR_INSTALL_RECOVERY_TERMINAL_INVALID")
      else
        var current := ReadActivation(Lookup(d.targets, Active));
        if current.Some? && current.value.sha == j.activationSha
        then Done else Rejected("MONITOR_INSTALL_RECOVERY_TERMINAL_INVALID")
    else if tx in d.rolledBack && d.rolledBack[tx] != j then Rejected("MONITOR_INSTALL_RECOVERY_TERMINAL_INVALID")
    else Done
  }

  /** Why an interrupted commit cannot be finished, if it cannot. */
  predicate FinalizeFault(d: Disk, j: Journal) {
    || (exists t: Target :: t in j.after && !IsAfter(Lookup(d.targets, t), j.after[t]))
    || ReadActivation(Lookup(d.targets, Active)).None?
    || ReadActivation(Lookup(d.targets, Active)).value.sha != j.activationSha
    || j.transactionId !in d.receipts
    || d.receipts[j.transactionId] != j.receipt
    || !ReceiptMatches(j.receipt, j, ReadActivation(Lookup(d.targets, Active)).value)
  }

  /** A terminal marker is accepted, on any disk, exactly when there is one kind of it, it repeats
      the journal and, if the transaction was committed, its receipt is the journal's and its
      activation is recorded or still the active one. */
  lemma TerminalExactly(d: Disk, tx: Digest)
    requires tx in d.prepared && (tx in d.committed || tx in d.rolledBack)
    ensures TerminalCheck(d, tx) == Rejected("MONITOR_INSTALL_RECOVERY_TERMINAL_AMBIGUOUS") <==>
            tx in d.committed && tx in d.rolledBack
    ensures tx !in d.committed || tx !in d.rolledBack ==>
              TerminalCheck(d, tx) in {Done, Rejected("MONITOR_INSTALL_RECOVERY_TERMINAL_INVALID")}
    ensures TerminalCheck(d, tx) == Done <==>
            var j := d.prepared[tx];
            var active := ReadActivation(Lookup(d.targets, Active));
            && !(tx in d.committed && tx in d.rolledBack)
            && (tx in d.rolledBack ==> d.rolledBack[tx] == j)
            && (tx in d.committed ==>
                  && tx in d.receipts && d.receipts[tx] == j.receipt
                  && d.committed[tx] == Committed(j, Sha(ReceiptJson(j.receipt)))
                  && (if j.activationSha in d.activations
                      then d.activations[j.activationSha].sha == j.activationSha
                           && ValidActivation(d.activations[j.activationSha])
                      else active.Some? && active.value.sha == j.activationSha))
  {
    hide ReadActivation, ValidActivation, Lookup;
  }

  /** An interrupted commit can be finished, on any disk, exactly when every target holds its new
      file, the active record is the journal's and the receipt on disk is the journal's own. */
  lemma FinalizeExactly(d: Disk, j: Journal)
    ensures !FinalizeFault(d, j) <==>
            var active := ReadActivation(Lookup(d.targets, Active));
            && (forall t :: t in j.after ==> IsAfter(Lookup(d.targets, t), j.after[t]))
            && active.Some? && active.value.sha == j.activationSha
            && j.transactionId in d.receipts && d.receipts[j.transactionId] == j.receipt
            && j.preparedAt == active.value.body.committedAt
            && j.receipt == Receipt(j.receipt.operation, j.transactionId, j.activationSha, active.value.body.bundle,
                                    active.value.body.runtime, active.value.body.privateConfig, j.authorization,
                                    j.preparedAt)
  {
    hide ReadActivation, Lookup, IsAfter, ReceiptMatches;
    if ReadActivation(Lookup(d.targets, Active)).Some? {
      MatchingReceipt(j.receipt, j, ReadActivation(Lookup(d.targets, Active)).value);
    }
  }

  // ---- Traces ---------------------------------------------------------------------------------

  ghost predicate OneWrite(a: Disk, b: Disk) {
    exists w :: b == Apply(a, w)
  }

  ghost predicate WriteByWrite(trace: seq<Disk>) {
    forall i, j :: 0 <= i < |trace| - 1 && j == i + 1 ==> OneWrite(trace[i], trace[j])
  }

  /** No journal carries a time the clock has not shown yet. */
  ghost predicate ClockAhead(trace: seq<Disk>, clock: nat) {
    forall d, tx :: d in trace && tx in d.prepared ==> d.prepared[tx].preparedAt <= clock
  }

  /** From state `from` on, every state is sound and stands for the contents `files`. */
  ghost predicate Steady(trace: seq<Disk>, from: nat, files: map<Target, File>) {
    forall i :: from <= i < |trace| ==> Inv(trace[i]) && Effective(trace[i]) == files
  }

  /** Every state is sound, and every write leaves what the disk stands for alone or is a
      commit point. */
  ghost predicate Lawful(trace: seq<Disk>, from: int) {
    && (forall i :: 0 <= from <= i < |trace| ==> Inv(trace[i]))
    && (forall i, j :: 0 <= from <= i < |trace| - 1 && j == i + 1 ==> Refines(trace[i], trace[j]))
  }

  lemma LawfulStart(trace: seq<Disk>)
    requires 0 < |trace| && Inv(trace[|trace| - 1])
    ensures Lawful(trace, |trace| - 1)
  {
    hide Inv;
  }

  lemma LawfulSound(trace: seq<Disk>, from: int)
    requires 0 <= from < |trace| && Lawful(trace, from)
    ensures Inv(trace[|trace| - 1])
  {
    hide Inv, Refines;
  }

  lemma LawfulPrefix(trace: seq<Disk>, from: int, n: nat)
    requires Lawful(trace, from) && n <= |trace|
    ensures Lawful(trace[..n], from)
  {
    hide Inv, Refines;
    var prefix := trace[..n];
    forall i, j | 0 <= from <= i < |prefix| - 1 && j == i + 1
      ensures Refines(prefix[i], prefix[j])
    {
      assert Refines(trace[i], trace[j]);
    }
  }

  lemma LawfulJoins(first: seq<Disk>, whole: seq<Disk>, from: int)
    requires 0 <= from < |first| && first <= whole && Lawful(first, from) && Lawful(whole, |first| - 1)
    ensures Lawful(whole, from)
  {
    hide Inv, Refines;
    forall i | from <= i < |whole|
      ensures Inv(whole[i])
    {
      assert i < |first| ==> whole[i] == first[i];
    }
    forall i, j | from <= i < |whole| - 1 && j == i + 1
      ensures Refines(whole[i], whole[j])
    {
      if j < |first| {
        assert Refines(first[i], first[j]);
      }
    }
  }

  /** One run is lawful: its only change is its commit point. */
  lemma RunLawful(trace: seq<Disk>, start: nat, commit: nat, before: map<Target, File>, after: map<Target, File>)
    requires start < commit <= |trace| && Inv(trace[start]) && Effective(trace[start]) == before
    requires Steady(trace[..commit], start + 1, before) && Steady(trace, commit, after)
    requires commit < |trace| ==> CommitPoint(trace[commit - 1], trace[commit])
    ensures Lawful(trace, start)
  {
    hide Inv, Effective, CommitPoint;
    var prefix := trace[..commit];
    forall i | start <= i < |trace|
      ensures Inv(trace[i]) && Effective(trace[i]) == if i < commit then before else after
    {
      assert i < commit ==> prefix[i] == trace[i];
    }
  }

  ghost predicate OneReceiptMore(a: Disk, b: Disk) {
    exists tx :: tx !in a.receipts && b.receipts.Keys == a.receipts.Keys + {tx}
  }

  /** The disk holds exactly what the request asked for: an active record of the request's
      own fields, with the digest of the private configuration that lies there, and every other
      target's new bytes under its owner and mode. */
  ghost predicate InstalledAs(d: Disk, req: Request) {
    Head(d).Some? &&
    var a := Head(d).value;
    && a.sha == Sha(BodyJson(a.body))
    && a.body.activationId == req.activationId && a.body.generation == req.generation
    && a.body.bundle == req.bundle && a.body.runtime == req.runtime && a.body.previous == req.previous
    && PrivateConfig in d.targets && a.body.privateConfig == Sha(d.targets[PrivateConfig].raw)
    && Lookup(d.targets, Active) == Some(File(ActivationJson(a), Meta(0x124, 0, 0)))
    && Lookup(d.targets, Launcher) == Some(File(req.source(Launcher), Meta(0x16d, 0, 0)))
    && Lookup(d.targets, PrivateConfig) == Some(File(req.source(PrivateConfig), Meta(0x100, 0, 0)))
    && forall t: Target :: t !in {Active, Launcher, PrivateConfig} ==>
         Lookup(d.targets, t) == Some(File(req.source(t), Meta(0x124, 0, 0)))
  }

  /** What a run that began on `before` has done once everything came to rest. */
  ghost predicate AllOrNothing(before: Disk, after: Disk, req: Request, installed: bool) {
    && (if installed then
          && InstalledAs(after, req)
          && OneReceiptMore(before, after)
        else
          && after.targets == Effective(before)
          && after.receipts.Keys == before.receipts.Keys)
    && (forall tx :: tx in after.prepared ==>
          && (tx in after.committed <==> tx in after.receipts)
          && (tx in after.rolledBack <==> tx !in after.receipts))
  }

  /** Only the receipt write changes the receipts. */
  lemma ReceiptsAfter(d: Disk, w: Write)
    ensures !w.WriteReceipt? ==> Apply(d, w).receipts == d.receipts
    ensures w.WriteReceipt? ==> Apply(d, w) == d.(receipts := d.receipts[w.tx := w.r])
    ensures w.WriteReceipt? ==> Apply(d, w).receipts.Keys == d.receipts.Keys + {w.tx}
  {
  }

  lemma NewReceipt(a: Disk, b: Disk, tx: Digest)
    requires MarkersOk(a) && MarkersOk(b) && ChainOk(a) && GenerationsOk(b)
    requires b == a.(receipts := b.receipts) && tx in b.receipts && tx !in a.receipts
    ensures Head(a) != Head(b)
  {
    hide Effective, Head;
    assert tx in OpenSet(a);
    assert Proposed(a, tx) == Proposed(b, tx);
    assert HostInvariant.Installed(b, tx);
  }

  /** A write between two sound states that stand for the same contents adds no receipt. */
  lemma QuietWrite(a: Disk, b: Disk)
    requires Inv(a) && Inv(b) && OneWrite(a, b) && Effective(a) == Effective(b)
    ensures a.receipts.Keys == b.receipts.Keys
  {
    hide Effective, JournalsOk, MarkersOk, ChainOk, GenerationsOk, OpenOk, RecordsOk, Proposed, Apply;
    var w :| b == Apply(a, w);
    ReceiptsAfter(a, w);
    if w.WriteReceipt? && w.tx !in a.receipts {
      NewReceipt(a, b, w.tx);
    }
  }

  /** Along states that stand for the same contents no receipt appears. */
  lemma {:induction false} SteadyReceipts(trace: seq<Disk>, from: nat, k: nat, files: map<Target, File>)
    requires WriteByWrite(trace) && from <= k < |trace|
    requires Inv(trace[from]) && Effective(trace[from]) == files && Steady(trace, from + 1, files)
    ensures Inv(trace[k]) && Effective(trace[k]) == files && trace[k].receipts.Keys == trace[from].receipts.Keys
    decreases k
  {
    hide Inv, Effective, OneWrite;
    if from < k {
      SteadyReceipts(trace, from, k - 1, files);
      QuietWrite(trace[k - 1], trace[k]);
    }
  }

  lemma GrownReceipts(a: Disk, b: Disk, tx: Digest)
    requires OneWrite(a, b) && tx !in a.receipts && tx in b.receipts
    ensures OneReceiptMore(a, b)
  {
    hide Apply;
    var w :| b == Apply(a, w);
    ReceiptsAfter(a, w);
    assert b.receipts.Keys == a.receipts.Keys + {tx};
  }

  lemma CommitReceipt(a: Disk, b: Disk)
    requires OneWrite(a, b) && CommitPoint(a, b)
    ensures OneReceiptMore(a, b)
  {
    hide Effective, Head;
    var tx :| tx !in a.receipts && tx in b.receipts;
    GrownReceipts(a, b, tx);
  }

  lemma CommitStep(trace: seq<Disk>, commit: nat, after: map<Target, File>)
    requires WriteByWrite(trace) && Steady(trace, commit, after) && 0 < commit < |trace|
    ensures OneWrite(trace[commit - 1], trace[commit])
    ensures Inv(trace[commit]) && Effective(trace[commit]) == after && Steady(trace, commit + 1, after)
  {
    hide Inv, Effective, OneWrite;
  }

  lemma PrefixWrites(trace: seq<Disk>, n: nat)
    requires WriteByWrite(trace) && n <= |trace|
    ensures WriteByWrite(trace[..n])
  {
    hide OneWrite;
    var prefix := trace[..n];
    forall i, j | 0 <= i < |prefix| - 1 && j == i + 1
      ensures OneWrite(prefix[i], prefix[j])
    {
      assert OneWrite(trace[i], trace[j]);
    }
  }

  /** Where a run was killed tells what the disk stands for and which receipts it holds. */
  lemma CrashPoint(trace: seq<Disk>, start: nat, commit: nat, k: nat,
                   before: map<Target, File>, after: map<Target, File>)
    requires WriteByWrite(trace) && start <= k < |trace| && start < commit <= |trace|
    requires Inv(trace[start]) && Effective(trace[start]) == before
    requires Steady(trace[..commit], start + 1, before) && Steady(trace, commit, after)
    requires commit < |trace| ==> CommitPoint(trace[commit - 1], trace[commit])
    ensures Inv(trace[k])
    ensures k < commit ==> Effective(trace[k]) == before && trace[k].receipts.Keys == trace[start].receipts.Keys
    ensures commit <= k ==>
              && Effective(trace[k]) == after
              && OneReceiptMore(trace[start], trace[k])
  {
    hide Inv, Effective, OneWrite, CommitPoint, WriteByWrite, Steady;
    var prefix := trace[..commit];
    PrefixWrites(trace, commit);
    assert prefix[start] == trace[start] && prefix[commit - 1] == trace[commit - 1];
    if k < commit {
      SteadyReceipts(prefix, start, k, before);
    } else {
      SteadyReceipts(prefix, start, commit - 1, before);
      CommitStep(trace, commit, after);
      CommitReceipt(trace[commit - 1], trace[commit]);
      SteadyReceipts(trace, commit, k, after);
    }
  }

  lemma RestMarkers(d: Disk)
    requires Inv(d) && AtRest(d)
    ensures forall tx :: tx in d.prepared ==>
              && (tx in d.committed <==> tx in d.receipts)
              && (tx in d.rolledBack <==> tx !in d.receipts)
  {
    forall tx | tx in d.prepared
      ensures (tx in d.committed <==> tx in d.receipts) && (tx in d.rolledBack <==> tx !in d.receipts)
    {
      SettledHistory(d, tx, tx);
    }
  }

  lemma SameContents(d: Disk, e: Disk, req: Request)
    requires InstalledAs(d, req) && Effective(d) == Effective(e) && d.targets == e.targets
    ensures InstalledAs(e, req)
  {
    hide Effective;
  }

  // ---- Undoing a transaction ------------------------------------------------------------------

  lemma UndoStarts(d: Disk, j: Journal)
    ensures Undoing(d, d, j)
  {
  }

  lemma SameDecision(d: Disk, e: Disk, j: Journal, t: Target)
    requires t in j.before && t in j.after && e == d.(targets := e.targets)
    requires Lookup(e.targets, t) == Lookup(d.targets, t)
    ensures Decide(e, j, t) == Decide(d, j, t)
  {
  }

  /** A target at its old file is no mixture, and if it was put back it is not refused. */
  lemma BackDecision(d: Disk, e: Disk, j: Journal, t: Target)
    requires e == d.(targets := e.targets) && Restorable(d, j, t) && IsBefore(Lookup(e.targets, t), j.before[t])
    requires Lookup(e.targets, t) != Lookup(d.targets, t)
    ensures Restorable(e, j, t)
  {
  }

  /** Cutting an undo short changes no later decision between refusing and not. */
  lemma UndoDecides(d: Disk, e: Disk, j: Journal, t: Target)
    requires Undoing(d, e, j) && t in j.before && t in j.after
    ensures Decide(e, j, t).Refuse? <==> Decide(d, j, t).Refuse?
    ensures Restorable(e, j, t) <==> Restorable(d, j, t)
  {
    hide Decide, Mixed, IsBefore, Lookup;
    if Lookup(e.targets, t) == Lookup(d.targets, t) {
      SameDecision(d, e, j, t);
    } else {
      BackDecision(d, e, j, t);
    }
  }

  lemma UndoJoins(a: Disk, b: Disk, c: Disk, j: Journal)
    requires Undoing(a, b, j) && Undoing(b, c, j)
    ensures Undoing(a, c, j)
  {
    hide IsBefore, Decide, Mixed, Lookup;
    forall t: Target
      ensures Lookup(c.targets, t) == Lookup(a.targets, t)
          || (Restorable(a, j, t) && IsBefore(Lookup(c.targets, t), j.before[t]))
    {
      if t in j.before && t in j.after {
        UndoDecides(a, b, j, t);
      }
    }
  }

  /** What an undo settles after being cut short, the whole undo has settled. */
  lemma UndoSettles(d: Disk, e: Disk, f: Disk, j: Journal, t: Target)
    requires Undoing(d, e, j) && Settled(e, f, j, t)
    ensures Settled(d, f, j, t)
  {
  }

  /** Dealing with one more target extends an undo. */
  lemma UndoContinues(d: Disk, e: Disk, f: Disk, j: Journal, t: Target, before: seq<Target>)
    requires Undoing(d, e, j) && t in j.before && t in j.after && t !in before
    requires Lookup(e.targets, t) == Lookup(d.targets, t) && f == e.(targets := f.targets)
    requires forall u: Target :: u != t ==> Lookup(f.targets, u) == Lookup(e.targets, u)
    requires f == e || (Settled(e, f, j, t) && !Decide(e, j, t).Refuse?)
    requires forall u: Target :: u in before ==> Settled(d, e, j, u)
    ensures Undoing(d, f, j) && Decide(e, j, t) == Decide(d, j, t)
    ensures forall u: Target :: u in before ==> Settled(d, f, j, u)
    ensures Settled(e, f, j, t) ==> Settled(d, f, j, t)
  {
    SameDecision(d, e, j, t);
    hide Decide, IsBefore, IsAfter, Mixed, Lookup;
    forall u: Target | u in before
      ensures Settled(d, f, j, u)
    {
      assert Settled(d, e, j, u);
    }
  }

  /** `j` is the journal of an open transaction. */
  ghost predicate Pending(d: Disk, j: Journal) {
    j.transactionId in OpenSet(d) && d.prepared[j.transactionId] == j
  }

  /** The journal `j` is sound and each target holds its old or its new file: what a
      transaction leaves that was stopped anywhere, with its receipt or without. */
  ghost predicate Half(d: Disk, j: Journal) {
    && JournalOk(d, j.transactionId) && d.prepared[j.transactionId] == j
    && forall t: Target :: HoldsBefore(d, j.transactionId, t) || HoldsAfter(d, j.transactionId, t)
  }

  lemma HalfOfOpen(d: Disk, j: Journal)
    requires Inv(d) && Pending(d, j)
    ensures Half(d, j)
  {
    hide MarkersOk, ChainOk, HistoryOk;
  }

  /** An undo of such a transaction may put back every target. */
  lemma NothingRefused(d: Disk, j: Journal)
    requires Half(d, j)
    ensures forall t: Target :: Restorable(d, j, t)
    ensures forall t: Target :: t in j.before && t in j.after && !Decide(d, j, t).Refuse?
  {
    forall t: Target
      ensures Restorable(d, j, t)
      ensures t in j.before && t in j.after && !Decide(d, j, t).Refuse?
    {
      assert HoldsBefore(d, j.transactionId, t) || HoldsAfter(d, j.transactionId, t);
    }
  }

  lemma AllRestored(d: Disk, e: Disk, j: Journal)
    requires Half(d, j) && Undoing(d, e, j)
    requires forall t: Target :: Settled(d, e, j, t)
    ensures forall t: Target :: HoldsBefore(e, j.transactionId, t)
  {
    hide Decide, Mixed, IsBefore, IsAfter, Lookup;
    NothingRefused(d, j);
    forall t: Target
      ensures HoldsBefore(e, j.transactionId, t)
    {
      assert Settled(d, e, j, t) && Restorable(d, j, t);
    }
  }

  // ---- Installing -----------------------------------------------------------------------------

  lemma AllTargetsFixed()
    ensures forall t: Target :: t in FIXED_TARGETS
  {
    forall t: Target
      ensures t in FIXED_TARGETS
    {
      match t
      case Launcher => assert FIXED_TARGETS[0] == t;
      case PrivateConfig => assert FIXED_TARGETS[1] == t;
      case CollectorService => assert FIXED_TARGETS[2] == t;
      case CollectorTimer => assert FIXED_TARGETS[3] == t;
      case ContinuityService => assert FIXED_TARGETS[4] == t;
      case ContinuityTimer => assert FIXED_TARGETS[5] == t;
      case EvaluatorService => assert FIXED_TARGETS[6] == t;
      case NotifierService => assert FIXED_TARGETS[7] == t;
      case NotifierTimer => assert FIXED_TARGETS[8] == t;
      case Active => assert FIXED_TARGETS[9] == t;
    }
  }

  lemma JournalMarks(req: Request, a: Activation, before: map<Target, Snapshot>, t: Target)
    ensures var j := CreateJournal(req, a, before);
            t in j.after && IsAfter(Some(NewFile(req, a, t)), j.after[t])
              && j.after[t].sha == Sha(NewFile(req, a, t).raw)
  {
    hide FIXED_TARGETS;
    AllTargetsFixed();
  }

  lemma ReplaceForward(d: Disk, e: Disk, req: Request, a: Activation, j: Journal, t: Target)
    requires Inv(d) && Pending(d, j) && j.transactionId !in d.receipts && j == CreateJournal(req, a, j.before)
    requires e == Apply(d, Replace(t, NewFile(req, a, t)))
    ensures Inv(e) && Effective(e) == Effective(d)
  {
    hide Effective, CreateJournal, NewFile, JournalsOk, MarkersOk, ChainOk, HistoryOk;
    JournalMarks(req, a, j.before, t);
    forall u: Target
      ensures HoldsBefore(e, j.transactionId, u) || HoldsAfter(e, j.transactionId, u)
    {
      assert u == t || HoldsBefore(d, j.transactionId, u) || HoldsAfter(d, j.transactionId, u);
    }
    ReplaceKeeps(d, e, j.transactionId);
  }

  lemma ReceiptIsCommit(d: Disk, e: Disk, a: Activation, j: Journal)
    requires Inv(d) && Pending(d, j) && j.transactionId !in d.receipts && Proposed(d, j.transactionId) == Some(a)
    requires forall t: Target :: HoldsAfter(d, j.transactionId, t)
    requires e == Apply(d, WriteReceipt(j.transactionId, j.receipt))
    ensures Inv(e) && Pending(e, j) && Effective(e) == e.targets && CommitPoint(d, e)
    ensures ReadActivation(Lookup(e.targets, Active)) == Some(a)
  {
    hide Inv, Effective, CommitPoint;
    ReceiptKeeps(d, e, j.transactionId);
    AllAfter(d, j.transactionId);
  }

  /** Every journal on the disk was written strictly before `now`. */
  ghost predicate ClockBehind(d: Disk, now: nat) {
    forall tx :: tx in d.prepared ==> d.prepared[tx].preparedAt < now
  }

  lemma TickFits(trace: seq<Disk>, clock: nat)
    requires ClockAhead(trace, clock) && 0 < |trace|
    ensures ClockAhead(trace, clock + 1) && ClockBehind(trace[|trace| - 1], clock + 1)
  {
    assert trace[|trace| - 1] in trace;
  }

  /** A transaction named after the current instant is new. */
  lemma FreshTransaction(d: Disk, req: Request, now: nat)
    requires Inv(d) && ClockBehind(d, now)
    ensures Sha(TransactionJson(CreateActivation(req, now).sha, req.authorization)) !in d.prepared
  {
    hide MarkersOk, OpenOk, ChainOk, HistoryOk;
    forall x | x in d.prepared
      ensures x != Sha(TransactionJson(CreateActivation(req, now).sha, req.authorization))
    {
      assert JournalOk(d, x);
    }
  }

  /** What a disk with an open transaction stands for. */
  lemma PendingStands(d: Disk, j: Journal)
    requires Inv(d) && Pending(d, j)
    ensures Effective(d) == if j.transactionId in d.receipts then AfterFiles(j) else BeforeFiles(j)
  {
    hide ChainOk, HistoryOk, JournalsOk, MarkersOk;
    EffectiveWhileOpen(d, j.transactionId);
    if j.transactionId in d.receipts { AllAfter(d, j.transactionId); }
  }

  lemma Exclusive(d: Disk)
    requires Inv(d)
    ensures d.committed.Keys !! d.rolledBack.Keys
  {
    hide ChainOk, HistoryOk, JournalsOk, OpenOk;
  }

  lemma HeadPositive(d: Disk)
    ensures GenerationOf(Head(d)) >= 0
  {
  }

  lemma SameHead(d: Disk, e: Disk)
    requires Effective(d) == Effective(e)
    ensures Head(d) == Head(e)
  {
  }

  lemma JournalName(req: Request, a: Activation, before: map<Target, Snapshot>)
    ensures var j := CreateJournal(req, a, before);
            j.transactionId == Sha(TransactionJson(a.sha, req.authorization)) && j.before == before
              && j.activationSha == a.sha
  {
  }

  /** What the journal will say about a target is true and its backup is in place. */
  predicate SnapshotSound(d: Disk, tx: Digest, t: Target, before: map<Target, Snapshot>) {
    && t in before && IsBefore(Lookup(d.targets, t), before[t])
    && (before[t].Present? ==>
          && before[t].sha.Sha?
          && (tx, before[t].backup) in d.backups
          && d.backups[(tx, before[t].backup)] == before[t].sha.raw)
  }

  lemma JournalSound(e: Disk, req: Request, a: Activation, now: nat, before: map<Target, Snapshot>)
    requires a == CreateActivation(req, now) && req.generation >= 1
    requires var j := CreateJournal(req, a, before);
             j.transactionId in e.prepared && e.prepared[j.transactionId] == j
             && forall t: Target :: SnapshotSound(e, j.transactionId, t, before)
    ensures var j := CreateJournal(req, a, before);
            RecordOf(j) == Some(a) && JournalOk(e, j.transactionId) && j.preparedAt == now
  {
    hide FIXED_TARGETS;
    var j := CreateJournal(req, a, before);
    AllTargetsFixed();
    forall t: Target
      ensures t in j.before && t in j.after && j.after[t].sha.Sha?
      ensures j.before[t].Present? ==>
                && j.before[t].sha.Sha?
                && (j.transactionId, j.before[t].backup) in e.backups
                && e.backups[(j.transactionId, j.before[t].backup)] == j.before[t].sha.raw
    {
      assert SnapshotSound(e, j.transactionId, t, before);
    }
    assert j.after[Active] == Mark(Sha(ActivationJson(a)), ACTIVE_META);
  }

  lemma JournalOpens(d: Disk, e: Disk, req: Request, a: Activation, now: nat, before: map<Target, Snapshot>)
    requires Inv(d) && AtRest(d) && a == CreateActivation(req, now)
    requires req.previous == ShaOf(Head(d)) && req.generation == GenerationOf(Head(d)) + 1
    requires var j := CreateJournal(req, a, before);
             j.transactionId !in d.prepared && req.generation >= 1 && e == Apply(d, WritePrepared(j.transactionId, j))
             && forall t: Target :: SnapshotSound(d, j.transactionId, t, before)
    ensures var j := CreateJournal(req, a, before);
            && Inv(e) && Effective(e) == Effective(d) && Pending(e, j) && j.transactionId !in e.receipts
            && Proposed(e, j.transactionId) == Some(a) && j.preparedAt == now
  {
    hide Effective, AtRest, Head, JournalsOk, OpenOk, ChainOk, HistoryOk, FIXED_TARGETS;
    var j := CreateJournal(req, a, before);
    forall t: Target
      ensures SnapshotSound(e, j.transactionId, t, before) && HoldsBefore(e, j.transactionId, t)
    {
      assert SnapshotSound(d, j.transactionId, t, before);
    }
    JournalSound(e, req, a, now, before);
    PrepareKeeps(d, e, j.transactionId, j);
  }

  /** Every recorded activation was committed, so naming one is proof enough. */
  lemma RecordedWasCommitted(d: Disk, target: Digest)
    requires Inv(d) && target in d.activations
    ensures ValidActivation(d.activations[target])
    ensures exists tx :: tx in d.committed && Proposed(d, tx) == Some(d.activations[target])
  {
    hide JournalsOk, MarkersOk, OpenOk, ChainOk, GenerationsOk;
  }

  /** Some transaction with a receipt installed this activation. */
  ghost predicate TookEffect(d: Disk, a: Activation) {
    exists tx :: tx in d.receipts && Proposed(d, tx) == Some(a)
  }

  predicate NamedBy(a: Activation, req: Request) {
    a.sha == req.rollbackTarget && a.body.bundle == req.bundle && a.body.runtime == req.runtime
  }

  /** A forward rollback names an activation that took effect and has the requested bundle and
      runtime, but not the one it continues from. */
  ghost predicate TargetOk(d: Disk, req: Request) {
    req.operation.Rollback? ==>
      && req.rollbackTarget != req.previous && req.rollbackTarget != ZERO
      && exists a :: TookEffect(d, a) && NamedBy(a, req)
  }

  lemma RecordSha(d: Disk, sha: Digest)
    requires Inv(d) && sha in d.activations
    ensures d.activations[sha].sha == sha
  {
    hide JournalsOk, MarkersOk, OpenOk, ChainOk, GenerationsOk;
  }

  lemma RecordTookEffect(d: Disk, sha: Digest)
    requires Inv(d) && AtRest(d) && sha in d.activations
    ensures TookEffect(d, d.activations[sha])
  {
    hide JournalsOk, OpenOk, ChainOk, GenerationsOk, RecordsOk, AtRest, Proposed;
    RecordedWasCommitted(d, sha);
    var tx :| tx in d.committed && Proposed(d, tx) == Some(d.activations[sha]);
    assert tx in d.receipts;
  }

  lemma InstalledIsRecorded(d: Disk, tx: Digest)
    requires Inv(d) && AtRest(d) && tx in d.receipts
    ensures Recorded(d, tx)
  {
    RestMarkers(d);
    hide JournalsOk, OpenOk, ChainOk, HistoryOk;
  }

  lemma SameSha(a: Activation, b: Activation)
    requires ValidActivation(a) && ValidActivation(b) && a.sha == b.sha
    ensures a == b
  {
  }

  lemma ProposedValid(d: Disk, tx: Digest)
    ensures Proposed(d, tx).Some? ==> ValidActivation(Proposed(d, tx).value)
  {
  }

  /** At rest the records are exactly the activations that took effect. */
  lemma RecordedExactly(d: Disk, a: Activation)
    requires Inv(d) && AtRest(d)
    ensures a.sha in d.activations && d.activations[a.sha] == a <==> TookEffect(d, a)
  {
    hide Inv, AtRest, ValidActivation, Proposed;
    if a.sha in d.activations && d.activations[a.sha] == a {
      RecordTookEffect(d, a.sha);
    }
    if tx :| tx in d.receipts && Proposed(d, tx) == Some(a) {
      InstalledIsRecorded(d, tx);
      RecordedWasCommitted(d, a.sha);
      RecordSha(d, a.sha);
      ProposedValid(d, tx);
      SameSha(a, d.activations[a.sha]);
    }
  }

  lemma SameEffect(d: Disk, e: Disk, a: Activation)
    requires e.prepared == d.prepared && e.receipts == d.receipts
    ensures TookEffect(e, a) <==> TookEffect(d, a)
  {
    hide RecordOf;
    forall tx
      ensures Proposed(e, tx) == Proposed(d, tx)
    {
    }
  }

  /** What the rollback check reads from the records of a disk at rest. */
  lemma TargetOkExactly(d: Disk, e: Disk, req: Request)
    requires Inv(e) && AtRest(e) && e.prepared == d.prepared && e.receipts == d.receipts && req.operation.Rollback?
    ensures TargetOk(d, req) <==>
              && req.rollbackTarget != req.previous && req.rollbackTarget != ZERO
              && req.rollbackTarget in e.activations
              && e.activations[req.rollbackTarget].body.bundle == req.bundle
              && e.activations[req.rollbackTarget].body.runtime == req.runtime
  {
    hide Inv, AtRest, TookEffect;
    if req.rollbackTarget in e.activations {
      var a := e.activations[req.rollbackTarget];
      RecordSha(e, req.rollbackTarget);
      RecordedExactly(e, a);
      SameEffect(d, e, a);
    }
    if a :| TookEffect(d, a) && NamedBy(a, req) {
      SameEffect(d, e, a);
      RecordedExactly(e, a);
    }
  }

  lemma RequestedTarget(d: Disk, e: Disk, req: Request, ok: bool)
    requires Inv(e) && AtRest(e) && e.prepared == d.prepared && e.receipts == d.receipts
    requires req.operation.Install? ==> ok
    requires req.operation.Rollback? ==>
               (ok <==>
                 && req.rollbackTarget != req.previous && req.rollbackTarget != ZERO
                 && req.rollbackTarget in e.activations
                 && e.activations[req.rollbackTarget].body.bundle == req.bundle
                 && e.activations[req.rollbackTarget].body.runtime == req.runtime)
    ensures ok <==> TargetOk(d, req)
  {
    if req.operation.Rollback? {
      TargetOkExactly(d, e, req);
    }
  }

  lemma ClosedSet(d: Disk)
    requires AtRest(d)
    ensures OpenSet(d) == {}
  {
  }

  /** At rest the head has its commit proof. */
  lemma HeadProven(d: Disk)
    requires Inv(d) && AtRest(d) && Head(d).Some?
    ensures exists tx :: tx in d.committed && Proposed(d, tx) == Head(d)
  {
    hide JournalsOk, OpenOk, ChainOk, GenerationsOk, RecordsOk, Head, MarkersOk;
    HeadCommitted(d);
  }

  /** The match asks for exactly the record the request would write at the record's own time. */
  lemma StableExactly(a: Activation, req: Request)
    ensures StableMatch(a, req) && a.sha == Sha(BodyJson(a.body)) <==> a == CreateActivation(req, a.body.committedAt)
  {
  }

  /** What a request installed is there already when the request comes again. */
  lemma InstalledIsStable(d: Disk, req: Request)
    requires InstalledAs(d, req)
    ensures IsStable(Head(d), req)
  {
    hide Head;
  }

  /** No journal and no receipt is lost. */
  ghost predicate Remembers(d: Disk, e: Disk) {
    && d.receipts.Keys <= e.receipts.Keys
    && forall tx :: tx in d.prepared ==> tx in e.prepared && e.prepared[tx] == d.prepared[tx]
  }

  lemma RemembersOn(d: Disk, e: Disk, f: Disk)
    requires Remembers(d, e) && f.prepared == e.prepared && e.receipts.Keys <= f.receipts.Keys
    ensures Remembers(d, f)
  {
  }

  lemma TargetStaysOk(d: Disk, e: Disk, req: Request)
    requires Remembers(d, e) && TargetOk(d, req)
    ensures TargetOk(e, req)
  {
    hide RecordOf;
    if req.operation.Rollback? {
      var a :| TookEffect(d, a) && NamedBy(a, req);
      var tx :| tx in d.receipts && Proposed(d, tx) == Some(a);
      assert tx in e.receipts && Proposed(e, tx) == Some(a);
      assert TookEffect(e, a);
    }
  }

  /** A request that continues from the installation on disk is not a repetition of it. */
  lemma NextIsNotStable(existing: Option<Activation>, req: Request)
    ensures !WrongPredecessor(existing, req) ==> existing.None? || !StableMatch(existing.value, req)
  {
  }

  lemma HeadValid(d: Disk)
    ensures Head(d).Some? ==> ValidActivation(Head(d).value)
  {
  }

  lemma SteadyJoins(first: seq<Disk>, whole: seq<Disk>, from: nat, files: map<Target, File>)
    requires from <= |first| && first <= whole && Steady(first, from, files) && Steady(whole, |first|, files)
    ensures Steady(whole, from, files)
  {
    hide Inv, Effective;
    forall i | from <= i < |whole|
      ensures Inv(whole[i]) && Effective(whole[i]) == files
    {
      if i < |first| {
        assert whole[i] == first[i];
      }
    }
  }

  lemma SteadyPrefixJoins(first: seq<Disk>, whole: seq<Disk>, from: nat, files: map<Target, File>)
    requires from <= |first| && first <= whole && Steady(first, from, files) && Steady(whole, |first|, files)
    ensures Steady(whole, from, files)
  {
    hide Inv, Effective, Steady;
    SteadyJoins(first, whole, from, files);
  }

  lemma AllApplied(d: Disk, e: Disk, req: Request, a: Activation, j: Journal)
    requires j == CreateJournal(req, a, j.before) && Pending(d, j) && e == d.(targets := e.targets)
    requires forall t: Target :: Lookup(e.targets, t) == Some(NewFile(req, a, t))
    ensures Pending(e, j) && forall t: Target :: HoldsAfter(e, j.transactionId, t)
  {
    hide CreateJournal, NewFile;
    forall t: Target
      ensures HoldsAfter(e, j.transactionId, t)
    {
      JournalMarks(req, a, j.before, t);
    }
  }

  lemma AsRequested(d: Disk, req: Request, a: Activation, now: nat)
    requires a == CreateActivation(req, now) && Head(d) == Some(a)
    requires forall t: Target :: Lookup(d.targets, t) == Some(NewFile(req, a, t))
    ensures InstalledAs(d, req) && Head(d).value.body.committedAt == now
  {
    hide Head;
    forall t: Target
      ensures Lookup(d.targets, t) == Some(NewFile(req, a, t))
    {
    }
    assert Lookup(d.targets, Active).Some? && Lookup(d.targets, Launcher).Some?;
    assert Lookup(d.targets, PrivateConfig).Some?;
  }

  /** The receipt on disk for the request that was installed at `now`. */
  ghost predicate IsReceipt(d: Disk, r: Receipt, req: Request, now: nat) {
    && Head(d).Some?
    && r == Receipt(req.operation, Sha(TransactionJson(Head(d).value.sha, req.authorization)), Head(d).value.sha,
                    req.bundle, req.runtime, Sha(req.source(PrivateConfig)), req.authorization, now)
    && r.transactionId in d.receipts && d.receipts[r.transactionId] == r
  }

  /** The receipt of a request's journal. */
  lemma JournalReceipt(req: Request, now: nat, before: map<Target, Snapshot>)
    ensures var a := CreateActivation(req, now);
            CreateJournal(req, a, before).receipt ==
            Receipt(req.operation, Sha(TransactionJson(a.sha, req.authorization)), a.sha, req.bundle, req.runtime,
                    Sha(req.source(PrivateConfig)), req.authorization, now)
    ensures var a := CreateActivation(req, now);
            CreateJournal(req, a, before).transactionId == Sha(TransactionJson(a.sha, req.authorization))
  {
  }

  lemma ReceiptOf(d: Disk, req: Request, a: Activation, j: Journal, now: nat)
    requires a == CreateActivation(req, now) && j == CreateJournal(req, a, j.before) && Head(d) == Some(a)
    requires j.transactionId in d.receipts && d.receipts[j.transactionId] == j.receipt
    ensures IsReceipt(d, j.receipt, req, now)
  {
    hide Head, CreateJournal, CreateActivation;
    JournalReceipt(req, now, j.before);
  }

  /** The contents and the head of a disk with nothing left to do are the files themselves. */
  lemma RestStands(d: Disk)
    requires Inv(d) && AtRest(d)
    ensures Effective(d) == d.targets && Head(d) == ReadActivation(Lookup(d.targets, Active))
    ensures Active in d.targets ==> Head(d).Some?
  {
  }

  /** A kill left the contents of `before` or, with one receipt more, those of the finished
      run `final`; whatever came to rest from there is all or nothing. */
  lemma CameToRest(before: Disk, final: Disk, left: Disk, after: Disk, req: Request, installed: bool)
    requires Inv(after) && AtRest(after) && Effective(after) == Effective(left)
        && after.receipts.Keys == left.receipts.Keys
    requires !installed ==> Effective(left) == Effective(before) && left.receipts.Keys == before.receipts.Keys
    requires installed ==> Effective(left) == Effective(final) && OneReceiptMore(before, left)
    requires installed ==> Inv(final) && AtRest(final) && InstalledAs(final, req)
    ensures AllOrNothing(before, after, req, installed)
  {
    hide Inv, AtRest, Effective, InstalledAs, Head;
    RestStands(after);
    RestMarkers(after);
    if installed {
      RestStands(final);
      SameContents(final, after, req);
    }
  }

  lemma SteadyEnds(trace: seq<Disk>, from: nat, before: map<Target, File>, files: map<Target, File>)
    requires Steady(trace, from, before)
    ensures Steady(trace[..|trace|], from, before) && Steady(trace, |trace|, files)
  {
    assert trace[..|trace|] == trace;
  }

  /** Committed transactions among `seen` that installed `a`. */
  ghost function Matching(d: Disk, a: Activation, seen: set<Digest>): set<Digest> {
    set tx | tx in seen && tx in d.committed && d.committed[tx].journal.activationSha == a.sha
  }

  lemma MatchingGrows(d: Disk, a: Activation, seen: set<Digest>, tx: Digest)
    requires tx in d.committed && tx !in seen
    ensures Matching(d, a, seen + {tx}) ==
            if d.committed[tx].journal.activationSha == a.sha then Matching(d, a, seen) + {tx} else Matching(d, a, seen)
    ensures tx !in Matching(d, a, seen)
  {
  }

  lemma CommitProofOne(d: Disk, a: Activation, tx: Digest)
    requires JournalsOk(d) && MarkersOk(d) && ValidActivation(a) && tx in d.committed
    ensures d.committed[tx].journal.activationSha == a.sha <==> Proposed(d, tx) == Some(a)
    ensures Proposed(d, tx) == Some(a) ==> ProofHolds(d, tx, a)
  {
    assert JournalOk(d, tx);
  }

  lemma MatchUnique(d: Disk, a: Activation, x: Digest, y: Digest)
    requires MarkersOk(d) && GenerationsOk(d) && x in d.committed && y in d.committed
    requires Proposed(d, x) == Proposed(d, y) == Some(a)
    ensures x == y
  {
    assert HostInvariant.Installed(d, x) && HostInvariant.Installed(d, y);
  }

  lemma CommitProof(d: Disk, a: Activation)
    requires Inv(d) && ValidActivation(a)
    ensures var m := Matching(d, a, d.committed.Keys);
            && (forall tx :: tx in m ==> ProofHolds(d, tx, a))
            && (|m| == 1 <==> exists tx :: tx in d.committed && Proposed(d, tx) == Some(a))
  {
    hide JournalsOk, MarkersOk, OpenOk, ChainOk, GenerationsOk, RecordsOk, ProofHolds, Proposed;
    var m := Matching(d, a, d.committed.Keys);
    forall tx | tx in d.committed
      ensures tx in m <==> Proposed(d, tx) == Some(a)
      ensures tx in m ==> ProofHolds(d, tx, a)
    {
      CommitProofOne(d, a, tx);
    }
    forall x, y | x in m && y in m
      ensures x == y
    {
      MatchUnique(d, a, x, y);
    }
    if x :| x in m {
      assert m == {x};
    }
  }

  lemma BackupAtRest(d: Disk, e: Disk, tx: Digest, k: nat, raw: Blob)
    requires Inv(d) && AtRest(d) && tx !in d.prepared && e == d.(backups := d.backups[(tx, k) := raw])
    ensures Inv(e) && AtRest(e) && Effective(e) == Effective(d)
  {
    hide Inv, Effective;
    BackupKeeps(d, e, tx, k, raw);
    assert forall x :: Recorded(e, x) == Recorded(d, x);
  }

  lemma DistinctFixed(i: nat)
    requires i < |FIXED_TARGETS|
    ensures FIXED_TARGETS[..i + 1] == FIXED_TARGETS[..i] + [FIXED_TARGETS[i]]
    ensures forall t :: t in FIXED_TARGETS[..i] ==> t != FIXED_TARGETS[i]
  {
  }

  /** Snapshots already taken stay true when the next target is backed up. */
  lemma SnapshotsStay(d: Disk, e: Disk, tx: Digest, i: nat, before: map<Target, Snapshot>, s: Snapshot)
    requires i < |FIXED_TARGETS| && e == d.(backups := e.backups)
    requires forall key :: key in d.backups && key != (tx, i) ==> key in e.backups && e.backups[key] == d.backups[key]
    requires forall t :: t in FIXED_TARGETS[..i] ==> t != FIXED_TARGETS[i] && SnapshotSound(d, tx, t, before)
    requires forall t :: t in before && before[t].Present? ==> before[t].backup < i
    requires SnapshotSound(e, tx, FIXED_TARGETS[i], map[FIXED_TARGETS[i] := s])
    ensures forall t :: t in FIXED_TARGETS[..i] + [FIXED_TARGETS[i]] ==>
        SnapshotSound(e, tx, t, before[FIXED_TARGETS[i] := s])
  {
    hide FIXED_TARGETS;
    var u := FIXED_TARGETS[i];
    forall t | t in FIXED_TARGETS[..i] + [u]
      ensures SnapshotSound(e, tx, t, before[u := s])
    {
      if t in FIXED_TARGETS[..i] {
        assert SnapshotSound(d, tx, t, before);
      }
    }
  }

  // ---- Recovering -----------------------------------------------------------------------------

  /** Nothing is left to do about this transaction. */
  ghost predicate Closed(d: Disk, tx: Digest) {
    tx in d.prepared && tx !in OpenSet(d) && (tx in d.committed ==> Recorded(d, tx))
  }

  lemma RestClosed(d: Disk)
    requires AtRest(d)
    ensures forall x :: x in d.prepared ==> Closed(d, x)
  {
    forall x | x in d.prepared
      ensures Closed(d, x)
    {
      assert x !in OpenSet(d);
      assert x in d.committed ==> Recorded(d, x);
    }
  }

  lemma ClosedParts(d: Disk)
    requires MarkersOk(d) && forall x :: x in d.prepared ==> Closed(d, x)
    ensures AtRest(d)
  {
    assert forall x :: x in OpenSet(d) ==> Closed(d, x);
  }

  lemma AllClosed(d: Disk)
    requires Inv(d) && forall x :: x in d.prepared ==> Closed(d, x)
    ensures AtRest(d)
  {
    hide JournalsOk, OpenOk, ChainOk, HistoryOk, Closed;
    assert OpenSet(d) <= d.prepared.Keys;
    ClosedParts(d);
  }

  lemma StillOpen(d: Disk, e: Disk)
    requires Inv(d) && e.prepared == d.prepared && e.committed == d.committed && e.activations == d.activations
    requires e.rolledBack == d.rolledBack
    ensures forall x :: Closed(d, x) ==> Closed(e, x)
  {
    hide Inv;
    assert forall x :: Recorded(d, x) == Recorded(e, x);
  }

  lemma OpenJournal(d: Disk, tx: Digest)
    requires Inv(d) && tx in d.prepared && tx !in d.committed && tx !in d.rolledBack
    ensures Pending(d, d.prepared[tx])
  {
    hide OpenOk, ChainOk, HistoryOk;
    assert JournalOk(d, tx);
  }

  /** The checks on a finished transaction pass; a missing activation record is the head's. */
  lemma TerminalAccepted(d: Disk, tx: Digest)
    requires Inv(d) && tx in d.prepared && (tx in d.committed || tx in d.rolledBack)
    ensures TerminalCheck(d, tx).Done?
    ensures tx in d.committed <==> tx !in d.rolledBack
    ensures tx in d.committed && d.prepared[tx].activationSha !in d.activations ==>
              OpenSet(d) == {} && Head(d) == ReadActivation(Lookup(d.targets, Active)) && Head(d).Some?
    ensures tx in d.committed && d.prepared[tx].activationSha in d.activations ==> Closed(d, tx)
    ensures tx in d.rolledBack ==> Closed(d, tx)
  {
    assert JournalOk(d, tx);
    hide ChainOk, OpenOk, GenerationsOk;
    assert Recorded(d, tx) || tx !in d.committed || OpenSet(d) == {};
  }

  lemma RecordFresh(d: Disk, a: Activation)
    requires Inv(d) && Head(d) == Some(a)
    ensures !Collides(d, WriteActivation(a))
  {
    hide Effective, Head, JournalsOk, MarkersOk, OpenOk, ChainOk, RecordsOk, GenerationsOk;
    if a.sha in d.activations { HeadConsistent(d); }
  }

  lemma CommitFresh(d: Disk, j: Journal)
    requires Inv(d) && Pending(d, j) && j.transactionId in d.receipts
    ensures d.receipts[j.transactionId] == j.receipt && j.transactionId !in d.committed
  {
  }

  lemma HeadOfTargets(d: Disk)
    requires Effective(d) == d.targets
    ensures Head(d) == ReadActivation(Lookup(d.targets, Active))
  {
  }

  lemma NothingSteady(trace: seq<Disk>, files: map<Target, File>)
    ensures Steady(trace, |trace|, files)
  {
  }

  lemma CommitChecks(d: Disk, j: Journal)
    requires JournalsOk(d) && MarkersOk(d) && OpenOk(d) && Pending(d, j) && j.transactionId in d.receipts
    requires Effective(d) == d.targets && Head(d) == Proposed(d, j.transactionId)
    ensures !FinalizeFault(d, j) && Head(d).Some?
  {
    assert JournalOk(d, j.transactionId);
    forall t: Target
      ensures t in j.after && IsAfter(Lookup(d.targets, t), j.after[t])
    {
      assert HoldsAfter(d, j.transactionId, t);
    }
  }

  /** The checks before finishing an interrupted commit pass. */
  lemma CommitAccepted(d: Disk, j: Journal)
    requires Inv(d) && Pending(d, j) && j.transactionId in d.receipts
    ensures !FinalizeFault(d, j) && Head(d).Some?
    ensures Effective(d) == d.targets
  {
    CommitHead(d, j.transactionId);
    CommitChecks(d, j);
  }

  lemma UndoSteady(d: Disk, e: Disk, j: Journal)
    requires Inv(d) && Pending(d, j) && j.transactionId !in d.receipts && Undoing(d, e, j)
    ensures Inv(e) && Effective(e) == Effective(d) && Pending(e, j)
  {
    var tx := j.transactionId;
    forall t: Target
      ensures HoldsBefore(e, tx, t) || HoldsAfter(e, tx, t)
    {
      assert HoldsBefore(d, tx, t) || HoldsAfter(d, tx, t);
    }
    ReplaceKeeps(d, e, tx);
  }

  /** The last of several undos, each cut short, did what one undo does. */
  lemma UndoneInParts(d: Disk, e: Disk, f: Disk, j: Journal, rejected: bool)
    requires forall t: Target :: t in j.before && t in j.after
    requires Undoing(d, e, j) && Undoing(d, f, j)
    requires rejected <==> exists t: Target :: Decide(e, j, t).Refuse?
    requires !rejected ==> forall t: Target :: Settled(e, f, j, t)
    ensures rejected <==> exists t: Target :: Decide(d, j, t).Refuse?
    ensures !rejected ==> forall t: Target :: Settled(d, f, j, t)
    ensures Half(d, j) ==> !rejected && forall t: Target :: HoldsBefore(f, j.transactionId, t)
    ensures Inv(d) && Pending(d, j) && j.transactionId !in d.receipts ==> Inv(f) && Effective(f) == Effective(d)
  {
    forall t: Target
      ensures Decide(e, j, t).Refuse? <==> Decide(d, j, t).Refuse?
      ensures !rejected ==> Settled(d, f, j, t)
    {
      UndoDecides(d, e, j, t);
      if !rejected {
        UndoSettles(d, e, f, j, t);
      }
    }
    hide Inv, Effective, Half, Decide, Settled, HoldsBefore, Mixed, IsBefore, Pending;
    if Half(d, j) {
      NothingRefused(d, j);
      assert !rejected by {
        assert forall t: Target :: Restorable(d, j, t) ==> !Decide(d, j, t).Refuse?;
      }
      AllRestored(d, f, j);
    }
    if Inv(d) && Pending(d, j) && j.transactionId !in d.receipts {
      UndoSteady(d, f, j);
    }
  }

  /** The undo of `d` is finished and its marker written. */
  ghost predicate RolledBack(d: Disk, e: Disk, j: Journal) {
    var c := d.(targets := e.targets);
    && Undoing(d, c, j) && (forall t: Target :: HoldsBefore(c, j.transactionId, t))
    && e == Apply(c, WriteRolledBack(j.transactionId, j))
  }

  /** A state a rollback of `d` passes through. */
  ghost predicate RollingBack(d: Disk, e: Disk, j: Journal) {
    Undoing(d, e, j) || RolledBack(d, e, j)
  }

  lemma MarkerFresh(d: Disk, c: Disk, j: Journal)
    requires Pending(d, j) && Undoing(d, c, j) && forall t: Target :: HoldsBefore(c, j.transactionId, t)
    ensures var w := WriteRolledBack(j.transactionId, j);
            !Collides(c, w) && RolledBack(d, Apply(c, w), j)
  {
    hide HoldsBefore, Restorable;
    var e := Apply(c, WriteRolledBack(j.transactionId, j));
    assert d.(targets := e.targets) == c;
  }

  lemma RollbackSteady(d: Disk, e: Disk, j: Journal)
    requires Inv(d) && Pending(d, j) && j.transactionId !in d.receipts && RollingBack(d, e, j)
    ensures Inv(e) && Effective(e) == Effective(d)
    ensures RolledBack(d, e, j) ==> AtRest(e)
  {
    hide Inv, Effective, AtRest, Undoing, HoldsBefore;
    if RolledBack(d, e, j) {
      var c := d.(targets := e.targets);
      UndoSteady(d, c, j);
      RollbackKeeps(c, e, j.transactionId);
    } else {
      UndoSteady(d, e, j);
    }
  }

  lemma RollbackTrace(d: Disk, trace: seq<Disk>, from: nat, j: Journal)
    requires Inv(d) && Pending(d, j) && j.transactionId !in d.receipts
    requires forall i :: from <= i < |trace| ==> RollingBack(d, trace[i], j)
    ensures Steady(trace, from, Effective(d))
  {
    hide Inv, Effective, RollingBack, RolledBack;
    forall i | from <= i < |trace|
      ensures Inv(trace[i]) && Effective(trace[i]) == Effective(d)
    {
      RollbackSteady(d, trace[i], j);
    }
  }

  // ---- Undoing a transaction that has a receipt ------------------------------------------------

  lemma MovedAway(d: Disk, e: Disk, j: Journal, t: Target)
    requires t in j.after && IsAfter(Lookup(d.targets, t), j.after[t])
    requires Lookup(e.targets, t) != Lookup(d.targets, t)
    ensures !IsAfter(Lookup(e.targets, t), j.after[t])
  {
  }

  lemma SameTargets(d: Disk, e: Disk)
    ensures e.targets == d.targets <==> forall t: Target :: Lookup(e.targets, t) == Lookup(d.targets, t)
  {
    if forall t: Target :: Lookup(e.targets, t) == Lookup(d.targets, t) {
      forall t: Target
        ensures t in e.targets <==> t in d.targets
        ensures t in d.targets ==> t in e.targets && e.targets[t] == d.targets[t]
      {
        assert Lookup(e.targets, t) == Lookup(d.targets, t);
      }
    }
  }

  lemma LateUndoMoved(d: Disk, e: Disk, j: Journal)
    requires forall t: Target :: HoldsAfter(d, j.transactionId, t)
    requires j.transactionId in d.prepared && d.prepared[j.transactionId] == j
    requires !FinalizeFault(d, j) && Undoing(d, e, j)
    ensures FinalizeFault(e, j) <==> e.targets != d.targets
  {
    SameTargets(d, e);
    if e.targets != d.targets {
      var t: Target :| Lookup(e.targets, t) != Lookup(d.targets, t);
      assert HoldsAfter(d, j.transactionId, t);
      MovedAway(d, e, j, t);
    } else {
      assert e == d;
    }
  }

  lemma ReceiptedHoldsAfter(d: Disk, j: Journal)
    requires Inv(d) && Pending(d, j) && j.transactionId in d.receipts
    ensures forall t: Target :: HoldsAfter(d, j.transactionId, t)
  {
  }

  lemma LateUndoParts(d: Disk, e: Disk, j: Journal)
    requires Pending(d, j) && RollingBack(d, e, j)
    ensures j.transactionId in e.rolledBack <==> !Undoing(d, e, j)
    ensures j.transactionId in e.rolledBack <==> RolledBack(d, e, j)
    ensures Undoing(d, e, j) && e.targets == d.targets ==> e == d
    ensures j.transactionId in e.prepared && e.prepared[j.transactionId] == j && j.transactionId !in e.committed
    ensures j.transactionId in e.rolledBack ==> e.rolledBack[j.transactionId] == j
  {
  }

  /** An exception between receipt and committed marker makes the run undo a transaction that
      has a receipt. Killed on the way, it leaves a disk on which recovery refuses exactly when
      a target was moved and the marker not yet written. */
  lemma LateUndoExactly(d: Disk, e: Disk, j: Journal)
    requires Inv(d) && Pending(d, j) && j.transactionId in d.receipts && RollingBack(d, e, j)
    ensures j.transactionId in e.prepared && j.transactionId !in e.committed
    ensures j.transactionId !in e.rolledBack ==> (FinalizeFault(e, j) <==> e.targets != d.targets)
    ensures j.transactionId in e.rolledBack ==> TerminalCheck(e, j.transactionId) == Done
  {
    CommitAccepted(d, j);
    ReceiptedHoldsAfter(d, j);
    LateUndoParts(d, e, j);
    hide Inv, Effective, Head, FinalizeFault, Undoing, RolledBack, RollingBack;
    if j.transactionId !in e.rolledBack {
      LateUndoMoved(d, e, j);
    }
  }

  function MoveOne(d: Disk, t: Target, f: Option<File>): Disk {
    if f.Some? then Apply(d, Replace(t, f.value)) else Apply(d, Remove(t))
  }

  lemma MoveOneFrame(d: Disk, t: Target, f: Option<File>)
    ensures var e := MoveOne(d, t, f);
            && e == d.(targets := e.targets)
            && forall u: Target :: Lookup(e.targets, u) == if u == t then f else Lookup(d.targets, u)
  {
  }

  lemma FirstMove(d: Disk, j: Journal, t: Target, f: Option<File>)
    requires Restorable(d, j, t) && !IsBefore(Lookup(d.targets, t), j.before[t]) && IsBefore(f, j.before[t])
    ensures Undoing(d, MoveOne(d, t, f), j) && MoveOne(d, t, f).targets != d.targets
  {
    hide Decide, Mixed, IsBefore, Lookup, MoveOne;
    MoveOneFrame(d, t, f);
  }

  lemma PutBackFile(d: Disk, j: Journal, t: Target) returns (f: Option<File>)
    requires Restorable(d, j, t) && !IsBefore(Lookup(d.targets, t), j.before[t])
    ensures IsBefore(f, j.before[t])
  {
    DecideMeaning(d, j, t);
    f := if Decide(d, j, t).PutBack? then Some(Decide(d, j, t).f) else None;
  }

  /** Such a disk can be reached wherever the transaction changed a target. */
  lemma LateUndoRefused(d: Disk, j: Journal, t: Target) returns (e: Disk)
    requires Inv(d) && Pending(d, j) && j.transactionId in d.receipts && !HoldsBefore(d, j.transactionId, t)
    ensures Undoing(d, e, j) && FinalizeFault(e, j)
  {
    HalfOfOpen(d, j);
    NothingRefused(d, j);
    hide Inv, FinalizeFault, Undoing, Decide, Mixed, IsBefore, Half, RolledBack, MoveOne;
    assert Restorable(d, j, t);
    var f := PutBackFile(d, j, t);
    e := MoveOne(d, t, f);
    FirstMove(d, j, t, f);
    LateUndoParts(d, e, j);
    LateUndoExactly(d, e, j);
  }

  lemma SteadyGrows(trace: seq<Disk>, from: nat, files: map<Target, File>, d: Disk)
    requires from <= |trace| && Steady(trace, from, files) && Inv(d) && Effective(d) == files
    ensures Steady(trace + [d], from, files)
  {
    hide Inv, Effective;
    var longer := trace + [d];
    forall i | from <= i < |longer|
      ensures Inv(longer[i]) && Effective(longer[i]) == files
    {
      if i < |trace| {
        assert longer[i] == trace[i];
      }
    }
  }

  lemma SortedOnce(i: nat, j: nat)
    requires i < j < |SORTED_TARGETS|
    ensures SORTED_TARGETS[i] != SORTED_TARGETS[j]
  {
  }

  lemma DistinctTargets(i: nat)
    requires i < |SORTED_TARGETS|
    ensures SORTED_TARGETS[i] in SORTED_TARGETS[i..]
    ensures SORTED_TARGETS[..i + 1] == SORTED_TARGETS[..i] + [SORTED_TARGETS[i]]
    ensures forall t :: t in SORTED_TARGETS[i + 1..] ==> t != SORTED_TARGETS[i] && t in SORTED_TARGETS[i..]
    ensures forall t :: t in SORTED_TARGETS[..i] ==> t != SORTED_TARGETS[i]
  {
    hide SORTED_TARGETS;
    forall j | 0 <= j < |SORTED_TARGETS| && j != i
      ensures SORTED_TARGETS[j] != SORTED_TARGETS[i]
    {
      SortedOnce(if i < j then i else j, if i < j then j else i);
    }
    assert SORTED_TARGETS[i..] == [SORTED_TARGETS[i]] + SORTED_TARGETS[i + 1..];
  }

  lemma AllTargetsSorted()
    ensures forall t: Target :: t in SORTED_TARGETS
  {
    forall t: Target
      ensures t in SORTED_TARGETS
    {
      match t
      case PrivateConfig => assert SORTED_TARGETS[0] == t;
      case CollectorService => assert SORTED_TARGETS[1] == t;
      case CollectorTimer => assert SORTED_TARGETS[2] == t;
      case ContinuityService => assert SORTED_TARGETS[3] == t;
      case ContinuityTimer => assert SORTED_TARGETS[4] == t;
      case EvaluatorService => assert SORTED_TARGETS[5] == t;
      case NotifierService => assert SORTED_TARGETS[6] == t;
      case NotifierTimer => assert SORTED_TARGETS[7] == t;
      case Launcher => assert SORTED_TARGETS[8] == t;
      case Active => assert SORTED_TARGETS[9] == t;
    }
  }
}
