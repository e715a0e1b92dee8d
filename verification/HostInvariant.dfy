/** What every reachable disk satisfies, the logical contents a disk stands for, and the
    effect of each kind of write on both. */
module HostInvariant {
  import opened Wrappers
  import opened HostRecords

  // ---- Open transactions and logical contents ---------------------------------------

  /** Transactions with a prepared journal and no terminal marker. */
  function OpenSet(d: Disk): set<Digest> {
    d.prepared.Keys - d.committed.Keys - d.rolledBack.Keys
  }

  function BeforeFiles(j: Journal): map<Target, File> {
    map t | t in j.before && j.before[t].Present? && j.before[t].sha.Sha?
      :: File(j.before[t].sha.raw, j.before[t].meta)
  }

  function AfterFiles(j: Journal): map<Target, File> {
    map t | t in j.after && j.after[t].sha.Sha? :: File(j.after[t].sha.raw, j.after[t].meta)
  }

  /** The contents the disk stands for: an open transaction without a receipt counts as
      not having happened, whatever mixture of old and new files is lying around. */
  ghost function Effective(d: Disk): map<Target, File> {
    if exists tx :: tx in OpenSet(d) && tx !in d.receipts then
      var tx :| tx in OpenSet(d) && tx !in d.receipts;
      BeforeFiles(d.prepared[tx])
    else
      d.targets
  }

  /** The activation the disk stands for, if any. */
  ghost function Head(d: Disk): Option<Activation> {
    ReadActivation(Lookup(Effective(d), Active))
  }

  function ShaOf(a: Option<Activation>): Digest {
    if a.Some? then a.value.sha else ZERO
  }

  function GenerationOf(a: Option<Activation>): int {
    if a.Some? then a.value.body.generation else 0
  }

  function PreviousOf(a: Option<Activation>): Digest {
    if a.Some? then a.value.body.previous else ZERO
  }

  // ---- The activation chain ----------------------------------------------------------

  /** Following `previous` through the recorded activations reaches the zero digest
      after exactly `n` records. */
  ghost predicate ChainFrom(acts: map<Digest, Activation>, sha: Digest, n: nat)
    decreases n
  {
    if n == 0 then sha == ZERO
    else sha in acts && acts[sha].sha == sha && acts[sha].body.generation == n
         && ChainFrom(acts, acts[sha].body.previous, n - 1)
  }

  lemma {:induction false} ChainGrows(acts: map<Digest, Activation>, a: Activation, sha: Digest, n: nat)
    requires ChainFrom(acts, sha, n)
    requires a.sha in acts ==> acts[a.sha] == a
    ensures ChainFrom(acts[a.sha := a], sha, n)
    decreases n
  {
    if n > 0 {
      ChainGrows(acts, a, acts[sha].body.previous, n - 1);
    }
  }

  // ---- The invariant -------------------------------------------------------------------

  /** The activation record a journal would install. */
  function RecordOf(j: Journal): (r: Option<Activation>) {
    if Active in j.after && j.after[Active].sha.Sha? then
      ReadActivation(Some(File(j.after[Active].sha.raw, j.after[Active].meta)))
    else None
  }

  /** The activation record transaction `tx` would install. */
  function Proposed(d: Disk, tx: Digest): Option<Activation> {
    if tx in d.prepared then RecordOf(d.prepared[tx]) else None
  }

  ghost predicate JournalOk(d: Disk, tx: Digest) {
    tx in d.prepared &&
    var j := d.prepared[tx];
    && j.transactionId == tx == Sha(TransactionJson(j.activationSha, j.authorization))
    && (forall t: Target :: t in j.before && t in j.after && j.after[t].sha.Sha?)
    && RecordOf(j).Some? && RecordOf(j).value.sha == j.activationSha
    && ReceiptMatches(j.receipt, j, RecordOf(j).value)
    && (forall t: Target :: j.before[t].Present? ==>
          && j.before[t].sha.Sha?
          && (tx, j.before[t].backup) in d.backups
          && d.backups[(tx, j.before[t].backup)] == j.before[t].sha.raw)
  }

  predicate HoldsBefore(d: Disk, tx: Digest, t: Target) {
    tx in d.prepared && t in d.prepared[tx].before && IsBefore(Lookup(d.targets, t), d.prepared[tx].before[t])
  }

  predicate HoldsAfter(d: Disk, tx: Digest, t: Target) {
    tx in d.prepared && t in d.prepared[tx].after && IsAfter(Lookup(d.targets, t), d.prepared[tx].after[t])
  }

  ghost predicate MarkersOk(d: Disk) {
    && d.committed.Keys <= d.receipts.Keys <= d.prepared.Keys
    && d.rolledBack.Keys <= d.prepared.Keys
    && d.rolledBack.Keys !! d.receipts.Keys
    && (forall tx :: tx in d.receipts ==> d.receipts[tx] == d.prepared[tx].receipt)
    && (forall tx :: tx in d.committed ==>
          d.committed[tx] == Committed(d.prepared[tx], Sha(ReceiptJson(d.receipts[tx]))))
    && (forall tx :: tx in d.rolledBack ==> d.rolledBack[tx] == d.prepared[tx])
  }

  /** At most one transaction is open, and it says what every target may hold. */
  ghost predicate OpenOk(d: Disk) {
    && (forall x, y :: x in OpenSet(d) && y in OpenSet(d) ==> x == y)
    && (forall tx, t: Target :: tx in OpenSet(d) && tx in d.receipts ==> HoldsAfter(d, tx, t))
    && (forall tx, t: Target :: tx in OpenSet(d) && tx !in d.receipts ==>
          HoldsBefore(d, tx, t) || HoldsAfter(d, tx, t))
  }

  /** The head record sits at the end of an unbroken chain of recorded activations, and
      an open transaction proposes its direct successor. */
  ghost predicate ChainOk(d: Disk) {
    && (Active in Effective(d) ==> Head(d).Some?)
    && (Head(d).Some? ==> ChainFrom(d.activations, PreviousOf(Head(d)), GenerationOf(Head(d)) - 1))
    && (forall tx :: tx in OpenSet(d) && tx !in d.receipts ==>
          && PreviousOf(Proposed(d, tx)) == ShaOf(Head(d))
          && GenerationOf(Proposed(d, tx)) == GenerationOf(Head(d)) + 1)
  }

  /** The receipt of the transaction is on disk: it took effect. */
  predicate Installed(d: Disk, tx: Digest) {
    tx in d.receipts
  }

  predicate Recorded(d: Disk, tx: Digest) {
    ShaOf(Proposed(d, tx)) in d.activations
  }

  /** Every transaction with a receipt installed a generation of its own; the contents are
      the new files of the one that installed the head. */
  ghost predicate GenerationsOk(d: Disk) {
    && d.receipts.Keys <= d.prepared.Keys
    && (forall tx {:trigger Installed(d, tx)} :: Installed(d, tx) ==>
          GenerationOf(Proposed(d, tx)) <= GenerationOf(Head(d)))
    && (forall x, y {:trigger Installed(d, x), Installed(d, y)} :: Installed(d, x) && Installed(d, y) && x != y ==>
          GenerationOf(Proposed(d, x)) != GenerationOf(Proposed(d, y)))
    && (Head(d).Some? ==>
          exists tx :: tx in d.receipts && Proposed(d, tx) == Head(d) && Effective(d) == AfterFiles(d.prepared[tx]))
  }

  /** The recorded activations are those of the committed transactions, the newest
      excepted while its record is still owed. */
  ghost predicate RecordsOk(d: Disk) {
    && (forall sha :: sha in d.activations ==>
          && ValidActivation(d.activations[sha]) && d.activations[sha].sha == sha
          && exists tx :: tx in d.committed && Proposed(d, tx) == Some(d.activations[sha]))
    && (forall tx {:trigger Recorded(d, tx)} :: tx in d.committed && !Recorded(d, tx) ==>
          OpenSet(d) == {} && Proposed(d, tx) == Head(d))
  }

  ghost predicate HistoryOk(d: Disk) {
    GenerationsOk(d) && RecordsOk(d)
  }

  ghost predicate JournalsOk(d: Disk) {
    forall tx :: tx in d.prepared ==> JournalOk(d, tx)
  }

  ghost predicate Inv(d: Disk) {
    && JournalsOk(d)
    && MarkersOk(d)
    && OpenOk(d)
    && ChainOk(d)
    && HistoryOk(d)
  }

  ghost predicate CommitPoint(a: Disk, b: Disk) {
    exists tx ::
      && tx in OpenSet(a) && tx !in a.receipts && tx in b.receipts
      && Effective(b) == AfterFiles(a.prepared[tx])
      && GenerationOf(Head(b)) == GenerationOf(Head(a)) + 1
      && PreviousOf(Head(b)) == ShaOf(Head(a))
  }

  /** One write changes the logical contents only at the commit point: the receipt of the
      open transaction appears and all ten targets switch to its new files at once. */
  ghost predicate Refines(a: Disk, b: Disk) {
    Effective(b) == Effective(a) || CommitPoint(a, b)
  }

  /** Nothing is left to finish or to undo. */
  ghost predicate AtRest(d: Disk) {
    && OpenSet(d) == {}
    && (forall tx {:trigger Recorded(d, tx)} :: tx in d.committed ==> Recorded(d, tx))
  }

  // ---- The eight kinds of writes ---------------------------------------------------------

  lemma EffectiveWhileOpen(d: Disk, tx: Digest)
    requires OpenOk(d) && tx in OpenSet(d)
    ensures tx !in d.receipts ==> Effective(d) == BeforeFiles(d.prepared[tx])
    ensures tx in d.receipts ==> Effective(d) == d.targets
  {
  }

  lemma SameLookups(a: map<Target, File>, b: map<Target, File>)
    requires forall t: Target :: Lookup(a, t) == Lookup(b, t)
    ensures a == b
  {
    forall t: Target
      ensures t in a <==> t in b
      ensures t in a ==> a[t] == b[t]
    {
      assert Lookup(a, t) == Lookup(b, t);
    }
  }

  /** Targets that all hold their old files are the old files. */
  lemma AllBefore(d: Disk, tx: Digest)
    requires Inv(d) && tx in d.prepared && forall t: Target :: HoldsBefore(d, tx, t)
    ensures d.targets == BeforeFiles(d.prepared[tx])
  {
    var j := d.prepared[tx];
    assert JournalOk(d, tx);
    forall t: Target
      ensures Lookup(d.targets, t) == Lookup(BeforeFiles(j), t)
    {
      assert HoldsBefore(d, tx, t);
    }
    SameLookups(d.targets, BeforeFiles(j));
  }

  lemma AllAfter(d: Disk, tx: Digest)
    requires Inv(d) && tx in d.prepared && forall t: Target :: HoldsAfter(d, tx, t)
    ensures d.targets == AfterFiles(d.prepared[tx])
  {
    var j := d.prepared[tx];
    assert JournalOk(d, tx);
    forall t: Target
      ensures Lookup(d.targets, t) == Lookup(AfterFiles(j), t)
    {
      assert HoldsAfter(d, tx, t);
    }
    SameLookups(d.targets, AfterFiles(j));
  }

  /** The logical contents depend only on the targets, the journals, the terminal markers and the receipts. */
  lemma SameStanding(d: Disk, e: Disk)
    requires OpenSet(d) == OpenSet(e) && OpenOk(d)
    requires d.targets == e.targets && d.prepared == e.prepared && d.receipts == e.receipts
    ensures Effective(d) == Effective(e)
  {
  }

  /** A journal stays sound while its own backups stay. */
  lemma JournalKeeps(d: Disk, e: Disk, x: Digest)
    requires JournalOk(d, x)
    requires x in e.prepared && e.prepared[x] == d.prepared[x]
    requires forall k: nat :: (x, k) in d.backups ==> (x, k) in e.backups && e.backups[(x, k)] == d.backups[(x, k)]
    ensures JournalOk(e, x)
  {
  }

  lemma JournalsKeep(d: Disk, e: Disk)
    requires JournalsOk(d) && e.prepared == d.prepared && e.backups == d.backups
    ensures JournalsOk(e)
  {
    forall x | x in e.prepared
      ensures JournalOk(e, x)
    {
      JournalKeeps(d, e, x);
    }
  }

  lemma OnlyOpen(d: Disk, tx: Digest)
    requires OpenOk(d) && tx in OpenSet(d)
    ensures OpenSet(d) == {tx}
  {
  }

  lemma ChainTransfers(d: Disk, e: Disk)
    requires ChainOk(d) && OpenSet(e) == OpenSet(d) && e.prepared == d.prepared && e.receipts == d.receipts
    requires e.activations == d.activations && Effective(e) == Effective(d)
    ensures ChainOk(e)
  {
    assert forall x :: Proposed(e, x) == Proposed(d, x);
  }

  lemma GenerationsTransfer(d: Disk, e: Disk)
    requires GenerationsOk(d) && MarkersOk(d)
    requires d.receipts == e.receipts && Effective(e) == Effective(d)
    requires d.prepared.Keys <= e.prepared.Keys && forall x :: x in d.prepared ==> e.prepared[x] == d.prepared[x]
    ensures GenerationsOk(e)
  {
    assert forall x :: x in d.prepared ==> Proposed(e, x) == Proposed(d, x);
    assert forall x :: Installed(e, x) == Installed(d, x);
  }

  lemma RecordsTransfer(d: Disk, e: Disk)
    requires RecordsOk(d) && MarkersOk(d)
    requires d.committed == e.committed && d.activations == e.activations && Head(e) == Head(d)
    requires d.prepared.Keys <= e.prepared.Keys && forall x :: x in d.prepared ==> e.prepared[x] == d.prepared[x]
    requires OpenSet(e) == OpenSet(d) || forall x {:trigger Recorded(d, x)} :: x in d.committed ==> Recorded(d, x)
    ensures RecordsOk(e)
  {
    assert forall x :: x in d.prepared ==> Proposed(e, x) == Proposed(d, x);
    assert forall x :: x in d.prepared ==> Recorded(e, x) == Recorded(d, x);
  }

  /** The history does not care about targets, backups or transactions without a receipt. */
  lemma HistoryTransfers(d: Disk, e: Disk)
    requires HistoryOk(d) && MarkersOk(d)
    requires d.receipts == e.receipts && d.committed == e.committed && d.activations == e.activations
    requires d.prepared.Keys <= e.prepared.Keys && forall x :: x in d.prepared ==> e.prepared[x] == d.prepared[x]
    requires Effective(e) == Effective(d)
    requires OpenSet(e) == OpenSet(d) || forall x {:trigger Recorded(d, x)} :: x in d.committed ==> Recorded(d, x)
    ensures HistoryOk(e)
  {
    GenerationsTransfer(d, e);
    RecordsTransfer(d, e);
  }

  lemma BackupKeepsRest(d: Disk, e: Disk)
    requires e == d.(backups := e.backups) && Effective(e) == Effective(d)
    requires MarkersOk(d) && OpenOk(d) && ChainOk(d) && HistoryOk(d)
    ensures OpenOk(e) && ChainOk(e) && HistoryOk(e)
  {
    assert forall x, t :: HoldsBefore(d, x, t) ==> HoldsBefore(e, x, t);
    assert forall x, t :: HoldsAfter(d, x, t) ==> HoldsAfter(e, x, t);
    ChainTransfers(d, e);
    HistoryTransfers(d, e);
  }

  /** A backup for a transaction that is not prepared yet touches nothing that matters. */
  lemma BackupKeeps(d: Disk, e: Disk, tx: Digest, k: nat, raw: Blob)
    requires Inv(d) && tx !in d.prepared
    requires e == d.(backups := d.backups[(tx, k) := raw])
    ensures Inv(e) && Effective(e) == Effective(d)
  {
    hide Effective, HistoryOk, ChainOk;
    SameStanding(d, e);
    BackupKeepsRest(d, e);
    forall x | x in e.prepared
      ensures JournalOk(e, x)
    {
      JournalKeeps(d, e, x);
    }
  }

  lemma PrepareMarkers(d: Disk, e: Disk, tx: Digest, j: Journal)
    requires MarkersOk(d) && OpenSet(d) == {} && tx !in d.prepared && e == d.(prepared := d.prepared[tx := j])
    requires forall t: Target :: HoldsBefore(e, tx, t)
    ensures MarkersOk(e) && OpenSet(e) == {tx} && tx !in e.receipts && OpenOk(e)
  {
    assert OpenSet(e) == {tx};
  }

  lemma PrepareJournals(d: Disk, e: Disk, tx: Digest)
    requires JournalsOk(d) && tx !in d.prepared && JournalOk(e, tx)
    requires tx in e.prepared && e == d.(prepared := d.prepared[tx := e.prepared[tx]])
    ensures JournalsOk(e)
  {
    forall x | x in e.prepared
      ensures JournalOk(e, x)
    {
      if x != tx { JournalKeeps(d, e, x); }
    }
  }

  lemma PrepareChain(d: Disk, e: Disk, tx: Digest, j: Journal)
    requires ChainOk(d) && e == d.(prepared := d.prepared[tx := j])
    requires OpenSet(e) == {tx} && Effective(e) == Effective(d)
    requires PreviousOf(RecordOf(j)) == ShaOf(Head(d)) && GenerationOf(RecordOf(j)) == GenerationOf(Head(d)) + 1
    ensures ChainOk(e)
  {
    assert Proposed(e, tx) == RecordOf(j);
  }

  lemma PrepareEffective(d: Disk, e: Disk, tx: Digest)
    requires OpenSet(d) == {} && OpenSet(e) == {tx} && d.targets == e.targets && tx !in e.receipts
    requires JournalOk(e, tx) && forall t: Target :: HoldsBefore(e, tx, t)
    ensures Effective(e) == Effective(d) == BeforeFiles(e.prepared[tx])
  {
    var j := e.prepared[tx];
    forall t: Target
      ensures Lookup(e.targets, t) == Lookup(BeforeFiles(j), t)
    {
      assert HoldsBefore(e, tx, t);
    }
    SameLookups(e.targets, BeforeFiles(j));
  }

  /** Writing the prepared journal opens the transaction without changing what the disk stands for. */
  lemma PrepareKeeps(d: Disk, e: Disk, tx: Digest, j: Journal)
    requires Inv(d) && AtRest(d) && tx !in d.prepared
    requires e == d.(prepared := d.prepared[tx := j]) && JournalOk(e, tx)
    requires forall t: Target :: HoldsBefore(e, tx, t)
    requires PreviousOf(RecordOf(j)) == ShaOf(Head(d)) && GenerationOf(RecordOf(j)) == GenerationOf(Head(d)) + 1
    ensures Inv(e) && Effective(e) == Effective(d) && OpenSet(e) == {tx}
  {
    hide Effective, JournalsOk, MarkersOk, HistoryOk, ChainOk;
    PrepareMarkers(d, e, tx, j);
    PrepareJournals(d, e, tx);
    PrepareEffective(d, e, tx);
    PrepareChain(d, e, tx, j);
    HistoryTransfers(d, e);
  }

  /** While the transaction is open, its targets may move between their old and new files. */
  lemma ReplaceKeeps(d: Disk, e: Disk, tx: Digest)
    requires Inv(d) && tx in OpenSet(d) && tx !in d.receipts
    requires e == d.(targets := e.targets)
    requires forall t: Target :: HoldsBefore(e, tx, t) || HoldsAfter(e, tx, t)
    ensures Inv(e) && Effective(e) == Effective(d) && OpenSet(e) == OpenSet(d)
  {
    hide JournalsOk, HistoryOk, ChainOk;
    assert OpenSet(e) == OpenSet(d);
    JournalsKeep(d, e);
    assert OpenOk(e);
    EffectiveWhileOpen(d, tx);
    EffectiveWhileOpen(e, tx);
    ChainTransfers(d, e);
    HistoryTransfers(d, e);
  }

  lemma ReceiptMarkers(d: Disk, e: Disk, tx: Digest)
    requires JournalsOk(d) && MarkersOk(d) && tx in OpenSet(d) && tx !in d.receipts
    requires e == d.(receipts := d.receipts[tx := d.prepared[tx].receipt])
    ensures MarkersOk(e)
  {
  }

  lemma ReceiptEffective(d: Disk, e: Disk, tx: Digest)
    requires Inv(d) && tx in OpenSet(d) && tx !in d.receipts
    requires forall t: Target :: HoldsAfter(d, tx, t)
    requires e == d.(receipts := d.receipts[tx := d.prepared[tx].receipt])
    ensures OpenSet(e) == OpenSet(d) && OpenOk(e)
    ensures Effective(e) == AfterFiles(d.prepared[tx]) && Head(e) == Proposed(d, tx) && Head(e).Some?
  {
    assert OpenSet(e) == OpenSet(d);
    AllAfter(d, tx);
    assert forall t: Target :: HoldsAfter(d, tx, t) ==> HoldsAfter(e, tx, t);
    assert OpenOk(e);
    EffectiveWhileOpen(e, tx);
    assert JournalOk(d, tx);
  }

  lemma ReceiptCommits(d: Disk, e: Disk, tx: Digest)
    requires ChainOk(d) && tx in OpenSet(d) && tx !in d.receipts && tx in e.receipts
    requires Effective(e) == AfterFiles(d.prepared[tx]) && Head(e) == Proposed(d, tx)
    ensures CommitPoint(d, e)
  {
  }

  /** A recorded activation with the head's digest is the head. */
  lemma HeadConsistent(d: Disk)
    requires RecordsOk(d) && Head(d).Some? && ShaOf(Head(d)) in d.activations
    ensures d.activations[ShaOf(Head(d))] == Head(d).value
  {
  }

  /** While a transaction is open without a receipt, the head it would replace is recorded. */
  lemma OpenHeadRecorded(d: Disk, tx: Digest)
    requires MarkersOk(d) && OpenOk(d) && HistoryOk(d) && tx in OpenSet(d) && tx !in d.receipts && Head(d).Some?
    ensures ShaOf(Head(d)) in d.activations && d.activations[ShaOf(Head(d))] == Head(d).value
  {
    var x :| x in d.receipts && Proposed(d, x) == Head(d);
    assert x !in OpenSet(d);
    assert Recorded(d, x);
    HeadConsistent(d);
  }

  lemma ReceiptChain(d: Disk, e: Disk, tx: Digest)
    requires MarkersOk(d) && OpenOk(d) && ChainOk(d) && HistoryOk(d) && tx in OpenSet(d) && tx !in d.receipts
    requires e == d.(receipts := e.receipts) && tx in e.receipts && OpenSet(e) == OpenSet(d)
    requires Head(e) == Proposed(d, tx) && Head(e).Some? && (Active in Effective(e) ==> Head(e).Some?)
    ensures ChainOk(e)
  {
    if Head(d).Some? {
      OpenHeadRecorded(d, tx);
    }
    assert ChainFrom(d.activations, ShaOf(Head(d)), GenerationOf(Head(d)));
  }

  lemma ReceiptGenerations(d: Disk, e: Disk, tx: Digest)
    requires GenerationsOk(d) && GenerationOf(Proposed(d, tx)) == GenerationOf(Head(d)) + 1
    requires tx in d.prepared && e == d.(receipts := d.receipts[tx := d.prepared[tx].receipt])
    requires Head(e) == Proposed(d, tx) && Effective(e) == AfterFiles(d.prepared[tx])
    ensures GenerationsOk(e)
  {
    assert forall x :: Proposed(e, x) == Proposed(d, x);
    forall x | Installed(e, x)
      ensures Installed(d, x) || x == tx
    {
    }
    assert Proposed(e, tx) == Head(e);
  }

  lemma ReceiptRecords(d: Disk, e: Disk)
    requires RecordsOk(d) && e == d.(receipts := e.receipts)
    requires forall x {:trigger Recorded(d, x)} :: x in d.committed ==> Recorded(d, x)
    ensures RecordsOk(e)
  {
    assert forall x :: Proposed(e, x) == Proposed(d, x);
    assert forall x :: Recorded(e, x) == Recorded(d, x);
  }

  /** While a transaction is open, every earlier commit has its activation record. */
  lemma AllRecorded(d: Disk)
    requires HistoryOk(d) && OpenSet(d) != {}
    ensures forall x {:trigger Recorded(d, x)} :: x in d.committed ==> Recorded(d, x)
  {
  }

  lemma ReceiptHistory(d: Disk, e: Disk, tx: Digest)
    requires HistoryOk(d) && MarkersOk(d) && ChainOk(d) && tx in OpenSet(d) && tx !in d.receipts
    requires e == d.(receipts := d.receipts[tx := d.prepared[tx].receipt]) && OpenSet(e) == OpenSet(d)
    requires Head(e) == Proposed(d, tx) && Head(e).Some? && Effective(e) == AfterFiles(d.prepared[tx])
    ensures HistoryOk(e)
  {
    AllRecorded(d);
    ReceiptGenerations(d, e, tx);
    ReceiptRecords(d, e);
  }

  /** The receipt is the commit point: the disk now stands for the new files. */
  lemma ReceiptKeeps(d: Disk, e: Disk, tx: Digest)
    requires Inv(d) && tx in OpenSet(d) && tx !in d.receipts
    requires forall t: Target :: HoldsAfter(d, tx, t)
    requires e == d.(receipts := d.receipts[tx := d.prepared[tx].receipt])
    ensures Inv(e) && OpenSet(e) == OpenSet(d)
    ensures Effective(e) == AfterFiles(d.prepared[tx]) && Head(e) == Proposed(d, tx)
    ensures CommitPoint(d, e)
  {
    hide Effective, JournalsOk, MarkersOk, HistoryOk, ChainOk;
    ReceiptEffective(d, e, tx);
    ReceiptMarkers(d, e, tx);
    JournalsKeep(d, e);
    ReceiptChain(d, e, tx);
    ReceiptHistory(d, e, tx);
    ReceiptCommits(d, e, tx);
  }

  /** A terminal marker closes the only open transaction. */
  lemma MarkerCloses(d: Disk, e: Disk, tx: Digest)
    requires OpenOk(d) && tx in OpenSet(d) && e.prepared == d.prepared
    requires e.committed.Keys + e.rolledBack.Keys == d.committed.Keys + d.rolledBack.Keys + {tx}
    ensures OpenSet(e) == {} && Effective(e) == e.targets
  {
    OnlyOpen(d, tx);
    assert OpenSet(e) == d.prepared.Keys - (d.committed.Keys + d.rolledBack.Keys + {tx});
  }

  lemma CommitMarkers(d: Disk, e: Disk, tx: Digest)
    requires MarkersOk(d) && tx in OpenSet(d) && tx in d.receipts && OpenSet(e) == {}
    requires e == d.(committed := d.committed[tx := Committed(d.prepared[tx], Sha(ReceiptJson(d.receipts[tx])))])
    ensures MarkersOk(e) && OpenOk(e)
  {
  }

  lemma CommitHead(d: Disk, tx: Digest)
    requires Inv(d) && tx in OpenSet(d) && tx in d.receipts
    ensures Effective(d) == d.targets && Head(d) == Proposed(d, tx)
  {
    EffectiveWhileOpen(d, tx);
    AllAfter(d, tx);
    assert JournalOk(d, tx);
  }

  lemma CommitChain(d: Disk, e: Disk)
    requires ChainOk(d) && e.activations == d.activations && Effective(e) == Effective(d) && OpenSet(e) == {}
    ensures ChainOk(e)
  {
  }

  lemma CommitRecords(d: Disk, e: Disk, tx: Digest)
    requires RecordsOk(d) && e == d.(committed := e.committed) && OpenSet(e) == {}
    requires e.committed.Keys == d.committed.Keys + {tx} && Proposed(e, tx) == Head(e)
    requires forall x {:trigger Recorded(d, x)} :: x in d.committed ==> Recorded(d, x)
    ensures RecordsOk(e)
  {
    assert forall x :: Proposed(e, x) == Proposed(d, x);
    assert forall x :: Recorded(e, x) == Recorded(d, x);
  }

  lemma CommitHistory(d: Disk, e: Disk, tx: Digest)
    requires HistoryOk(d) && MarkersOk(d) && tx in OpenSet(d) && tx in d.receipts && OpenSet(e) == {}
    requires e == d.(committed := d.committed[tx := Committed(d.prepared[tx], Sha(ReceiptJson(d.receipts[tx])))])
    requires Effective(e) == Effective(d) && Head(d) == Proposed(d, tx)
    ensures HistoryOk(e)
  {
    GenerationsTransfer(d, e);
    AllRecorded(d);
    CommitRecords(d, e, tx);
  }

  /** The committed marker closes the transaction; only its activation record is still owed. */
  lemma CommitKeeps(d: Disk, e: Disk, tx: Digest)
    requires Inv(d) && tx in OpenSet(d) && tx in d.receipts
    requires e == d.(committed := d.committed[tx := Committed(d.prepared[tx], Sha(ReceiptJson(d.receipts[tx])))])
    ensures Inv(e) && Effective(e) == Effective(d) == e.targets && OpenSet(e) == {}
  {
    hide Effective, JournalsOk, MarkersOk, HistoryOk, ChainOk;
    MarkerCloses(d, e, tx);
    JournalsKeep(d, e);
    CommitHead(d, tx);
    CommitMarkers(d, e, tx);
    CommitHistory(d, e, tx);
    CommitChain(d, e);
  }

  lemma RollbackEffective(d: Disk, e: Disk, tx: Digest)
    requires Inv(d) && tx in OpenSet(d) && tx !in d.receipts
    requires forall t: Target :: HoldsBefore(d, tx, t)
    requires e == d.(rolledBack := d.rolledBack[tx := d.prepared[tx]])
    ensures OpenSet(e) == {} && Effective(e) == Effective(d) && JournalsOk(e)
  {
    MarkerCloses(d, e, tx);
    EffectiveWhileOpen(d, tx);
    AllBefore(d, tx);
    JournalsKeep(d, e);
  }

  lemma RollbackMarkers(d: Disk, e: Disk, tx: Digest)
    requires MarkersOk(d) && tx in OpenSet(d) && tx !in d.receipts && OpenSet(e) == {}
    requires e == d.(rolledBack := d.rolledBack[tx := d.prepared[tx]])
    ensures MarkersOk(e) && OpenOk(e)
  {
  }

  lemma RestTransfers(d: Disk, e: Disk)
    requires e == d.(rolledBack := e.rolledBack) && OpenSet(e) == {}
    requires forall x {:trigger Recorded(d, x)} :: x in d.committed ==> Recorded(d, x)
    ensures AtRest(e)
  {
    assert forall x :: Recorded(e, x) == Recorded(d, x);
  }

  lemma RollbackHistory(d: Disk, e: Disk)
    requires HistoryOk(d) && MarkersOk(d) && OpenSet(d) != {} && OpenSet(e) == {} && Effective(e) == Effective(d)
    requires e == d.(rolledBack := e.rolledBack)
    ensures HistoryOk(e) && AtRest(e)
  {
    AllRecorded(d);
    HistoryTransfers(d, e);
    RestTransfers(d, e);
  }

  /** The rolled-back marker closes a transaction whose targets are all back. */
  lemma RollbackKeeps(d: Disk, e: Disk, tx: Digest)
    requires Inv(d) && tx in OpenSet(d) && tx !in d.receipts
    requires forall t: Target :: HoldsBefore(d, tx, t)
    requires e == d.(rolledBack := d.rolledBack[tx := d.prepared[tx]])
    ensures Inv(e) && Effective(e) == Effective(d) && AtRest(e)
  {
    hide Effective, JournalsOk, MarkersOk, HistoryOk, ChainOk;
    RollbackEffective(d, e, tx);
    RollbackMarkers(d, e, tx);
    CommitChain(d, e);
    RollbackHistory(d, e);
  }

  lemma RecordStanding(d: Disk, e: Disk)
    requires JournalsOk(d) && MarkersOk(d) && OpenSet(d) == {} && e == d.(activations := e.activations)
    ensures JournalsOk(e) && MarkersOk(e) && OpenSet(e) == {} && Effective(e) == Effective(d) && OpenOk(e)
  {
    JournalsKeep(d, e);
  }

  lemma RecordChain(d: Disk, e: Disk)
    requires ChainOk(d) && HistoryOk(d) && Head(d).Some? && OpenSet(e) == {} && Effective(e) == Effective(d)
    requires e == d.(activations := d.activations[ShaOf(Head(d)) := Head(d).value])
    ensures ChainOk(e)
  {
    hide RecordsOk, GenerationsOk;
    if ShaOf(Head(d)) in d.activations { HeadConsistent(d); }
    ChainGrows(d.activations, Head(d).value, PreviousOf(Head(d)), GenerationOf(Head(d)) - 1);
  }

  /** At rest, the head is the activation of a committed transaction. */
  lemma HeadCommitted(d: Disk)
    requires MarkersOk(d) && HistoryOk(d) && OpenSet(d) == {} && Head(d).Some?
    ensures exists tx :: tx in d.committed && Proposed(d, tx) == Head(d)
  {
    var x :| x in d.receipts && Proposed(d, x) == Head(d);
    assert x !in OpenSet(d);
  }

  lemma RecordRecords(d: Disk, e: Disk)
    requires RecordsOk(d) && OpenSet(e) == {} && Head(d).Some? && Head(e) == Head(d)
    requires exists tx :: tx in d.committed && Proposed(d, tx) == Head(d)
    requires e == d.(activations := d.activations[ShaOf(Head(d)) := Head(d).value])
    ensures RecordsOk(e) && AtRest(e)
  {
    assert forall x :: Proposed(e, x) == Proposed(d, x);
    forall x | x in d.committed
      ensures Recorded(e, x)
    {
      assert Recorded(d, x) || Proposed(d, x) == Head(d);
    }
  }

  lemma RecordHistory(d: Disk, e: Disk)
    requires HistoryOk(d) && MarkersOk(d) && OpenSet(d) == OpenSet(e) == {} && Head(d).Some?
        && Effective(e) == Effective(d)
    requires e == d.(activations := d.activations[ShaOf(Head(d)) := Head(d).value])
    ensures HistoryOk(e) && AtRest(e)
  {
    HeadCommitted(d);
    GenerationsTransfer(d, e);
    RecordRecords(d, e);
  }

  /** Writing the head's activation record settles what a commit still owed. */
  lemma RecordKeeps(d: Disk, e: Disk)
    requires Inv(d) && OpenSet(d) == {} && Head(d).Some?
    requires e == d.(activations := d.activations[ShaOf(Head(d)) := Head(d).value])
    ensures Inv(e) && Effective(e) == Effective(d) && AtRest(e)
  {
    hide Effective, JournalsOk, MarkersOk, HistoryOk, ChainOk;
    RecordStanding(d, e);
    RecordHistory(d, e);
    RecordChain(d, e);
  }

  // ---- What the invariant means ------------------------------------------------------------

  /** At most one prepared journal lacks a terminal marker. */
  lemma AtMostOneOpen(d: Disk)
    requires Inv(d)
    ensures |OpenSet(d)| <= 1
  {
    hide JournalsOk, MarkersOk, ChainOk, HistoryOk;
    if OpenSet(d) != {} {
      var x :| x in OpenSet(d);
      OnlyOpen(d, x);
    }
  }

  /** The generation number of the head is the length of its chain of predecessors. */
  lemma GenerationIsChainLength(d: Disk)
    requires ChainOk(d) && RecordsOk(d) && Head(d).Some?
    ensures ChainFrom(d.activations[ShaOf(Head(d)) := Head(d).value], ShaOf(Head(d)), GenerationOf(Head(d)))
  {
    ChainGrows(d.activations, Head(d).value, PreviousOf(Head(d)), GenerationOf(Head(d)) - 1);
  }

  /** A chain has one length: the generation cannot be claimed otherwise. */
  lemma {:induction false} ChainLengthUnique(acts: map<Digest, Activation>, sha: Digest, m: nat, n: nat)
    requires ChainFrom(acts, sha, m) && ChainFrom(acts, sha, n)
    requires forall x :: x in acts ==> acts[x].sha != ZERO
    ensures m == n
    decreases m
  {
    if m > 0 && n > 0 {
      ChainLengthUnique(acts, acts[sha].body.previous, m - 1, n - 1);
    }
  }

  lemma SettledMarkers(d: Disk, x: Digest)
    requires MarkersOk(d) && AtRest(d) && x in d.prepared
    ensures (x in d.committed) != (x in d.rolledBack) && (x in d.committed <==> x in d.receipts)
    ensures Effective(d) == d.targets
  {
    assert x !in OpenSet(d);
  }

  lemma GenerationsDiffer(d: Disk, x: Digest, y: Digest)
    requires GenerationsOk(d) && x in d.receipts && y in d.receipts
    requires GenerationOf(Proposed(d, x)) == GenerationOf(Proposed(d, y))
    ensures x == y
  {
    assert Installed(d, x) && Installed(d, y);
  }

  /** Once every transaction is closed, a transaction took effect exactly when it is
      committed, each generation was installed by exactly one of them, and the ten
      targets are all at the new files of the newest one. */
  lemma SettledHistory(d: Disk, x: Digest, y: Digest)
    requires Inv(d) && AtRest(d) && x in d.prepared && y in d.prepared
    ensures (x in d.committed) != (x in d.rolledBack)
    ensures x in d.committed <==> x in d.receipts
    ensures x in d.committed && y in d.committed && GenerationOf(Proposed(d, x)) == GenerationOf(Proposed(d, y)) ==>
        x == y
    ensures Effective(d) == d.targets
    ensures x in d.committed && Head(d).Some? && GenerationOf(Proposed(d, x)) == GenerationOf(Head(d)) ==>
              d.targets == AfterFiles(d.prepared[x])
  {
    hide JournalsOk, OpenOk, ChainOk, RecordsOk, Head, AtRest;
    SettledMarkers(d, x);
    if x in d.committed && y in d.committed && GenerationOf(Proposed(d, x)) == GenerationOf(Proposed(d, y)) {
      GenerationsDiffer(d, x, y);
    }
    if x in d.committed && Head(d).Some? && GenerationOf(Proposed(d, x)) == GenerationOf(Head(d)) {
      var tx :| tx in d.receipts && Proposed(d, tx) == Head(d) && Effective(d) == AfterFiles(d.prepared[tx]);
      GenerationsDiffer(d, x, tx);
    }
  }
}
