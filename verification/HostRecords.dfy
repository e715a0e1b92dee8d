/** The durable state of the monitoring host installer: the ten fixed target files,
    their backups, the journal with its terminal markers, the receipts and the
    activation records.

    A digest is a constructor around the bytes it was computed from, so SHA-256 over
    canonical JSON is injective and never yields the all-zero digest. */
module HostRecords {
  import opened Wrappers

  datatype Target =
    | Launcher | PrivateConfig
    | CollectorService | CollectorTimer | ContinuityService | ContinuityTimer
    | EvaluatorService | NotifierService | NotifierTimer
    | Active

  /** The order in which a transaction snapshots the targets; the active record comes last. */
  const FIXED_TARGETS: seq<Target> :=
    [Launcher, PrivateConfig, CollectorService, CollectorTimer, ContinuityService, ContinuityTimer,
     EvaluatorService, NotifierService, NotifierTimer, Active]

  /** The same targets sorted by path name, the order in which an undo visits them. */
  const SORTED_TARGETS: seq<Target> :=
    [PrivateConfig, CollectorService, CollectorTimer, ContinuityService, ContinuityTimer,
     EvaluatorService, NotifierService, NotifierTimer, Launcher, Active]

  /** The part of an activation record its own digest is computed over. */
  datatype Body = Body(
    activationId: string,
    generation: int,
    bundle: Digest,
    runtime: Digest,
    privateConfig: Digest,
    previous: Digest,
    committedAt: nat)

  datatype Activation = Activation(sha: Digest, body: Body)

  datatype Operation = Install | Rollback

  datatype Receipt = Receipt(
    operation: Operation,
    transactionId: Digest,
    activationSha: Digest,
    bundle: Digest,
    runtime: Digest,
    hostConfig: Digest,
    authorization: Digest,
    committedAt: nat)

  /** File contents: opaque bytes, or the canonical JSON of one of the installer's records. */
  datatype Blob =
    | Plain(text: string)
    | BodyJson(body: Body)
    | ActivationJson(activation: Activation)
    | TransactionJson(activationSha: Digest, authorization: Digest)
    | ReceiptJson(receipt: Receipt)

  datatype Digest = ZERO | Sha(raw: Blob)

  datatype Meta = Meta(mode: nat, uid: nat, gid: nat)

  datatype File = File(raw: Blob, meta: Meta)

  /** What a transaction found at a target, and the backup that holds its bytes. */
  datatype Snapshot = Absent | Present(sha: Digest, meta: Meta, backup: nat)

  /** What a transaction leaves at a target. */
  datatype Mark = Mark(sha: Digest, meta: Meta)

  datatype Journal = Journal(
    transactionId: Digest,
    activationSha: Digest,
    authorization: Digest,
    before: map<Target, Snapshot>,
    after: map<Target, Mark>,
    receipt: Receipt,
    preparedAt: nat)

  /** A terminal marker repeats the journal it closes. */
  datatype Committed = Committed(journal: Journal, receiptSha: Digest)

  datatype Disk = Disk(
    targets: map<Target, File>,
    backups: map<(Digest, nat), Blob>,
    prepared: map<Digest, Journal>,
    committed: map<Digest, Committed>,
    rolledBack: map<Digest, Journal>,
    receipts: map<Digest, Receipt>,
    activations: map<Digest, Activation>)

  const ACTIVE_META := Meta(0x124, 0, 0)       // 0444

  const LAUNCHER_META := Meta(0x16d, 0, 0)     // 0555

  const CONFIG_META := Meta(0x100, 0, 0)       // 0400

  function MetaOf(t: Target): Meta {
    match t
    case Launcher => LAUNCHER_META
    case PrivateConfig => CONFIG_META
    case _ => ACTIVE_META
  }

  function Lookup(files: map<Target, File>, t: Target): Option<File> {
    if t in files then Some(files[t]) else None
  }

  /** The target holds exactly what the snapshot recorded. */
  predicate IsBefore(f: Option<File>, s: Snapshot) {
    match s
    case Absent => f.None?
    case Present(sha, meta, _) => f.Some? && Sha(f.value.raw) == sha && f.value.meta == meta
  }

  /** The target holds exactly what the transaction writes there. */
  predicate IsAfter(f: Option<File>, m: Mark) {
    f.Some? && Sha(f.value.raw) == m.sha && f.value.meta == m.meta
  }

  predicate ValidActivation(a: Activation) {
    a.sha == Sha(BodyJson(a.body)) && a.body.generation >= 1
  }

  /** `validate_journal_receipt`: the receipt belongs to this journal and this activation. */
  predicate ReceiptMatches(r: Receipt, j: Journal, a: Activation) {
    && r.transactionId == j.transactionId
    && r.activationSha == j.activationSha
    && r.authorization == j.authorization
    && r.committedAt == j.preparedAt
    && r.bundle == a.body.bundle
    && r.runtime == a.body.runtime
    && r.hostConfig == a.body.privateConfig
    && r.committedAt == a.body.committedAt
  }

  /** Up to its operation, one receipt matches a journal and an activation of its time. */
  lemma MatchingReceipt(r: Receipt, j: Journal, a: Activation)
    ensures ReceiptMatches(r, j, a) <==>
            && j.preparedAt == a.body.committedAt
            && r == Receipt(r.operation, j.transactionId, j.activationSha, a.body.bundle, a.body.runtime,
                            a.body.privateConfig, j.authorization, j.preparedAt)
  {
  }

  /** The activation record stored in a file, if the file holds a valid one. */
  function ReadActivation(f: Option<File>): (r: Option<Activation>)
    ensures r.Some? ==> f.Some? && f.value.raw == ActivationJson(r.value) && ValidActivation(r.value)
  {
    if f.Some? && f.value.meta == ACTIVE_META && f.value.raw.ActivationJson? && ValidActivation(f.value.raw.activation)
    then Some(f.value.raw.activation)
    else None
  }
}
