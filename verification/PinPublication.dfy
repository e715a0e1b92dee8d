/** Publishing the pre-import host pin without ever replacing it: any number of installer
    runs over one directory, interleaved at every system call and killed anywhere.

    A run's temporary name carries its process id and sixteen random bytes; the model
    makes it the run's own. */
module PinPublication {

  type Bytes = seq<int>

  datatype Name = Pin | Temp(run: nat) | Foreign(name: string)

  datatype Result = Created | AlreadyPresent | Failed(code: string)

  /** Where a run stands. */
  datatype Phase =
    | Arrived
    | Opened
    | PinSeen
    | PinMissing
    | Writing(offset: nat)
    | Synced
    | Renamed
    | Raced
    | Cleaning(result: Result)
    | Returned(result: Result)
    | Crashed

  datatype State = State(expected: Bytes, entries: map<Name, Bytes>, runs: map<nat, Phase>)

  /** One system call of a run; `Fault` makes the pending call fail, `Kill` ends the process. */
  datatype Act = Arrive | Call(amount: nat) | Fault | Kill

  datatype Move = Move(run: nat, act: Act)

  /** `_open_pin_root` tolerates no entry but the pin itself. */
  predicate Exact(entries: map<Name, Bytes>) {
    forall n :: n in entries ==> n.Pin?
  }

  /** What one call does to the directory. */
  datatype Edit = Leave | Make | Append(piece: Bytes) | Publish | Unlink

  datatype Effect = Effect(phase: Phase, edit: Edit)

  /** Reading the pin that is already there. */
  function Compare(s: State): Result {
    if Pin !in s.entries then Failed("ISOLATED_UAT_HOST_PIN_FILE_INVALID")
    else if s.entries[Pin] == s.expected then AlreadyPresent
    else Failed("ISOLATED_UAT_HOST_PIN_EXISTING_CONTENT_MISMATCH")
  }

  /** The pending call of a run in phase `p` goes through; a write takes up to `amount` bytes. */
  function Through(s: State, id: nat, p: Phase, amount: nat): Effect {
    match p
    case Arrived =>
      Effect(if Exact(s.entries) then Opened else Returned(Failed("ISOLATED_UAT_HOST_PIN_DIRECTORY_NOT_EXACT")), Leave)
    case Opened => Effect(if Pin in s.entries then PinSeen else PinMissing, Leave)
    case PinSeen => Effect(Returned(Compare(s)), Leave)
    case PinMissing =>
      if Temp(id) in s.entries then Effect(Cleaning(Failed("ISOLATED_UAT_HOST_PIN_PREPARE_FAILED")), Leave)
      else Effect(Writing(0), Make)
    case Writing(offset) =>
      if offset >= |s.expected| then Effect(Synced, Leave)
      else if amount == 0 || Temp(id) !in s.entries then
        Effect(Cleaning(Failed("ISOLATED_UAT_HOST_PIN_WRITE_FAILED")), Leave)
      else
        var end := if offset + amount < |s.expected| then offset + amount else |s.expected|;
        Effect(Writing(end), Append(s.expected[offset..end]))
    case Synced =>
      if Temp(id) !in s.entries then Effect(Cleaning(Failed("ISOLATED_UAT_HOST_PIN_PUBLISH_FAILED")), Leave)
      else if Pin in s.entries then Effect(Raced, Leave)
      else Effect(Renamed, Publish)
    case Renamed => Effect(Cleaning(Created), Leave)
    case Raced => Effect(Cleaning(Compare(s)), Leave)
    case Cleaning(result) => Effect(Returned(result), Unlink)
    case Returned(_) => Effect(p, Leave)
    case Crashed => Effect(p, Leave)
  }

  /** The pending call fails. */
  function Failing(p: Phase): Phase {
    match p
    case Arrived => Returned(Failed("ISOLATED_UAT_HOST_PIN_DIRECTORY_INVALID"))
    case Opened => Returned(Failed("ISOLATED_UAT_HOST_PIN_FILE_INVALID"))
    case PinSeen => Returned(Failed("ISOLATED_UAT_HOST_PIN_FILE_INVALID"))
    case PinMissing => Cleaning(Failed("ISOLATED_UAT_HOST_PIN_PREPARE_FAILED"))
    case Writing(_) => Cleaning(Failed("ISOLATED_UAT_HOST_PIN_WRITE_FAILED"))
    case Synced => Cleaning(Failed("ISOLATED_UAT_HOST_PIN_PUBLISH_FAILED"))
    case Renamed => Cleaning(Failed("ISOLATED_UAT_HOST_PIN_FSYNC_FAILED"))
    case Raced => Cleaning(Failed("ISOLATED_UAT_HOST_PIN_FILE_INVALID"))
    case Cleaning(_) => Returned(Failed("ISOLATED_UAT_HOST_PIN_TEMP_CLEANUP_FAILED"))
    case Returned(_) => p
    case Crashed => p
  }

  function EffectOf(s: State, id: nat, act: Act): Effect
    requires id in s.runs
  {
    var p := s.runs[id];
    match act
    case Arrive => Effect(p, Leave)
    case Call(amount) => Through(s, id, p, amount)
    case Fault => Effect(Failing(p), Leave)
    case Kill => Effect(if p.Returned? then p else Crashed, Leave)
  }

  function Edited(entries: map<Name, Bytes>, id: nat, edit: Edit): map<Name, Bytes> {
    match edit
    case Leave => entries
    case Make => entries[Temp(id) := []]
    case Append(piece) => if Temp(id) in entries then entries[Temp(id) := entries[Temp(id)] + piece] else entries
    case Publish =>
      if Temp(id) in entries && Pin !in entries then entries[Pin := entries[Temp(id)]] - {Temp(id)} else entries
    case Unlink => entries - {Temp(id)}
  }

  /** One step of the whole system; a move nobody can make changes nothing. */
  function Next(s: State, m: Move): State {
    if m.run in s.runs then
      var f := EffectOf(s, m.run, m.act);
      s.(runs := s.runs[m.run := f.phase], entries := Edited(s.entries, m.run, f.edit))
    else if m.act.Arrive? then s.(runs := s.runs[m.run := Arrived])
    else s
  }

  function Run(s: State, moves: seq<Move>): State
    decreases |moves|
  {
    if moves == [] then s else Next(Run(s, moves[..|moves| - 1]), moves[|moves| - 1])
  }

  lemma {:induction false} RunJoins(s: State, a: seq<Move>, b: seq<Move>)
    ensures Run(s, a + b) == Run(Run(s, a), b)
    decreases |b|
  {
    if b == [] {
      assert a + b == a;
    } else {
      var n := |b| - 1;
      assert (a + b)[..|a + b| - 1] == a + b[..n];
      RunJoins(s, a, b[..n]);
    }
  }

  /** Before any run: whatever directory there is, holding no run's temporary file. */
  ghost predicate Initial(s: State) {
    s.runs == map[] && forall id :: Temp(id) !in s.entries
  }

  // ---- The pin never changes ---------------------------------------------------------------

  ghost predicate PinKept(a: State, b: State) {
    b.expected == a.expected && (Pin in a.entries ==> Pin in b.entries && b.entries[Pin] == a.entries[Pin])
  }

  ghost predicate SameTemp(s: State, e: State, x: nat) {
    && (Temp(x) in e.entries <==> Temp(x) in s.entries)
    && (Temp(x) in s.entries ==> e.entries[Temp(x)] == s.entries[Temp(x)])
  }

  /** What a move of one run leaves alone. */
  ghost predicate Framed(s: State, e: State, id: nat) {
    && PinKept(s, e)
    && (forall x :: x != id ==> (x in e.runs <==> x in s.runs) && (x in s.runs ==> e.runs[x] == s.runs[x]))
    && (forall x :: x != id ==> SameTemp(s, e, x))
  }

  lemma NextFrames(s: State, m: Move)
    ensures Framed(s, Next(s, m), m.run)
  {
    hide EffectOf;
  }

  /** Whatever any number of runs do, a pin once present stays there with the same bytes. */
  lemma {:induction false} PinNeverChanges(s: State, moves: seq<Move>)
    ensures PinKept(s, Run(s, moves))
    decreases |moves|
  {
    hide Next;
    if moves != [] {
      PinNeverChanges(s, moves[..|moves| - 1]);
      NextFrames(Run(s, moves[..|moves| - 1]), moves[|moves| - 1]);
    }
  }

  // ---- What every reachable state satisfies -----------------------------------------------

  /** The run renamed its file to the pin and has not failed since. */
  predicate Made(p: Phase) {
    p.Renamed? || (p.Cleaning? && p.result.Created?) || (p.Returned? && p.result.Created?)
  }

  predicate Verified(p: Phase) {
    (p.Cleaning? && p.result.AlreadyPresent?) || (p.Returned? && p.result.AlreadyPresent?)
  }

  predicate Denied(p: Phase) {
    (p.Cleaning? || p.Returned?) && p.result == Failed("ISOLATED_UAT_HOST_PIN_EXISTING_CONTENT_MISMATCH")
  }

  /** What a run's temporary file holds in each phase. */
  predicate TempOk(s: State, id: nat) {
    id in s.runs &&
    match s.runs[id]
    case Writing(k) => k <= |s.expected| && (Temp(id) in s.entries ==> s.entries[Temp(id)] == s.expected[..k])
    case Synced => Temp(id) in s.entries ==> s.entries[Temp(id)] == s.expected
    case Raced => true
    case Cleaning(_) => true
    case Returned(r) => r == Failed("ISOLATED_UAT_HOST_PIN_TEMP_CLEANUP_FAILED") || Temp(id) !in s.entries
    case Crashed => true
    case _ => Temp(id) !in s.entries
  }

  ghost predicate Inv(first: State, s: State) {
    && (Pin in first.entries ==> Pin in s.entries && s.entries[Pin] == first.entries[Pin])
    && (Pin !in first.entries && Pin in s.entries ==> s.entries[Pin] == s.expected)
    && (forall id :: Temp(id) in s.entries ==> id in s.runs)
    && (forall id :: id in s.runs ==> TempOk(s, id))
    && (forall id :: id in s.runs && Made(s.runs[id]) ==> Pin !in first.entries && Pin in s.entries)
    && (forall x, y :: x in s.runs && y in s.runs && Made(s.runs[x]) && Made(s.runs[y]) ==> x == y)
    && (forall id :: id in s.runs && Verified(s.runs[id]) ==> Pin in s.entries && s.entries[Pin] == s.expected)
    && (forall id :: id in s.runs && Denied(s.runs[id]) ==> Pin in s.entries && s.entries[Pin] != s.expected)
  }

  /** What a move does to its own run: a pin appears by the rename of a finished file only. */
  ghost predicate OwnOk(s: State, e: State, id: nat) {
    && (Temp(id) in e.entries ==> id in e.runs)
    && (id in e.runs ==> TempOk(e, id))
    && (Pin in e.entries && Pin !in s.entries ==> e.entries[Pin] == s.expected)
    && (id in e.runs && Made(e.runs[id]) ==>
      (id in s.runs && Made(s.runs[id])) || (Pin !in s.entries && Pin in e.entries))
    && (id in e.runs && Verified(e.runs[id]) ==>
          (id in s.runs && Verified(s.runs[id])) || (Pin in e.entries && e.entries[Pin] == s.expected))
    && (id in e.runs && Denied(e.runs[id]) ==>
          (id in s.runs && Denied(s.runs[id])) || (Pin in e.entries && e.entries[Pin] != s.expected))
  }

  lemma OwnCall(s: State, id: nat, amount: nat)
    requires id in s.runs && TempOk(s, id)
    ensures OwnOk(s, Next(s, Move(id, Call(amount))), id)
  {
    hide Exact;
    match s.runs[id]
    case Writing(k) =>
      assert k < |s.expected| && amount > 0 && Temp(id) in s.entries ==>
          forall end | k <= end <= |s.expected| :: s.expected[..k] + s.expected[k..end] == s.expected[..end];
    case _ =>
  }

  lemma OwnFault(s: State, id: nat)
    requires id in s.runs && TempOk(s, id)
    ensures OwnOk(s, Next(s, Move(id, Fault)), id)
  {
    hide Exact, Through;
  }

  lemma OwnKill(s: State, id: nat)
    requires id in s.runs && TempOk(s, id)
    ensures OwnOk(s, Next(s, Move(id, Kill)), id) && OwnOk(s, Next(s, Move(id, Arrive)), id)
  {
    hide Exact, Through, Failing;
  }

  lemma OwnArrives(s: State, id: nat)
    requires id !in s.runs && Temp(id) !in s.entries
    ensures forall m: Move :: m.run == id ==> OwnOk(s, Next(s, m), id)
  {
  }

  lemma NextOwn(s: State, m: Move)
    requires m.run in s.runs ==> TempOk(s, m.run)
    requires m.run !in s.runs ==> Temp(m.run) !in s.entries
    ensures OwnOk(s, Next(s, m), m.run)
  {
    hide Exact, TempOk, Failing, Through, Edited;
    if m.run in s.runs {
      match m.act
      case Call(amount) => OwnCall(s, m.run, amount);
      case Fault => OwnFault(s, m.run);
      case Kill => OwnKill(s, m.run);
      case Arrive => OwnKill(s, m.run);
    } else {
      OwnArrives(s, m.run);
    }
  }

  lemma NextKeeps(first: State, s: State, m: Move)
    requires Inv(first, s)
    ensures Inv(first, Next(s, m))
  {
    hide Next;
    NextFrames(s, m);
    NextOwn(s, m);
    var e := Next(s, m);
    forall id | id in e.runs
      ensures TempOk(e, id)
    {
      assert id != m.run ==> TempOk(s, id) && SameTemp(s, e, id);
    }
    forall id | Temp(id) in e.entries
      ensures id in e.runs
    {
      assert id != m.run ==> SameTemp(s, e, id);
    }
  }

  lemma {:induction false} RunKeeps(first: State, moves: seq<Move>)
    requires Initial(first)
    ensures Inv(first, Run(first, moves))
    decreases |moves|
  {
    if moves != [] {
      RunKeeps(first, moves[..|moves| - 1]);
      NextKeeps(first, Run(first, moves[..|moves| - 1]), moves[|moves| - 1]);
    }
  }

  /** In every interleaving: a pin that appears holds the complete expected bytes, at most
      one run reports that it created it, and then only if it was missing at first; every
      successful report is true of the directory, and a mismatch is reported only of a pin that
      was there from the start; a run that returned leaves its temporary file
      only if it failed to remove it. */
  lemma PublicationIsSafe(first: State, moves: seq<Move>, x: nat, y: nat)
    requires Initial(first)
    ensures var s := Run(first, moves);
            && PinKept(first, s)
            && (Pin !in first.entries && Pin in s.entries ==> s.entries[Pin] == first.expected)
            && (x in s.runs && y in s.runs && s.runs[x] == s.runs[y] == Returned(Created) ==> x == y)
            && (x in s.runs && s.runs[x] == Returned(Created) ==> Pin !in first.entries)
            && (x in s.runs && s.runs[x].Returned? && !s.runs[x].result.Failed? ==>
                  Pin in s.entries && s.entries[Pin] == first.expected && Temp(x) !in s.entries)
            && (x in s.runs && s.runs[x] == Returned(Failed("ISOLATED_UAT_HOST_PIN_EXISTING_CONTENT_MISMATCH")) ==>
                  Pin in first.entries && first.entries[Pin] != first.expected)
            && (x in s.runs && s.runs[x].Returned? && Temp(x) in s.entries ==>
                  s.runs[x].result == Failed("ISOLATED_UAT_HOST_PIN_TEMP_CLEANUP_FAILED"))
  {
    RunKeeps(first, moves);
    PinNeverChanges(first, moves);
    var s := Run(first, moves);
    if x in s.runs {
      assert TempOk(s, x);
    }
  }

  // ---- What a report says of the run itself -----------------------------------------------------

  /** Move `k` put the pin in place, and run `id` made it. */
  ghost predicate PublishesAt(first: State, moves: seq<Move>, id: nat, k: nat) {
    k < |moves| && moves[k].run == id
    && Pin !in Run(first, moves[..k]).entries && Pin in Run(first, moves[..k + 1]).entries
  }

  ghost predicate Publishes(first: State, moves: seq<Move>, id: nat) {
    exists k: nat :: PublishesAt(first, moves, id, k)
  }

  /** The result of a run that had published: success, or a directory that could not be synced. */
  predicate AfterPublishing(r: Result) {
    r in {Created, Failed("ISOLATED_UAT_HOST_PIN_FSYNC_FAILED")}
  }

  /** The run is past publishing. */
  predicate HasPublished(p: Phase) {
    p.Renamed? || ((p.Cleaning? || p.Returned?) && AfterPublishing(p.result))
  }

  /** Whether it published cannot be told: it was killed, or failed while cleaning up. */
  predicate Untold(p: Phase) {
    p.Crashed? || p == Returned(Failed("ISOLATED_UAT_HOST_PIN_TEMP_CLEANUP_FAILED"))
  }

  /** One move publishes exactly when it takes its run past publishing. */
  lemma PublishingMove(s: State, m: Move)
    ensures var e := Next(s, m);
            Pin !in s.entries && Pin in e.entries <==>
            m.run in e.runs && HasPublished(e.runs[m.run]) && !(m.run in s.runs && HasPublished(s.runs[m.run]))
    ensures var e := Next(s, m);
            m.run in s.runs ==>
              m.run in e.runs && (HasPublished(s.runs[m.run]) ==> Untold(e.runs[m.run]) || HasPublished(e.runs[m.run]))
    ensures var e := Next(s, m);
            m.run in s.runs && Untold(s.runs[m.run]) ==> m.run in e.runs && Untold(e.runs[m.run])
  {
    hide Exact;
  }

  lemma PublishesGrows(first: State, moves: seq<Move>, id: nat)
    requires moves != []
    ensures var n := |moves| - 1;
            Publishes(first, moves, id) <==>
            Publishes(first, moves[..n], id) || PublishesAt(first, moves, id, n)
  {
    hide Run;
    var n := |moves| - 1;
    forall k: nat | k < n
      ensures PublishesAt(first, moves, id, k) <==> PublishesAt(first, moves[..n], id, k)
    {
      assert moves[..n][..k] == moves[..k] && moves[..n][..k + 1] == moves[..k + 1];
    }
    if k: nat :| PublishesAt(first, moves, id, k) {
      assert k == n || PublishesAt(first, moves[..n], id, k);
    }
    if k: nat :| PublishesAt(first, moves[..n], id, k) {
      assert PublishesAt(first, moves, id, k);
    }
  }

  lemma NothingPublished(first: State, id: nat)
    ensures !Publishes(first, [], id)
  {
  }

  lemma LastMove(first: State, moves: seq<Move>, id: nat)
    requires moves != []
    ensures var n := |moves| - 1;
            var s, e := Run(first, moves[..n]), Run(first, moves);
            PublishesAt(first, moves, id, n) <==> moves[n].run == id && Pin !in s.entries && Pin in e.entries
  {
    hide Next, Run;
    var n := |moves| - 1;
    assert moves[..n + 1] == moves;
  }

  /** In every interleaving, a run that published reports that it created the pin or that the
      directory could not be synced, and such a report is made by no other; only a kill or a
      failed cleanup leave it open. */
  lemma {:induction false} ReportsExactly(first: State, moves: seq<Move>, id: nat)
    requires Initial(first)
    ensures var s := Run(first, moves);
            && (id !in s.runs ==> !Publishes(first, moves, id))
            && (id in s.runs && !Untold(s.runs[id]) ==> (HasPublished(s.runs[id]) <==> Publishes(first, moves, id)))
    decreases |moves|
  {
    hide Next, Publishes, HasPublished, Untold, PublishesAt;
    if moves == [] {
      NothingPublished(first, id);
    } else {
      var n := |moves| - 1;
      var s, m := Run(first, moves[..n]), moves[n];
      ReportsExactly(first, moves[..n], id);
      PublishesGrows(first, moves, id);
      NextFrames(s, m);
      PublishingMove(s, m);
      LastMove(first, moves, id);
    }
  }

  // ---- What a crash leaves behind ------------------------------------------------------------

  ghost predicate Leftover(s: State, id: nat) {
    id in s.runs && s.runs[id].Crashed? && Temp(id) in s.entries
  }

  /** The run has not got past listing the directory. */
  predicate NotOpened(s: State, id: nat) {
    id !in s.runs || s.runs[id].Arrived? || s.runs[id].Crashed? || (s.runs[id].Returned? && s.runs[id].result.Failed?)
  }

  lemma LeftoverStays(s: State, m: Move, dead: nat, id: nat)
    requires Leftover(s, dead) && NotOpened(s, id)
    ensures Leftover(Next(s, m), dead) && NotOpened(Next(s, m), id)
  {
    assert !Exact(s.entries);
    NextFrames(s, m);
    assert m.run != dead ==> SameTemp(s, Next(s, m), dead);
    hide Exact;
  }

  /** The temporary file of a killed run is never removed; the directory is never exact again
      and no run that lists it afterwards gets past that. */
  lemma {:induction false} LeftoverBlocks(s: State, moves: seq<Move>, dead: nat, id: nat)
    requires Leftover(s, dead) && NotOpened(s, id)
    ensures Leftover(Run(s, moves), dead) && !Exact(Run(s, moves).entries) && NotOpened(Run(s, moves), id)
    decreases |moves|
  {
    if moves != [] {
      LeftoverBlocks(s, moves[..|moves| - 1], dead, id);
      LeftoverStays(Run(s, moves[..|moves| - 1]), moves[|moves| - 1], dead, id);
    }
  }

  function Calls(id: nat, n: nat): seq<Move> {
    seq(n, _ => Move(id, Call(0)))
  }

  lemma OneMove(s: State, m: Move)
    ensures Run(s, [m]) == Next(s, m)
  {
    assert [m][..0] == [];
  }

  lemma CallsRun(s: State, id: nat, n: nat)
    requires n == 3
    ensures Run(s, Calls(id, n)) == var c := Move(id, Call(0)); Next(Next(Next(s, c), c), c)
  {
    var c := Move(id, Call(0));
    assert Calls(id, 3) == [c] + [c] + [c];
    RunJoins(s, [c] + [c], [c]);
    RunJoins(s, [c], [c]);
    OneMove(s, c);
    OneMove(Next(s, c), c);
    OneMove(Next(Next(s, c), c), c);
  }

  /** Such a state is one crash away from an empty directory. */
  lemma CrashCanBlock(first: State, id: nat)
    requires Initial(first) && first.entries == map[]
    ensures Leftover(Run(first, [Move(id, Arrive)] + Calls(id, 3) + [Move(id, Kill)]), id)
  {
    var arrived := Next(first, Move(id, Arrive));
    CallsRun(arrived, id, 3);
    RunJoins(first, [Move(id, Arrive)], Calls(id, 3));
    RunJoins(first, [Move(id, Arrive)] + Calls(id, 3), [Move(id, Kill)]);
    OneMove(first, Move(id, Arrive));
    OneMove(Run(arrived, Calls(id, 3)), Move(id, Kill));
    var call := Move(id, Call(0));
    assert Next(arrived, call).runs[id] == Opened;
    assert Next(Next(arrived, call), call).runs[id] == PinMissing;
    assert Next(Next(Next(arrived, call), call), call).runs[id] == Writing(0);
  }

  // ---- One run as the program text -----------------------------------------------------------

  /** Other runs touch neither the phase nor the temporary file of this one. */
  ghost predicate Undisturbed(a: State, b: State, id: nat) {
    id in a.runs && id in b.runs && b.runs[id] == a.runs[id] && SameTemp(a, b, id)
  }

  lemma {:induction false} OthersPassBy(s: State, moves: seq<Move>, id: nat)
    requires id in s.runs && forall m: Move :: m in moves ==> m.run != id
    ensures Undisturbed(s, Run(s, moves), id)
    decreases |moves|
  {
    hide Next;
    if moves != [] {
      OthersPassBy(s, moves[..|moves| - 1], id);
      NextFrames(Run(s, moves[..|moves| - 1]), moves[|moves| - 1]);
      assert moves[|moves| - 1] in moves;
      assert SameTemp(Run(s, moves[..|moves| - 1]), Run(s, moves), id);
    }
  }

  /** The only failure is a pin with other bytes. */
  predicate OnlyMismatch(s: State, r: Result) {
    r.Failed? ==>
      && r == Failed("ISOLATED_UAT_HOST_PIN_EXISTING_CONTENT_MISMATCH")
      && Pin in s.entries && s.entries[Pin] != s.expected
  }

  /** The shared directory as one run meets it: before each of its calls the other runs
      take whatever turn `others` gives them. */
  class SharedDirectory {
    var state: State
    var clock: nat
    const id: nat
    const others: nat -> seq<Move>
    /** None of this run's own calls fails. */
    const healthy: bool
    ghost var history: seq<Move>

    constructor (state: State, id: nat, others: nat -> seq<Move>, healthy: bool)
      requires forall t, m: Move :: m in others(t) ==> m.run != id
      ensures Valid(state) && this.state == state && this.id == id && this.others == others
    {
      this.state, this.clock, this.id, this.others, this.healthy, this.history := state, 0, id, others, healthy, [];
    }

    ghost predicate Valid(first: State)
      reads this
    {
      state == Run(first, history) && forall t, m: Move :: m in others(t) ==> m.run != id
    }

    method Fails() returns (fault: bool)
      ensures healthy ==> !fault
    {
      fault := *;
      fault := fault && !healthy;
    }

    /** How many bytes the system takes in one write. */
    method Taken() returns (written: nat)
      ensures healthy ==> written > 0
    {
      var any: int := *;
      written := if any > 0 then any else if healthy then 1 else 0;
    }

    /** One system call of this run, after the others had their turn. */
    method Act(act: Act, ghost first: State) returns (ghost seen: State)
      requires Valid(first) && id in state.runs
      modifies this
      ensures Valid(first)
      ensures Undisturbed(old(state), seen, id) && PinKept(old(state), seen)
      ensures seen == Run(old(state), others(old(clock))) && state == Next(seen, Move(id, act))
    {
      var turn := others(clock);
      OthersPassBy(state, turn, id);
      PinNeverChanges(state, turn);
      RunJoins(first, history, turn);
      RunJoins(first, history + turn, [Move(id, act)]);
      assert [Move(id, act)][..0] == [];
      seen := Run(state, turn);
      state := Next(Run(state, turn), Move(id, act));
      clock := clock + 1;
      history := history + turn + [Move(id, act)];
    }

    /** Writes the whole pin in as many pieces as the system takes. */
    method WriteAll(ghost first: State) returns (ok: bool)
      requires Valid(first) && id in state.runs && state.runs[id] == Writing(0)
      requires Temp(id) in state.entries && state.entries[Temp(id)] == []
      modifies this
      ensures Valid(first) && id in state.runs && PinKept(old(state), state)
      ensures ok ==> state.runs[id] == Writing(|state.expected|)
      ensures ok ==> Temp(id) in state.entries && state.entries[Temp(id)] == state.expected
      ensures !ok ==> state.runs[id].Cleaning? && state.runs[id].result.Failed? && !healthy
    {
      hide Exact, Run;
      var raw := state.expected;
      var offset := 0;
      while offset < |raw|
        invariant Valid(first) && id in state.runs && PinKept(old(state), state) && state.expected == raw
        invariant offset <= |raw| && state.runs[id] == Writing(offset)
        invariant Temp(id) in state.entries && state.entries[Temp(id)] == raw[..offset]
        decreases |raw| - offset
      {
        var fault := Fails();
        var written := Taken();
        ghost var seen := Act(if fault then Fault else Call(written), first);
        if fault || written == 0 {
          return false;
        }
        ghost var was := offset;
        offset := if offset + written < |raw| then offset + written else |raw|;
        assert raw[..was] + raw[was..offset] == raw[..offset];
      }
      ok := true;
    }

    /** Closes the file, renames it to the pin unless there is one, and finds out which. */
    method Rename(ghost first: State)
      requires Valid(first) && id in state.runs && state.runs[id] == Writing(|state.expected|)
      requires Temp(id) in state.entries
      modifies this
      ensures Valid(first) && PinKept(old(state), state)
      ensures id in state.runs && state.runs[id].Cleaning?
      ensures state.runs[id].result.Created? ==> Pin !in old(state).entries
      ensures healthy ==> OnlyMismatch(state, state.runs[id].result)
    {
      hide Exact, Run;
      var fault := Fails();
      ghost var seen := Act(if fault then Fault else Call(0), first);
      if !fault {
        fault := Fails();
        seen := Act(if fault then Fault else Call(0), first);
        if !fault {
          fault := Fails();
          seen := Act(if fault then Fault else Call(0), first);
        }
      }
    }

    /** Creates the temporary file, fills it and publishes it. */
    method Prepare(ghost first: State)
      requires Valid(first) && id in state.runs && state.runs[id] == PinMissing && Temp(id) !in state.entries
      modifies this
      ensures Valid(first) && PinKept(old(state), state)
      ensures id in state.runs && state.runs[id].Cleaning?
      ensures state.runs[id].result.Created? ==> Pin !in old(state).entries
      ensures healthy ==> OnlyMismatch(state, state.runs[id].result)
    {
      hide Exact, Run;
      var fault := Fails();
      ghost var seen := Act(if fault then Fault else Call(0), first);
      if state.runs[id].Writing? {
        var written := WriteAll(first);
        if written {
          Rename(first);
        }
      }
    }

    method Proceed(ghost first: State) returns (r: Result)
      requires Valid(first) && id in state.runs && state.runs[id] == Opened && Temp(id) !in state.entries
      modifies this
      ensures Valid(first) && PinKept(old(state), state)
      ensures id in state.runs && state.runs[id] == Returned(r)
      ensures r.Created? ==> Pin !in old(state).entries
      ensures healthy ==> OnlyMismatch(state, r)
    {
      hide Exact, Run;
      var fault := Fails();
      ghost var seen := Act(if fault then Fault else Call(0), first);
      if fault {
        return state.runs[id].result;
      }
      if state.runs[id].PinSeen? {
        fault := Fails();
        seen := Act(if fault then Fault else Call(0), first);
        return state.runs[id].result;
      }
      Prepare(first);
      fault := Fails();
      seen := Act(if fault then Fault else Call(0), first);
      r := state.runs[id].result;
    }

    /** `_publish_pin` from the moment the root is open: whatever the other runs do and
        whichever calls fail, the outcome it reports is true. */
    method Publish(ghost first: State) returns (r: Result)
      requires Initial(first) && Valid(first) && id in state.runs && state.runs[id] == Opened
      modifies this
      ensures Valid(first) && PinKept(old(state), state)
      ensures id in state.runs && state.runs[id] == Returned(r)
      ensures !r.Failed? ==>
                Pin in state.entries && state.entries[Pin] == state.expected && Temp(id) !in state.entries
      ensures r.Created? ==> Pin !in old(state).entries
      ensures Pin in old(state).entries && old(state).entries[Pin] != state.expected ==> r.Failed?
      ensures healthy && r.Failed? ==>
                && r == Failed("ISOLATED_UAT_HOST_PIN_EXISTING_CONTENT_MISMATCH")
                && Pin in old(state).entries && old(state).entries[Pin] != state.expected
    {
      hide Initial;
      RunKeeps(first, history);
      PinNeverChanges(first, history);
      assert TempOk(state, id);
      r := Proceed(first);
      PublicationIsSafe(first, history, id, id);
    }

    /** A whole run from its arrival. It lists the directory first; when none of its own calls
        fails, it fails exactly when that list is not exact or the pin in it has other bytes,
        whatever the other runs do meanwhile. */
    method Install(ghost first: State) returns (r: Result, ghost listed: State)
      requires Initial(first) && Valid(first) && id in state.runs && state.runs[id] == Arrived
      modifies this
      ensures Valid(first) && listed == Run(old(state), others(old(clock))) && PinKept(listed, state)
      ensures id in state.runs && state.runs[id] == Returned(r)
      ensures !r.Failed? ==>
                Pin in state.entries && state.entries[Pin] == state.expected && Temp(id) !in state.entries
      ensures !Exact(listed.entries) || (Pin in listed.entries && listed.entries[Pin] != listed.expected) ==> r.Failed?
      ensures healthy ==>
                (r.Failed? <==>
                 !Exact(listed.entries) || (Pin in listed.entries && listed.entries[Pin] != listed.expected))
      ensures healthy && r.Failed? ==>
                r == Failed(if Exact(listed.entries) then "ISOLATED_UAT_HOST_PIN_EXISTING_CONTENT_MISMATCH"
                            else "ISOLATED_UAT_HOST_PIN_DIRECTORY_NOT_EXACT")
    {
      hide Initial, Run;
      var fault := Fails();
      listed := Act(if fault then Fault else Call(0), first);
      if state.runs[id].Opened? {
        r := Publish(first);
      } else {
        r := state.runs[id].result;
      }
    }
  }
}
