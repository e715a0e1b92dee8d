/** The bounded request slots of the ERP server: accepting, thread start, handling and
    their failures, in every interleaving.

    The server thread takes a slot before it starts a handler thread and gives it back if
    the start raises; the handler thread gives it back when it ends. An exception that
    comes out of the start's wait after the handler is already running makes both do so.
    If it is an ordinary exception the accept loop goes on; an interrupt from the keyboard
    or an exit ends it, and no later request is accepted. */
module RequestSlots {

  datatype Phase =
    | Waiting
    | TurnedAway
    | Holding
    | Handling
    | LetGo
    | Gone

  datatype Event = Taken(request: nat) | Freed(request: nat) | Overflow(request: nat)

  datatype Server = Server(slots: nat, free: nat, requests: map<nat, Phase>, log: seq<Event>)

  datatype Step =
    | Arrive(request: nat)
    | Admit(request: nat)
    | TimeOut(request: nat)
    | StartThread(request: nat)
    | StartRaises(request: nat)
    | RaisesAfterStart(request: nat)
    | EndHandler(request: nat)

  function Start(slots: nat): Server {
    Server(slots, slots, map[], [])
  }

  predicate In(s: Server, r: nat, p: Phase) {
    r in s.requests && s.requests[r] == p
  }

  function Take(s: Server, r: nat): Server
    requires s.free > 0
  {
    s.(free := s.free - 1, requests := s.requests[r := Holding], log := s.log + [Taken(r)])
  }

  /** `BoundedSemaphore.release`: refuses to go above the initial value. */
  function Release(s: Server, r: nat, p: Phase): Server {
    if s.free < s.slots then s.(free := s.free + 1, requests := s.requests[r := p], log := s.log + [Freed(r)])
    else s.(requests := s.requests[r := p], log := s.log + [Overflow(r)])
  }

  /** A step that is not possible in this state changes nothing. */
  function Next(s: Server, step: Step): Server {
    var r := step.request;
    match step
    case Arrive(_) => if r in s.requests then s else s.(requests := s.requests[r := Waiting])
    case Admit(_) => if In(s, r, Waiting) && s.free > 0 then Take(s, r) else s
    case TimeOut(_) => if In(s, r, Waiting) then s.(requests := s.requests[r := TurnedAway]) else s
    case StartThread(_) => if In(s, r, Holding) then s.(requests := s.requests[r := Handling]) else s
    case StartRaises(_) => if In(s, r, Holding) then Release(s, r, Gone) else s
    case RaisesAfterStart(_) => if In(s, r, Holding) then Release(s, r, LetGo) else s
    case EndHandler(_) => if In(s, r, Handling) || In(s, r, LetGo) then Release(s, r, Gone) else s
  }

  function Run(s: Server, steps: seq<Step>): Server
    decreases |steps|
  {
    if steps == [] then s else Next(Run(s, steps[..|steps| - 1]), steps[|steps| - 1])
  }

  /** Requests whose handler runs or is about to. */
  function Holders(s: Server): set<nat> {
    set r | r in s.requests && s.requests[r] in {Holding, Handling, LetGo}
  }

  ghost predicate Balanced(s: Server) {
    s.free + |Holders(s)| == s.slots
  }

  /** The late exception hits a request whose slot is taken. */
  predicate Strikes(s: Server, step: Step) {
    step.RaisesAfterStart? && In(s, step.request, Holding)
  }

  ghost predicate Quiet(s: Server, steps: seq<Step>) {
    forall k, n :: 0 <= k < |steps| && n == k ==> !Strikes(Run(s, steps[..k]), steps[n])
  }

  function Count(log: seq<Event>, e: Event): nat {
    if log == [] then 0 else Count(log[..|log| - 1], e) + (if log[|log| - 1] == e then 1 else 0)
  }

  // ---- Without late exceptions --------------------------------------------------------------

  /** How often a request has taken and given back a slot. */
  ghost predicate SlotOk(s: Server, r: nat) {
    && Count(s.log, Overflow(r)) == 0
    && Count(s.log, Taken(r)) == (if r in s.requests && s.requests[r] in {Holding, Handling, Gone} then 1 else 0)
    && Count(s.log, Freed(r)) == (if In(s, r, Gone) then 1 else 0)
  }

  ghost predicate Sound(s: Server) {
    && Balanced(s)
    && (forall r :: r in s.requests ==> !s.requests[r].LetGo?)
    && (forall r :: SlotOk(s, r))
  }

  lemma HoldersChange(s: Server, r: nat, p: Phase)
    ensures var e := s.(requests := s.requests[r := p]);
            Holders(e) == if p in {Holding, Handling, LetGo} then Holders(s) + {r} else Holders(s) - {r}
  {
  }

  lemma LogGrows(log: seq<Event>, e: Event)
    ensures forall x :: Count(log + [e], x) == Count(log, x) + (if x == e then 1 else 0)
  {
    assert (log + [e])[..|log|] == log;
  }

  lemma NeverLetGo(s: Server, r: nat)
    requires Sound(s)
    ensures !In(s, r, LetGo)
  {
  }

  /** Moves that neither take nor give back a slot. */
  predicate Sidestep(s: Server, r: nat, p: Phase) {
    || (r !in s.requests && p == Waiting)
    || (In(s, r, Waiting) && p == TurnedAway)
    || (In(s, r, Holding) && p == Handling)
  }

  lemma HoldersStay(s: Server, r: nat, p: Phase)
    requires Sidestep(s, r, p)
    ensures Holders(s.(requests := s.requests[r := p])) == Holders(s)
  {
    HoldersChange(s, r, p);
    if In(s, r, Holding) {
      assert r in Holders(s);
    } else {
      assert r !in Holders(s);
    }
  }

  lemma SoundMove(s: Server, r: nat, p: Phase)
    requires Sound(s)
    ensures Sidestep(s, r, p) ==> Sound(s.(requests := s.requests[r := p]))
  {
    hide Holders, Count;
    if Sidestep(s, r, p) {
      var e := s.(requests := s.requests[r := p]);
      HoldersStay(s, r, p);
      forall x
        ensures SlotOk(e, x)
      {
        assert SlotOk(s, x);
      }
    }
  }

  lemma SoundTake(s: Server, r: nat)
    requires Sound(s)
    ensures In(s, r, Waiting) && s.free > 0 ==> Sound(Take(s, r))
  {
    if In(s, r, Waiting) && s.free > 0 {
      var e := Take(s, r);
      HoldersChange(s, r, Holding);
      assert Holders(e) == Holders(s) + {r};
      LogGrows(s.log, Taken(r));
      forall x
        ensures SlotOk(e, x)
      {
        assert SlotOk(s, x);
      }
    }
  }

  lemma SoundRelease(s: Server, r: nat)
    requires Sound(s)
    ensures In(s, r, Holding) || In(s, r, Handling) ==> Sound(Release(s, r, Gone))
  {
    if In(s, r, Holding) || In(s, r, Handling) {
      var e := Release(s, r, Gone);
      HoldersChange(s, r, Gone);
      assert r in Holders(s) && Holders(e) == Holders(s) - {r};
      LogGrows(s.log, Freed(r));
      forall x
        ensures SlotOk(e, x)
      {
        assert SlotOk(s, x);
      }
    }
  }

  lemma SoundNext(s: Server, step: Step)
    requires Sound(s) && !Strikes(s, step)
    ensures Sound(Next(s, step))
  {
    hide Sound, Take, Release;
    var r := step.request;
    match step
    case Arrive(_) => SoundMove(s, r, Waiting);
    case Admit(_) => SoundTake(s, r);
    case TimeOut(_) => SoundMove(s, r, TurnedAway);
    case StartThread(_) => SoundMove(s, r, Handling);
    case StartRaises(_) => SoundRelease(s, r);
    case EndHandler(_) => SoundRelease(s, r);
      NeverLetGo(s, r);
    case RaisesAfterStart(_) =>
  }

  lemma QuietPrefix(s: Server, steps: seq<Step>, n: nat)
    requires Quiet(s, steps) && n <= |steps|
    ensures Quiet(s, steps[..n])
  {
    forall k | 0 <= k < n
      ensures !Strikes(Run(s, steps[..n][..k]), steps[..n][k])
    {
      assert steps[..n][..k] == steps[..k];
      assert !Strikes(Run(s, steps[..k]), steps[k]);
    }
  }

  lemma {:induction false} SoundRun(slots: nat, steps: seq<Step>)
    requires Quiet(Start(slots), steps)
    ensures Sound(Run(Start(slots), steps))
    decreases |steps|
  {
    if steps == [] {
      assert Holders(Start(slots)) == {};
    } else {
      var n := |steps| - 1;
      QuietPrefix(Start(slots), steps, n);
      SoundRun(slots, steps[..n]);
      assert !Strikes(Run(Start(slots), steps[..n]), steps[n]);
      SoundNext(Run(Start(slots), steps[..n]), steps[n]);
    }
  }

  /** Free and held slots always add up, no slot is given back twice or without having
      been taken, and a request turned away never touched one. */
  lemma SlotsAreConserved(slots: nat, steps: seq<Step>, r: nat)
    requires Quiet(Start(slots), steps)
    ensures var s := Run(Start(slots), steps);
            && s.free + |Holders(s)| == s.slots
            && Count(s.log, Freed(r)) <= Count(s.log, Taken(r)) <= 1
            && Count(s.log, Overflow(r)) == 0
            && (In(s, r, TurnedAway) ==> Count(s.log, Taken(r)) == Count(s.log, Freed(r)) == 0)
            && (In(s, r, Gone) ==> Count(s.log, Freed(r)) == 1)
  {
    SoundRun(slots, steps);
    var s := Run(Start(slots), steps);
    assert SlotOk(s, r);
  }

  lemma OneMore(s: Server, steps: seq<Step>, step: Step)
    ensures Run(s, steps + [step]) == Next(Run(s, steps), step)
  {
    assert (steps + [step])[..|steps|] == steps;
  }

  /** In every interleaving whatsoever the free slots stay within the maximum. */
  lemma {:induction false} SlotsStay(slots: nat, steps: seq<Step>)
    ensures Run(Start(slots), steps).slots == slots && Run(Start(slots), steps).free <= slots
    decreases |steps|
  {
    hide Holders;
    if steps != [] {
      SlotsStay(slots, steps[..|steps| - 1]);
    }
  }

  /** A waiting request gets in exactly while fewer requests than slots are held. */
  lemma AdmittedExactly(slots: nat, steps: seq<Step>, r: nat)
    requires Quiet(Start(slots), steps)
    ensures var s, e := Run(Start(slots), steps), Run(Start(slots), steps + [Admit(r)]);
            In(e, r, Holding) <==> In(s, r, Holding) || (In(s, r, Waiting) && |Holders(s)| < slots)
  {
    hide Holders;
    SoundRun(slots, steps);
    SlotsStay(slots, steps);
    OneMore(Start(slots), steps, Admit(r));
  }

  /** Every held slot can be given back: the request's handler is started, if it was not, and
      ends. */
  lemma SlotReturns(slots: nat, steps: seq<Step>, r: nat)
    requires Quiet(Start(slots), steps) && r in Holders(Run(Start(slots), steps))
    ensures var s := Run(Start(slots), steps);
            var e := Run(Start(slots), steps + [StartThread(r)] + [EndHandler(r)]);
            In(e, r, Gone) && e.free == s.free + 1 && Holders(e) == Holders(s) - {r}
  {
    SoundRun(slots, steps);
    var s := Run(Start(slots), steps);
    OneMore(Start(slots), steps, StartThread(r));
    OneMore(Start(slots), steps + [StartThread(r)], EndHandler(r));
    assert s.free < s.slots by { assert Holders(s) != {}; }
    HoldersChange(s, r, Handling);
    HoldersChange(Next(s, StartThread(r)), r, Gone);
  }

  // ---- Exactly when they are conserved --------------------------------------------------------

  lemma StrikeUnbalances(s: Server, step: Step)
    requires Sound(s) && Strikes(s, step)
    ensures !Balanced(Next(s, step))
  {
    assert step.request in Holders(s);
    assert Holders(s) != {};
    HoldersChange(s, step.request, LetGo);
    assert Holders(s) + {step.request} == Holders(s);
    assert Holders(Next(s, step)) == Holders(s);
  }

  lemma QuietGrows(s: Server, steps: seq<Step>, k: nat)
    requires k < |steps| && Quiet(s, steps[..k])
    ensures Strikes(Run(s, steps[..k]), steps[k]) || Quiet(s, steps[..k + 1])
  {
    var shorter, longer := steps[..k], steps[..k + 1];
    forall i | 0 <= i < k
      ensures !Strikes(Run(s, longer[..i]), longer[i])
    {
      assert longer[..i] == shorter[..i];
      assert !Strikes(Run(s, shorter[..i]), shorter[i]);
    }
    assert longer[..k] == steps[..k];
  }

  lemma {:induction false} FirstStrike(s: Server, steps: seq<Step>) returns (k: nat)
    requires !Quiet(s, steps)
    ensures k < |steps| && Strikes(Run(s, steps[..k]), steps[k]) && Quiet(s, steps[..k])
    decreases |steps|
  {
    k := |steps| - 1;
    assert steps != [];
    assert steps[..k + 1] == steps;
    if Quiet(s, steps[..k]) {
      QuietGrows(s, steps, k);
    } else {
      var prefix := steps[..k];
      k := FirstStrike(s, prefix);
      assert prefix[..k] == steps[..k];
    }
  }

  /** The slots add up at every moment of a run exactly when no exception strikes between
      the start of a handler thread and the return to the server thread. */
  lemma ConservedExactlyWhenQuiet(slots: nat, steps: seq<Step>)
    ensures (forall k :: 0 <= k <= |steps| ==> Balanced(Run(Start(slots), steps[..k]))) <==> Quiet(Start(slots), steps)
  {
    var first := Start(slots);
    if Quiet(first, steps) {
      forall k | 0 <= k <= |steps|
        ensures Balanced(Run(first, steps[..k]))
      {
        QuietPrefix(first, steps, k);
        SoundRun(slots, steps[..k]);
      }
    } else {
      var k := FirstStrike(first, steps);
      SoundRun(slots, steps[..k]);
      StrikeUnbalances(Run(first, steps[..k]), steps[k]);
      assert steps[..k + 1][..k] == steps[..k];
      assert !Balanced(Run(first, steps[..k + 1]));
    }
  }

  /** Such an exception, if an ordinary one, lets a second request in beside the first where
      there is one slot. */
  lemma LateRaiseAdmitsTwo()
    ensures var s := Run(Start(1), [] + [Arrive(1)] + [Admit(1)] + [RaisesAfterStart(1)] + [Arrive(2)] + [Admit(2)]);
            s.slots == 1 && Holders(s) == {1, 2}
  {
    OneMore(Start(1), [], Arrive(1));
    OneMore(Start(1), [] + [Arrive(1)], Admit(1));
    OneMore(Start(1), [] + [Arrive(1)] + [Admit(1)], RaisesAfterStart(1));
    OneMore(Start(1), [] + [Arrive(1)] + [Admit(1)] + [RaisesAfterStart(1)], Arrive(2));
    OneMore(Start(1), [] + [Arrive(1)] + [Admit(1)] + [RaisesAfterStart(1)] + [Arrive(2)], Admit(2));
    var s2 := Next(Next(Start(1), Arrive(1)), Admit(1));
    assert s2.requests == map[1 := Holding] && s2.free == 0;
    var s3 := Next(s2, RaisesAfterStart(1));
    assert s3.requests == map[1 := LetGo] && s3.free == 1;
  }
}
