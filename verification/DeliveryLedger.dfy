/** The delivery ledger check that guards an upgrade: events, grants, claims, attempts,
    results and acknowledgements, one directory each.

    An identifier is the number its 64 hexadecimal digits spell, so file names sort as
    numbers. `sealed` says that a record has its exact fields in their formats, is
    canonical JSON and carries the digest of its own body. */
module DeliveryLedger {
  import opened Wrappers

  type Id = nat

  /** The fields claim, attempt and acknowledgement must agree on. */
  datatype Settings = Settings(
    targetId: string,
    targetGeneration: int,
    notifierConfig: Id,
    credential: Id,
    credentialGeneration: int)

  datatype Envelope = Envelope(sealed: bool, eventId: Id, envelopeId: Id, targetId: string, targetGeneration: int)

  datatype Grant = Grant(sealed: bool, eventId: Id, envelopeId: Id, grantedAt: nat)

  datatype Claim = Claim(
    sealed: bool,
    claimId: Id,
    eventId: Id,
    envelopeId: Id,
    attemptNo: nat,
    claimedAt: nat,
    leaseExpiresAt: nat,
    previousAttempt: Id,
    settings: Settings,
    idempotencyKey: Id)

  datatype Attempt = Attempt(
    sealed: bool,
    attemptId: Id,
    claimId: Id,
    eventId: Id,
    envelopeId: Id,
    attemptNo: nat,
    preparedAt: nat,
    previousAttempt: Id,
    settings: Settings,
    idempotencyKey: Id)

  datatype Status = Acknowledged | Ambiguous | Retryable | Refused

  datatype Outcome = Outcome(
    sealed: bool,
    resultId: Id,
    attemptId: Id,
    eventId: Id,
    recordedAt: nat,
    status: Status,
    detail: string,
    hasResponse: bool)

  datatype Ack = Ack(sealed: bool, eventId: Id, envelopeId: Id, attemptId: Id, resultId: Id, settings: Settings)

  /** A file `<event>.json` or `<event>.<number>.json`. */
  datatype File<T> = File(event: Id, number: nat, record: T)

  datatype Ledger = Ledger(
    events: seq<File<Envelope>>,
    grants: seq<File<Grant>>,
    claims: seq<File<Claim>>,
    attempts: seq<File<Attempt>>,
    results: seq<File<Outcome>>,
    acks: seq<File<Ack>>)

  /** A sorted listing of a directory whose files are named after events alone. */
  ghost predicate Sorted<T>(files: seq<File<T>>) {
    forall i, j :: 0 <= i < j < |files| ==> files[i].event < files[j].event
  }

  predicate Numbered(n: nat) {
    1 <= n <= 32
  }

  // ---- Checks on single records ----------------------------------------------------------

  predicate EnvelopeOk(f: File<Envelope>) {
    f.record.sealed && f.record.eventId == f.event
  }

  predicate GrantOk(f: File<Grant>, e: Envelope) {
    f.record.sealed && f.record.eventId == f.event == e.eventId && f.record.envelopeId == e.envelopeId
  }

  predicate ClaimOk(f: File<Claim>) {
    var c := f.record;
    && c.sealed && c.eventId == f.event && c.attemptNo == f.number && Numbered(f.number)
    && c.idempotencyKey == c.eventId && c.claimedAt < c.leaseExpiresAt
  }

  predicate AttemptOk(f: File<Attempt>) {
    var a := f.record;
    && a.sealed && a.eventId == f.event && a.attemptNo == f.number && Numbered(f.number)
    && a.idempotencyKey == a.eventId
  }

  /** The number in a result's name is not compared with anything. */
  predicate OutcomeOk(f: File<Outcome>) {
    f.record.sealed && f.record.eventId == f.event && Numbered(f.number)
  }

  predicate AckOk(f: File<Ack>, e: Envelope) {
    var a := f.record;
    && a.sealed && a.eventId == f.event == e.eventId && a.envelopeId == e.envelopeId
    && a.settings.targetId == e.targetId && a.settings.targetGeneration == e.targetGeneration
  }

  /** The comparisons of `validate_rotation_ack_chain`, once all four records are found. */
  predicate Linked(a: Ack, e: Envelope, g: Grant, c: Claim, t: Attempt, s: Outcome) {
    && g.eventId == e.eventId && g.envelopeId == e.envelopeId
    && c.claimId == t.claimId && c.eventId == t.eventId && c.envelopeId == t.envelopeId
    && c.attemptNo == t.attemptNo && c.claimedAt == t.preparedAt && c.previousAttempt == t.previousAttempt
    && c.settings == t.settings && c.idempotencyKey == t.idempotencyKey
    && t.eventId == e.eventId && t.envelopeId == e.envelopeId
    && t.settings.targetId == e.targetId && t.settings.targetGeneration == e.targetGeneration
    && s.eventId == e.eventId && s.attemptId == t.attemptId
    && s.status.Acknowledged? && s.detail == "REMOTE_ACK_VERIFIED" && s.hasResponse
    && a.settings == t.settings
    && t.preparedAt <= s.recordedAt
    && g.grantedAt <= c.claimedAt
  }

  function ValidateAckChain(a: Ack, e: Envelope, grants: map<Id, Grant>, claims: map<Id, Claim>,
                            attempts: map<Id, Attempt>, results: map<Id, Outcome>): Result<()> {
    if a.attemptId !in attempts || a.resultId !in results || e.eventId !in grants
       || attempts[a.attemptId].claimId !in claims
    then Err("MONITOR_INSTALL_DELIVERY_ACK_CHAIN_MISSING")
    else
      var t := attempts[a.attemptId];
      if Linked(a, e, grants[e.eventId], claims[t.claimId], t, results[a.resultId]) then Ok(())
      else Err("MONITOR_INSTALL_DELIVERY_ACK_CHAIN_INVALID")
  }

  // ---- What acceptance means ------------------------------------------------------------------

  ghost predicate Small(l: Ledger) {
    && |l.events| <= 4096 && |l.grants| <= 4096 && |l.claims| <= 4096
    && |l.attempts| <= 4096 && |l.results| <= 4096 && |l.acks| <= 4096
  }

  ghost predicate GrantsOk(l: Ledger) {
    forall f :: f in l.grants ==> exists e :: e in l.events && e.event == f.event && GrantOk(f, e.record)
  }

  ghost predicate ClaimsOk(l: Ledger) {
    && (forall f :: f in l.claims ==> ClaimOk(f))
    && (forall i, j :: 0 <= i < j < |l.claims| ==> l.claims[i].record.claimId != l.claims[j].record.claimId)
  }

  ghost predicate AttemptsOk(l: Ledger) {
    && (forall f :: f in l.attempts ==> AttemptOk(f))
    && (forall i, j :: 0 <= i < j < |l.attempts| ==> l.attempts[i].record.attemptId != l.attempts[j].record.attemptId)
  }

  ghost predicate ResultsOk(l: Ledger) {
    && (forall f :: f in l.results ==> OutcomeOk(f))
    && (forall i, j :: 0 <= i < j < |l.results| ==> l.results[i].record.resultId != l.results[j].record.resultId)
  }

  /** The four records behind an acknowledgement. */
  ghost predicate Backed(l: Ledger, a: File<Ack>, e: File<Envelope>, g: File<Grant>, c: File<Claim>, t: File<Attempt>,
                         s: File<Outcome>) {
    && e in l.events && e.event == a.event && AckOk(a, e.record)
    && g in l.grants && g.event == a.event
    && c in l.claims && t in l.attempts && s in l.results
    && t.record.attemptId == a.record.attemptId
    && s.record.resultId == a.record.resultId
    && Linked(a.record, e.record, g.record, c.record, t.record, s.record)
  }

  ghost predicate Proven(l: Ledger, a: File<Ack>) {
    exists e, g, c, t, s :: Backed(l, a, e, g, c, t, s)
  }

  ghost predicate Accepts(l: Ledger) {
    && Small(l)
    && (forall f :: f in l.events ==> EnvelopeOk(f))
    && GrantsOk(l) && ClaimsOk(l) && AttemptsOk(l) && ResultsOk(l)
    && (forall f :: f in l.acks ==> Proven(l, f))
  }

  /** The envelopes whose event has no acknowledgement, in directory order. */
  ghost function Pending(events: seq<File<Envelope>>, acks: seq<File<Ack>>): seq<Envelope> {
    if events == [] then []
    else
      var n := |events| - 1;
      Pending(events[..n], acks) +
      if exists a :: a in acks && a.event == events[n].event then [] else [events[n].record]
  }

  // ---- The check as the source performs it ------------------------------------------------------

  method ReadEvents(files: seq<File<Envelope>>) returns (r: Option<map<Id, Envelope>>)
    requires Sorted(files)
    ensures r.Some? <==> forall f :: f in files ==> EnvelopeOk(f)
    ensures r.Some? ==> forall id :: id in r.value <==> exists f :: f in files && f.event == id
    ensures r.Some? ==> forall f :: f in files ==> r.value[f.event] == f.record
  {
    var found: map<Id, Envelope> := map[];
    for i := 0 to |files|
      invariant forall k :: 0 <= k < i ==>
          EnvelopeOk(files[k]) && files[k].event in found && found[files[k].event] == files[k].record
      invariant forall id :: id in found ==> exists k :: 0 <= k < i && files[k].event == id
    {
      if !EnvelopeOk(files[i]) {
        return None;
      }
      found := found[files[i].record.eventId := files[i].record];
    }
    r := Some(found);
  }

  method ReadGrants(files: seq<File<Grant>>, envelopes: map<Id, Envelope>) returns (r: Option<map<Id, Grant>>)
    requires Sorted(files)
    ensures r.Some? <==> forall f :: f in files ==> f.event in envelopes && GrantOk(f, envelopes[f.event])
    ensures r.Some? ==> forall id :: id in r.value <==> exists f :: f in files && f.event == id
    ensures r.Some? ==> forall f :: f in files ==> r.value[f.event] == f.record
  {
    var found: map<Id, Grant> := map[];
    for i := 0 to |files|
      invariant forall k :: 0 <= k < i ==> files[k].event in envelopes && GrantOk(files[k], envelopes[files[k].event])
      invariant forall k :: 0 <= k < i ==> files[k].event in found && found[files[k].event] == files[k].record
      invariant forall id :: id in found ==> exists k :: 0 <= k < i && files[k].event == id
    {
      if files[i].event !in envelopes || !GrantOk(files[i], envelopes[files[i].event]) {
        return None;
      }
      found := found[files[i].event := files[i].record];
    }
    r := Some(found);
  }

  method ReadClaims(files: seq<File<Claim>>) returns (r: Option<map<Id, Claim>>)
    ensures r.Some? <==>
              && (forall f :: f in files ==> ClaimOk(f))
              && (forall i, j :: 0 <= i < j < |files| ==> files[i].record.claimId != files[j].record.claimId)
    ensures r.Some? ==> forall id :: id in r.value <==> exists f :: f in files && f.record.claimId == id
    ensures r.Some? ==> forall f :: f in files ==> r.value[f.record.claimId] == f.record
  {
    var found: map<Id, Claim> := map[];
    for i := 0 to |files|
      invariant forall k :: 0 <= k < i ==>
                  ClaimOk(files[k]) && files[k].record.claimId in found
                    && found[files[k].record.claimId] == files[k].record
      invariant forall j, k :: 0 <= j < k < i ==> files[j].record.claimId != files[k].record.claimId
      invariant forall id :: id in found ==> exists k :: 0 <= k < i && files[k].record.claimId == id
    {
      var id := files[i].record.claimId;
      if !ClaimOk(files[i]) || id in found {
        return None;
      }
      found := found[id := files[i].record];
    }
    r := Some(found);
  }

  method ReadAttempts(files: seq<File<Attempt>>) returns (r: Option<map<Id, Attempt>>)
    ensures r.Some? <==>
              && (forall f :: f in files ==> AttemptOk(f))
              && (forall i, j :: 0 <= i < j < |files| ==> files[i].record.attemptId != files[j].record.attemptId)
    ensures r.Some? ==> forall id :: id in r.value <==> exists f :: f in files && f.record.attemptId == id
    ensures r.Some? ==> forall f :: f in files ==> r.value[f.record.attemptId] == f.record
  {
    var found: map<Id, Attempt> := map[];
    for i := 0 to |files|
      invariant forall k :: 0 <= k < i ==>
                  AttemptOk(files[k]) && files[k].record.attemptId in found
                    && found[files[k].record.attemptId] == files[k].record
      invariant forall j, k :: 0 <= j < k < i ==> files[j].record.attemptId != files[k].record.attemptId
      invariant forall id :: id in found ==> exists k :: 0 <= k < i && files[k].record.attemptId == id
    {
      var id := files[i].record.attemptId;
      if !AttemptOk(files[i]) || id in found {
        return None;
      }
      found := found[id := files[i].record];
    }
    r := Some(found);
  }

  method ReadResults(files: seq<File<Outcome>>) returns (r: Option<map<Id, Outcome>>)
    ensures r.Some? <==>
              && (forall f :: f in files ==> OutcomeOk(f))
              && (forall i, j :: 0 <= i < j < |files| ==> files[i].record.resultId != files[j].record.resultId)
    ensures r.Some? ==> forall id :: id in r.value <==> exists f :: f in files && f.record.resultId == id
    ensures r.Some? ==> forall f :: f in files ==> r.value[f.record.resultId] == f.record
  {
    var found: map<Id, Outcome> := map[];
    for i := 0 to |files|
      invariant forall k :: 0 <= k < i ==>
                  OutcomeOk(files[k]) && files[k].record.resultId in found
                    && found[files[k].record.resultId] == files[k].record
      invariant forall j, k :: 0 <= j < k < i ==> files[j].record.resultId != files[k].record.resultId
      invariant forall id :: id in found ==> exists k :: 0 <= k < i && files[k].record.resultId == id
    {
      var id := files[i].record.resultId;
      if !OutcomeOk(files[i]) || id in found {
        return None;
      }
      found := found[id := files[i].record];
    }
    r := Some(found);
  }

  /** The five dictionaries say the same as the five directories. */
  ghost predicate Indexed(l: Ledger, envelopes: map<Id, Envelope>, grants: map<Id, Grant>, claims: map<Id, Claim>,
                          attempts: map<Id, Attempt>, results: map<Id, Outcome>) {
    && (forall id :: id in envelopes <==> exists f :: f in l.events && f.event == id)
    && (forall f :: f in l.events ==> envelopes[f.event] == f.record)
    && (forall id :: id in grants <==> exists f :: f in l.grants && f.event == id)
    && (forall f :: f in l.grants ==> grants[f.event] == f.record)
    && (forall id :: id in claims <==> exists f :: f in l.claims && f.record.claimId == id)
    && (forall f :: f in l.claims ==> claims[f.record.claimId] == f.record)
    && (forall id :: id in attempts <==> exists f :: f in l.attempts && f.record.attemptId == id)
    && (forall f :: f in l.attempts ==> attempts[f.record.attemptId] == f.record)
    && (forall id :: id in results <==> exists f :: f in l.results && f.record.resultId == id)
    && (forall f :: f in l.results ==> results[f.record.resultId] == f.record)
  }

  /** Looking an acknowledgement up in the dictionaries finds exactly a proof in the directories. */
  lemma ProvenExactly(l: Ledger, envelopes: map<Id, Envelope>, grants: map<Id, Grant>, claims: map<Id, Claim>,
                      attempts: map<Id, Attempt>, results: map<Id, Outcome>, a: File<Ack>)
    requires Indexed(l, envelopes, grants, claims, attempts, results)
    requires forall f :: f in l.events ==> EnvelopeOk(f)
    ensures Proven(l, a) <==>
            && a.event in envelopes && AckOk(a, envelopes[a.event])
            && ValidateAckChain(a.record, envelopes[a.event], grants, claims, attempts, results).Ok?
  {
    if a.event in envelopes && AckOk(a, envelopes[a.event])
       && ValidateAckChain(a.record, envelopes[a.event], grants, claims, attempts, results).Ok? {
      var e :| e in l.events && e.event == a.event;
      var g :| g in l.grants && g.event == e.record.eventId;
      var t :| t in l.attempts && t.record.attemptId == a.record.attemptId;
      var c :| c in l.claims && c.record.claimId == t.record.claimId;
      var s :| s in l.results && s.record.resultId == a.record.resultId;
      assert Backed(l, a, e, g, c, t, s);
    }
  }

  method AcksProven(l: Ledger, envelopes: map<Id, Envelope>, grants: map<Id, Grant>, claims: map<Id, Claim>,
                    attempts: map<Id, Attempt>, results: map<Id, Outcome>) returns (r: Option<set<Id>>)
    requires Indexed(l, envelopes, grants, claims, attempts, results)
    requires forall f :: f in l.events ==> EnvelopeOk(f)
    ensures r.Some? <==> forall f :: f in l.acks ==> Proven(l, f)
    ensures r.Some? ==> forall id :: id in r.value <==> exists f :: f in l.acks && f.event == id
  {
    hide Indexed, Proven, EnvelopeOk;
    var acknowledged: set<Id> := {};
    for i := 0 to |l.acks|
      invariant forall k :: 0 <= k < i ==> Proven(l, l.acks[k]) && l.acks[k].event in acknowledged
      invariant forall id :: id in acknowledged ==> exists k :: 0 <= k < i && l.acks[k].event == id
    {
      var a := l.acks[i];
      ProvenExactly(l, envelopes, grants, claims, attempts, results, a);
      if a.event !in envelopes || !AckOk(a, envelopes[a.event])
         || ValidateAckChain(a.record, envelopes[a.event], grants, claims, attempts, results).Err? {
        return None;
      }
      acknowledged := acknowledged + {a.record.eventId};
    }
    r := Some(acknowledged);
  }

  lemma GrantsExactly(l: Ledger, envelopes: map<Id, Envelope>)
    requires forall id :: id in envelopes <==> exists f :: f in l.events && f.event == id
    requires forall f :: f in l.events ==> envelopes[f.event] == f.record
    ensures GrantsOk(l) <==> forall f :: f in l.grants ==> f.event in envelopes && GrantOk(f, envelopes[f.event])
  {
    hide GrantOk;
  }

  /** The comprehension at the end. */
  method Unacknowledged(events: seq<File<Envelope>>, ghost acks: seq<File<Ack>>, acknowledged: set<Id>)
    returns (r: seq<Envelope>)
    requires forall id :: id in acknowledged <==> exists f :: f in acks && f.event == id
    ensures r == Pending(events, acks)
  {
    r := [];
    for i := 0 to |events|
      invariant r == Pending(events[..i], acks)
    {
      assert events[..i + 1][..i] == events[..i];
      if events[i].event !in acknowledged {
        r := r + [events[i].record];
      }
    }
    assert events[..|events|] == events;
  }

  // ---- A sound ledger, in its own terms ---------------------------------------------------------

  /** What one delivery is about: claim and attempt describe it in the same words. */
  datatype Delivery = Delivery(
    event: Id,
    envelope: Id,
    attemptNo: nat,
    previousAttempt: Id,
    settings: Settings,
    idempotencyKey: Id)

  function Claimed(c: Claim): Delivery {
    Delivery(c.eventId, c.envelopeId, c.attemptNo, c.previousAttempt, c.settings, c.idempotencyKey)
  }

  function Attempted(t: Attempt): Delivery {
    Delivery(t.eventId, t.envelopeId, t.attemptNo, t.previousAttempt, t.settings, t.idempotencyKey)
  }

  /** The evidence behind an acknowledgement: one delivery of the event's envelope to its target
      was granted, claimed, attempted under that claim and answered with a verified remote
      acknowledgement, in this order of time. */
  ghost predicate Evidence(l: Ledger, a: File<Ack>, e: File<Envelope>, g: File<Grant>, c: File<Claim>,
                           t: File<Attempt>, s: File<Outcome>) {
    && e in l.events && g in l.grants && c in l.claims && t in l.attempts && s in l.results
    && a.record.sealed
    && a.event == e.event == g.event == c.event == t.event == s.event
    && a.event == a.record.eventId == e.record.eventId == g.record.eventId == s.record.eventId
    && a.record.envelopeId == e.record.envelopeId == g.record.envelopeId
    && Claimed(c.record) == Attempted(t.record) ==
         Delivery(a.event, a.record.envelopeId, c.number, c.record.previousAttempt, a.record.settings, a.event)
    && c.number == t.number && c.record.claimId == t.record.claimId
    && a.record.settings.targetId == e.record.targetId
    && a.record.settings.targetGeneration == e.record.targetGeneration
    && a.record.attemptId == t.record.attemptId == s.record.attemptId && a.record.resultId == s.record.resultId
    && s.record.status == Acknowledged && s.record.detail == "REMOTE_ACK_VERIFIED" && s.record.hasResponse
    && g.record.grantedAt <= c.record.claimedAt == t.record.preparedAt <= s.record.recordedAt
  }

  ghost predicate Evidenced(l: Ledger, a: File<Ack>) {
    exists e, g, c, t, s :: Evidence(l, a, e, g, c, t, s)
  }

  /** Every record carries its own event, every number is one of 32, every grant is for the
      event's envelope, no identifier is used twice, and every acknowledgement has its evidence. */
  ghost predicate SoundLedger(l: Ledger) {
    && |l.events| <= 4096 && |l.grants| <= 4096 && |l.claims| <= 4096
    && |l.attempts| <= 4096 && |l.results| <= 4096 && |l.acks| <= 4096
    && (forall f :: f in l.events ==> f.record.sealed && f.record.eventId == f.event)
    && (forall f :: f in l.grants ==>
          && f.record.sealed && f.record.eventId == f.event
          && exists e :: e in l.events && e.event == f.event && e.record.envelopeId == f.record.envelopeId)
    && (forall f :: f in l.claims ==>
          && f.record.sealed && 1 <= f.number <= 32 && f.record.claimedAt < f.record.leaseExpiresAt
          && f.record.eventId == f.record.idempotencyKey == f.event && f.record.attemptNo == f.number)
    && (forall f :: f in l.attempts ==>
          && f.record.sealed && 1 <= f.number <= 32
          && f.record.eventId == f.record.idempotencyKey == f.event && f.record.attemptNo == f.number)
    && (forall f :: f in l.results ==> f.record.sealed && 1 <= f.number <= 32 && f.record.eventId == f.event)
    && (forall i, j :: 0 <= i < j < |l.claims| ==> l.claims[i].record.claimId != l.claims[j].record.claimId)
    && (forall i, j :: 0 <= i < j < |l.attempts| ==> l.attempts[i].record.attemptId != l.attempts[j].record.attemptId)
    && (forall i, j :: 0 <= i < j < |l.results| ==> l.results[i].record.resultId != l.results[j].record.resultId)
    && (forall f :: f in l.acks ==> Evidenced(l, f))
  }

  /** The comparisons of the check find exactly such evidence. */
  lemma EvidenceExactly(l: Ledger, a: File<Ack>)
    requires forall f :: f in l.events ==> EnvelopeOk(f)
    requires forall f :: f in l.grants ==> f.record.eventId == f.event
    requires forall f :: f in l.claims ==> ClaimOk(f)
    requires forall f :: f in l.attempts ==> AttemptOk(f)
    requires forall f :: f in l.results ==> OutcomeOk(f)
    ensures Proven(l, a) <==> Evidenced(l, a)
  {
    if Proven(l, a) {
      var e, g, c, t, s :| Backed(l, a, e, g, c, t, s);
      assert EnvelopeOk(e) && ClaimOk(c) && AttemptOk(t) && OutcomeOk(s);
      assert Evidence(l, a, e, g, c, t, s);
    }
    if Evidenced(l, a) {
      var e, g, c, t, s :| Evidence(l, a, e, g, c, t, s);
      assert Backed(l, a, e, g, c, t, s);
    }
  }

  lemma GrantsAre(l: Ledger)
    requires forall f :: f in l.events ==> EnvelopeOk(f)
    ensures GrantsOk(l) <==>
            forall f :: f in l.grants ==>
              && f.record.sealed && f.record.eventId == f.event
              && exists e :: e in l.events && e.event == f.event && e.record.envelopeId == f.record.envelopeId
  {
    forall f | f in l.grants
      ensures (exists e :: e in l.events && e.event == f.event && GrantOk(f, e.record)) <==>
              && f.record.sealed && f.record.eventId == f.event
              && exists e :: e in l.events && e.event == f.event && e.record.envelopeId == f.record.envelopeId
    {
      assert forall e :: e in l.events ==> EnvelopeOk(e);
    }
  }

  lemma SoundExactly(l: Ledger)
    ensures Accepts(l) <==> SoundLedger(l)
  {
    if forall f :: f in l.events ==> EnvelopeOk(f) {
      GrantsAre(l);
      if GrantsOk(l) && ClaimsOk(l) && AttemptsOk(l) && ResultsOk(l) {
        forall a | a in l.acks
          ensures Proven(l, a) <==> Evidenced(l, a)
        {
          EvidenceExactly(l, a);
        }
      }
    }
    hide GrantsOk, Proven, Evidenced;
  }

  /** Accepts exactly the sound ledgers and returns exactly the events still without an
      acknowledgement, in directory order. */
  method PendingDeliveryEnvelopes(l: Ledger) returns (r: Result<seq<Envelope>>)
    requires Sorted(l.events) && Sorted(l.grants) && Sorted(l.acks)
    ensures r.Ok? <==> SoundLedger(l)
    ensures r.Ok? ==> r.value == Pending(l.events, l.acks)
  {
    hide EnvelopeOk, GrantOk, ClaimOk, AttemptOk, OutcomeOk, Proven, Sorted, GrantsOk, Pending, Backed, Linked,
         SoundLedger;
    SoundExactly(l);
    if |l.events| > 4096 || |l.grants| > 4096 || |l.claims| > 4096 || |l.attempts| > 4096
       || |l.results| > 4096 || |l.acks| > 4096 {
      return Err("MONITOR_INSTALL_DELIVERY_ENTRY_INVALID");
    }
    var envelopes := ReadEvents(l.events);
    if envelopes.None? {
      return Err("MONITOR_INSTALL_OUTBOX_ENVELOPE_INVALID");
    }
    var grants := ReadGrants(l.grants, envelopes.value);
    GrantsExactly(l, envelopes.value);
    if grants.None? {
      return Err("MONITOR_INSTALL_DELIVERY_GRANT_INVALID");
    }
    var claims := ReadClaims(l.claims);
    if claims.None? {
      return Err("MONITOR_INSTALL_DELIVERY_CLAIM_INVALID");
    }
    var attempts := ReadAttempts(l.attempts);
    if attempts.None? {
      return Err("MONITOR_INSTALL_DELIVERY_ATTEMPT_INVALID");
    }
    var results := ReadResults(l.results);
    if results.None? {
      return Err("MONITOR_INSTALL_DELIVERY_RESULT_INVALID");
    }
    var acknowledged := AcksProven(l, envelopes.value, grants.value, claims.value, attempts.value, results.value);
    if acknowledged.None? {
      return Err("MONITOR_INSTALL_DELIVERY_ACK_INVALID");
    }
    var pending := Unacknowledged(l.events, l.acks, acknowledged.value);
    r := Ok(pending);
  }

  // ---- What an accepted ledger guarantees -----------------------------------------------------

  lemma {:induction false} PendingExactly(events: seq<File<Envelope>>, acks: seq<File<Ack>>, e: Envelope)
    ensures e in Pending(events, acks) <==>
            exists f :: f in events && f.record == e && !exists a :: a in acks && a.event == f.event
    decreases |events|
  {
    if events != [] {
      var n := |events| - 1;
      PendingExactly(events[..n], acks, e);
      assert events == events[..n] + [events[n]];
    }
  }

  lemma {:induction false} PendingSorted(events: seq<File<Envelope>>, acks: seq<File<Ack>>)
    requires Sorted(events) && forall f :: f in events ==> EnvelopeOk(f)
    ensures forall i, j :: 0 <= i < j < |Pending(events, acks)| ==>
              Pending(events, acks)[i].eventId < Pending(events, acks)[j].eventId
    decreases |events|
  {
    if events != [] {
      var n := |events| - 1;
      PendingSorted(events[..n], acks);
      forall e | e in Pending(events[..n], acks)
        ensures e.eventId < events[n].record.eventId
      {
        PendingExactly(events[..n], acks, e);
        assert EnvelopeOk(events[n]);
      }
    }
  }

  /** Behind every acknowledgement: granted no later than claimed, claimed when prepared,
      prepared no later than recorded, all for one event and one target. */
  lemma AckIsOrdered(l: Ledger, a: File<Ack>)
    requires Accepts(l) && a in l.acks
    ensures exists e, g, c, t, s ::
              && Backed(l, a, e, g, c, t, s)
              && g.record.grantedAt <= c.record.claimedAt == t.record.preparedAt <= s.record.recordedAt
              && c.record.claimedAt < c.record.leaseExpiresAt
              && g.event == c.event == t.event == s.event == a.event
              && c.number == t.number
  {
    assert Proven(l, a);
    var e, g, c, t, s :| Backed(l, a, e, g, c, t, s);
    assert EnvelopeOk(e) && ClaimOk(c) && AttemptOk(t) && OutcomeOk(s);
  }

  lemma SameRecord(l: Ledger, c: File<Claim>, c': File<Claim>, t: File<Attempt>, t': File<Attempt>, s: File<Outcome>,
                   s': File<Outcome>)
    requires ClaimsOk(l) && AttemptsOk(l) && ResultsOk(l)
    requires c in l.claims && c' in l.claims && t in l.attempts && t' in l.attempts && s in l.results && s' in l.results
    ensures c.record.claimId == c'.record.claimId ==> c == c'
    ensures t.record.attemptId == t'.record.attemptId ==> t == t'
    ensures s.record.resultId == s'.record.resultId ==> s == s'
  {
  }

  /** Acknowledgements of different events rest on different claims, attempts and results. */
  lemma AcksAreIndependent(l: Ledger, a: File<Ack>, e: File<Envelope>, g: File<Grant>, c: File<Claim>,
                           t: File<Attempt>, s: File<Outcome>,
                           a': File<Ack>, e': File<Envelope>, g': File<Grant>, c': File<Claim>, t': File<Attempt>,
                             s': File<Outcome>)
    requires Accepts(l) && a.event != a'.event
    requires Backed(l, a, e, g, c, t, s) && Backed(l, a', e', g', c', t', s')
    ensures c.record.claimId != c'.record.claimId
    ensures t.record.attemptId != t'.record.attemptId && s.record.resultId != s'.record.resultId
  {
    assert EnvelopeOk(e) && EnvelopeOk(e');
    SameRecord(l, c, c', t, t', s, s');
  }

  /** The records an acknowledgement rests on are unique. */
  lemma BackingIsUnique(l: Ledger, a: File<Ack>, e: File<Envelope>, g: File<Grant>, c: File<Claim>, t: File<Attempt>,
                        s: File<Outcome>,
                        e': File<Envelope>, g': File<Grant>, c': File<Claim>, t': File<Attempt>, s': File<Outcome>)
    requires Accepts(l) && Sorted(l.events) && Sorted(l.grants)
    requires Backed(l, a, e, g, c, t, s) && Backed(l, a, e', g', c', t', s')
    ensures e == e' && g == g' && c == c' && t == t' && s == s'
  {
    SameRecord(l, c, c', t, t', s, s');
  }

  lemma AllAcknowledged(events: seq<File<Envelope>>, acks: seq<File<Ack>>)
    ensures Pending(events, acks) == [] <==> forall f :: f in events ==> exists a :: a in acks && a.event == f.event
  {
    forall f | f in events
      ensures f.record in Pending(events, acks) <==>
              exists f' :: f' in events && f'.record == f.record && !exists a :: a in acks && a.event == f'.event
    {
      PendingExactly(events, acks, f.record);
    }
    if Pending(events, acks) != [] {
      PendingExactly(events, acks, Pending(events, acks)[0]);
    }
  }

  /** A changed notification target passes exactly when the ledger is sound and every event
      in it is acknowledged; an unchanged one always passes. */
  method RotationSafe(l: Ledger, previous: (string, int), next: (string, int)) returns (ok: bool)
    requires Sorted(l.events) && Sorted(l.grants) && Sorted(l.acks)
    ensures ok <==> previous == next ||
                    (SoundLedger(l) && forall f :: f in l.events ==> exists a :: a in l.acks && a.event == f.event)
  {
    hide SoundLedger;
    if previous == next {
      return true;
    }
    var r := PendingDeliveryEnvelopes(l);
    AllAcknowledged(l.events, l.acks);
    ok := r.Ok? && r.value == [];
  }
}
