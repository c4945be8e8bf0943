/**
 One settlement attempt for a delivery transaction: resolve what is owed from finalized source
 state, fetch the proof, submit every independent settlement, and read the source state again
 before the transaction may be released.
 */
module Settlement {
  import opened Basics
  import opened Ordered
  import opened Resolution

  const MAX_ENCODED_TRANSACTION_BYTES: nat := 500_000

  /** Executed messages are owed an acknowledgment; received, queued and deferred ones a fee claim. */
  datatype DeliveryEvent = DeliveryEvent(id: MessageId, executed: bool)

  datatype Mode = AckOnly | AckAndClaim

  /** The fee ledger's finalized answer for a message. */
  datatype Fee = Fee(payer: Address, settled: bool)

  predicate Claimable(f: Fee) {
    f.payer != ZERO && !f.settled
  }

  /** `encoded` is the decoded proof's length, absent if malformed; `structs`: proof structs build. */
  datatype Proof = Ready(encoded: Result<nat>, structs: bool) | Later | Refused | Unavailable

  datatype Send = Stalled | Confirmed | Reverted | Unsent

  /** Everything one attempt is told: two passes of finalized reads, the proof and the sends. */
  datatype Attempt = Attempt(
    mode: Mode, identity: Identity, candidates: seq<Address>,
    before: Source, after: Source,
    feeBefore: MessageId -> Result<Fee>, feeAfter: MessageId -> Result<Fee>,
    proof: Proof, ackSend: Address -> Send, claimSend: MessageId -> Send)

  datatype Outcome = Acknowledged | NothingToSettle | ProofTooLarge | NotReady | Rejected | Failure

  /** The outcomes on which the queue drops the transaction. */
  predicate Releases(o: Outcome) {
    o.Acknowledged? || o.NothingToSettle? || o.ProofTooLarge?
  }

  ghost function Executed(events: seq<DeliveryEvent>): set<MessageId> {
    set e | e in events && e.executed :: e.id
  }

  ghost function Delivered(events: seq<DeliveryEvent>): set<MessageId> {
    set e | e in events && !e.executed :: e.id
  }

  // ----- the pieces -----

  /** Distinct message IDs of one kind, ascending, as the B-tree set collects them. */
  method IdsOf(events: seq<DeliveryEvent>, executed: bool) returns (ids: seq<MessageId>)
    ensures Ascending(ids)
    ensures Elements(ids) == if executed then Executed(events) else Delivered(events)
  {
    ids := [];
    for k := 0 to |events|
      invariant Ascending(ids)
      invariant Elements(ids) == if executed then Executed(events[..k]) else Delivered(events[..k])
    {
      assert events[..k + 1] == events[..k] + [events[k]];
      ghost var was := Elements(ids);
      if events[k].executed == executed {
        InsertAscending(ids, events[k].id);
        ids := Insert(ids, events[k].id);
        assert Elements(ids) == was + {events[k].id};
      }
    }
    assert events[..|events|] == events;
  }

  ghost function ClaimableIds(fee: MessageId -> Result<Fee>, ids: set<MessageId>): set<MessageId> {
    set id | id in ids && fee(id).Ok? && Claimable(fee(id).value)
  }

  /** Ids whose relay fee is still owed, or nothing known if any read fails. */
  method RelayClaimableIds(fee: MessageId -> Result<Fee>, ids: seq<MessageId>) returns (r: Result<seq<MessageId>>)
    ensures r.Ok? <==> forall id :: id in ids ==> fee(id).Ok?
    ensures r.Ok? ==> Elements(r.value) == ClaimableIds(fee, Elements(ids))
  {
    var claimable: seq<MessageId> := [];
    for k := 0 to |ids|
      invariant forall j :: 0 <= j < k ==> fee(ids[j]).Ok?
      invariant Elements(claimable) == ClaimableIds(fee, Elements(ids[..k]))
    {
      assert Elements(ids[..k + 1]) == Elements(ids[..k]) + {ids[k]};
      var answer := fee(ids[k]);
      if answer.Err? { return Err; }
      ghost var was := Elements(claimable);
      if Claimable(answer.value) {
        claimable := claimable + [ids[k]];
        assert Elements(claimable) == was + {ids[k]};
      }
    }
    assert ids[..|ids|] == ids;
    return Ok(claimable);
  }

  /** Fee claims of this attempt: what the pre-check found owed, or everything if it failed. */
  ghost function ClaimIds(a: Attempt, events: seq<DeliveryEvent>): set<MessageId> {
    if a.mode.AckOnly? then {}
    else
      var ids := Delivered(events);
      if forall id :: id in ids ==> a.feeBefore(id).Ok? then ClaimableIds(a.feeBefore, ids) else ids
  }

  predicate SendOk(s: Send) {
    s.Confirmed? || s.Reverted?
  }

  // ----- the attempt -----

  /** Reference for the whole attempt. */
  ghost function OutcomeOf(a: Attempt, events: seq<DeliveryEvent>): Outcome {
    var candidates, executed, claims := Elements(a.candidates), Executed(events), ClaimIds(a, events);
    var authorities := Authorities(a.identity, a.before, candidates, executed);
    var unresolved := Unresolved(a.identity, a.before, candidates, executed);
    if claims == {} && authorities == {} then
      if unresolved then Failure else NothingToSettle
    else match a.proof
      case Later => if unresolved then Failure else NotReady
      case Refused => if unresolved then Failure else Rejected
      case Unavailable => Failure
      case Ready(encoded, structs) =>
        if encoded.Err? then Failure
        else if encoded.value > MAX_ENCODED_TRANSACTION_BYTES then ProofTooLarge
        else if structs && !unresolved && SubmittedAll(a, authorities, claims) && ConfirmedBySource(a, events)
        then Acknowledged else Failure
  }

  ghost predicate SubmittedAll(a: Attempt, authorities: set<Address>, claims: set<MessageId>) {
    && (forall v :: v in authorities ==> SendOk(a.ackSend(v)))
    && (forall id :: id in claims ==> SendOk(a.claimSend(id)))
  }

  /** The second pass over finalized state found nothing still owed. */
  ghost predicate ConfirmedBySource(a: Attempt, events: seq<DeliveryEvent>) {
    && Authorities(a.identity, a.after, Elements(a.candidates), Executed(events)) == {}
    && !Unresolved(a.identity, a.after, Elements(a.candidates), Executed(events))
    && (forall id :: id in ClaimIds(a, events) ==> a.feeAfter(id).Ok? && !Claimable(a.feeAfter(id).value))
  }

  /** First pass: authorities, whether resolution failed, and the claims to attempt. */
  method Precheck(a: Attempt, events: seq<DeliveryEvent>)
    returns (executedIds: seq<MessageId>, authorities: set<Address>, failed: bool, claimIds: seq<MessageId>)
    requires Injective(a.identity)
    ensures Elements(executedIds) == Executed(events)
    ensures authorities == Authorities(a.identity, a.before, Elements(a.candidates), Executed(events))
    ensures failed <==> Unresolved(a.identity, a.before, Elements(a.candidates), Executed(events))
    ensures Elements(claimIds) == ClaimIds(a, events)
  {
    var messageIds := IdsOf(events, false);
    executedIds := IdsOf(events, true);
    authorities, failed := {}, false;
    if executedIds == [] {
      assert Executed(events) == {};
    } else {
      authorities, failed := Validators(a.identity, a.before, a.candidates, executedIds);
    }
    claimIds := [];
    if a.mode.AckAndClaim? {
      var claimable := RelayClaimableIds(a.feeBefore, messageIds);
      claimIds := if claimable.Ok? then claimable.value else messageIds;
      assert (forall id :: id in messageIds ==> a.feeBefore(id).Ok?) <==>
        (forall id :: id in Delivered(events) ==> a.feeBefore(id).Ok?) by {
        assert forall id :: id in messageIds <==> id in Elements(messageIds);
      }
    }
  }

  /**
   Attempt every settlement even when one fails: acknowledgments first, then claims. The results
   are the answer to each send; `failed` says whether any was left unsent.
   */
  method SubmitSettlements(a: Attempt, authorities: set<Address>, claimIds: seq<MessageId>)
    returns (failed: bool, acks: map<Address, Send>, claims: map<MessageId, Send>)
    ensures acks == map v | v in authorities :: a.ackSend(v)
    ensures claims == map id | id in claimIds :: a.claimSend(id)
    ensures failed <==> !SubmittedAll(a, authorities, Elements(claimIds))
  {
    acks, claims := map[], map[];
    failed := false;
    var rest := authorities;
    while rest != {}
      invariant rest <= authorities
      invariant acks == map v | v in authorities - rest :: a.ackSend(v)
      invariant failed <==> exists v :: v in authorities - rest && !SendOk(a.ackSend(v))
      decreases rest
    {
      var v :| v in rest;
      ghost var done := authorities - rest;
      rest := rest - {v};
      assert authorities - rest == done + {v};
      acks := acks[v := a.ackSend(v)];
      if !SendOk(a.ackSend(v)) { failed := true; }
    }
    assert authorities - rest == authorities;
    assert Elements(claimIds[..0]) == {};
    for k := 0 to |claimIds|
      invariant claims == map id | id in claimIds[..k] :: a.claimSend(id)
      invariant failed <==> !SubmittedAll(a, authorities, Elements(claimIds[..k]))
    {
      assert claimIds[..k + 1] == claimIds[..k] + [claimIds[k]];
      assert Elements(claimIds[..k + 1]) == Elements(claimIds[..k]) + {claimIds[k]};
      claims := claims[claimIds[k] := a.claimSend(claimIds[k])];
      if !SendOk(a.claimSend(claimIds[k])) { failed := true; }
    }
    assert claimIds[..|claimIds|] == claimIds;
  }

  /** Second pass: only finalized source state releases the obligations. */
  method VerifySource(a: Attempt, ghost events: seq<DeliveryEvent>, executedIds: seq<MessageId>,
      claimIds: seq<MessageId>) returns (settled: bool)
    requires Injective(a.identity)
    requires Elements(executedIds) == Executed(events) && Elements(claimIds) == ClaimIds(a, events)
    ensures settled <==> ConfirmedBySource(a, events)
  {
    settled := true;
    if executedIds == [] {
      assert Executed(events) == {};
    } else {
      var remaining, failed := Validators(a.identity, a.after, a.candidates, executedIds);
      settled := remaining == {} && !failed;
    }
    assert forall id :: id in claimIds <==> id in ClaimIds(a, events);
    if a.mode.AckAndClaim? {
      var owed := RelayClaimableIds(a.feeAfter, claimIds);
      if owed.Err? {
        settled := false;
      } else {
        assert forall id :: id in owed.value <==> id in Elements(owed.value);
        if owed.value != [] {
          assert owed.value[0] in Elements(owed.value);
          settled := false;
        } else {
          assert forall id :: id in ClaimIds(a, events) && Claimable(a.feeAfter(id).value) ==>
            id in ClaimableIds(a.feeAfter, Elements(claimIds));
        }
      }
    }
  }

  method AcknowledgeTx(a: Attempt, events: seq<DeliveryEvent>) returns (o: Outcome)
    requires Injective(a.identity)
    ensures o == OutcomeOf(a, events)
  {
    var executedIds, authorities, failed, claimIds := Precheck(a, events);
    assert claimIds == [] <==> ClaimIds(a, events) == {} by {
      assert claimIds != [] ==> claimIds[0] in Elements(claimIds);
    }
    if claimIds == [] && authorities == {} {
      return if failed then Failure else NothingToSettle;
    }
    match a.proof
    case Later => return if failed then Failure else NotReady;
    case Refused => return if failed then Failure else Rejected;
    case Unavailable => return Failure;
    case Ready(encoded, structs) =>
      if encoded.Err? { return Failure; }
      if encoded.value > MAX_ENCODED_TRANSACTION_BYTES { return ProofTooLarge; }
      if !structs { return Failure; }
      var unsent, acks, claims := SubmitSettlements(a, authorities, claimIds);
      var settled := VerifySource(a, events, executedIds, claimIds);
      return if failed || unsent || !settled then Failure else Acknowledged;
  }

  // ----- every outcome, exactly -----

  /** The first pass found this message unresolved. */
  ghost predicate Unknown(a: Attempt, events: seq<DeliveryEvent>) {
    exists e :: e in events && e.executed && Resolved(a.identity, a.before, Elements(a.candidates), e.id).Err?
  }

  /** The first pass found `v` to be owed an acknowledgment submission. */
  ghost predicate AckOwed(a: Attempt, events: seq<DeliveryEvent>, v: Address) {
    exists e :: e in events && e.executed && Resolved(a.identity, a.before, Elements(a.candidates), e.id) == Ok(Some(v))
  }

  /** A fee claim is made: found funded and unsettled, or some fee could not be read. */
  ghost predicate ClaimMade(a: Attempt, events: seq<DeliveryEvent>, id: MessageId) {
    && a.mode == AckAndClaim && DeliveryEvent(id, false) in events
    && (|| (exists e :: e in events && !e.executed && a.feeBefore(e.id) == Err)
        || (a.feeBefore(id).Ok? && a.feeBefore(id).value.payer != 0 && !a.feeBefore(id).value.settled))
  }

  ghost predicate AnythingOwed(a: Attempt, events: seq<DeliveryEvent>) {
    (exists v :: AckOwed(a, events, v)) || (exists id :: ClaimMade(a, events, id))
  }

  /** Every submission was answered, by a confirmation or a revert. */
  ghost predicate AllAnswered(a: Attempt, events: seq<DeliveryEvent>) {
    && (forall v :: AckOwed(a, events, v) ==> a.ackSend(v) == Confirmed || a.ackSend(v) == Reverted)
    && (forall id :: ClaimMade(a, events, id) ==> a.claimSend(id) == Confirmed || a.claimSend(id) == Reverted)
  }

  /** The second pass found every executed message settled and every claimed fee read and not owed. */
  ghost predicate FoundSettled(a: Attempt, events: seq<DeliveryEvent>) {
    && (forall e :: e in events && e.executed ==>
          Resolved(a.identity, a.after, Elements(a.candidates), e.id) == Ok(None))
    && (forall id :: ClaimMade(a, events, id) ==>
          a.feeAfter(id).Ok? && (a.feeAfter(id).value.payer == 0 || a.feeAfter(id).value.settled))
  }

  lemma UnknownIsUnresolved(a: Attempt, events: seq<DeliveryEvent>)
    ensures Unknown(a, events) <==> Unresolved(a.identity, a.before, Elements(a.candidates), Executed(events))
  {
    if Unknown(a, events) {
      var e :| e in events && e.executed && Resolved(a.identity, a.before, Elements(a.candidates), e.id).Err?;
      assert e.id in Executed(events);
    }
  }

  lemma OwedIsAuthority(a: Attempt, events: seq<DeliveryEvent>, v: Address)
    ensures AckOwed(a, events, v) <==> v in Authorities(a.identity, a.before, Elements(a.candidates), Executed(events))
  {
    if AckOwed(a, events, v) {
      var e :| e in events && e.executed && Resolved(a.identity, a.before, Elements(a.candidates), e.id) == Ok(Some(v));
      assert e.id in Executed(events);
      AuthorityListed(a.identity, a.before, Elements(a.candidates), Executed(events), e.id);
    }
  }

  lemma ClaimMadeIsClaimId(a: Attempt, events: seq<DeliveryEvent>, id: MessageId)
    ensures ClaimMade(a, events, id) <==> id in ClaimIds(a, events)
  {
    forall x ensures x in Delivered(events) <==> DeliveryEvent(x, false) in events {
      if x in Delivered(events) {
        var e :| e in events && !e.executed && e.id == x;
        assert e == DeliveryEvent(x, false);
      }
    }
    if exists e :: e in events && !e.executed && a.feeBefore(e.id) == Err {
      var e :| e in events && !e.executed && a.feeBefore(e.id) == Err;
      assert e.id in Delivered(events);
    }
  }

  lemma SettledIsConfirmed(a: Attempt, events: seq<DeliveryEvent>)
    ensures FoundSettled(a, events) <==> ConfirmedBySource(a, events)
  {
    forall id ensures ClaimMade(a, events, id) <==> id in ClaimIds(a, events) { ClaimMadeIsClaimId(a, events, id); }
    var i, c, ids := a.identity, Elements(a.candidates), Executed(events);
    forall e | e in events && e.executed ensures e.id in ids { }
    if FoundSettled(a, events) {
      assert forall id :: id in ids ==> Resolved(i, a.after, c, id) == Ok(None);
      assert Authorities(i, a.after, c, ids) == {};
    } else if ConfirmedBySource(a, events) {
      forall e | e in events && e.executed ensures Resolved(i, a.after, c, e.id) == Ok(None) {
        NothingLeft(i, a.after, c, ids, e.id);
      }
    }
  }

  lemma AnsweredIsSubmitted(a: Attempt, events: seq<DeliveryEvent>)
    ensures AllAnswered(a, events) <==>
              SubmittedAll(a, Authorities(a.identity, a.before, Elements(a.candidates), Executed(events)),
                ClaimIds(a, events))
  {
    forall id ensures ClaimMade(a, events, id) <==> id in ClaimIds(a, events) { ClaimMadeIsClaimId(a, events, id); }
    var authorities := Authorities(a.identity, a.before, Elements(a.candidates), Executed(events));
    forall v ensures AckOwed(a, events, v) <==> v in authorities { OwedIsAuthority(a, events, v); }
  }

  lemma OwedIsNonempty(a: Attempt, events: seq<DeliveryEvent>)
    ensures AnythingOwed(a, events) <==>
              ClaimIds(a, events) != {} ||
                Authorities(a.identity, a.before, Elements(a.candidates), Executed(events)) != {}
  {
    forall id ensures ClaimMade(a, events, id) <==> id in ClaimIds(a, events) { ClaimMadeIsClaimId(a, events, id); }
    var authorities := Authorities(a.identity, a.before, Elements(a.candidates), Executed(events));
    forall v ensures AckOwed(a, events, v) <==> v in authorities { OwedIsAuthority(a, events, v); }
    assert ClaimIds(a, events) != {} ==> exists id :: id in ClaimIds(a, events);
    assert authorities != {} ==> exists v :: v in authorities;
  }

  /**
   When an attempt ends how, from its reads, proof and sends alone. It succeeds exactly when something
   was owed, everything resolved, the proof fits and builds, every submission was answered and the
   second pass found everything settled; what is left over is a failure.
   */
  lemma OutcomeExactly(a: Attempt, events: seq<DeliveryEvent>)
    ensures OutcomeOf(a, events) == NothingToSettle <==> !AnythingOwed(a, events) && !Unknown(a, events)
    ensures OutcomeOf(a, events) == NotReady <==>
              AnythingOwed(a, events) && !Unknown(a, events) && a.proof == Later
    ensures OutcomeOf(a, events) == Rejected <==>
              AnythingOwed(a, events) && !Unknown(a, events) && a.proof == Refused
    ensures OutcomeOf(a, events) == ProofTooLarge <==>
              AnythingOwed(a, events) && a.proof.Ready? && a.proof.encoded.Ok? && a.proof.encoded.value > 500_000
    ensures OutcomeOf(a, events) == Acknowledged <==>
              && AnythingOwed(a, events) && !Unknown(a, events)
              && a.proof.Ready? && a.proof.encoded.Ok? && a.proof.encoded.value <= 500_000 && a.proof.structs
              && AllAnswered(a, events) && FoundSettled(a, events)
  {
    UnknownIsUnresolved(a, events);
    OwedIsNonempty(a, events);
    AnsweredIsSubmitted(a, events);
    SettledIsConfirmed(a, events);
  }

  // ----- release is justified by finalized state -----

  /** The last pass over source state an attempt with this outcome makes. */
  function LastPass(a: Attempt, o: Outcome): Source {
    if o.Acknowledged? then a.after else a.before
  }

  /** Finalized reads the attempt made showed the fee settled or unfunded. */
  predicate FeeShown(a: Attempt, o: Outcome, id: MessageId) {
    || (a.feeBefore(id).Ok? && !Claimable(a.feeBefore(id).value))
    || (o.Acknowledged? && a.feeAfter(id).Ok? && !Claimable(a.feeAfter(id).value))
  }

  /**
   Finalized reads of an attempt with this outcome showed the event settled: its acknowledgment in
   the last pass made, its fee in a pass made.
   */
  ghost predicate EventShown(a: Attempt, o: Outcome, e: DeliveryEvent) {
    && (e.executed ==> Resolved(a.identity, LastPass(a, o), Elements(a.candidates), e.id) == Ok(None))
    && (!e.executed && a.mode.AckAndClaim? ==> FeeShown(a, o, e.id))
  }

  ghost predicate Justified(a: Attempt, events: seq<DeliveryEvent>) {
    forall e :: e in events ==> EventShown(a, OutcomeOf(a, events), e)
  }

  /**
   A transaction is released only when finalized reads settled every one of its obligations; the
   only other release is a proof above the on-chain size cap.
   */
  lemma ReleaseIsJustified(a: Attempt, events: seq<DeliveryEvent>)
    requires Releases(OutcomeOf(a, events))
    ensures OutcomeOf(a, events).ProofTooLarge? || Justified(a, events)
  {
    var o := OutcomeOf(a, events);
    if !o.ProofTooLarge? {
      forall e | e in events ensures EventShown(a, o, e) {
        if e.executed {
          assert e.id in Executed(events);
          NothingLeft(a.identity, LastPass(a, o), Elements(a.candidates), Executed(events), e.id);
        } else if a.mode.AckAndClaim? {
          assert e.id in Delivered(events);
          assert e.id in ClaimIds(a, events) || (a.feeBefore(e.id).Ok? && !Claimable(a.feeBefore(e.id).value));
        }
      }
    }
  }

  // ----- and it stays settled -----

  /** Finalized source state at each moment. */
  datatype Finalized = Finalized(record: (nat, Address, MessageId) -> Option<Record>, fee: (nat, MessageId) -> Fee)

  /** A publication is immutable apart from its acknowledgment, which is never undone. */
  predicate RecordStays(before: Option<Record>, later: Option<Record>) {
    before.Some? ==>
      && later.Some?
      && later.value == before.value.(acknowledged := later.value.acknowledged)
      && (before.value.acknowledged ==> later.value.acknowledged)
  }

  /** Finalized settlement is never undone. */
  ghost predicate Sticky(w: Finalized) {
    && (forall s: nat, t: nat, a, id :: s <= t ==> RecordStays(w.record(s, a, id), w.record(t, a, id)))
    && (forall s: nat, t: nat, id :: s <= t && w.fee(s, id).settled ==> w.fee(t, id).settled)
  }

  /** Successful reads of a pass report the state of some moment up to `end`. */
  ghost predicate HonestPass(s: Source, fee: MessageId -> Result<Fee>, w: Finalized, end: nat) {
    && (forall a, id :: s.getMessage(a, id).Found? ==>
      exists t: nat :: t <= end && w.record(t, a, id) == Some(s.getMessage(a, id).record))
    && (forall id :: fee(id).Ok? ==> exists t: nat :: t <= end && w.fee(t, id) == fee(id).value)
  }

  /** The Outbox's record at `t` is this message's publication and needs no acknowledgment. */
  ghost predicate OutboxSettled(w: Finalized, t: nat, i: Identity, a: Address, id: MessageId) {
    var r := w.record(t, a, id);
    r.Some? && Publishes(i, a, r.value, id) && !NeedsAck(r.value)
  }

  /** The message's own Outbox record, among the candidates, needs no acknowledgment at `t`. */
  ghost predicate AckSettled(w: Finalized, t: nat, i: Identity, candidates: set<Address>, id: MessageId) {
    exists a :: a in candidates && OutboxSettled(w, t, i, a, id)
  }

  lemma ShownStaysSettled(i: Identity, s: Source, fee: MessageId -> Result<Fee>, w: Finalized, end: nat,
      candidates: set<Address>, id: MessageId)
    requires Sticky(w) && HonestPass(s, fee, w, end) && Resolved(i, s, candidates, id) == Ok(None)
    ensures AckSettled(w, end, i, candidates, id)
  {
    ResolutionSound(i, s, candidates, id);
    var a :| a in candidates && Matches(i, s, a, id) && !NeedsAck(s.getMessage(a, id).record);
    var t: nat :| t <= end && w.record(t, a, id) == Some(s.getMessage(a, id).record);
    assert RecordStays(w.record(t, a, id), w.record(end, a, id));
  }

  lemma FeeStaysSettled(s: Source, fee: MessageId -> Result<Fee>, w: Finalized, end: nat, id: MessageId)
    requires Sticky(w) && HonestPass(s, fee, w, end) && fee(id).Ok? && !Claimable(fee(id).value)
    ensures w.fee(end, id).settled || exists t: nat :: t <= end && w.fee(t, id).payer == ZERO
  {
    var t: nat :| t <= end && w.fee(t, id) == fee(id).value;
    assert w.fee(t, id).settled ==> w.fee(end, id).settled;
  }

  /** Settled on the chain at `end`: acknowledged or not owed; or the fee settled or seen unfunded. */
  ghost predicate OnChainSettled(a: Attempt, w: Finalized, end: nat, e: DeliveryEvent) {
    && (e.executed ==> AckSettled(w, end, a.identity, Elements(a.candidates), e.id))
    && (!e.executed && a.mode.AckAndClaim? ==>
      w.fee(end, e.id).settled || exists t: nat :: t <= end && w.fee(t, e.id).payer == ZERO)
  }

  /** The passes an attempt with this outcome made read the chain honestly, up to `end`. */
  ghost predicate HonestAttempt(a: Attempt, o: Outcome, w: Finalized, end: nat) {
    HonestPass(a.before, a.feeBefore, w, end) && (o.Acknowledged? ==> HonestPass(a.after, a.feeAfter, w, end))
  }

  /** What honest finalized reads showed settled is settled on the chain from then on. */
  lemma ShownHoldsOnChain(a: Attempt, o: Outcome, w: Finalized, end: nat, e: DeliveryEvent)
    requires EventShown(a, o, e) && Sticky(w) && HonestAttempt(a, o, w, end)
    ensures OnChainSettled(a, w, end, e)
  {
    if e.executed {
      var fee := if o.Acknowledged? then a.feeAfter else a.feeBefore;
      ShownStaysSettled(a.identity, LastPass(a, o), fee, w, end, Elements(a.candidates), e.id);
    } else if a.mode.AckAndClaim? {
      if a.feeBefore(e.id).Ok? && !Claimable(a.feeBefore(e.id).value) {
        FeeStaysSettled(a.before, a.feeBefore, w, end, e.id);
      } else {
        FeeStaysSettled(a.after, a.feeAfter, w, end, e.id);
      }
    }
  }

  /** A concrete attempt: a funded, unsettled claim is released because its proof is one byte too long. */
  lemma OversizedExample(any: Attempt)
    ensures var a := any.(mode := AckAndClaim, feeBefore := _ => Ok(Fee(5, false)),
                          proof := Ready(Ok(MAX_ENCODED_TRANSACTION_BYTES + 1), true));
            var events := [DeliveryEvent(1, false)];
            OutcomeOf(a, events).ProofTooLarge? && !Justified(a, events)
  {
    var a := any.(mode := AckAndClaim, feeBefore := _ => Ok(Fee(5, false)),
                  proof := Ready(Ok(MAX_ENCODED_TRANSACTION_BYTES + 1), true));
    var e := DeliveryEvent(1, false);
    assert e in [e];
    assert 1 in Delivered([e]);
    assert 1 in ClaimIds(a, [e]);
    assert OutcomeOf(a, [e]).ProofTooLarge?;
    assert !EventShown(a, ProofTooLarge, e);
  }
}
