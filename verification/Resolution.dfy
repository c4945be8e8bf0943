/**
 Resolving a delivered message to its original Outbox and that Outbox's current acknowledgment
 validator. The message ID is an arbitrary injective function of the publication.
 */
module Resolution {
  import opened Basics
  import opened Ordered

  type MessageId = nat

  datatype Record = Record(emitter: Address, sequence: nat, payloadHash: nat, canAck: bool, acknowledged: bool)

  datatype Lookup = Found(record: Record) | NotFound | Failed

  /** Answers of one pass over the source chain, each free to fail; keyed by the message asked about. */
  datatype Source = Source(
    getMessage: (Address, MessageId) -> Lookup,
    validatorOf: (Address, MessageId) -> Result<Address>,
    boundOutbox: (Address, MessageId) -> Result<Address>,
    boundDestination: (Address, MessageId) -> Result<nat>)

  /** `hash` is keccak over (outbox, emitter, sequence, payload hash, source chain). */
  datatype Identity = Identity(hash: (Address, Address, nat, nat, nat) -> MessageId, chainId: nat, destination: nat)

  ghost predicate Injective(i: Identity) {
    forall a, e, s, p, c, a', e', s', p', c' ::
      i.hash(a, e, s, p, c) == i.hash(a', e', s', p', c') ==> a == a' && e == e' && s == s' && p == p' && c == c'
  }

  function IdOf(i: Identity, outbox: Address, r: Record): MessageId {
    i.hash(outbox, r.emitter, r.sequence, r.payloadHash, i.chainId)
  }

  predicate Publishes(i: Identity, outbox: Address, r: Record, id: MessageId) {
    r.emitter != ZERO && IdOf(i, outbox, r) == id
  }

  /** The candidate's record is this message's own publication. */
  predicate Matches(i: Identity, s: Source, outbox: Address, id: MessageId) {
    s.getMessage(outbox, id).Found? && Publishes(i, outbox, s.getMessage(outbox, id).record, id)
  }

  predicate NeedsAck(r: Record) {
    r.canAck && !r.acknowledged
  }

  /** What a matching candidate answers: nothing left to do, a checked validator, or a failure. */
  function Decide(i: Identity, s: Source, outbox: Address, id: MessageId): Result<Option<Address>> {
    if s.getMessage(outbox, id).Found? && !NeedsAck(s.getMessage(outbox, id).record) then Ok(None)
    else match s.validatorOf(outbox, id)
      case Err => Err
      case Ok(v) =>
        if v != ZERO && s.boundOutbox(v, id) == Ok(outbox) && s.boundDestination(v, id) == Ok(i.destination)
        then Ok(Some(v)) else Err
  }

  /** Reference: the publication's own Outbox decides, wherever it is among the candidates. */
  ghost function Resolved(i: Identity, s: Source, candidates: set<Address>, id: MessageId): Result<Option<Address>> {
    if exists a :: a in candidates && Matches(i, s, a, id)
    then var a :| a in candidates && Matches(i, s, a, id); Decide(i, s, a, id)
    else Err
  }

  /** One message has one publishing Outbox. */
  lemma MatchUnique(i: Identity, s: Source, a: Address, b: Address, id: MessageId)
    requires Injective(i) && Matches(i, s, a, id) && Matches(i, s, b, id)
    ensures a == b
  {
  }

  /** Try the candidates in their order; the first match decides and failures elsewhere do not count. */
  method ValidatorFor(i: Identity, s: Source, candidates: seq<Address>, id: MessageId)
    returns (r: Result<Option<Address>>)
    requires Injective(i)
    ensures r == Resolved(i, s, Elements(candidates), id)
  {
    ghost var all := Elements(candidates);
    var failure := false;
    for k := 0 to |candidates|
      invariant forall j :: 0 <= j < k ==> !Matches(i, s, candidates[j], id)
    {
      var address := candidates[k];
      var answer := s.getMessage(address, id);
      if answer.Failed? {
        failure := true;
      } else if answer.Found? && Publishes(i, address, answer.record, id) {
        assert address in all && Matches(i, s, address, id);
        forall b | b in all && Matches(i, s, b, id) ensures b == address {
          MatchUnique(i, s, address, b, id);
        }
        if NeedsAck(answer.record) {
          var authority := s.validatorOf(address, id);
          if authority.Err? || authority.value == ZERO { return Err; }
          var bound := s.boundOutbox(authority.value, id);
          if bound != Ok(address) { return Err; }
          var destination := s.boundDestination(authority.value, id);
          if destination != Ok(i.destination) { return Err; }
          return Ok(Some(authority.value));
        }
        return Ok(None);
      }
    }
    return Err;
  }

  /**
   Soundness: `None` rests on a finalized record of this very message that needs no acknowledgment;
   a validator rests on one that does, and is bound to that Outbox and this destination.
   */
  lemma ResolutionSound(i: Identity, s: Source, candidates: set<Address>, id: MessageId)
    requires Resolved(i, s, candidates, id).Ok?
    ensures exists a :: a in candidates && Matches(i, s, a, id) &&
              match Resolved(i, s, candidates, id).value
              case None => !NeedsAck(s.getMessage(a, id).record)
              case Some(v) =>
                && NeedsAck(s.getMessage(a, id).record)
                && v != ZERO && s.validatorOf(a, id) == Ok(v)
                && s.boundOutbox(v, id) == Ok(a) && s.boundDestination(v, id) == Ok(i.destination)
  {
    assert exists a :: a in candidates && Matches(i, s, a, id);
  }

  /** Monotone: further candidates, failing or not, never change an answer once there is one. */
  lemma ResolutionMonotone(i: Identity, s: Source, some: set<Address>, more: set<Address>, id: MessageId)
    requires Injective(i) && some <= more && Resolved(i, s, some, id).Ok?
    ensures Resolved(i, s, more, id) == Resolved(i, s, some, id)
  {
    var a :| a in some && Matches(i, s, a, id);
    forall b | b in more && Matches(i, s, b, id) ensures b == a { MatchUnique(i, s, a, b, id); }
  }

  /** Once the publishing Outbox is a candidate and its reads succeed, the message resolves. */
  lemma ResolvesOnceKnown(i: Identity, s: Source, candidates: set<Address>, outbox: Address, id: MessageId)
    requires Injective(i) && outbox in candidates && Matches(i, s, outbox, id)
    ensures Resolved(i, s, candidates, id) == Decide(i, s, outbox, id)
  {
    forall b | b in candidates && Matches(i, s, b, id) ensures b == outbox { MatchUnique(i, s, outbox, b, id); }
  }

  /** The finalized record at `outbox` is the publication whose identity hashes to `id`. */
  ghost predicate Published(i: Identity, s: Source, outbox: Address, id: MessageId, r: Record) {
    && s.getMessage(outbox, id) == Found(r) && r.emitter != 0
    && i.hash(outbox, r.emitter, r.sequence, r.payloadHash, i.chainId) == id
  }

  /** The Outbox's validator, read and bound to this Outbox and this destination. */
  ghost predicate Authorizes(i: Identity, s: Source, outbox: Address, id: MessageId, v: Address) {
    && s.validatorOf(outbox, id) == Ok(v) && v != 0
    && s.boundOutbox(v, id) == Ok(outbox) && s.boundDestination(v, id) == Ok(i.destination)
  }

  /**
   Exactly what a message resolves to, from the record of the Outbox that published it: nothing to do
   unless it can be acknowledged and has not been; else its validator if that checks out; else a
   failure. Without a publishing candidate it is always a failure.
   */
  lemma ResolvesExactly(i: Identity, s: Source, candidates: set<Address>, id: MessageId)
    requires Injective(i)
    ensures Resolved(i, s, candidates, id) == Ok(None) <==>
              exists a, r :: a in candidates && Published(i, s, a, id, r) && (!r.canAck || r.acknowledged)
    ensures forall v: Address :: Resolved(i, s, candidates, id) == Ok(Some(v)) <==>
              exists a, r :: && a in candidates && Published(i, s, a, id, r) && r.canAck && !r.acknowledged
                             && Authorizes(i, s, a, id, v)
  {
    if exists a :: a in candidates && Matches(i, s, a, id) {
      var a :| a in candidates && Matches(i, s, a, id);
      var r := s.getMessage(a, id).record;
      assert Published(i, s, a, id, r);
      forall b, q | b in candidates && Published(i, s, b, id, q) ensures b == a && q == r {
        assert Matches(i, s, b, id);
        MatchUnique(i, s, a, b, id);
      }
      ResolvesOnceKnown(i, s, candidates, a, id);
    } else {
      forall a, r | a in candidates ensures !Published(i, s, a, id, r) {
        assert Published(i, s, a, id, r) ==> Matches(i, s, a, id);
      }
    }
  }

  /** Group unsettled acknowledgments by authority; any unresolved message is a failure. */
  method Validators(i: Identity, s: Source, candidates: seq<Address>, ids: seq<MessageId>)
    returns (authorities: set<Address>, failed: bool)
    requires Injective(i)
    ensures authorities == Authorities(i, s, Elements(candidates), Elements(ids))
    ensures failed <==> ids == [] || Unresolved(i, s, Elements(candidates), Elements(ids))
  {
    ghost var all := Elements(candidates);
    authorities, failed := {}, ids == [];
    for k := 0 to |ids|
      invariant authorities == Authorities(i, s, all, Elements(ids[..k]))
      invariant failed <==> ids == [] || Unresolved(i, s, all, Elements(ids[..k]))
    {
      assert Elements(ids[..k + 1]) == Elements(ids[..k]) + {ids[k]};
      var r := ValidatorFor(i, s, candidates, ids[k]);
      if r.Err? {
        failed := true;
      } else if r.value.Some? {
        authorities := authorities + {r.value.value};
      }
    }
    assert ids[..|ids|] == ids;
  }

  ghost function Authorities(i: Identity, s: Source, candidates: set<Address>, ids: set<MessageId>): set<Address> {
    set id | id in ids && Resolved(i, s, candidates, id).Ok? && Resolved(i, s, candidates, id).value.Some? ::
      Resolved(i, s, candidates, id).value.value
  }

  ghost predicate Unresolved(i: Identity, s: Source, candidates: set<Address>, ids: set<MessageId>) {
    exists id :: id in ids && Resolved(i, s, candidates, id).Err?
  }

  lemma AuthorityListed(i: Identity, s: Source, candidates: set<Address>, ids: set<MessageId>, id: MessageId)
    requires id in ids && Resolved(i, s, candidates, id).Ok? && Resolved(i, s, candidates, id).value.Some?
    ensures Resolved(i, s, candidates, id).value.value in Authorities(i, s, candidates, ids)
  {
  }

  /** A pass that found no authority and no failure found every message settled. */
  lemma NothingLeft(i: Identity, s: Source, candidates: set<Address>, ids: set<MessageId>, id: MessageId)
    requires id in ids && Authorities(i, s, candidates, ids) == {} && !Unresolved(i, s, candidates, ids)
    ensures Resolved(i, s, candidates, id) == Ok(None)
  {
    if Resolved(i, s, candidates, id).Ok? && Resolved(i, s, candidates, id).value.Some? {
      AuthorityListed(i, s, candidates, ids, id);
    }
  }
}
