/** The finalized source chain: what was published in each block, and who was authorized to. */
module SourceChain {
  import opened Basics

  type Id = nat
  type TxHash = nat

  /** A `MessagePublished` log; `id` is absent if the body does not decode. */
  datatype PubLog = PubLog(block: Option<nat>, removed: bool, outbox: Address, id: Option<Id>, tx: Option<TxHash>)

  datatype Message = Message(id: Id, outbox: Address, block: nat, tx: TxHash)

  /** What was published in each finalized block, and who was authorized at that block. */
  datatype Truth = Truth(
    emitted: nat -> set<PubLog>,
    discovery: nat -> Option<Address>,
    member: (Address, Address, nat) -> bool)

  predicate Wanted(pinned: Option<Address>, l: PubLog) {
    pinned.Some? ==> l.outbox == pinned.value
  }

  /** Authorized by the operator's pin, or by the Discovery governing the log's own block. */
  predicate Authorized(t: Truth, pinned: Option<Address>, block: nat, outbox: Address) {
    if pinned.Some? then outbox == pinned.value
    else t.discovery(block).Some? && t.member(t.discovery(block).value, outbox, block)
  }

  ghost function EmittedIn(t: Truth, pinned: Option<Address>, from: nat, to: nat): set<PubLog> {
    set b, l | from <= b <= to && l in t.emitted(b) && Wanted(pinned, l) :: l
  }

  /**
   A log of block `b` counts: it is the pinned Outbox's, or without a pin its Outbox is a member of the
   Discovery that governs its own block.
   */
  ghost predicate Counts(t: Truth, pinned: Option<Address>, b: nat, l: PubLog) {
    && l in t.emitted(b)
    && match pinned
       case Some(outbox) => l.outbox == outbox
       case None => t.discovery(b).Some? && t.member(t.discovery(b).value, l.outbox, b)
  }

  /** `m` is a publication of an authorized Outbox in a block after `low` and up to `high`. */
  ghost predicate Publication(t: Truth, pinned: Option<Address>, low: nat, high: nat, m: Message) {
    exists l: PubLog ::
      && low < m.block <= high && Counts(t, pinned, m.block, l)
      && l.id == Some(m.id) && l.tx == Some(m.tx) && l.outbox == m.outbox
  }

  /** `id` was published by an authorized Outbox in a block after `low` and up to `high`. */
  ghost predicate Published(t: Truth, pinned: Option<Address>, low: nat, high: nat, id: Id) {
    exists b: nat, l: PubLog :: low < b <= high && l.id == Some(id) && Counts(t, pinned, b, l)
  }
}
