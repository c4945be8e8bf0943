/**
 One poll of the source chain: pick the finalized range, fetch every publication in it (shrinking a
 range that is too large, down to a single block's receipts), authorize each against the Discovery
 of its own block, and journal it before the cursor moves.
 */
module SourceScan {
  import opened Basics
  import opened SourceChain
  import opened SourceRun

  const MAX_BLOCKS_PER_SCAN: nat := 2_000
  const FINALITY_STALL_TIMEOUT: nat := 600

  // ----- finality -----

  datatype FinalityPolicy = Finalized | Depth(depth: nat)

  class FinalityTracker {
    var lastFinalized: Option<nat>
    var lastAdvance: nat
    var stalled: bool

    constructor (now: nat)
      ensures lastFinalized == None && lastAdvance == now && !stalled
    {
      lastFinalized, lastAdvance, stalled := None, now, false;
    }

    /**
     The block a scan may reach. Under the production policy it is the finalized head and nothing
     else: an unavailable or regressed head stops the scan, however long finality stalls.
     */
    method PickToBlock(finalized: Option<nat>, tip: nat, policy: FinalityPolicy, now: nat) returns (r: Result<nat>)
      requires now >= lastAdvance
      modifies this
      ensures policy.Depth? ==> r == Ok(SatSub(tip, policy.depth))
      ensures policy.Depth? ==>
              lastFinalized == old(lastFinalized) && lastAdvance == old(lastAdvance) && stalled == old(stalled)
      ensures policy.Finalized? ==>
              (r.Ok? <==> finalized.Some? && (old(lastFinalized).Some? ==> old(lastFinalized).value <= finalized.value))
      ensures policy.Finalized? && r.Ok? ==> r.value == finalized.value && lastFinalized == finalized
      ensures policy.Finalized? && r.Ok? ==>
              lastAdvance == if old(lastFinalized) == finalized then old(lastAdvance) else now
      ensures r.Err? ==>
              lastFinalized == old(lastFinalized) && lastAdvance == old(lastAdvance) && stalled == old(stalled)
      ensures policy.Finalized? && r.Ok? ==>
              (stalled <==> old(lastFinalized) == finalized && now - old(lastAdvance) >= FINALITY_STALL_TIMEOUT)
    {
      match policy
      case Depth(depth) => return Ok(SatSub(tip, depth));
      case Finalized =>
        if finalized.None? || (lastFinalized.Some? && finalized.value < lastFinalized.value) { return Err; }
        if lastFinalized.None? || finalized.value > lastFinalized.value {
          lastFinalized, lastAdvance, stalled := finalized, now, false;
        } else {
          stalled := now - lastAdvance >= FINALITY_STALL_TIMEOUT;
        }
        return Ok(finalized.value);
    }
  }

  // ----- the node -----

  /** A receipt log; `ours`: carries the topic; `consistent`: block, hash and transaction agree. */
  datatype ReceiptLog = ReceiptLog(ours: bool, consistent: bool, log: PubLog)

  datatype Receipt = Receipt(tx: TxHash, block: Option<nat>, blockHash: Option<nat>, logs: seq<ReceiptLog>)

  datatype Block = Block(number: nat, hash: nat, txs: seq<TxHash>)

  datatype Query = Logs(logs: seq<PubLog>) | TooLarge | Broken

  datatype Provider = Provider(
    query: (nat, nat) -> Query,
    block: nat -> Result<Block>,
    receipt: (nat, TxHash) -> Result<Receipt>)

  /** Honest answers; any call may still fail. */
  ghost predicate Honest(p: Provider, t: Truth, pinned: Option<Address>) {
    && (forall b: nat, l :: l in t.emitted(b) ==> l.block == Some(b) && !l.removed)
    && (forall from, to :: p.query(from, to).Logs? ==>
          forall l :: l in p.query(from, to).logs <==> l in EmittedIn(t, pinned, from, to))
    && (forall n, l :: p.block(n).Ok? && l in t.emitted(n) ==>
          exists h :: h in p.block(n).value.txs && Carries(p, n, h, l))
    && (forall n, h, l :: p.block(n).Ok? && p.receipt(n, h).Ok? && h in p.block(n).value.txs ==>
          (Carries(p, n, h, l) ==> l in t.emitted(n)))
  }

  /** The transaction's receipt, if it can be read, has this publication. */
  ghost predicate Carries(p: Provider, n: nat, h: TxHash, l: PubLog) {
    p.receipt(n, h).Ok? ==> exists x :: x in p.receipt(n, h).value.logs && x.ours && x.log == l
  }

  // ----- fetching a range -----

  predicate ReceiptOk(r: Receipt, n: nat, b: Block, h: TxHash) {
    && r.tx == h && r.block == Some(n) && r.blockHash == Some(b.hash)
    && forall x :: x in r.logs ==> x.consistent && !x.log.removed
  }

  /** The receipt fallback accepts the block: every transaction's receipt is there and consistent. */
  predicate Covered(p: Provider, n: nat) {
    && p.block(n).Ok? && p.block(n).value.number == n && p.block(n).value.txs != []
    && forall h :: h in p.block(n).value.txs ==>
         p.receipt(n, h).Ok? && ReceiptOk(p.receipt(n, h).value, n, p.block(n).value, h)
  }

  /** The receipts of a block too dense for a log query: all publications, or a failure. */
  method LogsFromReceipts(p: Provider, n: nat, pinned: Option<Address>, ghost t: Truth)
    returns (r: Result<seq<PubLog>>)
    requires Honest(p, t, pinned)
    ensures r.Ok? <==>
              && p.block(n).Ok? && p.block(n).value.number == n && p.block(n).value.txs != []
              && forall h :: h in p.block(n).value.txs ==>
                   && p.receipt(n, h).Ok? && p.receipt(n, h).value.tx == h
                   && p.receipt(n, h).value.block == Some(n)
                   && p.receipt(n, h).value.blockHash == Some(p.block(n).value.hash)
                   && forall x :: x in p.receipt(n, h).value.logs ==> x.consistent && !x.log.removed
    ensures r.Ok? ==> forall l :: l in r.value <==> l in EmittedIn(t, pinned, n, n)
  {
    var block := p.block(n);
    if block.Err? || block.value.number != n || block.value.txs == [] { return Err; }
    var b := block.value;
    var logs: seq<PubLog> := [];
    for i := 0 to |b.txs|
      invariant forall k :: 0 <= k < i ==>
        p.receipt(n, b.txs[k]).Ok? && ReceiptOk(p.receipt(n, b.txs[k]).value, n, b, b.txs[k])
      invariant forall l :: l in logs <==> Wanted(pinned, l) && exists k :: 0 <= k < i && Carries(p, n, b.txs[k], l)
    {
      var receipt := p.receipt(n, b.txs[i]);
      if receipt.Err? { return Err; }
      var from := receipt.value;
      if from.tx != b.txs[i] || from.block != Some(n) || from.blockHash != Some(b.hash) { return Err; }
      var mine := WantedLogs(from.logs, pinned);
      if mine.Err? { return Err; }
      logs := logs + mine.value;
    }
    CoveredNames(p, n, pinned, t, logs);
    return Ok(logs);
  }

  /** Publications carried by the receipts of a fully covered block are exactly the block's. */
  lemma CoveredNames(p: Provider, n: nat, pinned: Option<Address>, t: Truth, logs: seq<PubLog>)
    requires Honest(p, t, pinned) && p.block(n).Ok?
    requires forall h :: h in p.block(n).value.txs ==> p.receipt(n, h).Ok?
    requires var txs := p.block(n).value.txs;
             forall l :: l in logs <==> Wanted(pinned, l) && exists k :: 0 <= k < |txs| && Carries(p, n, txs[k], l)
    ensures forall l :: l in logs <==> l in EmittedIn(t, pinned, n, n)
  {
    var txs := p.block(n).value.txs;
    forall l ensures l in logs <==> l in EmittedIn(t, pinned, n, n) {
      if l in EmittedIn(t, pinned, n, n) {
        var h :| h in txs && Carries(p, n, h, l);
        var k :| 0 <= k < |txs| && txs[k] == h;
      }
      if l in logs {
        var k :| 0 <= k < |txs| && Carries(p, n, txs[k], l);
        assert txs[k] in txs;
        assert l in t.emitted(n);
      }
    }
  }

  method WantedLogs(logs: seq<ReceiptLog>, pinned: Option<Address>) returns (r: Result<seq<PubLog>>)
    ensures r.Ok? <==> forall x :: x in logs ==> x.consistent && !x.log.removed
    ensures r.Ok? ==> forall l :: l in r.value <==> Wanted(pinned, l) && exists x :: x in logs && x.ours && x.log == l
  {
    var mine: seq<PubLog> := [];
    for i := 0 to |logs|
      invariant forall k :: 0 <= k < i ==> logs[k].consistent && !logs[k].log.removed
      invariant forall l :: l in mine <==>
                Wanted(pinned, l) && exists k :: 0 <= k < i && logs[k].ours && logs[k].log == l
    {
      if !logs[i].consistent || logs[i].log.removed { return Err; }
      if logs[i].ours && Wanted(pinned, logs[i].log) { mine := mine + [logs[i].log]; }
    }
    return Ok(mine);
  }

  /** The prefix is the half of a wider one that the node refused. */
  ghost predicate HalvedFrom(p: Provider, from: nat, end: nat, wider: nat, limit: nat) {
    from <= end < wider <= limit && end == from + (wider - from) / 2 && p.query(from, wider).TooLarge?
  }

  ghost predicate Halved(p: Provider, from: nat, end: nat, limit: nat) {
    end == limit || exists wider :: HalvedFrom(p, from, end, wider, limit)
  }

  /**
   Halve a range the node refuses as too large; the result is every publication of a nonempty
   prefix. It fails only on a broken query, or on a single block whose receipts do not cover it.
   */
  method FetchRange(p: Provider, from: nat, limit: nat, pinned: Option<Address>, ghost t: Truth)
    returns (r: Result<seq<PubLog>>, end: nat)
    requires from <= limit && Honest(p, t, pinned)
    ensures from <= end <= limit
    ensures r.Ok? ==> forall l :: l in r.value <==> l in EmittedIn(t, pinned, from, end)
    ensures r.Ok? <==> p.query(from, end).Logs? || (from == end && p.query(from, end).TooLarge? && Covered(p, from))
    ensures r.Err? ==> p.query(from, end).Broken? || from == end
    ensures !p.query(from, limit).TooLarge? ==> end == limit
    ensures Halved(p, from, end, limit)
  {
    end := limit;
    while true
      invariant from <= end <= limit && (end < limit ==> p.query(from, limit).TooLarge?) && Halved(p, from, end, limit)
      decreases end
    {
      match p.query(from, end)
      case Logs(logs) => return Ok(logs), end;
      case Broken => return Err, end;
      case TooLarge =>
        if from == end {
          r := LogsFromReceipts(p, from, pinned, t);
          return;
        }
        ghost var wider := end;
        end := from + (end - from) / 2;
        assert HalvedFrom(p, from, end, wider, limit);
    }
  }

  // ----- authorization with per-range caches -----

  /** Reference: one uncached lookup per log. */
  function Index(t: Truth, pinned: Option<Address>, logs: seq<PubLog>): seq<Message> {
    if logs == [] then []
    else
      var l := logs[|logs| - 1];
      Index(t, pinned, logs[..|logs| - 1]) +
      (if l.block.Some? && l.id.Some? && l.tx.Some? && Authorized(t, pinned, l.block.value, l.outbox)
       then [Message(l.id.value, l.outbox, l.block.value, l.tx.value)] else [])
  }

  lemma {:induction false} IndexComplete(t: Truth, pinned: Option<Address>, logs: seq<PubLog>, l: PubLog)
    requires l in logs && l.block.Some? && l.id.Some? && l.tx.Some? && Authorized(t, pinned, l.block.value, l.outbox)
    ensures Message(l.id.value, l.outbox, l.block.value, l.tx.value) in Index(t, pinned, logs)
  {
    var n := |logs| - 1;
    assert logs == logs[..n] + [logs[n]];
    if l != logs[n] { IndexComplete(t, pinned, logs[..n], l); }
  }

  lemma {:induction false} IndexSound(t: Truth, pinned: Option<Address>, logs: seq<PubLog>, m: Message)
    requires m in Index(t, pinned, logs)
    ensures exists l :: l in logs && l.block == Some(m.block) && l.id == Some(m.id) && l.tx == Some(m.tx) &&
              l.outbox == m.outbox && Authorized(t, pinned, m.block, l.outbox)
  {
    var n := |logs| - 1;
    assert logs == logs[..n] + [logs[n]];
    if m in Index(t, pinned, logs[..n]) {
      IndexSound(t, pinned, logs[..n], m);
      var l :| l in logs[..n] && l.block == Some(m.block) && l.id == Some(m.id) && l.tx == Some(m.tx) &&
        l.outbox == m.outbox && Authorized(t, pinned, m.block, l.outbox);
      assert l in logs;
    }
  }

  /** What an honest range yields is published in that range. */
  lemma IndexedIsPublication(p: Provider, t: Truth, pinned: Option<Address>, low: nat, high: nat, logs: seq<PubLog>,
      m: Message)
    requires Honest(p, t, pinned) && (forall l :: l in logs <==> l in EmittedIn(t, pinned, low + 1, high))
    requires m in Index(t, pinned, logs)
    ensures Publication(t, pinned, low, high, m)
  {
    IndexSound(t, pinned, logs, m);
  }

  /**
   What the surroundings may do to a poll: fail a historical read, fail a journal write, or end the
   poll (a cancellation or a closed channel) right after a message.
   */
  datatype Faults = Faults(read: (nat, Address) -> bool, write: Id -> bool, halt: Id -> bool)

  datatype Stop = Finished | Failed | Cancelled

  class SourceWatcher {
    const pinned: Option<Address>
    var lastSeen: nat
    /** Journal records a reader sees, and those whose directory entry is known to be on disk. */
    var visible: set<Id>
    var durable: set<Id>
    ghost var journaled: set<Id>
    /** Per-range caches: the Discovery of a block, and membership of an Outbox at a block. */
    var discoveries: map<nat, Option<Address>>
    var memberships: map<(nat, Address), bool>

    constructor (pinned: Option<Address>, lastSeen: nat, visible: set<Id>, durable: set<Id>)
      ensures this.pinned == pinned && this.lastSeen == lastSeen && journaled == {}
      ensures this.visible == visible && this.durable == durable
    {
      this.pinned, this.lastSeen, this.visible, this.durable := pinned, lastSeen, visible, durable;
      discoveries, memberships, journaled := map[], map[], {};
    }

    /** This process's part of the source state; `rest` is what other tasks own. */
    ghost function View(rest: Source): Source
      reads this
    {
      rest.(visible := visible, durable := durable, live := Some(lastSeen), journaled := journaled)
    }

    ghost predicate CachesTrue(t: Truth)
      reads this
    {
      && (forall b :: b in discoveries ==> discoveries[b] == t.discovery(b))
      && (forall b, o :: (b, o) in memberships ==>
        t.discovery(b).Some? && memberships[(b, o)] == t.member(t.discovery(b).value, o, b))
    }

    /** Authorize through the caches; a historical read may fail, never lie. */
    method Authorize(block: nat, outbox: Address, t: Truth, faults: Faults) returns (r: Result<bool>)
      requires pinned.None? && CachesTrue(t)
      modifies this`discoveries, this`memberships
      ensures CachesTrue(t)
      ensures r.Ok? ==> (r.value <==> t.discovery(block).Some? && t.member(t.discovery(block).value, outbox, block))
      ensures r.Err? ==> faults.read(block, outbox)
    {
      if block !in discoveries {
        if faults.read(block, outbox) { return Err; }
        discoveries := discoveries[block := t.discovery(block)];
      }
      var discovery := discoveries[block];
      if discovery.None? { return Ok(false); }
      if (block, outbox) !in memberships {
        if faults.read(block, outbox) { return Err; }
        memberships := memberships[(block, outbox) := t.member(discovery.value, outbox, block)];
      }
      return Ok(memberships[(block, outbox)]);
    }

    /** Write a record; success means its directory entry is on disk. */
    method Record(id: Id, faults: Faults, ghost cfg: Config, ghost rest: Source, ghost first: Source,
        ghost sofar: seq<Event>)
      returns (ok: bool, ghost trace: seq<Event>)
      requires Leads(cfg, first, sofar, View(rest))
      modifies this`visible, this`durable, this`journaled
      ensures Leads(cfg, first, trace, View(rest))
      ensures ok ==> id in visible && id in durable && id in journaled
      ensures !ok ==> faults.write(id)
      ensures old(journaled) <= journaled
    {
      trace := sofar;
      if faults.write(id) {
        if * { return false, trace; }
      }
      ghost var before := View(rest);
      visible := visible + {id};
      if faults.write(id) {
        LeadsExtends(cfg, first, sofar, before, Recorded(id, false), View(rest));
        return false, sofar + [Recorded(id, false)];
      }
      durable := durable + {id};
      journaled := journaled + {id};
      LeadsExtends(cfg, first, sofar, before, Recorded(id, true), View(rest));
      return true, sofar + [Recorded(id, true)];
    }

    /** Check, authorize and journal one log; a skipped log is one nobody authorized. */
    method IndexOne(l: PubLog, from: nat, to: nat, t: Truth, faults: Faults,
        ghost cfg: Config, ghost rest: Source, ghost first: Source, ghost sofar: seq<Event>)
      returns (r: Result<Option<Message>>, ghost trace: seq<Event>)
      requires CachesTrue(t) && Leads(cfg, first, sofar, View(rest))
      modifies this`visible, this`durable, this`journaled, this`discoveries, this`memberships
      ensures CachesTrue(t) && old(journaled) <= journaled
      ensures Leads(cfg, first, trace, View(rest))
      ensures r.Ok? ==> Indexed(t, pinned, l, r.value)
      ensures r.Err? ==> Misplaced(l, from, to, pinned) || Hampered(faults, t, pinned, l)
      ensures r.Ok? ==> l.block.Some? && !l.removed && from <= l.block.value <= to
      ensures r.Ok? && pinned.Some? ==> l.outbox == pinned.value
      ensures r.Ok? && r.value.Some? ==> r.value.value.id in journaled
    {
      trace := sofar;
      if l.block.None? || l.removed || !(from <= l.block.value <= to) { return Err, trace; }
      if pinned.Some? {
        if l.outbox != pinned.value { return Err, trace; }
      } else {
        var answer := Authorize(l.block.value, l.outbox, t, faults);
        if answer.Err? { return Err, trace; }
        if !answer.value { return Ok(None), trace; }
      }
      if l.id.None? || l.tx.None? { return Err, trace; }
      var ok;
      ok, trace := Record(l.id.value, faults, cfg, rest, first, sofar);
      if !ok { return Err, trace; }
      return Ok(Some(Message(l.id.value, l.outbox, l.block.value, l.tx.value))), trace;
    }

    /** The vote pool's channel closed, or the watcher was cancelled. */
    method Halted() returns (stop: Stop)
      ensures !stop.Finished?
    {
      if * { return Failed; } else { return Cancelled; }
    }

    /**
     Journal every authorized log of a range, in order. Finishing means exactly the reference index
     was journaled durably; stopping early leaves only part of it.
     */
    method IndexLogs(logs: seq<PubLog>, from: nat, to: nat, t: Truth, faults: Faults,
        ghost cfg: Config, ghost rest: Source)
      returns (stop: Stop, indexed: seq<Message>, ghost trace: seq<Event>)
      modifies this`visible, this`durable, this`journaled, this`discoveries, this`memberships
      ensures indexed <= Index(t, pinned, logs)
      ensures stop.Finished? ==> indexed == Index(t, pinned, logs)
      ensures stop.Finished? ==> forall l :: l in logs ==> Decodable(t, pinned, l) && !l.removed
      ensures !stop.Finished? ==> Stumbles(logs, from, to, faults, t, pinned)
      ensures Leads(cfg, old(View(rest)), trace, View(rest))
      ensures forall m :: m in indexed ==> m.id in journaled
    {
      ghost var first := View(rest);
      discoveries, memberships := map[], map[];
      indexed, trace := [], [];
      stop := Finished;
      var i := 0;
      while i < |logs| && stop.Finished?
        invariant i <= |logs| && indexed == Index(t, pinned, logs[..i]) && CachesTrue(t)
        invariant DecodableUpTo(t, pinned, logs, i)
        invariant forall m :: m in indexed ==> m.id in journaled
        invariant Leads(cfg, first, trace, View(rest))
        invariant !stop.Finished? ==> Stumbles(logs, from, to, faults, t, pinned)
        decreases |logs| - i, stop.Finished?
      {
        var one;
        one, trace := IndexOne(logs[i], from, to, t, faults, cfg, rest, first, trace);
        if one.Err? {
          StumblesAt(logs, i, from, to, faults, t, pinned);
          stop := Failed;
        } else {
          IndexNext(t, pinned, logs, i, one.value);
          if one.value.Some? {
            indexed := indexed + [one.value.value];
            if faults.halt(one.value.value.id) {
              StumblesAt(logs, i, from, to, faults, t, pinned);
              stop := Halted();
            }
          }
          i := i + 1;
        }
      }
      IndexPrefix(t, pinned, logs, i);
      assert stop.Finished? ==> logs[..i] == logs;
    }

    /**
     One poll up to the finalized head: a run of journal writes that ends, only if the poll
     finishes, in the cursor's advance. The cursor moves only past publications it has journaled,
     and everything it indexes is an authorized publication of the range.
     */
    method Poll(p: Provider, confirmed: nat, t: Truth, faults: Faults, ghost cfg: Config, ghost rest: Source)
      returns (stop: Stop, indexed: seq<Message>, ghost trace: seq<Event>)
      requires Honest(p, t, pinned) && confirmed <= U64_MAX && cfg.truth == t && cfg.pinned == pinned
      modifies this
      ensures Leads(cfg, old(View(rest)), trace, View(rest))
      ensures old(lastSeen) <= lastSeen <= Max(old(lastSeen), confirmed)
      ensures lastSeen != old(lastSeen) <==> stop.Finished? && old(lastSeen) < confirmed
      ensures lastSeen != old(lastSeen) ==>
                var limit := Min(confirmed, old(lastSeen) + 2_000);
                p.query(old(lastSeen) + 1, limit).Logs? ==> lastSeen == limit
      ensures lastSeen != old(lastSeen) ==> trace != [] && trace[|trace| - 1] == Advanced(lastSeen)
      ensures forall id :: Published(t, pinned, old(lastSeen), lastSeen, id) ==> Journals(indexed, id)
      ensures !stop.Finished? ==>
                || FetchFails(p, old(lastSeen) + 1, confirmed)
                || exists l :: l in EmittedIn(t, pinned, old(lastSeen) + 1, confirmed) && Hampered(faults, t, pinned, l)
      ensures forall m :: m in indexed ==>
                Publication(t, pinned, old(lastSeen), if stop.Finished? then lastSeen else confirmed, m)
    {
      indexed, trace := [], [];
      if confirmed <= lastSeen { return Finished, indexed, trace; }
      ghost var before := View(rest);
      var from := lastSeen + 1;
      var limit := Min(confirmed, SatAdd64(lastSeen, MAX_BLOCKS_PER_SCAN));
      var logs, to := FetchRange(p, from, limit, pinned, t);
      if logs.Err? { return Failed, indexed, trace; }
      stop, indexed, trace := IndexLogs(logs.value, from, to, t, faults, cfg, rest);
      AllArePublications(p, t, pinned, lastSeen, to, confirmed, logs.value, indexed);
      if !stop.Finished? {
        HamperedInRange(p, t, pinned, lastSeen, to, confirmed, logs.value, faults);
        return;
      }
      forall id | Published(t, pinned, lastSeen, to, id) ensures Journals(indexed, id) {
        var l := PublishedIsEmitted(p, t, pinned, lastSeen, to, id);
        IndexComplete(t, pinned, logs.value, l);
      }
      ghost var mid := View(rest);
      lastSeen, journaled := to, {};
      LeadsExtends(cfg, before, trace, mid, Advanced(to), View(rest));
      trace := trace + [Advanced(to)];
    }
  }

  lemma AllArePublications(p: Provider, t: Truth, pinned: Option<Address>, low: nat, to: nat, confirmed: nat,
      logs: seq<PubLog>, indexed: seq<Message>)
    requires Honest(p, t, pinned) && to <= confirmed && indexed <= Index(t, pinned, logs)
    requires forall l :: l in logs <==> l in EmittedIn(t, pinned, low + 1, to)
    ensures forall m :: m in indexed ==> Publication(t, pinned, low, to, m) && Publication(t, pinned, low, confirmed, m)
  {
    forall m | m in indexed ensures Publication(t, pinned, low, to, m) && Publication(t, pinned, low, confirmed, m) {
      IndexedIsPublication(p, t, pinned, low, to, logs, m);
      PublicationWidens(t, pinned, low, to, confirmed, m);
    }
  }

  lemma PublicationWidens(t: Truth, pinned: Option<Address>, low: nat, mid: nat, high: nat, m: Message)
    requires Publication(t, pinned, low, mid, m) && mid <= high
    ensures Publication(t, pinned, low, high, m)
  {
  }

  /** One of the messages a poll journaled. */
  ghost predicate Journals(indexed: seq<Message>, id: Id) {
    exists m :: m in indexed && m.id == id
  }

  /** A log a complete, honest answer never contains. */
  predicate Misplaced(l: PubLog, from: nat, to: nat, pinned: Option<Address>) {
    l.block.None? || l.removed || l.block.value < from || to < l.block.value || !Wanted(pinned, l)
  }

  /** Authorizing or journaling the log may fail, or the poll is stopped right after it. */
  predicate Hampered(faults: Faults, t: Truth, pinned: Option<Address>, l: PubLog) {
    && l.block.Some?
    && (|| (pinned.None? && faults.read(l.block.value, l.outbox))
        || (&& Authorized(t, pinned, l.block.value, l.outbox)
            && (l.id.None? || l.tx.None? || faults.write(l.id.value) || faults.halt(l.id.value))))
  }

  /** One of the logs is misplaced or hampered. */
  ghost predicate Stumbles(logs: seq<PubLog>, from: nat, to: nat, faults: Faults, t: Truth, pinned: Option<Address>) {
    exists l :: l in logs && (Misplaced(l, from, to, pinned) || Hampered(faults, t, pinned, l))
  }

  lemma StumblesAt(logs: seq<PubLog>, i: nat, from: nat, to: nat, faults: Faults, t: Truth, pinned: Option<Address>)
    requires i < |logs| && (Misplaced(logs[i], from, to, pinned) || Hampered(faults, t, pinned, logs[i]))
    ensures Stumbles(logs, from, to, faults, t, pinned)
  {
    assert logs[i] in logs;
  }

  /** No prefix of the range, down to its first block, can be fetched without a failure. */
  ghost predicate FetchFails(p: Provider, from: nat, limit: nat) {
    || (exists n :: from <= n <= limit && p.query(from, n).Broken?)
    || (p.query(from, from).TooLarge? && !Covered(p, from))
  }

  lemma HamperedInRange(p: Provider, t: Truth, pinned: Option<Address>, low: nat, to: nat, confirmed: nat,
      logs: seq<PubLog>, faults: Faults)
    requires Honest(p, t, pinned) && to <= confirmed
    requires forall l :: l in logs <==> l in EmittedIn(t, pinned, low + 1, to)
    requires Stumbles(logs, low + 1, to, faults, t, pinned)
    ensures exists l :: l in EmittedIn(t, pinned, low + 1, confirmed) && Hampered(faults, t, pinned, l)
  {
    var l :| l in logs && (Misplaced(l, low + 1, to, pinned) || Hampered(faults, t, pinned, l));
    assert l in EmittedIn(t, pinned, low + 1, to);
    assert l in EmittedIn(t, pinned, low + 1, confirmed);
  }

  /** An authorized log has a body that decodes and names its transaction. */
  predicate Decodable(t: Truth, pinned: Option<Address>, l: PubLog) {
    l.block.Some? && Authorized(t, pinned, l.block.value, l.outbox) ==> l.id.Some? && l.tx.Some?
  }

  ghost predicate DecodableUpTo(t: Truth, pinned: Option<Address>, logs: seq<PubLog>, i: nat) {
    i <= |logs| && forall k :: 0 <= k < i ==> Decodable(t, pinned, logs[k]) && !logs[k].removed
  }

  /** What the reference does with one log. */
  ghost predicate Indexed(t: Truth, pinned: Option<Address>, l: PubLog, m: Option<Message>) {
    && l.block.Some?
    && (m.None? ==> !Authorized(t, pinned, l.block.value, l.outbox))
    && (m.Some? ==>
         && l.id.Some? && l.tx.Some? && Authorized(t, pinned, l.block.value, l.outbox)
         && m.value == Message(l.id.value, l.outbox, l.block.value, l.tx.value))
  }

  lemma IndexNext(t: Truth, pinned: Option<Address>, logs: seq<PubLog>, i: nat, m: Option<Message>)
    requires i < |logs| && Indexed(t, pinned, logs[i], m) && !logs[i].removed && DecodableUpTo(t, pinned, logs, i)
    ensures Index(t, pinned, logs[..i + 1]) == Index(t, pinned, logs[..i]) + if m.Some? then [m.value] else []
    ensures DecodableUpTo(t, pinned, logs, i + 1)
  {
    assert logs[..i + 1][..i] == logs[..i];
  }

  lemma PublishedIsEmitted(p: Provider, t: Truth, pinned: Option<Address>, low: nat, high: nat, id: Id)
    returns (l: PubLog)
    requires Honest(p, t, pinned) && Published(t, pinned, low, high, id)
    ensures l in EmittedIn(t, pinned, low + 1, high) && l.block.Some? && l.id == Some(id)
    ensures Authorized(t, pinned, l.block.value, l.outbox)
  {
    var b: nat, x: PubLog :| low < b <= high && x.id == Some(id) && Counts(t, pinned, b, x);
    assert Wanted(pinned, x);
    l := x;
  }

  lemma {:induction false} IndexPrefix(t: Truth, pinned: Option<Address>, logs: seq<PubLog>, i: nat)
    requires i <= |logs|
    ensures Index(t, pinned, logs[..i]) <= Index(t, pinned, logs)
    decreases |logs| - i
  {
    if i == |logs| {
      assert logs[..i] == logs;
    } else {
      IndexPrefix(t, pinned, logs, i + 1);
      assert logs[..i + 1][..i] == logs[..i];
    }
  }
}
