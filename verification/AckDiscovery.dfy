/** Discovery of delivery transactions on the destination Inbox, and the cursor it moves. */
module AckDiscovery {
  import opened Basics
  import opened Settlement
  import opened Pending
  import Schedules

  const MAX_BLOCKS_PER_SCAN: nat := 2_000

  datatype Decoded = Event(event: DeliveryEvent) | OtherTopic | Undecodable

  /** `ours`: emitted by the route's Inbox. */
  datatype Log = Log(ours: bool, removed: bool, tx: Option<Tx>, block: Option<nat>, decoded: Decoded)

  /** One recognized delivery event. */
  datatype Entry = Entry(tx: Tx, block: nat, event: DeliveryEvent)

  predicate LogOk(l: Log, from: nat, to: nat) {
    && l.ours && !l.removed && l.tx.Some? && l.block.Some?
    && from <= l.block.value <= to && !l.decoded.Undecodable?
  }

  ghost predicate Tells(logs: seq<Log>, e: Entry) {
    exists l :: l in logs && l.tx == Some(e.tx) && l.block == Some(e.block) && l.decoded == Event(e.event)
  }

  /** Decode the whole response before admitting anything; one bad log refuses all of it. */
  method DecodeLogs(logs: seq<Log>, from: nat, to: nat) returns (r: Result<seq<Entry>>)
    ensures r.Ok? <==> forall l :: l in logs ==>
              l.ours && !l.removed && l.tx.Some? && l.block.Some? && from <= l.block.value <= to &&
                l.decoded != Undecodable
    ensures r.Ok? ==> forall e :: e in r.value <==> Tells(logs, e)
    ensures r.Ok? ==> forall e :: e in r.value ==> from <= e.block <= to
  {
    var entries: seq<Entry> := [];
    for i := 0 to |logs|
      invariant forall l :: l in logs[..i] ==> LogOk(l, from, to)
      invariant forall e :: e in entries <==> Tells(logs[..i], e)
    {
      ghost var was := entries;
      assert logs[..i + 1] == logs[..i] + [logs[i]];
      if !LogOk(logs[i], from, to) { return Err; }
      if logs[i].decoded.Event? {
        entries := entries + [Entry(logs[i].tx.value, logs[i].block.value, logs[i].decoded.event)];
      }
      forall e ensures e in entries <==> Tells(logs[..i + 1], e) {
        assert Tells(logs[..i + 1], e) <==>
          Tells(logs[..i], e) ||
            (logs[i].tx == Some(e.tx) && logs[i].block == Some(e.block) && logs[i].decoded == Event(e.event));
      }
    }
    assert logs[..|logs|] == logs;
    return Ok(entries);
  }

  ghost function EventsOf(tx: Tx, entries: seq<Entry>): set<DeliveryEvent> {
    set e | e in entries && e.tx == tx :: e.event
  }

  /** A tracked transaction after admission: only its events may have grown. */
  ghost predicate Grown(p: PendingTx, q: PendingTx, more: set<DeliveryEvent>) {
    q == p.(meta := q.meta) && MetaSet(q) == MetaSet(p) + more
  }

  ghost predicate Dated(entries: seq<Entry>, tx: Tx, block: nat) {
    exists e :: e in entries && e.tx == tx && e.block == block
  }

  /** A tracked transaction gains its events; a new one carries exactly its events. */
  ghost predicate TxAdmitted(pre: map<Tx, PendingTx>, done: set<Tx>, entries: seq<Entry>, post: map<Tx, PendingTx>,
      tx: Tx) {
    if tx in pre then tx in post && Grown(pre[tx], post[tx], if tx in done then {} else EventsOf(tx, entries))
    else tx in post ==> tx !in done && MetaSet(post[tx]) == EventsOf(tx, entries) && Dated(entries, tx, post[tx].block)
  }

  ghost predicate Placed(done: set<Tx>, post: map<Tx, PendingTx>, left: Option<nat>, e: Entry) {
    e.tx in done || e.tx in post || (left.Some? && left.value <= e.block)
  }

  /** Something is left out only by a full queue, and `left` is the block of one such event. */
  ghost predicate LeftOut(done: set<Tx>, cap: nat, entries: seq<Entry>, post: map<Tx, PendingTx>, left: Option<nat>) {
    left.Some? ==> |post| >= cap && exists e :: e in entries && e.block == left.value && e.tx !in done && e.tx !in post
  }

  /**
   Admission of a response, in any log order: nothing tracked is evicted, every transaction admitted
   carries exactly its events, and whatever was left out lies at or above the first block left out.
   */
  ghost predicate Admission(pre: map<Tx, PendingTx>, done: set<Tx>, cap: nat, entries: seq<Entry>,
      post: map<Tx, PendingTx>, left: Option<nat>) {
    && (forall tx :: TxAdmitted(pre, done, entries, post, tx))
    && (forall e :: e in entries ==> Placed(done, post, left, e))
    && LeftOut(done, cap, entries, post, left)
    && (|pre| <= cap ==> |post| <= cap)
  }

  lemma EventsSnoc(tx: Tx, entries: seq<Entry>, e: Entry)
    ensures EventsOf(tx, entries + [e]) == EventsOf(tx, entries) + if e.tx == tx then {e.event} else {}
  {
    var all := entries + [e];
    assert forall x :: x in all <==> x in entries || x == e;
    var more := EventsOf(tx, entries) + if e.tx == tx then {e.event} else {};
    forall ev ensures ev in EventsOf(tx, all) <==> ev in more {
      if ev in EventsOf(tx, all) {
        var x :| x in all && x.tx == tx && x.event == ev;
      }
      if ev == e.event && e.tx == tx { assert e in all; }
    }
  }

  lemma DatedSnoc(entries: seq<Entry>, e: Entry, tx: Tx, block: nat)
    requires Dated(entries, tx, block)
    ensures Dated(entries + [e], tx, block)
  {
    var x :| x in entries && x.tx == tx && x.block == block;
    assert x in entries + [e];
  }

  /** A transaction whose queue entry and events an admitted log does not touch. */
  lemma Untouched(pre: map<Tx, PendingTx>, done: set<Tx>, entries: seq<Entry>, post: map<Tx, PendingTx>, e: Entry,
      next: map<Tx, PendingTx>, tx: Tx)
    requires TxAdmitted(pre, done, entries, post, tx)
    requires (tx in next <==> tx in post) && (tx in post ==> next[tx] == post[tx])
    requires tx != e.tx || tx in done || tx !in post
    ensures TxAdmitted(pre, done, entries + [e], next, tx)
  {
    if tx in post && tx !in done { EventsSnoc(tx, entries, e); }
    if tx in post && tx !in pre { DatedSnoc(entries, e, tx, post[tx].block); }
  }

  lemma StillLeftOut(done: set<Tx>, cap: nat, entries: seq<Entry>, post: map<Tx, PendingTx>, left: Option<nat>,
      e: Entry, next: map<Tx, PendingTx>)
    requires LeftOut(done, cap, entries, post, left)
    requires left.Some? ==> next.Keys == post.Keys
    ensures LeftOut(done, cap, entries + [e], next, left)
  {
    if left.Some? {
      var x :| x in entries && x.block == left.value && x.tx !in done && x.tx !in post;
      assert x in entries + [e];
      assert |next| == |next.Keys| == |post.Keys| == |post|;
    }
  }

  /** The event's transaction is already finished: nothing changes. */
  lemma SkipDone(pre: map<Tx, PendingTx>, done: set<Tx>, cap: nat, entries: seq<Entry>, post: map<Tx, PendingTx>,
      left: Option<nat>, e: Entry)
    requires Admission(pre, done, cap, entries, post, left) && e.tx in done
    ensures Admission(pre, done, cap, entries + [e], post, left)
  {
    forall tx ensures TxAdmitted(pre, done, entries + [e], post, tx) {
      assert TxAdmitted(pre, done, entries, post, tx);
      Untouched(pre, done, entries, post, e, post, tx);
    }
    StillLeftOut(done, cap, entries, post, left, e, post);
  }

  /** The transaction is tracked: its event is noted once. */
  lemma NoteTracked(pre: map<Tx, PendingTx>, done: set<Tx>, cap: nat, entries: seq<Entry>, post: map<Tx, PendingTx>,
      left: Option<nat>, e: Entry, next: map<Tx, PendingTx>)
    requires Admission(pre, done, cap, entries, post, left) && e.tx !in done && e.tx in post
    requires next == if e.event in post[e.tx].meta then post
                     else post[e.tx := post[e.tx].(meta := post[e.tx].meta + [e.event])]
    ensures Admission(pre, done, cap, entries + [e], next, left)
  {
    assert next.Keys == post.Keys;
    assert |next| == |next.Keys| == |post.Keys| == |post|;
    forall tx ensures TxAdmitted(pre, done, entries + [e], next, tx) {
      assert TxAdmitted(pre, done, entries, post, tx);
      if tx == e.tx {
        assert MetaSet(next[tx]) == MetaSet(post[tx]) + {e.event};
        EventsSnoc(tx, entries, e);
        if tx !in pre { DatedSnoc(entries, e, tx, post[tx].block); }
      } else {
        Untouched(pre, done, entries, post, e, next, tx);
      }
    }
    StillLeftOut(done, cap, entries, post, left, e, next);
  }

  /** The queue is full: the event's block bounds the cursor. */
  lemma LeaveOut(pre: map<Tx, PendingTx>, done: set<Tx>, cap: nat, entries: seq<Entry>, post: map<Tx, PendingTx>,
      left: Option<nat>, e: Entry)
    requires Admission(pre, done, cap, entries, post, left) && e.tx !in done && e.tx !in post && |post| >= cap
    ensures Admission(pre, done, cap, entries + [e], post,
                      Some(if left.Some? then Min(left.value, e.block) else e.block))
  {
    var lower := Some(if left.Some? then Min(left.value, e.block) else e.block);
    forall tx ensures TxAdmitted(pre, done, entries + [e], post, tx) {
      assert TxAdmitted(pre, done, entries, post, tx);
      Untouched(pre, done, entries, post, e, post, tx);
    }
    forall x | x in entries + [e] ensures Placed(done, post, lower, x) {
      if x in entries { assert Placed(done, post, left, x); }
    }
    assert e in entries + [e];
    StillLeftOut(done, cap, entries, post, left, e, post);
  }

  lemma FirstEvent(pre: map<Tx, PendingTx>, done: set<Tx>, entries: seq<Entry>, next: map<Tx, PendingTx>, e: Entry,
      p: PendingTx)
    requires e.tx !in pre && e.tx !in done && e.tx in next && next[e.tx] == p
    requires p.meta == [e.event] && p.block == e.block
    requires forall x :: x in entries ==> x.tx != e.tx
    ensures TxAdmitted(pre, done, entries + [e], next, e.tx)
  {
    assert EventsOf(e.tx, entries) == {};
    EventsSnoc(e.tx, entries, e);
    assert MetaSet(p) == {e.event};
    assert e in entries + [e];
  }

  /** There is room: the transaction is tracked, and no earlier event of it was left out. */
  lemma TrackNew(pre: map<Tx, PendingTx>, done: set<Tx>, cap: nat, entries: seq<Entry>, post: map<Tx, PendingTx>,
      left: Option<nat>, e: Entry, p: PendingTx)
    requires Admission(pre, done, cap, entries, post, left) && e.tx !in done && e.tx !in post && |post| < cap
    requires p.meta == [e.event] && p.block == e.block
    ensures Admission(pre, done, cap, entries + [e], post[e.tx := p], left)
  {
    var next := post[e.tx := p];
    assert |next| == |post| + 1 by { assert next.Keys == post.Keys + {e.tx}; }
    assert left.None?;
    assert TxAdmitted(pre, done, entries, post, e.tx);
    forall x | x in entries ensures x.tx != e.tx { assert Placed(done, post, left, x); }
    forall tx ensures TxAdmitted(pre, done, entries + [e], next, tx) {
      if tx == e.tx {
        FirstEvent(pre, done, entries, next, e, p);
      } else {
        assert TxAdmitted(pre, done, entries, post, tx);
        Untouched(pre, done, entries, post, e, next, tx);
      }
    }
    forall x | x in entries + [e] ensures Placed(done, next, left, x) {
      if x in entries { assert Placed(done, post, left, x); }
    }
  }

  lemma AdmitNothing(pre: map<Tx, PendingTx>, done: set<Tx>, cap: nat)
    ensures Admission(pre, done, cap, [], pre, None)
  {
    forall tx ensures TxAdmitted(pre, done, [], pre, tx) {
      if tx in pre { assert MetaSet(pre[tx]) == MetaSet(pre[tx]) + {}; }
    }
  }

  class AckWorker {
    const pending: PendingTxs
    const done: BoundedSeen
    var lastSeen: nat

    ghost predicate Valid()
      reads this, pending, done
    {
      done.Valid() && |pending.seen| <= pending.cap
    }

    constructor (pendingCap: nat, doneCap: nat, lastSeen: nat)
      ensures Valid() && fresh(pending) && fresh(done) && pending.seen == map[] && done.members == {}
      ensures pending.cap == pendingCap && this.lastSeen == lastSeen
    {
      pending := new PendingTxs(pendingCap);
      done := new BoundedSeen(doneCap);
      this.lastSeen := lastSeen;
      new;
      assert forall tx :: tx !in done.members;
    }

    /** Queue every event's transaction, in response order, without ever evicting. */
    method Admit(entries: seq<Entry>, now: Instant) returns (left: Option<nat>)
      requires Valid()
      modifies pending
      ensures Valid()
      ensures Admission(old(pending.seen), done.members, pending.cap, entries, pending.seen, left)
    {
      left := None;
      ghost var pre := pending.seen;
      AdmitNothing(pre, done.members, pending.cap);
      for i := 0 to |entries|
        invariant Valid() && done.members == old(done.members)
        invariant Admission(pre, done.members, pending.cap, entries[..i], pending.seen, left)
      {
        var e := entries[i];
        ghost var was := pending.seen;
        assert entries[..i + 1] == entries[..i] + [e];
        if e.tx in done.members {
          SkipDone(pre, done.members, pending.cap, entries[..i], was, left, e);
        } else if e.tx in pending.seen {
          pending.NoteMeta(e.tx, e.event);
          NoteTracked(pre, done.members, pending.cap, entries[..i], was, left, e, pending.seen);
        } else if |pending.seen| >= pending.cap {
          LeaveOut(pre, done.members, pending.cap, entries[..i], was, left, e);
          left := Some(if left.Some? then Min(left.value, e.block) else e.block);
        } else {
          var evicted := pending.Insert(e.tx, now, e.block, [e.event]);
          TrackNew(pre, done.members, pending.cap, entries[..i], was, left, e, pending.seen[e.tx]);
        }
      }
      assert entries[..|entries|] == entries;
    }

    /**
     One discovery tick. A failed read or a bad log changes nothing, and so does a head that is not
     ahead; every other response is admitted and the cursor moves forward, staying before the first
     block left out.
     */
    method Discover(tip: Result<nat>, depth: nat, query: (nat, nat) -> Result<seq<Log>>, now: Instant)
      returns (ok: bool, ghost scan: Option<Scan>)
      requires Valid() && lastSeen <= U64_MAX && (tip.Ok? ==> tip.value <= U64_MAX)
      modifies this, pending
      ensures Valid() && old(lastSeen) <= lastSeen
      ensures tip.Err? ==> !ok
      ensures tip.Ok? ==>
                var from, confirmed := old(lastSeen) + 1, SatSub(tip.value, depth);
                var to := if confirmed <= old(lastSeen) + MAX_BLOCKS_PER_SCAN then confirmed
                          else old(lastSeen) + MAX_BLOCKS_PER_SCAN;
                && (ok <==> confirmed < from || Usable(query(from, to), from, to))
                && (scan.Some? <==> ok && from <= confirmed)
                && (scan.Some? ==>
                      && scan.value.to == to &&
                        (forall e :: e in scan.value.entries <==> Tells(query(from, to).value, e))
                      && Scans(old(lastSeen), old(pending.seen), done.members, pending.cap, confirmed, scan.value,
                               lastSeen, pending.seen))
                && lastSeen <= Max(old(lastSeen), confirmed)
      ensures scan.None? ==> lastSeen == old(lastSeen) && pending.seen == old(pending.seen)
      ensures scan.Some? ==> ok
    {
      scan := None;
      if tip.Err? { return false, scan; }
      var confirmed := SatSub(tip.value, depth);
      if confirmed <= lastSeen { return true, scan; }
      var from := lastSeen + 1;
      var to := ScanEnd(lastSeen, confirmed);
      var logs := query(from, to);
      if logs.Err? { return false, scan; }
      var entries := DecodeLogs(logs.value, from, to);
      if entries.Err? { return false, scan; }
      var left := Admit(entries.value, now);
      lastSeen := if left.Some? then SatSub(left.value, 1) else to;
      return true, Some(Scan(to, entries.value, left));
    }

    /** The cursor to persist: never past a transaction still pending. */
    method PersistedCursor() returns (block: nat)
      ensures IsClamped(lastSeen, pending.seen, block)
    {
      var oldest := pending.OldestPendingBlock();
      block := if oldest.Some? then Min(lastSeen, SatSub(oldest.value, 1)) else lastSeen;
      if oldest.None? { assert forall tx :: tx !in pending.seen; }
    }

    /** Apply an attempt's outcome: only a releasing one removes the transaction. */
    method Settle(tx: Tx, o: Outcome, policy: Schedules.NotReadyPolicy, now: Instant)
      requires Valid() && tx in pending.seen
      modifies pending, done
      ensures Valid()
      ensures if o == Acknowledged || o == NothingToSettle || o == ProofTooLarge
              then pending.seen == old(pending.seen) - {tx} && tx !in pending.seen
              else pending.seen == old(pending.seen)[tx := Retry(old(pending.seen)[tx], o, policy, now)]
      ensures !Releases(o) ==> RetriesAsPromised(old(pending.seen)[tx], o, policy, now, pending.seen[tx])
      ensures if Releases(o) then done.members <= old(done.members) + {tx} && (done.cap > 0 ==> tx in done.members)
              else done.members == old(done.members)
    {
      var p := pending.seen[tx];
      match o
      case NotReady =>
        var age := SatSub(now, p.firstSeen);
        if age >= policy.pollWindow { policy.DelaysMonotone(age, age); }
        pending.Defer(tx, now + policy.NextDelay(age));
      case Rejected =>
        pending.Defer(tx, now + Schedules.TRANSIENT_BACKOFF_MAX);
      case Failure =>
        var attempts := pending.RecordTransientFailure(tx, now);
      case _ =>
        ghost var was := pending.seen;
        pending.Remove(tx);
        assert |pending.seen| <= |was| by { assert pending.seen.Keys == was.Keys - {tx}; }
        done.Insert(tx);
    }
  }

  /** The end of the next bounded range. */
  function ScanEnd(lastSeen: nat, confirmed: nat): nat {
    Min(confirmed, SatAdd64(lastSeen, MAX_BLOCKS_PER_SCAN))
  }

  /** The node's answer for the next range is there and free of bad logs. */
  ghost predicate Usable(answer: Result<seq<Log>>, from: nat, to: nat) {
    answer.Ok? && forall l :: l in answer.value ==>
      l.ours && !l.removed && l.tx.Some? && l.block.Some? && from <= l.block.value <= to && l.decoded != Undecodable
  }

  /**
   A retained transaction: not ready follows the polling policy, a rejection waits the capped
   maximum, and a failure climbs the doubling schedule.
   */
  function Retry(p: PendingTx, o: Outcome, policy: Schedules.NotReadyPolicy, now: Instant): PendingTx {
    match o
    case NotReady => p.(nextAttemptAt := now + policy.NextDelay(SatSub(now, p.firstSeen)))
    case Rejected => p.(nextAttemptAt := now + Schedules.TRANSIENT_BACKOFF_MAX)
    case _ =>
      p.(transientAttempts := p.transientAttempts + 1,
         nextAttemptAt := now + Schedules.Doubling(p.transientAttempts))
  }

  /**
   The waits promised for each outcome that keeps the transaction, in nanoseconds: the polling
   interval while the window lasts and 30 s to 10 min afterwards; 10 min for a rejection; and the
   doubling schedule, one step per failure, otherwise. Nothing else about it changes.
   */
  ghost predicate RetriesAsPromised(p: PendingTx, o: Outcome, policy: Schedules.NotReadyPolicy, now: Instant,
      q: PendingTx) {
    var age, wait := SatSub(now, p.firstSeen), q.nextAttemptAt - now;
    && q == p.(nextAttemptAt := q.nextAttemptAt, transientAttempts := q.transientAttempts)
    && q.transientAttempts == p.transientAttempts + (if o.Failure? then 1 else 0)
    && (o.NotReady? && age < policy.pollWindow ==> wait == policy.pollInterval)
    && (o.NotReady? && age >= policy.pollWindow ==> 30_000_000_000 <= wait <= 600_000_000_000)
    && (o.Rejected? ==> wait == 600_000_000_000)
    && (o.Failure? ==> wait == Min(30_000_000_000 * Schedules.Pow2(p.transientAttempts), 600_000_000_000))
  }

  datatype Scan = Scan(to: nat, entries: seq<Entry>, left: Option<nat>)

  /**
   A successful scan of blocks up to the confirmed head: the response is admitted and the cursor
   stops before what was left out.
   */
  ghost predicate Scans(lastSeen: nat, pre: map<Tx, PendingTx>, done: set<Tx>, cap: nat, confirmed: nat, scan: Scan,
      cursor: nat, post: map<Tx, PendingTx>) {
    && lastSeen < scan.to <= confirmed
    && (forall e :: e in scan.entries ==> lastSeen < e.block <= scan.to)
    && Admission(pre, done, cap, scan.entries, post, scan.left)
    && cursor == if scan.left.Some? then SatSub(scan.left.value, 1) else scan.to
  }

  /** At or before the cursor, strictly before every pending block (which are never zero). */
  ghost predicate IsClamped(lastSeen: nat, pending: map<Tx, PendingTx>, block: nat) {
    && block <= lastSeen
    && (forall tx :: tx in pending && pending[tx].block > 0 ==> block < pending[tx].block)
    && (block == lastSeen || exists tx :: tx in pending && block == SatSub(pending[tx].block, 1))
  }
}
