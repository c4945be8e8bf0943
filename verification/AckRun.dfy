/**
 The settlement worker over every run: scans, attempts, checkpoint writes that succeed, fail or are
 not yet safe from a power loss, crashes at any point and restarts with any lookback. The queue and
 the set of finished transactions live in memory only; the checkpoint is all that survives.
 */
module AckRun {
  import opened Basics
  import opened Settlement
  import opened Pending
  import opened AckDiscovery
  import Schedules
  import Resolution

  /** A delivery transaction of the confirmed destination chain with all its delivery events. */
  datatype Delivery = Delivery(block: nat, events: set<DeliveryEvent>)

  datatype Config = Config(
    chain: map<Tx, Delivery>, startBlock: Option<nat>, cap: nat,
    mode: Mode, identity: Resolution.Identity, policy: Schedules.NotReadyPolicy)

  ghost predicate WellFormed(cfg: Config) {
    forall tx :: tx in cfg.chain ==> cfg.chain[tx].events != {}
  }

  /**
   An honest node's answer for a range, in any order: every event of the range's transactions, as far
   as the confirmed head it reported. What it says of later blocks may be incomplete.
   */
  ghost predicate Answers(chain: map<Tx, Delivery>, from: nat, to: nat, confirmed: nat, entries: seq<Entry>) {
    && (forall e :: e in entries ==> e.tx in chain && chain[e.tx].block == e.block)
    && (forall tx :: tx in chain && from <= chain[tx].block <= Min(to, confirmed) ==>
          EventsOf(tx, entries) == chain[tx].events)
  }

  /** The attempt that released a transaction, and the events it was released with. */
  datatype Release = Release(attempt: Attempt, meta: seq<DeliveryEvent>)

  /**
   `floor` is where discovery started. `checkpoint` is the current file and `possible` every version
   of it a power loss could leave.
   */
  datatype Ack = Ack(
    lastSeen: nat, pending: map<Tx, PendingTx>, done: set<Tx>,
    checkpoint: Option<nat>, possible: set<Option<nat>>, floor: nat, finished: map<Tx, Release>)

  /** `found` is the checkpoint a restart reads: the current one, or after a power loss any possible one. */
  datatype Event =
    | Scanned(scan: Scan, confirmed: nat)
    | Persisted(synced: bool)
    | Finished(tx: Tx, attempt: Attempt)
    | Retried(tx: Tx, outcome: Outcome, now: Instant)
    | Restarted(head: nat, lookback: nat, found: Option<nat>, powerLost: bool)

  /** Where a process starts. */
  function StartAt(cfg: Config, head: nat, checkpoint: Option<nat>, lookback: nat): nat {
    if checkpoint.Some? then SatSub(checkpoint.value, lookback)
    else if cfg.startBlock.Some? then SatSub(cfg.startBlock.value, 1)
    else head
  }

  /** A fresh deployment, or one that takes over a checkpoint: nothing is claimed below it. */
  ghost predicate Init(cfg: Config, head: nat, lookback: nat, s: Ack) {
    var start := StartAt(cfg, head, s.checkpoint, lookback);
    s == Ack(start, map[], {}, s.checkpoint, {s.checkpoint},
             if s.checkpoint.Some? then s.checkpoint.value else start, map[])
  }

  ghost predicate Step(cfg: Config, s: Ack, e: Event, t: Ack) {
    match e
    case Scanned(scan, confirmed) =>
      && Scans(s.lastSeen, s.pending, s.done, cfg.cap, confirmed, scan, t.lastSeen, t.pending)
      && Answers(cfg.chain, s.lastSeen + 1, scan.to, confirmed, scan.entries)
      && t == s.(lastSeen := t.lastSeen, pending := t.pending)
    case Persisted(synced) =>
      && t.checkpoint.Some? && IsClamped(s.lastSeen, s.pending, t.checkpoint.value)
      && t == s.(checkpoint := t.checkpoint,
                 possible := if synced then {t.checkpoint} else s.possible + {t.checkpoint})
    case Finished(tx, attempt) =>
      && tx in s.pending && attempt.mode == cfg.mode && attempt.identity == cfg.identity
      && Releases(OutcomeOf(attempt, s.pending[tx].meta))
      && t.done <= s.done + {tx}
      && t == s.(pending := s.pending - {tx}, done := t.done,
                 finished := s.finished[tx := Release(attempt, s.pending[tx].meta)])
    case Retried(tx, outcome, now) =>
      && tx in s.pending && !Releases(outcome)
      && t == s.(pending := s.pending[tx := Retry(s.pending[tx], outcome, cfg.policy, now)])
    case Restarted(head, lookback, found, powerLost) =>
      && (if powerLost then found in s.possible else found == s.checkpoint)
      && t == s.(pending := map[], done := {}, checkpoint := found,
                 possible := if powerLost then {found} else s.possible,
                 lastSeen := StartAt(cfg, head, found, lookback),
                 floor := if found.None? && cfg.startBlock.None? then head else s.floor)
  }

  ghost predicate Run(cfg: Config, states: seq<Ack>, events: seq<Event>) {
    && |states| == |events| + 1
    && (exists head, lookback :: Init(cfg, head, lookback, states[0]))
    && forall i :: 0 <= i < |events| ==> Step(cfg, states[i], events[i], states[i + 1])
  }

  ghost predicate TooLarge(r: Release) {
    OutcomeOf(r.attempt, r.meta).ProofTooLarge?
  }

  /**
   The releasing attempt ran with the configured mode and identity on all of the transaction's
   events, and its finalized reads settled every one of them, unless its proof was over the cap.
   */
  ghost predicate Discharged(cfg: Config, tx: Tx, r: Release) {
    && tx in cfg.chain && (set e | e in r.meta) == cfg.chain[tx].events
    && r.attempt.mode == cfg.mode && r.attempt.identity == cfg.identity
    && (TooLarge(r) || forall e :: e in cfg.chain[tx].events ==> EventShown(r.attempt, OutcomeOf(r.attempt, r.meta), e))
  }

  /** A queued transaction is on the chain, dated correctly, and carries all its events. */
  ghost predicate Genuine(cfg: Config, tx: Tx, p: PendingTx) {
    tx in cfg.chain && p.block == cfg.chain[tx].block > 0 && MetaSet(p) == cfg.chain[tx].events
  }

  ghost predicate AllDischarged(cfg: Config, finished: map<Tx, Release>) {
    forall tx :: tx in finished ==> Discharged(cfg, tx, finished[tx])
  }

  /** Everything above the floor and up to a cursor version is finished. */
  ghost predicate VersionSafe(cfg: Config, s: Ack, c: Option<nat>) {
    c.Some? ==> forall tx :: tx in cfg.chain && s.floor < cfg.chain[tx].block <= c.value ==> tx in s.finished
  }

  ghost predicate Inv(cfg: Config, s: Ack) {
    && AllDischarged(cfg, s.finished)
    && (forall tx :: tx in s.pending ==> Genuine(cfg, tx, s.pending[tx]))
    && (forall tx :: tx in s.done ==> tx in s.finished)
    && (forall tx :: tx in cfg.chain && s.floor < cfg.chain[tx].block <= s.lastSeen ==>
          tx in s.finished || tx in s.pending)
    && (forall c :: c in s.possible ==> VersionSafe(cfg, s, c))
    && s.checkpoint in s.possible && (s.checkpoint.None? ==> s.possible == {None})
    && (cfg.startBlock.Some? && None in s.possible ==> SatSub(cfg.startBlock.value, 1) <= s.floor)
    && |s.pending| <= cfg.cap
  }

  /** A response holds either all of a transaction's events or none of them. */
  lemma AllOrNone(chain: map<Tx, Delivery>, from: nat, to: nat, entries: seq<Entry>, tx: Tx)
    requires Answers(chain, from, to, to, entries) && tx in chain
    requires forall e :: e in entries ==> from <= e.block <= to
    ensures EventsOf(tx, entries) == chain[tx].events || EventsOf(tx, entries) == {}
  {
    if !(from <= chain[tx].block <= to) {
      assert forall e :: e in entries ==> e.tx != tx;
    }
  }

  lemma AdmittedIsGenuine(cfg: Config, pre: map<Tx, PendingTx>, done: set<Tx>, from: nat, scan: Scan,
      post: map<Tx, PendingTx>, tx: Tx)
    requires TxAdmitted(pre, done, scan.entries, post, tx) && tx in post
    requires tx in pre ==> Genuine(cfg, tx, pre[tx])
    requires Answers(cfg.chain, from, scan.to, scan.to, scan.entries) && from > 0
    requires forall e :: e in scan.entries ==> from <= e.block <= scan.to
    ensures Genuine(cfg, tx, post[tx])
  {
    if tx in pre {
      AllOrNone(cfg.chain, from, scan.to, scan.entries, tx);
    } else {
      var e :| e in scan.entries && e.tx == tx && e.block == post[tx].block;
    }
  }

  /** A transaction of the scanned blocks up to the new cursor was done already or is queued. */
  lemma ScanPlaces(cfg: Config, lastSeen: nat, pre: map<Tx, PendingTx>, done: set<Tx>, confirmed: nat, scan: Scan,
      cursor: nat, post: map<Tx, PendingTx>, tx: Tx)
    requires Scans(lastSeen, pre, done, cfg.cap, confirmed, scan, cursor, post)
    requires Answers(cfg.chain, lastSeen + 1, scan.to, confirmed, scan.entries)
    requires tx in cfg.chain && cfg.chain[tx].events != {} && lastSeen < cfg.chain[tx].block <= cursor
    ensures tx in done || tx in post
  {
    if scan.left.Some? {
      var x :| x in scan.entries && x.block == scan.left.value;
    }
    var ev :| ev in cfg.chain[tx].events;
    assert ev in EventsOf(tx, scan.entries);
    var e :| e in scan.entries && e.tx == tx && e.event == ev;
    assert Placed(done, post, scan.left, e);
  }

  /** Everything up to the new cursor is finished or pending: what was left out lies beyond it. */
  lemma ScanCovers(cfg: Config, s: Ack, scan: Scan, confirmed: nat, t: Ack, tx: Tx)
    requires WellFormed(cfg) && Inv(cfg, s) && Step(cfg, s, Scanned(scan, confirmed), t)
    requires tx in cfg.chain && s.floor < cfg.chain[tx].block <= t.lastSeen
    ensures tx in s.finished || tx in t.pending
  {
    if s.lastSeen < cfg.chain[tx].block {
      ScanPlaces(cfg, s.lastSeen, s.pending, s.done, confirmed, scan, t.lastSeen, t.pending, tx);
    } else {
      ScanKeepsQueued(s.lastSeen, s.pending, s.done, cfg.cap, confirmed, scan, t.lastSeen, t.pending, tx);
    }
  }

  /** A scan evicts nothing and never moves the cursor backwards. */
  lemma ScanKeepsQueued(lastSeen: nat, pre: map<Tx, PendingTx>, done: set<Tx>, cap: nat, confirmed: nat, scan: Scan,
      cursor: nat, post: map<Tx, PendingTx>, tx: Tx)
    requires Scans(lastSeen, pre, done, cap, confirmed, scan, cursor, post)
    ensures tx in pre ==> tx in post
    ensures lastSeen <= cursor
  {
    assert TxAdmitted(pre, done, scan.entries, post, tx);
    if scan.left.Some? {
      var x :| x in scan.entries && x.block == scan.left.value;
    }
  }

  lemma FinishDischarges(cfg: Config, s: Ack, tx: Tx, a: Attempt)
    requires Inv(cfg, s) && tx in s.pending && Releases(OutcomeOf(a, s.pending[tx].meta))
    requires a.mode == cfg.mode && a.identity == cfg.identity
    ensures Discharged(cfg, tx, Release(a, s.pending[tx].meta))
  {
    var meta := s.pending[tx].meta;
    assert Genuine(cfg, tx, s.pending[tx]);
    ReleaseIsJustified(a, meta);
    forall e | e in cfg.chain[tx].events && !OutcomeOf(a, meta).ProofTooLarge?
      ensures EventShown(a, OutcomeOf(a, meta), e)
    {
      assert e in MetaSet(s.pending[tx]);
    }
  }

  lemma ScanKeepsInv(cfg: Config, s: Ack, scan: Scan, confirmed: nat, t: Ack)
    requires WellFormed(cfg) && Inv(cfg, s) && Step(cfg, s, Scanned(scan, confirmed), t)
    ensures Inv(cfg, t) && s.lastSeen <= t.lastSeen
  {
    forall tx | tx in t.pending ensures Genuine(cfg, tx, t.pending[tx]) {
      assert TxAdmitted(s.pending, s.done, scan.entries, t.pending, tx);
      AdmittedIsGenuine(cfg, s.pending, s.done, s.lastSeen + 1, scan, t.pending, tx);
    }
    forall tx | tx in cfg.chain && s.floor < cfg.chain[tx].block <= t.lastSeen
      ensures tx in s.finished || tx in t.pending
    {
      ScanCovers(cfg, s, scan, confirmed, t, tx);
    }
    ScanKeepsQueued(s.lastSeen, s.pending, s.done, cfg.cap, confirmed, scan, t.lastSeen, t.pending, 0);
    forall c | c in t.possible ensures VersionSafe(cfg, t, c) { assert VersionSafe(cfg, s, c); }
  }

  lemma PersistKeepsInv(cfg: Config, s: Ack, synced: bool, t: Ack)
    requires Inv(cfg, s) && Step(cfg, s, Persisted(synced), t)
    ensures Inv(cfg, t)
  {
    forall tx | tx in s.pending ensures t.checkpoint.value < cfg.chain[tx].block {
      assert Genuine(cfg, tx, s.pending[tx]);
    }
    assert VersionSafe(cfg, t, t.checkpoint);
    forall c | c in t.possible ensures VersionSafe(cfg, t, c) {
      if c in s.possible { assert VersionSafe(cfg, s, c); }
    }
  }

  lemma DischargeOne(cfg: Config, finished: map<Tx, Release>, tx: Tx, r: Release)
    requires AllDischarged(cfg, finished) && Discharged(cfg, tx, r)
    ensures AllDischarged(cfg, finished[tx := r])
  {
    var m := finished[tx := r];
    forall x | x in m ensures Discharged(cfg, x, m[x]) {
      if x != tx { assert Discharged(cfg, x, finished[x]); }
    }
  }

  lemma RemovalKeepsInv(cfg: Config, s: Ack, tx: Tx, r: Release, t: Ack)
    requires Inv(cfg, s) && tx in s.pending && t.done <= s.done + {tx}
    requires t == s.(pending := s.pending - {tx}, done := t.done, finished := s.finished[tx := r])
    requires AllDischarged(cfg, t.finished)
    ensures Inv(cfg, t)
  {
    forall x | x in t.pending ensures Genuine(cfg, x, t.pending[x]) { assert Genuine(cfg, x, s.pending[x]); }
    forall c | c in t.possible ensures VersionSafe(cfg, t, c) { assert VersionSafe(cfg, s, c); }
    assert |t.pending| <= |s.pending| by { assert t.pending.Keys == s.pending.Keys - {tx}; }
  }

  lemma FinishKeepsInv(cfg: Config, s: Ack, tx: Tx, a: Attempt, t: Ack)
    requires Inv(cfg, s) && Step(cfg, s, Finished(tx, a), t)
    ensures Inv(cfg, t)
  {
    FinishDischarges(cfg, s, tx, a);
    DischargeOne(cfg, s.finished, tx, Release(a, s.pending[tx].meta));
    RemovalKeepsInv(cfg, s, tx, Release(a, s.pending[tx].meta), t);
  }

  lemma RetryKeepsInv(cfg: Config, s: Ack, tx: Tx, o: Outcome, now: Instant, t: Ack)
    requires Inv(cfg, s) && Step(cfg, s, Retried(tx, o, now), t)
    ensures Inv(cfg, t)
  {
    assert |t.pending| == |s.pending| by { assert t.pending.Keys == s.pending.Keys; }
    forall x | x in t.pending ensures Genuine(cfg, x, t.pending[x]) {
      assert Genuine(cfg, x, s.pending[x]);
      assert MetaSet(t.pending[x]) == MetaSet(s.pending[x]);
    }
    forall c | c in t.possible ensures VersionSafe(cfg, t, c) { assert VersionSafe(cfg, s, c); }
  }

  lemma RestartKeepsInv(cfg: Config, s: Ack, e: Event, t: Ack)
    requires Inv(cfg, s) && e.Restarted? && Step(cfg, s, e, t)
    ensures Inv(cfg, t)
  {
    assert VersionSafe(cfg, s, e.found);
    forall c | c in t.possible ensures VersionSafe(cfg, t, c) { assert VersionSafe(cfg, s, c); }
  }

  lemma StepKeepsInv(cfg: Config, s: Ack, e: Event, t: Ack)
    requires WellFormed(cfg) && Inv(cfg, s) && Step(cfg, s, e, t)
    ensures Inv(cfg, t)
  {
    match e
    case Scanned(scan, confirmed) => ScanKeepsInv(cfg, s, scan, confirmed, t);
    case Persisted(synced) => PersistKeepsInv(cfg, s, synced, t);
    case Finished(tx, a) => FinishKeepsInv(cfg, s, tx, a, t);
    case Retried(tx, o, now) => RetryKeepsInv(cfg, s, tx, o, now, t);
    case Restarted(_, _, _, _) => RestartKeepsInv(cfg, s, e, t);
  }

  lemma InitInv(cfg: Config, head: nat, lookback: nat, s: Ack)
    requires Init(cfg, head, lookback, s)
    ensures Inv(cfg, s)
  {
  }

  lemma {:induction false} RunKeepsInv(cfg: Config, states: seq<Ack>, events: seq<Event>, k: nat)
    requires WellFormed(cfg) && Run(cfg, states, events) && k <= |events|
    ensures Inv(cfg, states[k])
  {
    if k > 0 {
      RunKeepsInv(cfg, states, events, k - 1);
      StepKeepsInv(cfg, states[k - 1], events[k - 1], states[k]);
    } else {
      var head, lookback :| Init(cfg, head, lookback, states[0]);
      InitInv(cfg, head, lookback, states[0]);
    }
  }

  /**
   No settlement is ever skipped. At every point of every run, each delivery transaction above the
   floor and at or below the persisted cursor, whichever version a power loss may leave, has been
   released by an attempt whose finalized reads settled all of its events on the chain (or whose
   proof was over the cap), and each one up to the live cursor is finished or still queued with all
   of its events.
   */
  lemma NoSettlementSkipped(cfg: Config, states: seq<Ack>, events: seq<Event>, k: nat, tx: Tx, c: Option<nat>)
    requires WellFormed(cfg) && Run(cfg, states, events) && k <= |events| && tx in cfg.chain
    requires states[k].floor < cfg.chain[tx].block
    ensures var s := states[k];
            && s.checkpoint in s.possible
            && (c in s.possible && c.Some? && cfg.chain[tx].block <= c.value ==>
                  tx in s.finished && Discharged(cfg, tx, s.finished[tx]))
            && (cfg.chain[tx].block <= s.lastSeen ==>
                  || (tx in s.finished && Discharged(cfg, tx, s.finished[tx]))
                  || (tx in s.pending && Genuine(cfg, tx, s.pending[tx])))
  {
    RunKeepsInv(cfg, states, events, k);
    assert c in states[k].possible ==> VersionSafe(cfg, states[k], c);
  }

  /** Every pass a releasing attempt made so far read the source chain honestly, up to `end`. */
  ghost predicate HonestAttempts(s: Ack, w: Finalized, end: nat) {
    forall tx :: tx in s.finished ==>
      var r := s.finished[tx];
      HonestAttempt(r.attempt, OutcomeOf(r.attempt, r.meta), w, end)
  }

  /**
   The configured obligation for one event is met in finalized source state: its own Outbox's record
   needs no acknowledgment, or, in claim mode, its fee is settled or was seen unfunded.
   */
  ghost predicate ObligationMet(cfg: Config, w: Finalized, end: nat, e: DeliveryEvent) {
    && (e.executed ==> PublicationSettled(w, end, cfg.identity, e.id))
    && (!e.executed && cfg.mode.AckAndClaim? ==>
          w.fee(end, e.id).settled || exists t: nat :: t <= end && w.fee(t, e.id).payer == ZERO)
  }

  ghost predicate PublicationSettled(w: Finalized, end: nat, i: Resolution.Identity, id: Resolution.MessageId) {
    exists a :: OutboxSettled(w, end, i, a, id)
  }

  /**
   From the persisted cursor to the chain: in every run, every event of every delivery transaction
   above the floor and at or below the persisted cursor has its obligation met in the source chain's
   finalized state, unless the transaction was released because its proof was over the cap.
   */
  lemma PersistedMeansSettled(
    cfg: Config, states: seq<Ack>, events: seq<Event>, k: nat, c: nat, tx: Tx, e: DeliveryEvent, w: Finalized, end: nat)
    requires WellFormed(cfg) && Run(cfg, states, events) && k <= |events|
    requires Sticky(w) && HonestAttempts(states[k], w, end)
    requires Some(c) in states[k].possible
    requires tx in cfg.chain && e in cfg.chain[tx].events && states[k].floor < cfg.chain[tx].block <= c
    ensures tx in states[k].finished
    ensures TooLarge(states[k].finished[tx]) || ObligationMet(cfg, w, end, e)
  {
    NoSettlementSkipped(cfg, states, events, k, tx, Some(c));
    var r := states[k].finished[tx];
    if !TooLarge(r) {
      ShownHoldsOnChain(r.attempt, OutcomeOf(r.attempt, r.meta), w, end, e);
      assert e.executed ==> PublicationSettled(w, end, cfg.identity, e.id);
    }
  }

  /** What pins the floor: a start block is configured, or every version of the file has a checkpoint. */
  ghost predicate Anchored(cfg: Config, s: Ack) {
    cfg.startBlock.Some? || None !in s.possible
  }

  lemma {:induction false} CheckpointPossible(cfg: Config, states: seq<Ack>, events: seq<Event>, k: nat)
    requires Run(cfg, states, events) && k <= |events|
    ensures states[k].checkpoint in states[k].possible
  {
    if k > 0 {
      CheckpointPossible(cfg, states, events, k - 1);
      assert Step(cfg, states[k - 1], events[k - 1], states[k]);
    }
  }

  /** A checkpoint write that is safe from a power loss anchors the worker for good. */
  lemma SyncedCheckpointAnchors(cfg: Config, states: seq<Ack>, events: seq<Event>, i: nat, k: nat)
    requires Run(cfg, states, events) && i < k <= |events| && events[i] == Persisted(true)
    ensures Anchored(cfg, states[k]) && states[k].floor == states[i].floor
  {
    assert Step(cfg, states[i], events[i], states[i + 1]);
    FloorFixedOnceAnchored(cfg, states, events, i + 1, k);
  }

  /** Once anchored, the floor never moves again, whatever crashes. */
  lemma {:induction false} FloorFixedOnceAnchored(cfg: Config, states: seq<Ack>, events: seq<Event>, i: nat, k: nat)
    requires Run(cfg, states, events) && i <= k <= |events| && Anchored(cfg, states[i])
    ensures states[k].floor == states[i].floor && Anchored(cfg, states[k])
  {
    if k > i {
      FloorFixedOnceAnchored(cfg, states, events, i, k - 1);
      CheckpointPossible(cfg, states, events, k - 1);
      assert Step(cfg, states[k - 1], events[k - 1], states[k]);
    }
  }

  /** The obligation for `tx` survives: it is finished, or a scan will still come to it. */
  ghost predicate Kept(cfg: Config, s: Ack, tx: Tx)
    requires tx in cfg.chain
  {
    tx in s.finished || tx in s.pending || s.lastSeen < cfg.chain[tx].block
  }

  /**
   Exactly when a restart keeps an unfinished obligation above the floor: it finds a checkpoint, a
   start block is configured, or the new head is still below it. Otherwise the worker restarts at
   the head and abandons it.
   */
  lemma RestartKeepsIff(cfg: Config, s: Ack, e: Event, t: Ack, tx: Tx)
    requires Inv(cfg, s) && e.Restarted? && Step(cfg, s, e, t)
    requires tx in cfg.chain && tx !in s.finished && s.floor < cfg.chain[tx].block
    ensures Kept(cfg, t, tx) <==> e.found.Some? || cfg.startBlock.Some? || e.head < cfg.chain[tx].block
  {
    assert VersionSafe(cfg, s, e.found);
  }

  /**
   Where a restart resumes: exactly `lookback` blocks before the checkpoint it finds (from genesis, if
   that is nearer), else so that the configured start block is scanned first, else at the head.
   */
  lemma RestartResumesAt(cfg: Config, s: Ack, e: Event, t: Ack)
    requires e.Restarted? && Step(cfg, s, e, t)
    ensures e.found.Some? ==>
              t.lastSeen <= e.found.value &&
                (t.lastSeen + e.lookback == e.found.value || (t.lastSeen == 0 && e.found.value < e.lookback))
    ensures e.found.None? && cfg.startBlock.Some? ==>
              t.lastSeen + 1 == cfg.startBlock.value || (cfg.startBlock.value == 0 && t.lastSeen == 0)
    ensures e.found.None? && cfg.startBlock.None? ==> t.lastSeen == e.head == t.floor
    ensures t.pending == map[] && t.finished == s.finished && t.checkpoint == e.found
  {
  }

  /** A concrete run: a queued delivery is abandoned by a restart at the head. */
  lemma RestartAtHeadExample(identity: Resolution.Identity, policy: Schedules.NotReadyPolicy)
    ensures var events := {DeliveryEvent(1, true)};
            var cfg := Config(map[7 := Delivery(11, events)], None, 8, AckOnly, identity, policy);
            var p := PendingTx(0, 11, 0, 0, [DeliveryEvent(1, true)]);
            var s0 := Ack(10, map[], {}, None, {None}, 10, map[]);
            var s1 := s0.(lastSeen := 12, pending := map[7 := p]);
            var s2 := s0.(lastSeen := 20, floor := 20);
            && Init(cfg, 10, 0, s0)
            && Step(cfg, s0, Scanned(Scan(12, [Entry(7, 11, DeliveryEvent(1, true))], None), 12), s1)
            && Step(cfg, s1, Restarted(20, 5, None, false), s2)
            && Kept(cfg, s1, 7) && !Kept(cfg, s2, 7)
  {
    var cfg := Config(map[7 := Delivery(11, {DeliveryEvent(1, true)})], None, 8, AckOnly, identity, policy);
    var p := PendingTx(0, 11, 0, 0, [DeliveryEvent(1, true)]);
    var e := Entry(7, 11, DeliveryEvent(1, true));
    AdmitNothing(map[], {}, 8);
    assert Admission(map[], {}, 8, [], map[], None);
    TrackNew(map[], {}, 8, [], map[], None, e, p);
    assert [] + [e] == [e];
    assert EventsOf(7, [e]) == {e.event} by {
      assert e in [e];
    }
    assert Answers(cfg.chain, 11, 12, 12, [e]);
  }

  /** While a process lives, its cursor never moves backwards and no queued obligation is dropped unreleased. */
  lemma LiveProgress(cfg: Config, states: seq<Ack>, events: seq<Event>, k: nat, tx: Tx)
    requires Run(cfg, states, events) && k < |events| && !events[k].Restarted?
    ensures states[k].lastSeen <= states[k + 1].lastSeen
    ensures tx in states[k].pending && tx !in states[k + 1].pending ==>
              && events[k].Finished? && events[k].tx == tx
              && Releases(OutcomeOf(events[k].attempt, states[k].pending[tx].meta))
  {
    StepProgress(cfg, states[k], events[k], states[k + 1], tx);
  }

  lemma StepProgress(cfg: Config, s: Ack, e: Event, t: Ack, tx: Tx)
    requires Step(cfg, s, e, t) && !e.Restarted?
    ensures s.lastSeen <= t.lastSeen
    ensures tx in s.pending && tx !in t.pending ==> e.Finished? && e.tx == tx
  {
    if e.Scanned? {
      ScanKeepsQueued(s.lastSeen, s.pending, s.done, cfg.cap, e.confirmed, e.scan, t.lastSeen, t.pending, tx);
    }
  }
}
