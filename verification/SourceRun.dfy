/**
 The source scan over every run: polls that finish or stop part-way, concurrent completion of work,
 checkpoint writes that fail or are not yet safe from a power loss, process crashes, power losses
 and restarts with any lookback.
 */
module SourceRun {
  import opened Basics
  import opened SourceChain
  import Checkpoint

  /** A persisted source cursor; `durableWork` marks one backed by the journal. */
  datatype Cursor = Cursor(block: nat, durableWork: bool)

  datatype Config = Config(truth: Truth, pinned: Option<Address>, startBlock: Option<nat>)

  /** Where a scan without a usable cursor begins: just before the start block, or genesis. */
  function Floor(cfg: Config): nat {
    SatSub(if cfg.startBlock.Some? then cfg.startBlock.value else 1, 1)
  }

  function ResumeCursor(checkpoint: Option<nat>, durableWork: bool, startBlock: Option<nat>, lookback: nat): nat {
    if checkpoint.Some? && durableWork then SatSub(checkpoint.value, lookback)
    else SatSub(if startBlock.Some? then startBlock.value else 1, 1)
  }

  /**
   `visible`/`durable`: journal records readers see, and those safe from a power loss. `checkpoint`
   is the current file, `possible` every version a power loss could leave. `live` is the cursor of
   the running process, `journaled` what its current poll has recorded successfully.
   */
  datatype Source = Source(
    visible: set<Id>, durable: set<Id>, completed: set<Id>,
    checkpoint: Option<Cursor>, possible: set<Option<Cursor>>,
    live: Option<nat>, journaled: set<Id>)

  datatype Event =
    | Recorded(id: Id, synced: bool)
    | Advanced(to: nat)
    | Persisted(synced: bool)
    | Completed(id: Id, removed: bool, synced: bool)
    | Crashed
    | PowerLost
    | Started(lookback: nat)

  /** The publication's obligation is met: finished, or safely in the journal. */
  ghost predicate Safe(s: Source, id: Id) {
    id in s.completed || (id in s.visible && id in s.durable)
  }

  ghost predicate Step(cfg: Config, s: Source, e: Event, t: Source) {
    match e
    case Recorded(id, synced) =>
      // An unsynced record is one whose write was reported as failed.
      t == s.(visible := s.visible + {id}, durable := if synced then s.durable + {id} else s.durable,
              journaled := if synced then s.journaled + {id} else s.journaled)
    case Advanced(to) =>
      // The end of a finished poll; `SourceWatcher.Poll` is proved to be a run that ends so.
      && s.live.Some? && s.live.value <= to
      && (forall id :: Published(cfg.truth, cfg.pinned, s.live.value, to, id) ==> id in s.journaled)
      && t == s.(live := Some(to), journaled := {})
    case Persisted(synced) =>
      && s.live.Some?
      && var c := Some(Cursor(s.live.value, true));
         t == s.(checkpoint := c, possible := if synced then {c} else s.possible + {c})
    case Completed(id, removed, synced) =>
      t == s.(completed := s.completed + {id},
              visible := if removed then s.visible - {id} else s.visible,
              durable := if removed && synced then s.durable - {id} else s.durable)
    case Crashed => t == s.(live := None, journaled := {})
    case PowerLost =>
      && s.visible * s.durable <= t.visible <= s.visible + s.durable
      && t.durable == t.visible
      && t.checkpoint in s.possible
      && t == s.(visible := t.visible, durable := t.durable, checkpoint := t.checkpoint, possible := {t.checkpoint},
                 live := None, journaled := {})
    case Started(lookback) =>
      var c := s.checkpoint;
      && s.live.None? &&
      var block, marked := if c.Some? then Some(c.value.block) else None, c.Some? && c.value.durableWork;
      && t == s.(live := Some(ResumeCursor(block, marked, cfg.startBlock, lookback)))
  }

  /** A run of steps from `s` to `t`. */
  ghost predicate Leads(cfg: Config, s: Source, events: seq<Event>, t: Source) {
    if events == [] then s == t
    else
      var n := |events| - 1;
      exists m :: Leads(cfg, s, events[..n], m) && Step(cfg, m, events[n], t)
  }

  lemma LeadsExtends(cfg: Config, s: Source, events: seq<Event>, m: Source, e: Event, t: Source)
    requires Leads(cfg, s, events, m) && Step(cfg, m, e, t)
    ensures Leads(cfg, s, events + [e], t)
  {
    assert (events + [e])[..|events|] == events;
  }

  /** A fresh deployment, or one upgraded from cursors that carry no marker. */
  ghost predicate Init(s: Source) {
    && s.live.None? && s.journaled == {} && s.possible == {s.checkpoint}
    && (s.checkpoint.Some? ==> !s.checkpoint.value.durableWork)
  }

  ghost predicate Run(cfg: Config, states: seq<Source>, events: seq<Event>) {
    && |states| == |events| + 1
    && Init(states[0])
    && forall i :: 0 <= i < |events| ==> Step(cfg, states[i], events[i], states[i + 1])
  }

  /** Every authorized publication above the floor and up to `block` is safe. */
  ghost predicate SafeUpTo(cfg: Config, s: Source, block: nat) {
    forall id :: Published(cfg.truth, cfg.pinned, Floor(cfg), block, id) ==> Safe(s, id)
  }

  ghost predicate CursorSafe(cfg: Config, s: Source, c: Option<Cursor>) {
    c.Some? && c.value.durableWork ==> SafeUpTo(cfg, s, c.value.block)
  }

  ghost predicate Inv(cfg: Config, s: Source) {
    && s.checkpoint in s.possible
    && (forall c :: c in s.possible ==> CursorSafe(cfg, s, c))
    && (s.live.Some? ==> SafeUpTo(cfg, s, s.live.value))
    && (forall id :: id in s.journaled ==> Safe(s, id))
  }

  /** No step ever makes a safe publication unsafe, including losing power mid-write. */
  lemma SafeStays(cfg: Config, s: Source, e: Event, t: Source, id: Id)
    requires Step(cfg, s, e, t) && Safe(s, id)
    ensures Safe(t, id)
  {
  }

  lemma PublishedSplits(cfg: Config, low: nat, mid: nat, high: nat, id: Id)
    requires Published(cfg.truth, cfg.pinned, low, high, id)
    ensures Published(cfg.truth, cfg.pinned, low, mid, id) || Published(cfg.truth, cfg.pinned, mid, high, id)
  {
    var b: nat, l: PubLog :| low < b <= high && l.id == Some(id) && Counts(cfg.truth, cfg.pinned, b, l);
    assert b <= mid || mid < b;
  }

  lemma SafeUpToStays(cfg: Config, s: Source, e: Event, t: Source, block: nat, lower: nat)
    requires Step(cfg, s, e, t) && SafeUpTo(cfg, s, block) && lower <= block
    ensures SafeUpTo(cfg, t, lower)
  {
    forall id: Id | Published(cfg.truth, cfg.pinned, Floor(cfg), lower, id) ensures Safe(t, id) {
      var b: nat, l: PubLog :| Floor(cfg) < b <= lower && l.id == Some(id) && Counts(cfg.truth, cfg.pinned, b, l);
      assert Published(cfg.truth, cfg.pinned, Floor(cfg), block, id);
      SafeStays(cfg, s, e, t, id);
    }
  }

  lemma CursorSafeStays(cfg: Config, s: Source, e: Event, t: Source, c: Option<Cursor>)
    requires Step(cfg, s, e, t) && CursorSafe(cfg, s, c)
    ensures CursorSafe(cfg, t, c)
  {
    if c.Some? && c.value.durableWork { SafeUpToStays(cfg, s, e, t, c.value.block, c.value.block); }
  }

  lemma LiveSafe(cfg: Config, s: Source, e: Event, t: Source)
    requires Inv(cfg, s) && Step(cfg, s, e, t) && t.live.Some?
    ensures SafeUpTo(cfg, t, t.live.value)
  {
    match e
    case Advanced(to) =>
      forall id: Id | Published(cfg.truth, cfg.pinned, Floor(cfg), to, id) ensures Safe(t, id) {
        PublishedSplits(cfg, Floor(cfg), s.live.value, to, id);
        SafeStays(cfg, s, e, t, id);
      }
    case Started(lookback) =>
      if s.checkpoint.Some? && s.checkpoint.value.durableWork {
        assert CursorSafe(cfg, s, s.checkpoint);
        SafeUpToStays(cfg, s, e, t, s.checkpoint.value.block, t.live.value);
      }
    case Crashed =>
    case PowerLost =>
    case _ => SafeUpToStays(cfg, s, e, t, s.live.value, t.live.value);
  }

  lemma StepKeepsInv(cfg: Config, s: Source, e: Event, t: Source)
    requires Inv(cfg, s) && Step(cfg, s, e, t)
    ensures Inv(cfg, t)
  {
    if t.live.Some? { LiveSafe(cfg, s, e, t); }
    forall id | id in t.journaled ensures Safe(t, id) {
      if id in s.journaled { SafeStays(cfg, s, e, t, id); }
    }
    forall c | c in t.possible ensures CursorSafe(cfg, t, c) {
      if c in s.possible { CursorSafeStays(cfg, s, e, t, c); }
    }
  }

  /** A poll is such a run of steps, so it leaves everything up to its cursor safe. */
  lemma {:induction false} LeadsKeepsInv(cfg: Config, s: Source, events: seq<Event>, t: Source)
    requires Inv(cfg, s) && Leads(cfg, s, events, t)
    ensures Inv(cfg, t)
    decreases |events|
  {
    if events != [] {
      var n := |events| - 1;
      var m :| Leads(cfg, s, events[..n], m) && Step(cfg, m, events[n], t);
      LeadsKeepsInv(cfg, s, events[..n], m);
      StepKeepsInv(cfg, m, events[n], t);
    }
  }

  lemma {:induction false} RunKeepsInv(cfg: Config, states: seq<Source>, events: seq<Event>, k: nat)
    requires Run(cfg, states, events) && k <= |events|
    ensures Inv(cfg, states[k])
  {
    if k > 0 {
      RunKeepsInv(cfg, states, events, k - 1);
      StepKeepsInv(cfg, states[k - 1], events[k - 1], states[k]);
    }
  }

  /**
   No publication is lost: at every point of every run, each authorized publication between the scan
   floor and a marked persisted cursor, whichever version a power loss may leave, is in the durable
   journal or completed; so is each one up to the live cursor.
   */
  lemma NoPublicationLost(cfg: Config, states: seq<Source>, events: seq<Event>, k: nat, id: Id, c: Option<Cursor>)
    requires Run(cfg, states, events) && k <= |events|
    ensures var s := states[k];
            && (c in s.possible && c.Some? && c.value.durableWork ==>
                  (Published(cfg.truth, cfg.pinned, Floor(cfg), c.value.block, id) ==> Safe(s, id)))
            && (s.live.Some? && Published(cfg.truth, cfg.pinned, Floor(cfg), s.live.value, id) ==> Safe(s, id))
            && s.checkpoint in s.possible
  {
    RunKeepsInv(cfg, states, events, k);
    assert c in states[k].possible ==> CursorSafe(cfg, states[k], c);
  }

  // ----- how the running process takes these steps -----

  /** Steps of other tasks of the process while a poll runs. */
  predicate OtherTask(e: Event) {
    e.Completed? || e.Persisted? || e.Recorded?
  }

  /** Whatever other tasks do meanwhile, what a poll has recorded stays recorded until it advances. */
  lemma {:induction false} JournaledUntilAdvance(cfg: Config, states: seq<Source>, events: seq<Event>, i: nat, k: nat)
    requires Run(cfg, states, events) && i <= k <= |events|
    requires forall j :: i <= j < k ==> OtherTask(events[j])
    ensures states[i].journaled <= states[k].journaled && states[k].live == states[i].live
  {
    if i < k {
      JournaledUntilAdvance(cfg, states, events, i, k - 1);
      assert Step(cfg, states[k - 1], events[k - 1], states[k]);
    }
  }

  /**
   A poll interleaved with any steps of other tasks may advance at the end: every publication of its
   range was recorded successfully at some step since its beginning.
   */
  lemma PollMayAdvance(cfg: Config, states: seq<Source>, events: seq<Event>, i: nat, k: nat, to: nat)
    requires Run(cfg, states, events) && i <= k <= |events|
    requires forall j :: i <= j < k ==> OtherTask(events[j])
    requires states[i].live.Some? && states[i].live.value <= to
    requires forall id :: Published(cfg.truth, cfg.pinned, states[i].live.value, to, id) ==>
               exists j :: i <= j < k && events[j] == Recorded(id, true)
    ensures Step(cfg, states[k], Advanced(to), states[k].(live := Some(to), journaled := {}))
  {
    JournaledUntilAdvance(cfg, states, events, i, k);
    forall id: Id | Published(cfg.truth, cfg.pinned, states[i].live.value, to, id) ensures id in states[k].journaled {
      var j :| i <= j < k && events[j] == Recorded(id, true);
      assert Step(cfg, states[j], events[j], states[j + 1]);
      JournaledUntilAdvance(cfg, states, events, j + 1, k);
    }
  }

  /** The route's cursor in the checkpoint store. */
  function CursorOf(entries: map<string, Checkpoint.Entry>, key: string): Option<Cursor> {
    if key in entries then Some(Cursor(entries[key].block, entries[key].durableWork)) else None
  }

  /**
   The journaled checkpoint update is the `Persisted` step: a failed one changes nothing, and after
   either a restart loads exactly the model's cursor.
   */
  lemma JournaledUpdatePersists(cfg: Config, s: Source, store: Checkpoint.Store, key: string, pinned: Option<string>,
      ok: bool, synced: bool)
    requires s.live.Some? && Checkpoint.Load(store.file) == Ok(store.entries)
    requires CursorOf(store.entries, key) == s.checkpoint
    ensures var after := Checkpoint.Apply(store, Checkpoint.SetJournaled(key, s.live.value, pinned), ok);
            && Checkpoint.Load(after.file) == Ok(after.entries)
            && if ok then exists t :: Step(cfg, s, Persisted(synced), t) && CursorOf(after.entries, key) == t.checkpoint
               else CursorOf(after.entries, key) == s.checkpoint
  {
    var after := Checkpoint.Apply(store, Checkpoint.SetJournaled(key, s.live.value, pinned), ok);
    if ok {
      Checkpoint.LoadInvertsSerialize(after.entries);
      var c := Some(Cursor(s.live.value, true));
      assert Step(cfg, s, Persisted(synced), s.(checkpoint := c, possible := if synced then {c} else s.possible + {c}));
    }
  }

  // ----- where a restart resumes -----

  /**
   Exactly where: `lookback` blocks before a marked cursor (from genesis, if that is nearer), else so
   that the start block, or block one without one, is scanned first.
   */
  lemma ResumesAt(cfg: Config, s: Source, lookback: nat, t: Source)
    requires Step(cfg, s, Started(lookback), t)
    ensures t.live.Some?
    ensures s.checkpoint.Some? && s.checkpoint.value.durableWork ==>
              var block := s.checkpoint.value.block;
              t.live.value + lookback == block || (t.live.value == 0 && block < lookback)
    ensures s.checkpoint.None? || !s.checkpoint.value.durableWork ==>
              && t.live.value == Floor(cfg)
              && match cfg.startBlock
                 case Some(first) => t.live.value + 1 == first || (first == 0 && t.live.value == 0)
                 case None => t.live.value == 0
  {
  }

  ghost predicate PersistedBefore(states: seq<Source>, events: seq<Event>, k: nat, block: nat) {
    exists j :: 0 <= j < k && j < |events| && j < |states| && events[j].Persisted? && states[j].live == Some(block)
  }

  lemma {:induction false} MarkedWasPersisted(cfg: Config, states: seq<Source>, events: seq<Event>, k: nat,
      c: Option<Cursor>)
    requires Run(cfg, states, events) && k <= |events|
    requires c in states[k].possible + {states[k].checkpoint} && c.Some? && c.value.durableWork
    ensures PersistedBefore(states, events, k, c.value.block)
  {
    if k > 0 {
      assert Step(cfg, states[k - 1], events[k - 1], states[k]);
      if c in states[k - 1].possible + {states[k - 1].checkpoint} {
        MarkedWasPersisted(cfg, states, events, k - 1, c);
        var j :| 0 <= j < k - 1 && events[j].Persisted? && states[j].live == Some(c.value.block);
        assert PersistedBefore(states, events, k, c.value.block);
      } else {
        assert events[k - 1].Persisted?;
      }
    }
  }

  /**
   A cursor without the journal marker is never resumed from: in every run, a process that starts
   above the floor resumes at or below a live cursor that a process of this run persisted with the
   marker, and everything up to there is safe.
   */
  lemma ResumesOnlyFromJournal(cfg: Config, states: seq<Source>, events: seq<Event>, k: nat)
    requires Run(cfg, states, events) && k < |events| && events[k].Started?
    requires states[k + 1].live.Some? && states[k + 1].live.value > Floor(cfg)
    ensures states[k].checkpoint.Some? && states[k].checkpoint.value.durableWork
    ensures states[k + 1].live.value <= states[k].checkpoint.value.block
    ensures PersistedBefore(states, events, k, states[k].checkpoint.value.block)
    ensures SafeUpTo(cfg, states[k], states[k].checkpoint.value.block)
  {
    assert Step(cfg, states[k], events[k], states[k + 1]);
    MarkedWasPersisted(cfg, states, events, k, states[k].checkpoint);
    RunKeepsInv(cfg, states, events, k);
    assert CursorSafe(cfg, states[k], states[k].checkpoint);
  }
}
