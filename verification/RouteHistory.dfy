/**
 The settlement route history: a contiguous interval of scanned blocks and every Outbox authorized
 in it, grown in both directions, committed to disk before it is published in memory.
 */
module RouteHistory {
  import opened Basics
  import opened RouteScan
  import Resolution

  const HISTORY_SCAN_BLOCKS: nat := 2_000

  datatype Range = Range(low: nat, high: nat)

  datatype History = History(inbox: Address, sourceChainId: nat, scanned: Option<Range>, outboxes: set<Address>)

  /**
   What a running process holds (`None` while down), what is on disk (`None` if no file), and every
   version of the file a power loss could leave.
   */
  datatype System = System(memory: Option<History>, disk: Option<History>, possible: set<Option<History>>)

  /** No process runs over this file. */
  function Down(disk: Option<History>): System {
    System(None, disk, {disk})
  }

  /**
   How a commit went. `Unsynced` is a write whose directory sync failed, which is not reported;
   `Unacknowledged` is a write that happened but was reported as failed.
   */
  datatype Save = Saved | Unsynced | NoFile | Refused | Unacknowledged

  /** The commit succeeded and the new history is published in memory. */
  predicate Commits(save: Save) {
    save.Saved? || save.Unsynced? || save.NoFile?
  }

  datatype Event =
    | Loaded(inbox: Address, sourceChainId: nat)
    | Seeded(hints: set<Address>, save: Save)
    | Extended(range: Range, found: set<Address>, save: Save)
    | Crashed
    | PowerLost(survivor: Option<History>)

  /** The interval is contiguous and the Outboxes cover every authorization event in it. */
  ghost predicate Covers(chain: Chain, h: History) {
    h.scanned.Some? ==>
      && h.scanned.value.low <= h.scanned.value.high
      && NamedIn(chain, h.scanned.value.low, h.scanned.value.high) <= h.outboxes
  }

  function Commit(s: System, next: History, save: Save): System {
    match save
    case Saved => System(Some(next), Some(next), {Some(next)})
    case Unsynced => System(Some(next), Some(next), s.possible + {Some(next)})
    case NoFile => s.(memory := Some(next))
    case Refused => s
    case Unacknowledged => s.(disk := Some(next), possible := s.possible + {Some(next)})
  }

  function Next(s: System, e: Event): System {
    match e
    case Loaded(inbox, id) =>
      s.(memory := Some(if s.disk.Some? then s.disk.value else History(inbox, id, None, {})))
    case Seeded(hints, save) =>
      if s.memory.None? then s
      else Commit(s, s.memory.value.(outboxes := s.memory.value.outboxes + hints), save)
    case Extended(range, found, save) =>
      if s.memory.None? then s
      else Commit(s, s.memory.value.(scanned := Some(range), outboxes := s.memory.value.outboxes + found), save)
    case Crashed => s.(memory := None)
    case PowerLost(survivor) => System(None, survivor, {survivor})
  }

  /** `range` adds to `h` one range of blocks adjacent to what is scanned, whose Outboxes are `found`. */
  ghost predicate Adjacent(chain: Chain, h: History, range: Range, found: set<Address>) {
    if h.scanned.None? then range.low <= range.high && found == NamedIn(chain, range.low, range.high)
    else
      var was := h.scanned.value;
      || (range.low == was.low && was.high < range.high && found == NamedIn(chain, was.high + 1, range.high))
      || (range.high == was.high && range.low < was.low && found == NamedIn(chain, range.low, was.low - 1))
  }

  ghost predicate Enabled(chain: Chain, s: System, e: Event) {
    match e
    case Loaded(inbox, id) =>
      && s.memory.None?
      && (s.disk.Some? ==> s.disk.value.inbox == inbox && s.disk.value.sourceChainId == id)
    case Seeded(_, _) => s.memory.Some?
    case Extended(range, found, _) => s.memory.Some? && Adjacent(chain, s.memory.value, range, found)
    case Crashed => true
    case PowerLost(survivor) => survivor in s.possible
  }

  ghost predicate Steps(chain: Chain, s: System, events: seq<Event>, t: System)
    decreases |events|
  {
    if events == [] then s == t
    else Enabled(chain, s, events[0]) && Steps(chain, Next(s, events[0]), events[1..], t)
  }

  ghost predicate Inv(chain: Chain, s: System) {
    && (s.memory.Some? ==> Covers(chain, s.memory.value))
    && s.disk in s.possible
    && (forall c :: c in s.possible && c.Some? ==> Covers(chain, c.value))
  }

  lemma StepKeepsCoverage(chain: Chain, s: System, e: Event)
    requires Inv(chain, s) && Enabled(chain, s, e)
    ensures Inv(chain, Next(s, e))
  {
    if e.Extended? && s.memory.value.scanned.Some? {
      var was := s.memory.value.scanned.value;
      if e.range.low == was.low {
        NamedInSplit(chain, was.low, was.high, e.range.high);
      } else {
        NamedInSplit(chain, e.range.low, was.low - 1, was.high);
      }
    }
  }

  /**
   Coverage over every run: at every point, including after crashes, power losses, failed and
   unacknowledged commits, memory and every version of the file hold a contiguous interval and
   every Outbox authorized in it.
   */
  lemma {:induction false} CoverageOverRuns(chain: Chain, s: System, events: seq<Event>, t: System)
    requires Inv(chain, s) && Steps(chain, s, events, t)
    ensures Inv(chain, t)
    decreases |events|
  {
    if events != [] {
      StepKeepsCoverage(chain, s, events[0]);
      CoverageOverRuns(chain, Next(s, events[0]), events[1..], t);
    }
  }

  function Scanned(h: Option<History>): Option<Range> {
    if h.Some? then h.value.scanned else None
  }

  predicate Encloses(range: Range, was: Option<Range>) {
    was.Some? ==> range.low <= was.value.low && was.value.high <= range.high
  }

  /**
   Only a saved scan moves the published interval, and only outwards; nothing drops an Outbox. On
   disk, only a scan that was written enlarges what memory knew; a saved hint rewrites what memory
   knew.
   */
  lemma OnlyScansEnlarge(chain: Chain, s: System, e: Event)
    requires Enabled(chain, s, e) && s.memory.Some?
    ensures Next(s, e).memory.Some? ==> s.memory.value.outboxes <= Next(s, e).memory.value.outboxes
    ensures Next(s, e).memory.Some? && Scanned(Next(s, e).memory) != Scanned(s.memory) ==>
              e.Extended? && Commits(e.save) && Encloses(e.range, Scanned(s.memory))
    ensures !e.PowerLost? && Next(s, e).disk != s.disk ==>
              (e.Extended? || e.Seeded?) && !e.save.NoFile? && !e.save.Refused?
    ensures !e.PowerLost? && Scanned(Next(s, e).disk) != Scanned(s.disk) ==>
              || Scanned(Next(s, e).disk) == Scanned(s.memory)
              || (e.Extended? && Scanned(Next(s, e).disk) == Some(e.range) && Encloses(e.range, Scanned(s.memory)))
  {
  }

  // ----- the running history -----

  class RouteHistory {
    const persistent: bool
    var state: History
    var disk: Option<History>
    ghost var possible: set<Option<History>>
    var inboxSeeded: bool
    var validatorSeeded: bool

    ghost function View(): System
      reads this
    {
      System(Some(state), disk, possible)
    }

    constructor (persistent: bool, inbox: Address, sourceChainId: nat, disk: Option<History>)
      requires disk.Some? ==> Acceptable(disk.value, inbox, sourceChainId)
      ensures View() == Next(Down(disk), Loaded(inbox, sourceChainId))
      ensures this.persistent == persistent && !inboxSeeded && !validatorSeeded
    {
      this.persistent, this.disk, possible := persistent, disk, {disk};
      state := if disk.Some? then disk.value else History(inbox, sourceChainId, None, {});
      inboxSeeded, validatorSeeded := false, false;
    }

    method CommitState(next: History) returns (ok: bool, ghost save: Save)
      modifies this`state, this`disk, this`possible
      ensures View() == Commit(old(View()), next, save)
      ensures ok <==> Commits(save)
    {
      save := NoFile;
      if persistent {
        if * { return false, Refused; }
        disk, possible := Some(next), possible + {Some(next)};
        if * { return false, Unacknowledged; }
        save := Unsynced;
        if * {
          possible := {Some(next)};
          save := Saved;
        }
      }
      state := next;
      return true, save;
    }

    /** Hints from the Inbox's current set: they add candidates and never coverage. */
    method Seed(supported: Result<set<Address>>) returns (ok: bool, ghost trace: seq<Event>)
      modifies this`state, this`disk, this`possible, this`inboxSeeded
      ensures forall chain :: Steps(chain, old(View()), trace, View())
      ensures state.scanned == old(state.scanned)
      ensures ok && !old(inboxSeeded) ==> supported.Ok? && supported.value <= state.outboxes
      ensures inboxSeeded <==> old(inboxSeeded) || ok
      ensures old(inboxSeeded) ==> ok && View() == old(View())
    {
      trace := [];
      if inboxSeeded { return true, trace; }
      if supported.Err? { return false, trace; }
      ghost var save;
      ok, save := CommitState(state.(outboxes := state.outboxes + supported.value));
      trace := [Seeded(supported.value, save)];
      SingleStep(old(View()), trace[0], View());
      if ok { inboxSeeded := true; }
    }

    /** The configured validator's Outbox, if it names one. */
    method SeedValidator(outbox: Result<Address>) returns (ok: bool, ghost trace: seq<Event>)
      modifies this`state, this`disk, this`possible, this`validatorSeeded
      ensures forall chain :: Steps(chain, old(View()), trace, View())
      ensures state.scanned == old(state.scanned)
      ensures ok && !old(validatorSeeded) ==> outbox.Ok? && (outbox.value != ZERO ==> outbox.value in state.outboxes)
      ensures validatorSeeded <==> old(validatorSeeded) || ok
      ensures old(validatorSeeded) ==> ok && View() == old(View())
      ensures outbox == Ok(ZERO) ==> ok && View() == old(View())
    {
      trace := [];
      if validatorSeeded { return true, trace; }
      if outbox.Err? { return false, trace; }
      ok := true;
      if outbox.value != ZERO {
        ghost var save;
        ok, save := CommitState(state.(outboxes := state.outboxes + {outbox.value}));
        trace := [Seeded({outbox.value}, save)];
        SingleStep(old(View()), trace[0], View());
      }
      if ok { validatorSeeded := true; }
    }

    /** Scan one range after the interval, up to the confirmed head. */
    method Forward(p: Provider, confirmed: nat, ghost chain: Chain, ghost txNames: (nat, TxHash) -> set<Address>)
      returns (ok: bool, ghost trace: seq<Event>)
      requires Honest(p, chain, state.inbox, txNames)
      requires state.scanned.Some? && state.scanned.value.high < confirmed <= U64_MAX
      modifies this`state, this`disk, this`possible
      ensures Steps(chain, old(View()), trace, View()) && |trace| <= 1
      ensures state.inbox == old(state.inbox)
      ensures state.scanned.Some? && state.scanned.value.low == old(state.scanned.value.low)
      ensures old(state.scanned.value.high) <= state.scanned.value.high <= confirmed
      ensures ok ==> old(state.scanned.value.high) < state.scanned.value.high
      ensures ok ==>
                var to := Min(confirmed, old(state.scanned.value.high) + 2_000);
                Readable(p, state.inbox, old(state.scanned.value.high) + 1, to) ==> state.scanned.value.high == to
      ensures Clean(p, state.inbox, confirmed, trace) ==> ok
    {
      trace := [];
      var low, high := state.scanned.value.low, state.scanned.value.high;
      var to := Min(confirmed, SatAdd64(high, HISTORY_SCAN_BLOCKS));
      var scan := Scan(p, state.inbox, high + 1, to, chain, txNames);
      if scan.Err? { return false, trace; }
      var range := Range(low, scan.value.0);
      ghost var save;
      ok, save := CommitState(state.(scanned := Some(range), outboxes := state.outboxes + scan.value.1));
      trace := [Extended(range, scan.value.1, save)];
    }

    /** Scan one range before the interval, towards genesis. */
    method Backward(p: Provider, ghost confirmed: nat, ghost chain: Chain, ghost txNames: (nat, TxHash) -> set<Address>)
      returns (ok: bool, ghost trace: seq<Event>)
      requires Honest(p, chain, state.inbox, txNames)
      requires state.scanned.Some? && 0 < state.scanned.value.low
      modifies this`state, this`disk, this`possible
      ensures Steps(chain, old(View()), trace, View()) && |trace| <= 1
      ensures state.inbox == old(state.inbox)
      ensures state.scanned.Some? && state.scanned.value.high == old(state.scanned.value.high)
      ensures state.scanned.value.low <= old(state.scanned.value.low)
      ensures ok ==> state.scanned.value.low < old(state.scanned.value.low)
      ensures ok ==>
                var from := SatSub(old(state.scanned.value.low), 2_000);
                Readable(p, state.inbox, from, old(state.scanned.value.low) - 1) ==> state.scanned.value.low == from
      ensures old(state.scanned.value.low) <= confirmed && Clean(p, state.inbox, confirmed, trace) ==> ok
    {
      trace := [];
      var low, high := state.scanned.value.low, state.scanned.value.high;
      var scan := ScanBackwards(p, state.inbox, SatSub(low, HISTORY_SCAN_BLOCKS), low - 1, chain, txNames);
      if scan.Err? { return false, trace; }
      var range := Range(scan.value.0, high);
      ghost var save;
      ok, save := CommitState(state.(scanned := Some(range), outboxes := state.outboxes + scan.value.1));
      trace := [Extended(range, scan.value.1, save)];
    }

    /** The first range, ending at the confirmed head. */
    method First(p: Provider, confirmed: nat, ghost chain: Chain, ghost txNames: (nat, TxHash) -> set<Address>)
      returns (ok: bool, ghost trace: seq<Event>)
      requires Honest(p, chain, state.inbox, txNames) && state.scanned.None?
      modifies this`state, this`disk, this`possible
      ensures Steps(chain, old(View()), trace, View()) && |trace| <= 1
      ensures state.inbox == old(state.inbox)
      ensures if ok then state.scanned.Some? && state.scanned.value.low <= state.scanned.value.high == confirmed
              else state == old(state)
      ensures ok && Readable(p, state.inbox, SatSub(confirmed, 1_999), confirmed) ==>
                state.scanned.value.low == SatSub(confirmed, 1_999)
      ensures Clean(p, state.inbox, confirmed, trace) ==> ok
    {
      trace := [];
      var from := SatSub(confirmed, HISTORY_SCAN_BLOCKS - 1);
      var scan := ScanBackwards(p, state.inbox, from, confirmed, chain, txNames);
      if scan.Err? { return false, trace; }
      var range := Range(scan.value.0, confirmed);
      ghost var save;
      ok, save := CommitState(state.(scanned := Some(range), outboxes := state.outboxes + scan.value.1));
      trace := [Extended(range, scan.value.1, save)];
    }

    /**
     One tick: forward first, then backward. Every outcome is a run of coverage-keeping steps; if
     single blocks can be read and commits succeed, a nonzero low bound is lowered.
     */
    method Refresh(p: Provider, head: Result<nat>, depth: nat, ghost chain: Chain,
        ghost txNames: (nat, TxHash) -> set<Address>)
      returns (ok: bool, ghost trace: seq<Event>)
      requires Honest(p, chain, state.inbox, txNames)
      requires head.Ok? ==> head.value <= U64_MAX
      modifies this`state, this`disk, this`possible
      ensures Steps(chain, old(View()), trace, View())
      ensures old(state.scanned).Some? ==> state.scanned.Some? && Outward(old(state.scanned).value, state.scanned.value)
      ensures ok ==> head.Ok? && state.scanned.Some?
      ensures ok && old(state.scanned).None? ==>
                state.scanned.value.low <= state.scanned.value.high == SatSub(head.value, depth)
      ensures state.inbox == old(state.inbox)
      ensures ok && old(state.scanned).Some? && old(state.scanned).value.high < SatSub(head.value, depth) ==>
              old(state.scanned).value.high < state.scanned.value.high
      ensures ok && old(state.scanned).Some? ==> Lowered(old(state.scanned).value, state.scanned.value)
      ensures head.Ok? && (old(state.scanned).Some? ==> old(state.scanned).value.low <= SatSub(head.value, depth)) ==>
                Clean(p, state.inbox, SatSub(head.value, depth), trace) ==> ok
    {
      trace := [];
      if head.Err? { return false, trace; }
      var confirmed := SatSub(head.value, depth);
      if state.scanned.None? {
        ok, trace := First(p, confirmed, chain, txNames);
        return;
      }
      var low, high := state.scanned.value.low, state.scanned.value.high;
      ghost var s := View();
      if high < confirmed {
        ok, trace := Forward(p, confirmed, chain, txNames);
        if !ok { return; }
      }
      if low > 0 {
        ghost var mid, before := View(), trace;
        ok, trace := Backward(p, confirmed, chain, txNames);
        StepsChain(chain, s, before, mid, trace, View());
        ghost var after := trace;
        trace := before + trace;
        assert forall e :: e in after ==> e in trace;
        return;
      }
      return true, trace;
    }
  }

  /** Load the file, or start empty without one; an unreadable, foreign or inverted history is refused. */
  method Load(persistent: bool, inbox: Address, sourceChainId: nat, file: Result<Option<History>>)
    returns (r: Result<RouteHistory>)
    ensures var stored := if persistent then file else Ok(None);
            && (r.Ok? <==> && stored.Ok?
                           && (stored.value.Some? ==> stored.value.value.inbox == inbox)
                           && (stored.value.Some? ==> stored.value.value.sourceChainId == sourceChainId)
                           && (stored.value.Some? && stored.value.value.scanned.Some? ==>
                                 stored.value.value.scanned.value.low <= stored.value.value.scanned.value.high))
            && (r.Ok? && stored.value.Some? ==> r.value.state == stored.value.value)
            && (r.Ok? && stored.value.None? ==> r.value.state == History(inbox, sourceChainId, None, {}))
            && (r.Ok? ==> r.value.disk == stored.value)
            && (r.Ok? ==> r.value.View() == Next(Down(stored.value), Loaded(inbox, sourceChainId)))
    ensures r.Ok? ==>
            fresh(r.value) && r.value.persistent == persistent && !r.value.inboxSeeded && !r.value.validatorSeeded
  {
    var stored := if persistent then file else Ok(None);
    if stored.Err? { return Err; }
    if stored.value.Some? && !Acceptable(stored.value.value, inbox, sourceChainId) { return Err; }
    var history := new RouteHistory(persistent, inbox, sourceChainId, stored.value);
    return Ok(history);
  }

  predicate Acceptable(h: History, inbox: Address, sourceChainId: nat) {
    && h.inbox == inbox && h.sourceChainId == sourceChainId
    && (h.scanned.Some? ==> h.scanned.value.low <= h.scanned.value.high)
  }

  predicate Outward(a: Range, b: Range) {
    b.low <= a.low && a.high <= b.high
  }

  predicate Lowered(a: Range, b: Range) {
    b.low < a.low || a.low == 0
  }

  /** Single-block reads up to the head succeed and no commit of the trace failed. */
  ghost predicate Clean(p: Provider, inbox: Address, confirmed: nat, trace: seq<Event>) {
    && (forall n :: 0 <= n <= confirmed ==> Readable(p, inbox, n, n))
    && (forall e :: e in trace && e.Extended? ==> Commits(e.save))
  }

  lemma SingleStep(s: System, e: Event, t: System)
    requires e.Seeded? && s.memory.Some? && t == Next(s, e)
    ensures forall chain :: Steps(chain, s, [e], t)
  {
    forall chain ensures Steps(chain, s, [e], t) {
      assert [e][1..] == [];
    }
  }

  lemma {:induction false} StepsChain(chain: Chain, s: System, a: seq<Event>, m: System, b: seq<Event>, t: System)
    requires Steps(chain, s, a, m) && Steps(chain, m, b, t)
    ensures Steps(chain, s, a + b, t)
    decreases |a|
  {
    if a == [] {
      assert a + b == b;
    } else {
      StepsChain(chain, Next(s, a[0]), a[1..], m, b, t);
      assert (a + b)[1..] == a[1..] + b;
    }
  }

  /** One tick of the worker: the node it talks to and the head that node reports. */
  datatype Tick = Tick(provider: Provider, head: Result<nat>)

  ghost predicate HonestTicks(ticks: seq<Tick>, chain: Chain, inbox: Address, txNames: (nat, TxHash) -> set<Address>) {
    forall k :: 0 <= k < |ticks| ==>
      Honest(ticks[k].provider, chain, inbox, txNames) && (ticks[k].head.Ok? ==> ticks[k].head.value <= U64_MAX)
  }

  /** The head is read, is not below `base`, and every block up to it can be read alone. */
  ghost predicate CleanTick(t: Tick, inbox: Address, depth: nat, base: nat) {
    && t.head.Ok? && base <= SatSub(t.head.value, depth)
    && forall n :: 0 <= n <= SatSub(t.head.value, depth) ==> Readable(t.provider, inbox, n, n)
  }

  ghost predicate AllCommitted(trace: seq<Event>) {
    forall e :: e in trace && e.Extended? ==> Commits(e.save)
  }

  /** What the backfill starts from: the low bound, or the head that the first tick reports. */
  function Base(scanned: Option<Range>, ticks: seq<Tick>, depth: nat): nat {
    if scanned.Some? then scanned.value.low
    else if ticks != [] && ticks[0].head.Ok? then SatSub(ticks[0].head.value, depth)
    else 0
  }

  /** The first `k` ticks are clean and no commit failed. */
  ghost predicate CleanSoFar(ticks: seq<Tick>, k: nat, inbox: Address, depth: nat, base: nat, trace: seq<Event>) {
    && k <= |ticks|
    && (forall j :: 0 <= j < k ==> CleanTick(ticks[j], inbox, depth, base))
    && AllCommitted(trace)
  }

  /**
   Refresh tick by tick, going on after failures. Every outcome is a run of coverage-keeping steps,
   and each successful tick lowers the bound by at least one block. If every tick is clean and every
   commit succeeds, all ticks succeed and genesis is reached within one tick more than the blocks
   below the starting point.
   */
  method Backfill(h: RouteHistory, ticks: seq<Tick>, depth: nat, ghost chain: Chain,
      ghost txNames: (nat, TxHash) -> set<Address>)
    returns (succeeded: nat, ghost trace: seq<Event>)
    requires HonestTicks(ticks, chain, h.state.inbox, txNames)
    modifies h`state, h`disk, h`possible
    ensures Steps(chain, old(h.View()), trace, h.View())
    ensures succeeded <= |ticks|
    ensures old(h.state.scanned).Some? ==>
              h.state.scanned.Some? && h.state.scanned.value.low <= SatSub(old(h.state.scanned).value.low, succeeded)
    ensures var base := Base(old(h.state.scanned), ticks, depth);
            CleanSoFar(ticks, |ticks|, old(h.state.inbox), depth, base, trace) ==>
              && succeeded == |ticks|
              && (|ticks| > base ==> h.state.scanned.Some? && h.state.scanned.value.low == 0)
  {
    succeeded, trace := 0, [];
    ghost var first, inbox := h.View(), h.state.inbox;
    ghost var base := Base(h.state.scanned, ticks, depth);
    for k := 0 to |ticks|
      invariant h.state.inbox == inbox && succeeded <= k
      invariant Steps(chain, first, trace, h.View())
      invariant old(h.state.scanned).Some? ==>
                  h.state.scanned.Some? && h.state.scanned.value.low <= SatSub(base, succeeded)
      invariant CleanSoFar(ticks, k, inbox, depth, base, trace) ==>
                  succeeded == k && Backfilled(h.state.scanned, base, k)
    {
      ghost var mid, before := h.View(), trace;
      var ok;
      ghost var more;
      ok, more := h.Refresh(ticks[k].provider, ticks[k].head, depth, chain, txNames);
      StepsChain(chain, first, before, mid, more, h.View());
      trace := before + more;
      assert AllCommitted(trace) ==> AllCommitted(before) && AllCommitted(more);
      if ok { succeeded := succeeded + 1; }
    }
  }

  /** After `k` successes an interval exists and its low bound has come down from `base`. */
  predicate Backfilled(scanned: Option<Range>, base: nat, k: nat) {
    && (k > 0 ==> scanned.Some?)
    && (scanned.Some? ==> scanned.value.low <= SatSub(base, SatSub(k, 1)))
  }

  /**
   What the history is for: after any run that has scanned a block naming the message's own Outbox,
   that Outbox's reads alone decide the resolution, whatever else the history holds: nothing to do for
   a record that needs no acknowledgment, else its checked validator.
   */
  lemma HistoryResolves(chain: Chain, s: System, events: seq<Event>, t: System, block: nat, outbox: Address,
      i: Resolution.Identity, source: Resolution.Source, id: Resolution.MessageId, r: Resolution.Record, v: Address)
    requires Inv(chain, s) && Steps(chain, s, events, t) && t.memory.Some? && t.memory.value.scanned.Some?
    requires t.memory.value.scanned.value.low <= block <= t.memory.value.scanned.value.high
    requires outbox in chain(block) && outbox != ZERO
    requires Resolution.Injective(i) && Resolution.Published(i, source, outbox, id, r)
    ensures !r.canAck || r.acknowledged ==>
              Resolution.Resolved(i, source, t.memory.value.outboxes, id) == Ok(None)
    ensures r.canAck && !r.acknowledged && Resolution.Authorizes(i, source, outbox, id, v) ==>
              Resolution.Resolved(i, source, t.memory.value.outboxes, id) == Ok(Some(v))
  {
    CoverageOverRuns(chain, s, events, t);
    var scanned := t.memory.value.scanned.value;
    assert outbox in NamedIn(chain, scanned.low, scanned.high);
    Resolution.ResolvesExactly(i, source, t.memory.value.outboxes, id);
  }
}
