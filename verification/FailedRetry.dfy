/**
 The bounded `retryFailedMessage` budget. Each message has a copy of its state in memory and one on
 disk; reads take the stricter of the two, and either copy may fail to be read or written.
 */
module FailedRetry {
  import opened Basics
  import opened Schedules

  datatype State = State(attempts: nat, nextAttemptAt: nat, gaveUpAt: Option<nat>)

  const FRESH := State(0, 0, None)

  datatype Gate = Proceed | Wait(at: nat) | GiveUp(state: State)

  /** Both copies of one message's state. */
  datatype Ledger = Ledger(memory: Option<State>, disk: Option<State>)

  function Stricter(a: State, b: State): State {
    State(Max(a.attempts, b.attempts), Max(a.nextAttemptAt, b.nextAttemptAt),
          if a.gaveUpAt.Some? then a.gaveUpAt else b.gaveUpAt)
  }

  function Merged(l: Ledger): Option<State> {
    match (l.memory, l.disk)
    case (Some(a), Some(b)) => Some(Stricter(a, b))
    case (None, b) => b
    case (a, None) => a
  }

  /** `get`: unknown only if the disk copy is unreadable and this process holds none. */
  function Read(l: Ledger, readOk: bool): Result<Option<State>> {
    if readOk then Ok(Merged(l))
    else if l.memory.Some? then Ok(l.memory) else Err
  }

  /** What `get` caches. */
  function AfterRead(l: Ledger, readOk: bool): Ledger {
    if readOk && Merged(l).Some? then l.(memory := Merged(l)) else l
  }

  function Put(l: Ledger, s: State, writeOk: bool): Ledger {
    Ledger(Some(s), if writeOk then Some(s) else l.disk)
  }

  function Verdict(read: Result<Option<State>>, policy: FailedRetryPolicy, now: nat): Gate {
    if read.Err? then Wait(SatAdd64(now, policy.Backoff(0)))
    else
      var s := if read.value.Some? then read.value.value else FRESH;
      if s.gaveUpAt.Some? || s.attempts >= policy.maxAttempts then GiveUp(s)
      else if now < s.nextAttemptAt then Wait(s.nextAttemptAt)
      else Proceed
  }

  function Counted(read: Result<Option<State>>, policy: FailedRetryPolicy, now: nat): State {
    var previous := if read.Ok? && read.value.Some? then read.value.value else FRESH;
    var attempts := Min(previous.attempts + 1, U32_MAX);
    State(attempts, SatAdd64(now, policy.Backoff(attempts)), None)
  }

  function Scheduled(policy: FailedRetryPolicy, now: nat): State {
    State(0, SatAdd64(now, policy.Backoff(0)), None)
  }

  function Tombstone(s: State, now: nat): State {
    s.(gaveUpAt := Some(if s.gaveUpAt.Some? then s.gaveUpAt.value else now))
  }

  // ----- the retry ledger of one route -----

  class FailedRetries {
    const persistent: bool
    var memory: map<nat, State>
    var disk: map<nat, State>

    ghost function View(id: nat): Ledger
      reads this
    {
      Ledger(if id in memory then Some(memory[id]) else None, if id in disk then Some(disk[id]) else None)
    }

    /** Without persistence nothing is ever on disk. */
    ghost predicate Valid()
      reads this
    {
      !persistent ==> disk == map[]
    }

    twostate predicate OthersKept(id: nat)
      reads this
    {
      forall x :: x != id ==> View(x) == old(View(x))
    }

    constructor (persistent: bool, disk: map<nat, State>)
      requires !persistent ==> disk == map[]
      ensures Valid() && memory == map[] && this.disk == disk && this.persistent == persistent
    {
      this.persistent, this.disk, this.memory := persistent, disk, map[];
    }

    method Get(id: nat) returns (r: Result<Option<State>>, ghost readOk: bool)
      requires Valid()
      modifies this`memory
      ensures r == Read(old(View(id)), readOk) && View(id) == AfterRead(old(View(id)), readOk)
      ensures Valid() && OthersKept(id)
    {
      var held := if id in memory then Some(memory[id]) else None;
      if persistent {
        if * { return if held.Some? then Ok(held) else Err, false; }
      }
      var stored := if id in disk then Some(disk[id]) else None;
      var merged := if held.Some? && stored.Some? then Some(Stricter(held.value, stored.value))
                    else if held.Some? then held else stored;
      if merged.Some? { memory := memory[id := merged.value]; }
      return Ok(merged), true;
    }

    method PutState(id: nat, s: State) returns (ghost writeOk: bool)
      requires Valid()
      modifies this
      ensures View(id) == Put(old(View(id)), s, writeOk)
      ensures Valid() && OthersKept(id)
    {
      memory := memory[id := s];
      writeOk := false;
      if persistent {
        if * {
          disk := disk[id := s];
          writeOk := true;
        }
      }
    }

    method Forget(id: nat) returns (ghost removed: bool)
      requires Valid()
      modifies this
      ensures View(id) == Forgotten(old(View(id)), removed)
      ensures Valid() && OthersKept(id)
    {
      memory := map x | x in memory && x != id :: memory[x];
      removed := !persistent;
      if persistent {
        if * {
          disk := map x | x in disk && x != id :: disk[x];
          removed := true;
        }
      }
    }

    method Start(id: nat, policy: FailedRetryPolicy, now: nat)
      returns (s: State, ghost readOk: bool, ghost writeOk: bool)
      requires Valid()
      modifies this
      ensures s == StartState(old(View(id)), policy, now, readOk)
      ensures View(id) == AfterStart(old(View(id)), policy, now, readOk, writeOk)
      ensures Valid() && OthersKept(id)
    {
      s, writeOk := Scheduled(policy, now), false;
      var r;
      r, readOk := Get(id);
      if r.Ok? {
        if r.value.Some? {
          s := r.value.value;
        } else {
          writeOk := PutState(id, s);
        }
      }
    }

    method AskGate(id: nat, policy: FailedRetryPolicy, now: nat) returns (g: Gate, ghost readOk: bool)
      requires Valid()
      modifies this`memory
      ensures g == Verdict(Read(old(View(id)), readOk), policy, now)
      ensures View(id) == AfterRead(old(View(id)), readOk)
      ensures Valid() && OthersKept(id)
    {
      var r;
      r, readOk := Get(id);
      if r.Err? { return Wait(SatAdd64(now, policy.Backoff(0))), readOk; }
      var s := if r.value.Some? then r.value.value else FRESH;
      if s.gaveUpAt.Some? || s.attempts >= policy.maxAttempts { return GiveUp(s), readOk; }
      if now < s.nextAttemptAt { return Wait(s.nextAttemptAt), readOk; }
      return Proceed, readOk;
    }

    method RecordAttempt(id: nat, policy: FailedRetryPolicy, now: nat)
      returns (s: State, ghost readOk: bool, ghost writeOk: bool)
      requires Valid()
      modifies this
      ensures s == Counted(Read(old(View(id)), readOk), policy, now)
      ensures View(id) == Put(AfterRead(old(View(id)), readOk), s, writeOk)
      ensures Valid() && OthersKept(id)
    {
      var r;
      r, readOk := Get(id);
      s := Counted(r, policy, now);
      writeOk := PutState(id, s);
    }

    method LeaveTombstone(id: nat, s: State, now: nat) returns (t: State, ghost writeOk: bool)
      requires Valid()
      modifies this
      ensures t == Tombstone(s, now) && View(id) == Put(old(View(id)), t, writeOk)
      ensures t.attempts == s.attempts && t.nextAttemptAt == s.nextAttemptAt
      ensures t.gaveUpAt == if s.gaveUpAt == None then Some(now) else s.gaveUpAt
      ensures Valid() && OthersKept(id)
    {
      t := Tombstone(s, now);
      writeOk := PutState(id, t);
    }
  }

  function Forgotten(l: Ledger, removed: bool): Ledger {
    Ledger(None, if removed then None else l.disk)
  }

  /** A known state is kept; an unreadable one is not overwritten. */
  function StartState(l: Ledger, policy: FailedRetryPolicy, now: nat, readOk: bool): State {
    var read := Read(l, readOk);
    if read.Ok? && read.value.Some? then read.value.value else Scheduled(policy, now)
  }

  function AfterStart(l: Ledger, policy: FailedRetryPolicy, now: nat, readOk: bool, writeOk: bool): Ledger {
    if Read(l, readOk) == Ok(None) then Put(l, Scheduled(policy, now), writeOk) else AfterRead(l, readOk)
  }

  // ----- what a gate, a record and a start answer, on the copies read -----

  /** `c` is a copy the read sees: the one in memory, and the one on disk if it can be read. */
  predicate Sees(l: Ledger, readOk: bool, c: State) {
    l.memory == Some(c) || (readOk && l.disk == Some(c))
  }

  predicate Unreadable(l: Ledger, readOk: bool) {
    !readOk && l.memory.None?
  }

  predicate Spent(c: State, policy: FailedRetryPolicy) {
    c.gaveUpAt.Some? || c.attempts >= policy.maxAttempts
  }

  /** The known copies are spent, or the policy allows no attempt at all. */
  ghost predicate BudgetGone(l: Ledger, readOk: bool, policy: FailedRetryPolicy) {
    policy.maxAttempts == 0 || exists c :: Sees(l, readOk, c) && Spent(c, policy)
  }

  /** `at` is the latest instant a copy asks to wait for. */
  ghost predicate LatestWait(l: Ledger, readOk: bool, at: nat) {
    && (exists c :: Sees(l, readOk, c) && c.nextAttemptAt == at)
    && (forall c :: Sees(l, readOk, c) ==> c.nextAttemptAt <= at)
  }

  /**
   The gate, exactly: an unreadable entry waits one initial backoff; a tombstone or spent attempts in
   any copy seen give up; else the latest instant any copy asks for is waited for; else it proceeds.
   */
  lemma GateExactly(l: Ledger, readOk: bool, policy: FailedRetryPolicy, now: nat)
    requires policy.InRange()
    ensures var g, unreadable := Verdict(Read(l, readOk), policy, now), Unreadable(l, readOk);
            && (unreadable ==> g == Wait(Min(now + Min(policy.initialSecs, policy.maxSecs), U64_MAX)))
            && (g.GiveUp? <==> !unreadable && BudgetGone(l, readOk, policy))
            && (g == Proceed <==>
                  && !unreadable && !BudgetGone(l, readOk, policy)
                  && forall c :: Sees(l, readOk, c) ==> c.nextAttemptAt <= now)
            && (!unreadable && g.Wait? ==> now < g.at && LatestWait(l, readOk, g.at))
  {
    policy.BackoffExact(0);
    var read := Read(l, readOk);
    if read.Ok? && read.value.Some? {
      MergedBounds(l, readOk, read.value.value);
      SpentSeen(l, readOk, policy, read.value.value);
    } else {
      assert forall c :: !Sees(l, readOk, c);
    }
  }

  /** The merged state dominates every copy and is made of what the copies say. */
  lemma MergedBounds(l: Ledger, readOk: bool, m: State)
    requires Read(l, readOk) == Ok(Some(m))
    ensures forall c :: Sees(l, readOk, c) ==> c.attempts <= m.attempts && c.nextAttemptAt <= m.nextAttemptAt
    ensures exists c :: Sees(l, readOk, c) && c.attempts == m.attempts
    ensures exists c :: Sees(l, readOk, c) && c.nextAttemptAt == m.nextAttemptAt
    ensures m.gaveUpAt.Some? <==> exists c :: Sees(l, readOk, c) && c.gaveUpAt.Some?
  {
    if l.memory.Some? { assert Sees(l, readOk, l.memory.value); }
    if readOk && l.disk.Some? { assert Sees(l, readOk, l.disk.value); }
  }

  lemma SpentSeen(l: Ledger, readOk: bool, policy: FailedRetryPolicy, m: State)
    requires Read(l, readOk) == Ok(Some(m))
    ensures Spent(m, policy) <==> exists c :: Sees(l, readOk, c) && Spent(c, policy)
  {
    MergedBounds(l, readOk, m);
    if m.gaveUpAt.Some? {
      var c :| Sees(l, readOk, c) && c.gaveUpAt.Some?;
      assert Spent(c, policy);
    } else if m.attempts >= policy.maxAttempts {
      var c :| Sees(l, readOk, c) && c.attempts == m.attempts;
      assert Spent(c, policy);
    }
  }

  /**
   A record counts one more than the most attempts any copy seen shows, and the next one is due after
   the policy's spacing for that many (min(initial * 2^n, max), see `FailedRetryPolicy.BackoffExact`).
   */
  lemma RecordCounts(l: Ledger, readOk: bool, policy: FailedRetryPolicy, now: nat)
    ensures var s := Counted(Read(l, readOk), policy, now);
            && (forall c :: Sees(l, readOk, c) ==> s.attempts > c.attempts || s.attempts == U32_MAX)
            && (|| s.attempts == 1 || s.attempts == U32_MAX
                || exists c :: Sees(l, readOk, c) && s.attempts == c.attempts + 1)
            && s.gaveUpAt == None
            && (s.nextAttemptAt == now + policy.Backoff(s.attempts) ||
              s.nextAttemptAt == U64_MAX < now + policy.Backoff(s.attempts))
  {
    var read := Read(l, readOk);
    if read.Ok? && read.value.Some? {
      MergedBounds(l, readOk, read.value.value);
    } else {
      assert forall c :: !Sees(l, readOk, c);
    }
  }

  /**
   The first failure schedules the first attempt one initial backoff later, and a known entry is kept:
   every later gate decides as if `start` had not been called.
   */
  lemma StartExactly(l: Ledger, policy: FailedRetryPolicy, now: nat, readOk: bool, writeOk: bool, later: nat)
    requires policy.InRange()
    ensures var t := AfterStart(l, policy, now, readOk, writeOk);
            && (readOk && l == Ledger(None, None) ==>
                  && t.memory == Some(State(0, Min(now + Min(policy.initialSecs, policy.maxSecs), U64_MAX), None))
                  && t.disk == if writeOk then t.memory else None)
            && (l.memory.Some? || l.disk.Some? ==> t.disk == l.disk && Merged(t) == Merged(l))
            && (l.memory.Some? || l.disk.Some? ==>
                  Verdict(Read(t, true), policy, later) == Verdict(Read(l, true), policy, later))
  {
    policy.BackoffExact(0);
  }

  /** A forgotten message is as good as new; if its file stays, the next gate reads just that. */
  lemma ForgetExactly(l: Ledger, removed: bool, policy: FailedRetryPolicy, now: nat)
    ensures var g := Verdict(Read(Forgotten(l, removed), true), policy, now);
            && (removed ==> g == if policy.maxAttempts == 0 then GiveUp(FRESH) else Proceed)
            && (!removed ==> g == Verdict(Ok(l.disk), policy, now))
  {
  }

  // ----- every history of one message -----

  /** How a change of the disk copy went: not made, made, or made and safe from a power loss. */
  datatype Save = Unsaved | Written | Synced

  datatype Event =
    | Gated(policy: FailedRetryPolicy, now: nat, readOk: bool)
    | Attempted(policy: FailedRetryPolicy, now: nat, readOk: bool, save: Save)
    | Dropped(reachedNode: bool)
    | Started(policy: FailedRetryPolicy, now: nat, readOk: bool, save: Save)
    | GaveUp(state: State, now: nat, save: Save)
    | Forgot(save: Save)
    | Restarted
    | PowerLost(found: Option<State>)

  /**
   A message's history: the ledger, every version of the disk copy a power loss could leave, whether
   the last gate let a transaction through that is not counted yet, attempts recorded since the last
   forget (in this process, and overall), recorded attempts the disk does not show, those no copy
   shows any more, and transactions sent.
   */
  datatype History = History(
    ledger: Ledger, possible: set<Option<State>>, armed: bool,
    inProcess: nat, total: nat, unsaved: nat, lost: nat, sent: nat)

  /**
   One worker handles a message at a time. After `Proceed` it either records the attempt (the node
   took the transaction, or the broadcast timed out) or drops it: estimation, preflight or the send
   itself returned an error, and in the last case the transaction may have reached the node.
   */
  predicate Enabled(h: History, e: Event) {
    match e
    case Restarted => true
    case PowerLost(found) => found in h.possible
    case Attempted(_, _, _, _) => h.armed
    case Dropped(_) => h.armed
    case _ => !h.armed
  }

  /** The process goes down; a transaction the gate let through may be out without a record. */
  predicate Crash(e: Event) {
    e.Restarted? || e.PowerLost?
  }

  /** The ledger after a change of the disk copy, with the versions that may now survive. */
  function Changed(h: History, l: Ledger, save: Save): History {
    h.(ledger := l,
       possible := match save
                   case Unsaved => h.possible
                   case Written => h.possible + {l.disk}
                   case Synced => {l.disk})
  }

  function Next(h: History, e: Event): History {
    var l := h.ledger;
    match e
    case Gated(policy, now, readOk) =>
      h.(ledger := AfterRead(l, readOk), armed := Verdict(Read(l, readOk), policy, now) == Proceed)
    case Attempted(policy, now, readOk, save) =>
      var state := Counted(Read(l, readOk), policy, now);
      Changed(h, Put(AfterRead(l, readOk), state, !save.Unsaved?), save).(
        armed := false, inProcess := h.inProcess + 1, total := h.total + 1, sent := h.sent + 1,
        unsaved := if save.Unsaved? then h.unsaved + 1 else 0)
    case Dropped(reachedNode) => h.(armed := false, sent := h.sent + if reachedNode then 1 else 0)
    case Started(policy, now, readOk, save) =>
      var after := AfterStart(l, policy, now, readOk, !save.Unsaved?);
      if Read(l, readOk) == Ok(None) then Changed(h, after, save) else h.(ledger := after)
    case GaveUp(state, now, save) => Changed(h, Put(l, Tombstone(state, now), !save.Unsaved?), save)
    case Forgot(save) =>
      Changed(h, Forgotten(l, !save.Unsaved?), save).(
        inProcess := 0, total := 0, unsaved := 0, lost := 0, sent := 0)
    case Restarted =>
      h.(ledger := l.(memory := None), armed := false, inProcess := 0, unsaved := 0,
         lost := h.lost + h.unsaved, sent := h.sent + if h.armed then 1 else 0)
    case PowerLost(found) =>
      h.(ledger := Ledger(None, found), possible := {found}, armed := false, inProcess := 0, unsaved := 0,
         lost := if Dead(found) then h.lost + h.unsaved
                 else Max(h.lost + h.unsaved, SatSub(h.total, Attempts(found))),
         sent := h.sent + if h.armed then 1 else 0)
  }

  ghost predicate Allowed(h: History, events: seq<Event>) {
    events == [] || (var n := |events| - 1; Allowed(h, events[..n]) && Enabled(After(h, events[..n]), events[n]))
  }

  ghost function After(h: History, events: seq<Event>): History {
    if events == [] then h else Next(After(h, events[..|events| - 1]), events[|events| - 1])
  }

  /** A new process that finds `disk` for the message. */
  function Initial(disk: Option<State>): History {
    History(Ledger(None, disk), {disk}, false, 0, 0, 0, 0, 0)
  }

  predicate Dead(s: Option<State>) {
    s.Some? && s.value.gaveUpAt.Some?
  }

  function Attempts(s: Option<State>): nat {
    if s.Some? then s.value.attempts else 0
  }

  /** Attempts a read in this process is sure to see. */
  function Known(l: Ledger): nat {
    if l.memory.Some? then Attempts(l.memory) else Attempts(l.disk)
  }

  ghost predicate Inv(h: History, budget: nat) {
    var l := h.ledger;
    && (l.memory.Some? && !Dead(l.memory) ==> !Dead(l.disk) && Attempts(l.disk) <= Attempts(l.memory))
    && (l.memory.None? ==> h.inProcess == 0)
    && (!Dead(l.memory) ==> h.inProcess <= Known(l))
    && (!Dead(l.memory) && !Dead(l.disk) ==> h.total <= Known(l) + h.lost)
    && (!Dead(l.disk) ==> h.total <= Attempts(l.disk) + h.unsaved + h.lost)
    && (h.armed ==> !Dead(l.memory) && !Dead(l.disk) && Known(l) < budget && (l.memory.None? ==> l.disk.None?))
    && h.inProcess <= budget
    && h.total <= budget + h.lost
  }

  ghost predicate WithinBudget(e: Event, budget: nat) {
    && (e.Gated? ==> e.policy.maxAttempts <= budget)
    && (e.Attempted? ==> e.policy.maxAttempts <= budget)
  }

  lemma StepKeepsInv(h: History, e: Event, budget: nat)
    requires Inv(h, budget) && Enabled(h, e) && WithinBudget(e, budget) && budget <= U32_MAX
    ensures Inv(Next(h, e), budget)
  {
  }

  lemma {:induction false} RunKeepsInv(h: History, events: seq<Event>, budget: nat)
    requires Inv(h, budget) && Allowed(h, events) && budget <= U32_MAX
    requires forall e :: e in events ==> WithinBudget(e, budget)
    ensures Inv(After(h, events), budget)
  {
    if events != [] {
      var n := |events| - 1;
      assert events[n] in events && forall e :: e in events[..n] ==> e in events;
      RunKeepsInv(h, events[..n], budget);
      StepKeepsInv(After(h, events[..n]), events[n], budget);
    }
  }

  // ----- transactions sent without a record -----

  /** A transaction is out and not counted: a crash after `Proceed`, or an errored send that arrived. */
  predicate Escapes(h: History, e: Event) {
    h.armed && (Crash(e) || e == Dropped(true))
  }

  /** Exactly these steps let the transactions sent run ahead of the attempts recorded. */
  lemma SentAheadIff(h: History, e: Event)
    requires Enabled(h, e) && !e.Forgot?
    ensures Next(h, e).sent - Next(h, e).total > h.sent - h.total <==> Escapes(h, e)
  {
  }

  /** Such transactions since the last forget. */
  ghost function Uncounted(h: History, events: seq<Event>): nat {
    if events == [] then 0
    else
      var n := |events| - 1;
      if events[n].Forgot? then 0
      else Uncounted(h, events[..n]) + if Escapes(After(h, events[..n]), events[n]) then 1 else 0
  }

  /** In every run the transactions sent are exactly the attempts recorded and those that escaped. */
  lemma {:induction false} SentExactly(h: History, events: seq<Event>)
    requires h.sent == h.total && Allowed(h, events)
    ensures After(h, events).sent == After(h, events).total + Uncounted(h, events)
  {
    if events != [] { SentExactly(h, events[..|events| - 1]); }
  }

  /** A concrete run that overspends a budget of one: an errored send reached the node. */
  lemma OverspendExample()
    ensures var policy := FailedRetryPolicy(1, 60, 600);
            var h1 := Next(Initial(None), Gated(policy, 0, true));
            var h2 := Next(h1, Dropped(true));
            var h3 := Next(h2, Gated(policy, 0, true));
            var h4 := Next(h3, Attempted(policy, 0, true, Synced));
            h1.armed && !h2.armed && h3.armed && h4.sent == 2 && h4.total == 1
  {
  }

  /**
   The budget: whatever reads and writes fail, one process records at most `budget` attempts
   between forgets; across crashes and power losses only attempts that no surviving copy shows can be
   repeated. The transactions sent are exactly the recorded ones and those that escaped.
   */
  lemma BudgetHolds(disk: Option<State>, events: seq<Event>, budget: nat)
    requires Allowed(Initial(disk), events) && budget <= U32_MAX
    requires forall e :: e in events ==> WithinBudget(e, budget)
    ensures var h := After(Initial(disk), events);
            && h.inProcess <= budget && h.total <= budget + h.lost
            && h.sent == h.total + Uncounted(Initial(disk), events)
  {
    RunKeepsInv(Initial(disk), events, budget);
    SentExactly(Initial(disk), events);
  }

  /** Nothing is lost, and what a crash of the run may leave on disk shows all recorded attempts. */
  ghost predicate AllShown(h: History, powerLosses: bool) {
    && h.lost == 0 && h.unsaved == 0
    && h.ledger.disk in h.possible
    && (powerLosses ==> forall c :: c in h.possible && !Dead(c) ==> h.total <= Attempts(c))
  }

  /** Attempts are saved well enough for the crashes of the run. */
  predicate SavesEnough(e: Event, powerLosses: bool) {
    && (e.PowerLost? ==> powerLosses)
    && (e.Attempted? ==> if powerLosses then e.save.Synced? else !e.save.Unsaved?)
  }

  lemma StepKeepsShown(h: History, e: Event, budget: nat, powerLosses: bool)
    requires Inv(h, budget) && Enabled(h, e) && WithinBudget(e, budget) && budget <= U32_MAX
    requires AllShown(h, powerLosses) && SavesEnough(e, powerLosses)
    ensures AllShown(Next(h, e), powerLosses)
  {
    StepKeepsInv(h, e, budget);
  }

  lemma {:induction false} RunKeepsShown(disk: Option<State>, events: seq<Event>, budget: nat, powerLosses: bool)
    requires Allowed(Initial(disk), events) && budget <= U32_MAX
    requires forall e :: e in events ==> WithinBudget(e, budget) && SavesEnough(e, powerLosses)
    ensures AllShown(After(Initial(disk), events), powerLosses)
  {
    if events != [] {
      var n := |events| - 1;
      assert events[n] in events && forall e :: e in events[..n] ==> e in events;
      RunKeepsShown(disk, events[..n], budget, powerLosses);
      RunKeepsInv(Initial(disk), events[..n], budget);
      StepKeepsShown(After(Initial(disk), events[..n]), events[n], budget, powerLosses);
    }
  }

  /**
   When every counted attempt is on disk (safely so, if power may be lost), the gas budget survives
   all crashes: at most `budget` transactions, plus one per crash between `Proceed` and the record and
   one per errored send that reached the node.
   */
  lemma GasBudgetAcrossRestarts(disk: Option<State>, events: seq<Event>, budget: nat, powerLosses: bool)
    requires Allowed(Initial(disk), events) && budget <= U32_MAX
    requires forall e :: e in events ==> WithinBudget(e, budget) && SavesEnough(e, powerLosses)
    ensures var h := After(Initial(disk), events);
            && h.total <= budget
            && h.sent == h.total + Uncounted(Initial(disk), events) <= budget + Uncounted(Initial(disk), events)
  {
    BudgetHolds(disk, events, budget);
    RunKeepsShown(disk, events, budget, powerLosses);
  }

  // ----- tombstones -----

  /** The message is given up in every copy a process may find after what `save` survives. */
  ghost predicate Abandoned(h: History, save: Save) {
    var l := h.ledger;
    && !h.armed
    && match save
       case Unsaved => Dead(l.memory)
       case Written => Dead(l.disk) && (l.memory.Some? ==> Dead(l.memory))
       case Synced => Dead(l.disk) && (l.memory.Some? ==> Dead(l.memory)) && forall c :: c in h.possible ==> Dead(c)
  }

  /** Not a forget, and not a crash that a tombstone saved this far does not survive. */
  predicate Survived(e: Event, save: Save) {
    !e.Forgot? && (e.Restarted? ==> !save.Unsaved?) && (e.PowerLost? ==> save.Synced?)
  }

  lemma {:induction false} AbandonedForever(h: History, events: seq<Event>, save: Save)
    requires Abandoned(h, save) && Allowed(h, events)
    requires forall e :: e in events ==> Survived(e, save)
    ensures Abandoned(After(h, events), save) && After(h, events).sent == h.sent
  {
    if events != [] {
      var n := |events| - 1;
      assert events[n] in events && forall e :: e in events[..n] ==> e in events;
      AbandonedForever(h, events[..n], save);
    }
  }

  /**
   A tombstone is final: no later gate proceeds, under any budget and whatever reads and writes
   fail, until the message is forgotten. One that reached the disk also survives every restart, and
   one safely on disk every power loss.
   */
  lemma TombstoneIsFinal(h: History, state: State, now: nat, save: Save, events: seq<Event>,
      policy: FailedRetryPolicy, later: nat, readOk: bool)
    requires Enabled(h, GaveUp(state, now, save))
    requires Allowed(Next(h, GaveUp(state, now, save)), events)
    requires forall e :: e in events ==> Survived(e, save)
    ensures var t := After(Next(h, GaveUp(state, now, save)), events);
            Verdict(Read(t.ledger, readOk), policy, later) != Proceed && t.sent == h.sent
  {
    AbandonedForever(Next(h, GaveUp(state, now, save)), events, save);
  }

  // ----- nothing is given up early -----

  ghost function Recorded(events: seq<Event>): nat {
    if events == [] then 0
    else Recorded(events[..|events| - 1]) + if events[|events| - 1].Attempted? then 1 else 0
  }

  /** No copy that is or may come back shows a tombstone or more than `n` attempts. */
  ghost predicate AliveWithin(h: History, n: nat) {
    && (h.ledger.memory.Some? ==> h.ledger.memory.value.gaveUpAt == None && h.ledger.memory.value.attempts <= n)
    && (forall c :: (c in h.possible || c == h.ledger.disk) && c.Some? ==>
          c.value.gaveUpAt == None && c.value.attempts <= n)
  }

  lemma StepKeepsAlive(h: History, e: Event, n: nat)
    requires AliveWithin(h, n) && Enabled(h, e) && !e.GaveUp?
    ensures AliveWithin(Next(h, e), n + if e.Attempted? then 1 else 0)
  {
  }

  lemma {:induction false} RunKeepsAlive(events: seq<Event>)
    requires Allowed(Initial(None), events) && forall e :: e in events ==> !e.GaveUp?
    ensures AliveWithin(After(Initial(None), events), Recorded(events))
  {
    if events != [] {
      var n := |events| - 1;
      assert events[n] in events && forall e :: e in events[..n] ==> e in events;
      RunKeepsAlive(events[..n]);
      StepKeepsAlive(After(Initial(None), events[..n]), events[n], Recorded(events[..n]));
    }
  }

  /**
   A message is given up only when its budget is gone: in every run from a fresh message, a `GiveUp`
   verdict comes after an earlier tombstone, or after as many recorded attempts as the policy allows.
   */
  lemma GiveUpIsEarned(events: seq<Event>, policy: FailedRetryPolicy, now: nat, readOk: bool)
    requires Allowed(Initial(None), events) && policy.InRange()
    requires Verdict(Read(After(Initial(None), events).ledger, readOk), policy, now).GiveUp?
    ensures (exists e :: e in events && e.GaveUp?) || Recorded(events) >= policy.maxAttempts
  {
    if forall e :: e in events ==> !e.GaveUp? {
      RunKeepsAlive(events);
      GateExactly(After(Initial(None), events).ledger, readOk, policy, now);
    }
  }

  /** A copy that lets a retry through: absent, or alive, due and below the budget. */
  predicate Open(copy: Option<State>, policy: FailedRetryPolicy, now: nat) {
    && Attempts(copy) < policy.maxAttempts
    && (copy.Some? ==> !Dead(copy) && copy.value.nextAttemptAt <= now)
  }

  /**
   Exactly what the next process makes of a tombstone: the message is retried again if and only if
   the copy it finds can be read and is an older one that lets a retry through. A restart finds one
   only if the tombstone was not written, a power loss only if it was not synced.
   */
  lemma UndoneTombstoneIff(h: History, state: State, now: nat, save: Save, e: Event,
      policy: FailedRetryPolicy, later: nat, readOk: bool)
    requires Enabled(h, GaveUp(state, now, save))
    requires Crash(e) && Enabled(Next(h, GaveUp(state, now, save)), e)
    ensures var t := Next(Next(h, GaveUp(state, now, save)), e);
            Verdict(Read(t.ledger, readOk), policy, later) == Proceed <==>
              && readOk
              && if e.Restarted? then save.Unsaved? && Open(h.ledger.disk, policy, later)
                 else !save.Synced? && e.found in h.possible && Open(e.found, policy, later)
  {
  }

  /** A concrete run: the last attempt and the tombstone are not saved, and a restart sends again. */
  lemma UndoneTombstoneExample()
    ensures var policy := FailedRetryPolicy(1, 60, 600);
            var h1 := Next(Initial(None), Gated(policy, 0, true));
            var h2 := Next(h1, Attempted(policy, 0, true, Unsaved));
            var h3 := Next(h2, GaveUp(State(1, 120, None), 0, Unsaved));
            var h4 := Next(h3, Restarted);
            && h1.armed && !h2.armed && Verdict(Read(h2.ledger, true), policy, 0) == GiveUp(State(1, 120, None))
            && Verdict(Read(h4.ledger, true), policy, 0) == Proceed
  {
    var policy := FailedRetryPolicy(1, 60, 600);
    assert Pow2(1) == 2;
    assert policy.Backoff(1) == 120;
  }
}
