/**
 Signer-serialized broadcasting: any number of workers, one lock per signer, a nonce read from the
 chain while the lock is held. Timeouts drop a send at any point; a transaction abandoned that way,
 or whose send returned an error, may still reach the chain later.
 */
module Broadcast {
  import opened Basics

  type Worker = nat
  type Lock = nat

  // ----- the registry of per-signer locks -----

  class BroadcastLocks {
    var locks: map<Address, Lock>
    var created: nat

    /** Locks are numbered as they are created, so two signers never share one. */
    ghost predicate Valid()
      reads this
    {
      Registry(locks, created)
    }

    constructor ()
      ensures Valid() && locks == map[]
    {
      locks, created := map[], 0;
    }

    /** The signer's lock, created on first use and never replaced. */
    method SlotFor(signer: Address) returns (lock: Lock)
      requires Valid()
      modifies this
      ensures Valid() && signer in locks && lock == locks[signer]
      ensures locks == if signer in old(locks) then old(locks) else old(locks)[signer := old(created)]
      ensures created == if signer in old(locks) then old(created) else old(created) + 1
    {
      if signer !in locks {
        locks, created := locks[signer := created], created + 1;
      }
      return locks[signer];
    }
  }

  ghost predicate Registry(locks: map<Address, Lock>, created: nat) {
    && (forall a :: a in locks ==> locks[a] < created)
    && forall a, b :: a in locks && b in locks && locks[a] == locks[b] ==> a == b
  }

  // ----- workers and chain -----

  datatype Phase =
    | Idle
    | Queued(signer: Address)
    | Holding(signer: Address)
    | Signed(signer: Address, nonce: nat)

  datatype Tx = Tx(signer: Address, nonce: nat)

  /** `pending` is the chain's pending transaction count; `stray` are abandoned transactions. */
  datatype System = System(
    locks: map<Address, Lock>, created: nat, owner: map<Lock, Worker>,
    workers: map<Worker, Phase>, pending: map<Address, nat>, stray: set<Tx>)

  /** A send reaches the node, never does, or returns an error and arrives later. */
  datatype SendResult = Landed | Lost | Late

  datatype Event =
    | Asks(w: Worker, signer: Address)
    | QueueTimesOut(w: Worker)
    | Acquires(w: Worker)
    | ReadsNonce(w: Worker, nonce: nat)
    | Sends(w: Worker, result: SendResult)
    | FailsEarly(w: Worker)
    | Stalls(w: Worker)
    | StrayLands(tx: Tx)

  function PhaseOf(s: System, w: Worker): Phase {
    if w in s.workers then s.workers[w] else Idle
  }

  function Pending(s: System, a: Address): nat {
    if a in s.pending then s.pending[a] else 0
  }

  function SignerOf(p: Phase): Option<Address> {
    match p
    case Idle => None
    case Queued(_) => None
    case Holding(a) => Some(a)
    case Signed(a, _) => Some(a)
  }

  /** A node takes a transaction at its pending count and refuses a spent nonce. */
  function Arrive(s: System, tx: Tx): System {
    if tx.nonce == Pending(s, tx.signer) then s.(pending := s.pending[tx.signer := tx.nonce + 1]) else s
  }

  function Release(s: System, w: Worker, a: Address): System {
    s.(workers := s.workers[w := Idle], owner := if a in s.locks then s.owner - {s.locks[a]} else s.owner)
  }

  ghost predicate Enabled(s: System, e: Event) {
    match e
    case Asks(w, _) => PhaseOf(s, w).Idle?
    case QueueTimesOut(w) => PhaseOf(s, w).Queued?
    case Acquires(w) =>
      var p := PhaseOf(s, w);
      p.Queued? && p.signer in s.locks && s.locks[p.signer] !in s.owner
    case ReadsNonce(w, nonce) =>
      // A lagging node may answer with an older count, never with a larger one.
      PhaseOf(s, w).Holding? && nonce <= Pending(s, PhaseOf(s, w).signer)
    case Sends(w, _) => PhaseOf(s, w).Signed?
    case FailsEarly(w) => PhaseOf(s, w).Holding?
    case Stalls(w) => PhaseOf(s, w).Holding? || PhaseOf(s, w).Signed?
    case StrayLands(tx) => tx in s.stray
  }

  function Next(s: System, e: Event): System {
    match e
    case Asks(w, a) =>
      var t := s.(workers := s.workers[w := Queued(a)]);
      if a in s.locks then t else t.(locks := s.locks[a := s.created], created := s.created + 1)
    case QueueTimesOut(w) => s.(workers := s.workers[w := Idle])
    case Acquires(w) =>
      var p := PhaseOf(s, w);
      if p.Queued? && p.signer in s.locks
      then s.(workers := s.workers[w := Holding(p.signer)], owner := s.owner[s.locks[p.signer] := w]) else s
    case ReadsNonce(w, nonce) =>
      var p := PhaseOf(s, w);
      if p.Holding? then s.(workers := s.workers[w := Signed(p.signer, nonce)]) else s
    case Sends(w, result) =>
      var p := PhaseOf(s, w);
      if p.Signed? then
        var t := Release(s, w, p.signer);
        match result
        case Landed => Arrive(t, Tx(p.signer, p.nonce))
        case Lost => t
        case Late => t.(stray := t.stray + {Tx(p.signer, p.nonce)})
      else s
    case FailsEarly(w) =>
      var p := PhaseOf(s, w);
      if p.Holding? then Release(s, w, p.signer) else s
    case Stalls(w) =>
      var p := PhaseOf(s, w);
      if p.Holding? then Release(s, w, p.signer)
      else if p.Signed? then Release(s, w, p.signer).(stray := s.stray + {Tx(p.signer, p.nonce)})
      else s
    case StrayLands(tx) => Arrive(s.(stray := s.stray - {tx}), tx)
  }

  ghost predicate Run(states: seq<System>, events: seq<Event>) {
    && |states| == |events| + 1
    && states[0].locks == map[] && states[0].created == 0 && states[0].owner == map[]
    && states[0].workers == map[] && states[0].stray == {}
    && (forall i {:trigger Enabled(states[i], events[i])} :: 0 <= i < |events| ==>
          Enabled(states[i], events[i]) && states[i + 1] == Next(states[i], events[i]))
  }

  ghost predicate Owns(s: System, w: Worker, a: Address) {
    a in s.locks && s.locks[a] in s.owner && s.owner[s.locks[a]] == w
  }

  /** A worker inside owns its signer's lock and holds no nonce ahead of the chain. */
  ghost predicate WorkerOk(s: System, w: Worker) {
    match PhaseOf(s, w)
    case Idle => true
    case Queued(a) => a in s.locks
    case Holding(a) => Owns(s, w, a)
    case Signed(a, n) => Owns(s, w, a) && n <= Pending(s, a)
  }

  /** The worker is between lock and release for this signer. */
  predicate Inside(s: System, w: Worker, a: Address) {
    SignerOf(PhaseOf(s, w)) == Some(a)
  }

  /** A lock that is held is held by a worker inside. */
  ghost predicate OwnersInside(s: System) {
    && (forall l :: l in s.owner ==> l < s.created)
    && (forall a :: a in s.locks && s.locks[a] in s.owner ==> Inside(s, s.owner[s.locks[a]], a))
  }

  ghost predicate Inv(s: System) {
    && Registry(s.locks, s.created)
    && (forall w :: WorkerOk(s, w))
    && OwnersInside(s)
    && (forall tx :: tx in s.stray ==> tx.nonce <= Pending(s, tx.signer))
  }

  lemma ReleaseKeepsInv(s: System, w: Worker, a: Address)
    requires Inv(s) && SignerOf(PhaseOf(s, w)) == Some(a)
    ensures Inv(Release(s, w, a))
  {
    var t := Release(s, w, a);
    assert WorkerOk(s, w);
    forall x ensures WorkerOk(t, x) { assert WorkerOk(s, x); }
  }

  lemma ArriveKeepsInv(s: System, tx: Tx)
    requires Inv(s) && tx.nonce <= Pending(s, tx.signer)
    ensures Inv(Arrive(s, tx)) && forall a :: Pending(s, a) <= Pending(Arrive(s, tx), a)
  {
    forall x ensures WorkerOk(Arrive(s, tx), x) { assert WorkerOk(s, x); }
  }

  /** A new lock gets a number nobody holds. */
  lemma RegisterKeepsInv(s: System, a: Address)
    requires Inv(s) && a !in s.locks
    ensures Inv(s.(locks := s.locks[a := s.created], created := s.created + 1))
  {
    var t := s.(locks := s.locks[a := s.created], created := s.created + 1);
    forall x ensures WorkerOk(t, x) { assert WorkerOk(s, x); }
    forall b | b in t.locks && t.locks[b] in t.owner ensures Inside(t, t.owner[t.locks[b]], b) {
      assert b in s.locks && Inside(s, s.owner[s.locks[b]], b);
    }
  }

  lemma QueueKeepsInv(s: System, w: Worker, a: Address)
    requires Inv(s) && PhaseOf(s, w).Idle? && a in s.locks
    ensures Inv(s.(workers := s.workers[w := Queued(a)]))
  {
    var t := s.(workers := s.workers[w := Queued(a)]);
    forall x ensures WorkerOk(t, x) { assert WorkerOk(s, x); }
    forall b | b in t.locks && t.locks[b] in t.owner ensures Inside(t, t.owner[t.locks[b]], b) {
      assert Inside(s, s.owner[s.locks[b]], b);
    }
  }

  lemma AskKeepsInv(s: System, w: Worker, a: Address)
    requires Inv(s) && Enabled(s, Asks(w, a))
    ensures Inv(Next(s, Asks(w, a)))
  {
    if a in s.locks {
      QueueKeepsInv(s, w, a);
    } else {
      RegisterKeepsInv(s, a);
      QueueKeepsInv(s.(locks := s.locks[a := s.created], created := s.created + 1), w, a);
    }
  }

  lemma AcquireKeepsInv(s: System, w: Worker)
    requires Inv(s) && Enabled(s, Acquires(w))
    ensures Inv(Next(s, Acquires(w)))
  {
    forall x ensures WorkerOk(Next(s, Acquires(w)), x) { assert WorkerOk(s, x); }
  }

  lemma WaitKeepsInv(s: System, e: Event)
    requires Inv(s) && Enabled(s, e) && (e.QueueTimesOut? || e.ReadsNonce?)
    ensures Inv(Next(s, e))
  {
    forall x ensures WorkerOk(Next(s, e), x) { assert WorkerOk(s, x); }
  }

  lemma SendKeepsInv(s: System, w: Worker, result: SendResult)
    requires Inv(s) && PhaseOf(s, w).Signed?
    ensures Inv(Next(s, Sends(w, result))) && forall a :: Pending(s, a) <= Pending(Next(s, Sends(w, result)), a)
  {
    var p := PhaseOf(s, w);
    assert WorkerOk(s, w);
    var r, t := Release(s, w, p.signer), Next(s, Sends(w, result));
    ReleaseKeepsInv(s, w, p.signer);
    match result
    case Landed => ArriveKeepsInv(r, Tx(p.signer, p.nonce));
    case Lost =>
    case Late => forall x ensures WorkerOk(t, x) { assert WorkerOk(r, x); }
  }

  lemma StallKeepsInv(s: System, w: Worker)
    requires Inv(s) && SignerOf(PhaseOf(s, w)).Some?
    ensures Inv(Next(s, Stalls(w)))
  {
    assert WorkerOk(s, w);
    var r, t := Release(s, w, PhaseOf(s, w).signer), Next(s, Stalls(w));
    ReleaseKeepsInv(s, w, PhaseOf(s, w).signer);
    forall x ensures WorkerOk(t, x) { assert WorkerOk(r, x); }
  }

  lemma StrayKeepsInv(s: System, tx: Tx)
    requires Inv(s) && tx in s.stray
    ensures Inv(Next(s, StrayLands(tx))) && forall a :: Pending(s, a) <= Pending(Next(s, StrayLands(tx)), a)
  {
    var r := s.(stray := s.stray - {tx});
    forall x ensures WorkerOk(r, x) { assert WorkerOk(s, x); }
    ArriveKeepsInv(r, tx);
  }

  lemma StepKeepsInv(s: System, e: Event)
    requires Inv(s) && Enabled(s, e)
    ensures Inv(Next(s, e)) && forall a :: Pending(s, a) <= Pending(Next(s, e), a)
  {
    match e
    case Sends(w, result) => SendKeepsInv(s, w, result);
    case FailsEarly(w) => ReleaseKeepsInv(s, w, PhaseOf(s, w).signer);
    case Stalls(w) => StallKeepsInv(s, w);
    case StrayLands(tx) => StrayKeepsInv(s, tx);
    case Asks(w, a) => AskKeepsInv(s, w, a);
    case Acquires(w) => AcquireKeepsInv(s, w);
    case _ => WaitKeepsInv(s, e);
  }

  lemma {:induction false} RunKeepsInv(states: seq<System>, events: seq<Event>, k: nat)
    requires Run(states, events) && k <= |events|
    ensures Inv(states[k])
  {
    if k > 0 {
      RunKeepsInv(states, events, k - 1);
      StepKeepsInv(states[k - 1], events[k - 1]);
    }
  }

  /** For any number of workers and any interleaving, at most one is between lock and release. */
  lemma OneSendPerSigner(states: seq<System>, events: seq<Event>, k: nat, v: Worker, w: Worker)
    requires Run(states, events) && k <= |events|
    requires SignerOf(PhaseOf(states[k], v)).Some?
    requires SignerOf(PhaseOf(states[k], v)) == SignerOf(PhaseOf(states[k], w))
    ensures v == w
  {
    RunKeepsInv(states, events, k);
    var s := states[k];
    assert WorkerOk(s, v) && WorkerOk(s, w);
  }

  /**
   A slot is never leaked: after any sends, failures, timeouts and stalls, a worker that waits for a
   signer's slot can take it as soon as no worker is inside.
   */
  lemma SlotIsFree(states: seq<System>, events: seq<Event>, k: nat, w: Worker)
    requires Run(states, events) && k <= |events| && PhaseOf(states[k], w).Queued?
    requires forall v :: !Inside(states[k], v, PhaseOf(states[k], w).signer)
    ensures Enabled(states[k], Acquires(w))
  {
    RunKeepsInv(states, events, k);
    assert WorkerOk(states[k], w);
  }

  /** However a broadcast ends, its worker is out again and its signer's slot is free. */
  lemma BroadcastReturns(states: seq<System>, events: seq<Event>, k: nat, w: Worker, a: Address)
    requires Run(states, events) && k < |events|
    requires events[k] == QueueTimesOut(w) || events[k] == FailsEarly(w) || OwnSend(events[k], w)
    ensures PhaseOf(states[k + 1], w) == Idle
    ensures Inside(states[k], w, a) ==> a in states[k + 1].locks && states[k + 1].locks[a] !in states[k + 1].owner
  {
    RunKeepsInv(states, events, k);
    assert Enabled(states[k], events[k]) && WorkerOk(states[k], w);
  }

  /** The transaction an event puts on the wire. */
  function OnWire(s: System, e: Event): Option<Tx> {
    match e
    case Sends(w, _) =>
      var p := PhaseOf(s, w);
      if p.Signed? then Some(Tx(p.signer, p.nonce)) else None
    case StrayLands(tx) => Some(tx)
    case _ => None
  }

  /** No transaction is ever ahead of the chain, so failures and timeouts leave no gap behind. */
  lemma NoNonceGap(states: seq<System>, events: seq<Event>, k: nat)
    requires Run(states, events) && k < |events| && OnWire(states[k], events[k]).Some?
    ensures var tx := OnWire(states[k], events[k]).value; tx.nonce <= Pending(states[k], tx.signer)
  {
    RunKeepsInv(states, events, k);
    assert Enabled(states[k], events[k]);
    if events[k].Sends? { assert WorkerOk(states[k], events[k].w); }
  }

  // ----- freshness when nothing stalls -----

  /** No stall, no late arrival, and a nonce read answered by an up-to-date node. */
  ghost predicate CalmStep(s: System, e: Event) {
    match e
    case Stalls(_) => false
    case Sends(_, result) => !result.Late?
    case ReadsNonce(w, nonce) => PhaseOf(s, w).Holding? && nonce == Pending(s, PhaseOf(s, w).signer)
    case _ => true
  }

  ghost predicate Calm(states: seq<System>, events: seq<Event>, k: nat) {
    && k <= |events| < |states|
    && forall i :: 0 <= i < k ==> CalmStep(states[i], events[i])
  }

  ghost predicate WorkerExact(s: System, w: Worker) {
    var p := PhaseOf(s, w);
    p.Signed? ==> p.nonce == Pending(s, p.signer)
  }

  ghost predicate Exact(s: System) {
    s.stray == {} && forall w :: WorkerExact(s, w)
  }

  lemma StepKeepsExact(s: System, e: Event)
    requires Inv(s) && Enabled(s, e) && Exact(s) && CalmStep(s, e)
    ensures Exact(Next(s, e))
  {
    var t := Next(s, e);
    forall w ensures WorkerExact(t, w) {
      assert WorkerExact(s, w) && WorkerOk(s, w);
      if e.Sends? { assert WorkerOk(s, e.w); }
    }
  }

  lemma {:induction false} CalmKeepsExact(states: seq<System>, events: seq<Event>, k: nat)
    requires Run(states, events) && Calm(states, events, k)
    ensures Exact(states[k])
  {
    if k > 0 {
      CalmKeepsExact(states, events, k - 1);
      RunKeepsInv(states, events, k - 1);
      StepKeepsExact(states[k - 1], events[k - 1]);
    }
  }

  lemma StepGrows(states: seq<System>, events: seq<Event>, k: nat, a: Address)
    requires Run(states, events) && k < |events|
    ensures Pending(states[k], a) <= Pending(states[k + 1], a)
  {
    RunKeepsInv(states, events, k);
    StepKeepsInv(states[k], events[k]);
  }

  lemma {:induction false} PendingGrows(states: seq<System>, events: seq<Event>, i: nat, k: nat, a: Address)
    requires Run(states, events) && i <= k <= |events|
    ensures Pending(states[i], a) <= Pending(states[k], a)
  {
    if i < k {
      PendingGrows(states, events, i, k - 1, a);
      StepGrows(states, events, k - 1, a);
    }
  }

  /**
   Without stalls every submitted nonce is the chain's next one: it is taken, and it differs from
   every nonce that landed before for the same signer.
   */
  lemma FreshWithoutStalls(states: seq<System>, events: seq<Event>, i: nat, k: nat)
    requires Run(states, events) && Calm(states, events, k) && i < k < |events|
    requires OnWire(states[i], events[i]).Some? && OnWire(states[k], events[k]).Some?
    requires events[i].Sends? ==> events[i].result.Landed?
    ensures var tx := OnWire(states[k], events[k]).value;
            tx.nonce == Pending(states[k], tx.signer) && tx != OnWire(states[i], events[i]).value
  {
    CalmKeepsExact(states, events, k);
    assert Calm(states, events, i);
    CalmKeepsExact(states, events, i);
    assert Enabled(states[i], events[i]) && states[i + 1] == Next(states[i], events[i]);
    assert Enabled(states[k], events[k]);
    if events[i].Sends? { assert WorkerExact(states[i], events[i].w); }
    if events[k].Sends? { assert WorkerExact(states[k], events[k].w); }
    var sent := OnWire(states[i], events[i]).value;
    assert Pending(states[i + 1], sent.signer) == sent.nonce + 1;
    PendingGrows(states, events, i + 1, k, sent.signer);
  }

  // ----- freshness, exactly -----

  /** An abandoned transaction of `a` arrives and is taken. */
  predicate StrayTaken(s: System, e: Event, a: Address) {
    e.StrayLands? && e.tx.signer == a && e.tx.nonce == Pending(s, a)
  }

  predicate OwnSend(e: Event, w: Worker) {
    (e.Sends? || e.Stalls?) && e.w == w
  }

  lemma StepMovesCountIff(s: System, e: Event, w: Worker)
    requires Inv(s) && Enabled(s, e) && PhaseOf(s, w).Signed? && !OwnSend(e, w)
    ensures var a, t := PhaseOf(s, w).signer, Next(s, e);
            PhaseOf(t, w) == PhaseOf(s, w) && (Pending(t, a) == Pending(s, a) <==> !StrayTaken(s, e, a))
  {
    assert WorkerOk(s, w);
    if e.Sends? { assert WorkerOk(s, e.w); }
  }

  /** While a worker holds a signed transaction, only a stray one of its signer moves the count. */
  lemma CountMovesIff(states: seq<System>, events: seq<Event>, k: nat, w: Worker)
    requires Run(states, events) && k < |events| && PhaseOf(states[k], w).Signed? && !OwnSend(events[k], w)
    ensures var a := PhaseOf(states[k], w).signer;
            && PhaseOf(states[k + 1], w) == PhaseOf(states[k], w)
            && (Pending(states[k + 1], a) == Pending(states[k], a) <==> !StrayTaken(states[k], events[k], a))
  {
    RunKeepsInv(states, events, k);
    StepMovesCountIff(states[k], events[k], w);
  }

  ghost predicate Undisturbed(states: seq<System>, events: seq<Event>, i: nat, k: nat, a: Address) {
    && k <= |events| < |states|
    && forall j :: i <= j < k ==> !StrayTaken(states[j], events[j], a)
  }

  lemma {:induction false} CountStandsIff(states: seq<System>, events: seq<Event>, i: nat, k: nat, w: Worker)
    requires Run(states, events) && i <= k <= |events| && PhaseOf(states[i], w).Signed?
    requires forall j :: i <= j < k ==> !OwnSend(events[j], w)
    ensures var a := PhaseOf(states[i], w).signer;
            && PhaseOf(states[k], w) == PhaseOf(states[i], w)
            && Pending(states[i], a) <= Pending(states[k], a)
            && (Pending(states[k], a) == Pending(states[i], a) <==> Undisturbed(states, events, i, k, a))
  {
    if i < k {
      CountStandsIff(states, events, i, k - 1, w);
      CountMovesIff(states, events, k - 1, w);
      StepGrows(states, events, k - 1, PhaseOf(states[i], w).signer);
      UndisturbedSplits(states, events, i, k, PhaseOf(states[i], w).signer);
    }
  }

  lemma UndisturbedSplits(states: seq<System>, events: seq<Event>, i: nat, k: nat, a: Address)
    requires i < k <= |events| < |states|
    ensures Undisturbed(states, events, i, k, a) <==>
              Undisturbed(states, events, i, k - 1, a) && !StrayTaken(states[k - 1], events[k - 1], a)
  {
  }

  /**
   Exactly when a submitted nonce is fresh, in every run, with stalls and late arrivals or without:
   its read was up to date, and no abandoned transaction of the same signer was taken in between.
   Nothing else another worker does can make it stale.
   */
  lemma FreshIff(states: seq<System>, events: seq<Event>, i: nat, k: nat, w: Worker)
    requires Run(states, events) && i < k < |events|
    requires events[i].ReadsNonce? && events[i].w == w && events[k].Sends? && events[k].w == w
    requires forall j :: i < j < k ==> !OwnSend(events[j], w)
    ensures OnWire(states[k], events[k]).Some? && OnWire(states[k], events[k]).value.nonce == events[i].nonce
    ensures var tx := OnWire(states[k], events[k]).value;
            tx.nonce == Pending(states[k], tx.signer) <==>
              && tx.nonce == Pending(states[i], tx.signer)
              && Undisturbed(states, events, i + 1, k, tx.signer)
  {
    assert Enabled(states[i], events[i]) && states[i + 1] == Next(states[i], events[i]);
    CountStandsIff(states, events, i + 1, k, w);
  }

  /** A worker asks, gets the lock and reads the nonce, each step enabled. */
  ghost predicate Prepares(s: System, w: Worker, a: Address, nonce: nat, t: System) {
    var asked := Next(s, Asks(w, a));
    var holding := Next(asked, Acquires(w));
    && Enabled(s, Asks(w, a)) && Enabled(asked, Acquires(w)) && Enabled(holding, ReadsNonce(w, nonce))
    && t == Next(holding, ReadsNonce(w, nonce))
  }

  /** A concrete run without a stall whose last nonce is spent: a send that errored arrives late. */
  lemma LateArrivalExample()
    ensures var s0 := System(map[], 0, map[], map[], map[], {});
            var s1 := System(map[9 := 0], 1, map[0 := 1], map[1 := Signed(9, 0)], map[], {});
            var s2 := System(map[9 := 0], 1, map[], map[1 := Idle], map[], {Tx(9, 0)});
            var s3 := s2.(owner := map[0 := 2], workers := map[1 := Idle, 2 := Signed(9, 0)]);
            var s4 := Next(s3, StrayLands(Tx(9, 0)));
            && Prepares(s0, 1, 9, 0, s1) && Enabled(s1, Sends(1, Late)) && s2 == Next(s1, Sends(1, Late))
            && Prepares(s2, 2, 9, 0, s3) && Enabled(s3, StrayLands(Tx(9, 0))) && Enabled(s4, Sends(2, Landed))
            && OnWire(s4, Sends(2, Landed)) == Some(Tx(9, 0)) && Pending(s4, 9) == 1
  {
    FirstSendIsLate();
    SecondSendIsStale();
  }

  lemma FirstSendIsLate()
    ensures var s0 := System(map[], 0, map[], map[], map[], {});
            var s1 := System(map[9 := 0], 1, map[0 := 1], map[1 := Signed(9, 0)], map[], {});
            Prepares(s0, 1, 9, 0, s1)
  {
  }

  lemma SecondSendIsStale()
    ensures var s2 := System(map[9 := 0], 1, map[], map[1 := Idle], map[], {Tx(9, 0)});
            var s3 := s2.(owner := map[0 := 2], workers := map[1 := Idle, 2 := Signed(9, 0)]);
            Prepares(s2, 2, 9, 0, s3)
  {
  }
}
