/** Bounded tracking of transactions awaiting settlement, and of those recently finished. */
module Pending {
  import opened Basics
  import opened Ordered
  import opened Schedules
  import opened Settlement

  type Tx = nat
  type Instant = nat

  datatype PendingTx = PendingTx(
    firstSeen: Instant, block: nat, nextAttemptAt: Instant, transientAttempts: nat, meta: seq<DeliveryEvent>)

  ghost function MetaSet(p: PendingTx): set<DeliveryEvent> {
    set e | e in p.meta
  }

  /** The lowest discovery block among tracked transactions. */
  ghost predicate IsOldestBlock(seen: map<Tx, PendingTx>, r: Option<nat>) {
    match r
    case None => seen == map[]
    case Some(b) => (exists tx :: tx in seen && seen[tx].block == b) && forall tx :: tx in seen ==> b <= seen[tx].block
  }

  class PendingTxs {
    const cap: nat
    var seen: map<Tx, PendingTx>

    constructor (cap: nat)
      ensures this.cap == cap && seen == map[]
    {
      this.cap, seen := cap, map[];
    }

    /**
     Track a new transaction. Below capacity nothing is evicted; at capacity the tracked
     transaction first seen earliest is dropped to make room.
     */
    method Insert(tx: Tx, now: Instant, block: nat, meta: seq<DeliveryEvent>) returns (evicted: Option<Tx>)
      modifies this
      ensures tx in old(seen) ==> evicted.None? && seen == old(seen)
      ensures var grown := old(seen)[tx := PendingTx(now, block, now, 0, meta)];
              tx !in old(seen) ==>
                if |old(seen)| < cap then evicted.None? && seen == grown
                else evicted.Some? && evicted.value in grown && seen == grown - {evicted.value}
                     && forall x :: x in grown ==> grown[evicted.value].firstSeen <= grown[x].firstSeen
    {
      if tx in seen { return None; }
      ghost var before := seen;
      seen := seen[tx := PendingTx(now, block, now, 0, meta)];
      assert |seen| == |before| + 1 by { assert seen.Keys == before.Keys + {tx}; }
      if |seen| > cap {
        var oldest := OldestOf(seen.Keys);
        seen := seen - {oldest};
        return Some(oldest);
      }
      return None;
    }

    method OldestOf(among: set<Tx>) returns (oldest: Tx)
      requires among != {} && among <= seen.Keys
      ensures oldest in among && forall x :: x in among ==> seen[oldest].firstSeen <= seen[x].firstSeen
    {
      oldest :| oldest in among;
      var rest := among - {oldest};
      while rest != {}
        invariant rest <= among && oldest in among
        invariant forall x :: x in among - rest ==> seen[oldest].firstSeen <= seen[x].firstSeen
        decreases rest
      {
        var x :| x in rest;
        if seen[x].firstSeen < seen[oldest].firstSeen { oldest := x; }
        rest := rest - {x};
      }
    }

    /** The oldest `n` due transactions, oldest first: none is passed over for a younger one. */
    method Ready(n: nat, now: Instant) returns (batch: seq<Tx>)
      ensures |batch| <= n && Distinct(batch)
      ensures forall tx :: tx in batch ==> tx in seen && seen[tx].nextAttemptAt <= now
      ensures forall i, j :: 0 <= i < j < |batch| ==> seen[batch[i]].firstSeen <= seen[batch[j]].firstSeen
      ensures forall tx :: tx in seen && seen[tx].nextAttemptAt <= now && tx !in batch ==>
                |batch| == n && forall i :: 0 <= i < n ==> seen[batch[i]].firstSeen <= seen[tx].firstSeen
    {
      batch := [];
      var due := set tx | tx in seen && seen[tx].nextAttemptAt <= now;
      while due != {} && |batch| < n
        invariant |batch| <= n && Distinct(batch)
        invariant due <= seen.Keys && forall tx :: tx in due ==> tx !in batch
        invariant forall tx :: tx in batch ==> tx in seen && seen[tx].nextAttemptAt <= now
        invariant forall tx :: tx in seen && seen[tx].nextAttemptAt <= now ==> tx in due || tx in batch
        invariant forall i, j :: 0 <= i < j < |batch| ==> seen[batch[i]].firstSeen <= seen[batch[j]].firstSeen
        invariant forall i, tx :: 0 <= i < |batch| && tx in due ==> seen[batch[i]].firstSeen <= seen[tx].firstSeen
        decreases due
      {
        var tx := OldestOf(due);
        due := due - {tx};
        batch := batch + [tx];
      }
    }

    /** Add one more event of a tracked transaction, once. */
    method NoteMeta(tx: Tx, item: DeliveryEvent)
      modifies this
      ensures seen == if tx in old(seen) && item !in old(seen)[tx].meta
                      then old(seen)[tx := old(seen)[tx].(meta := old(seen)[tx].meta + [item])] else old(seen)
    {
      if tx in seen && item !in seen[tx].meta {
        seen := seen[tx := seen[tx].(meta := seen[tx].meta + [item])];
      }
    }

    method Remove(tx: Tx)
      modifies this
      ensures seen == old(seen) - {tx}
    {
      seen := seen - {tx};
    }

    method Defer(tx: Tx, until: Instant)
      modifies this
      ensures seen == if tx in old(seen) then old(seen)[tx := old(seen)[tx].(nextAttemptAt := until)] else old(seen)
    {
      if tx in seen { seen := seen[tx := seen[tx].(nextAttemptAt := until)]; }
    }

    /** Count a transient failure and back off by the doubling schedule. */
    method RecordTransientFailure(tx: Tx, now: Instant) returns (attempts: nat)
      modifies this
      ensures tx !in old(seen) ==> attempts == 0 && seen == old(seen)
      ensures tx in old(seen) ==>
                && attempts == old(seen)[tx].transientAttempts + 1
                && var later := now + Doubling(attempts - 1);
                   seen == old(seen)[tx := old(seen)[tx].(transientAttempts := attempts, nextAttemptAt := later)]
    {
      if tx !in seen { return 0; }
      attempts := seen[tx].transientAttempts + 1;
      TransientIsDoubling(attempts - 1);
      seen := seen[tx := seen[tx].(transientAttempts := attempts, nextAttemptAt := now + TransientBackoff(attempts))];
    }

    method OldestPendingBlock() returns (r: Option<nat>)
      ensures IsOldestBlock(seen, r)
    {
      if seen == map[] { return None; }
      var first :| first in seen;
      var low := seen[first].block;
      var rest := seen.Keys - {first};
      while rest != {}
        invariant rest <= seen.Keys
        invariant exists tx :: tx in seen && seen[tx].block == low
        invariant forall tx :: tx in seen.Keys - rest ==> low <= seen[tx].block
        decreases rest
      {
        var x :| x in rest;
        if seen[x].block < low { low := seen[x].block; }
        rest := rest - {x};
      }
      return Some(low);
    }
  }

  /** A first-in first-out set of fixed capacity. */
  class BoundedSeen {
    const cap: nat
    var members: set<Tx>
    var order: seq<Tx>

    ghost predicate Valid()
      reads this
    {
      && |order| == |members| <= cap
      && forall tx :: tx in members <==> tx in order
    }

    constructor (cap: nat)
      ensures Valid() && this.cap == cap && order == []
    {
      this.cap, members, order := cap, {}, [];
    }

    /** Remember a transaction, forgetting the one remembered longest if over capacity. */
    method Insert(tx: Tx)
      requires Valid()
      modifies this
      ensures Valid()
      ensures order == if tx in old(order) then old(order)
                       else if |old(order)| < cap then old(order) + [tx] else (old(order) + [tx])[1..]
      ensures members <= old(members) + {tx} && (cap > 0 ==> tx in members)
    {
      if tx in members { return; }
      members, order := members + {tx}, order + [tx];
      if |members| > cap {
        var gone := order[0];
        ghost var all := order;
        members, order := members - {gone}, order[1..];
        HeadOnce(all, members + {gone}, gone);
      }
    }
  }

  /** As many entries as members: the head does not occur again. */
  lemma HeadOnce(all: seq<Tx>, members: set<Tx>, gone: Tx)
    requires all != [] && gone == all[0] && |all| == |members| && forall tx :: tx in members <==> tx in all
    ensures forall tx :: tx in members - {gone} <==> tx in all[1..]
  {
    if gone in all[1..] {
      SeqAtLeast(all[1..], members);
      assert false;
    }
  }

  lemma {:induction false} SeqAtLeast(s: seq<Tx>, members: set<Tx>)
    requires forall tx :: tx in members ==> tx in s
    ensures |members| <= |s|
  {
    if s != [] {
      var x := s[0];
      assert forall tx :: tx in members - {x} ==> tx in s[1..];
      SeqAtLeast(s[1..], members - {x});
    } else {
      assert members == {};
    }
  }
}
