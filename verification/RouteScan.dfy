/**
 Reading one block range of the Inbox's authorization events, with the single-block receipt
 fallback, and the two halving scans built on it.
 */
module RouteScan {
  import opened Basics
  import opened Ordered

  type TxHash = nat

  /** Outboxes named by add or remove events of each confirmed block. */
  type Chain = nat -> set<Address>

  /** Every nonzero Outbox named between two blocks, inclusive. */
  ghost function NamedIn(chain: Chain, from: nat, to: nat): set<Address> {
    set b, a | from <= b <= to && a in chain(b) && a != ZERO :: a
  }

  lemma NamedInSplit(chain: Chain, from: nat, mid: nat, to: nat)
    requires from <= mid + 1 && mid <= to
    ensures NamedIn(chain, from, to) == NamedIn(chain, from, mid) + NamedIn(chain, mid + 1, to)
  {
    forall a ensures a in NamedIn(chain, from, to) <==> a in NamedIn(chain, from, mid) + NamedIn(chain, mid + 1, to) {
      if a in NamedIn(chain, from, to) {
        var b :| from <= b <= to && a in chain(b) && a != ZERO;
        assert b <= mid || mid + 1 <= b;
      }
    }
  }

  // ----- one range -----

  /** `provenance`: hash, transaction and index fields present; `outbox` is `None` if undecodable. */
  datatype Log = Log(
    address: Address, topic: bool, removed: bool, block: Option<nat>, provenance: bool, outbox: Option<Address>)

  datatype Block = Block(number: nat, hash: nat, txs: seq<TxHash>)

  /** `owned`: every log carries the receipt's own block and transaction fields. */
  datatype Receipt = Receipt(
    index: Option<nat>, tx: TxHash, block: Option<nat>, blockHash: Option<nat>, owned: bool, logs: seq<Log>)

  datatype Provider = Provider(
    logs: (nat, nat) -> Result<seq<Log>>,
    block: nat -> Result<Block>,
    receipts: nat -> Result<seq<Receipt>>)

  function Named(logs: seq<Log>): set<Address> {
    set l | l in logs && l.outbox.Some? && l.outbox.value != ZERO :: l.outbox.value
  }

  function InboxLogs(inbox: Address, logs: seq<Log>): set<Log> {
    set l | l in logs && l.address == inbox && l.topic
  }

  /** What an honest node answers; it may still fail any call. `txNames` is the truth per transaction. */
  ghost predicate Honest(p: Provider, chain: Chain, inbox: Address, txNames: (nat, TxHash) -> set<Address>) {
    && (forall from, to :: p.logs(from, to).Ok? ==>
         (forall a :: a != ZERO ==>
           (a in Named(p.logs(from, to).value) <==> exists b :: from <= b <= to && a in chain(b))))
    && (forall n :: p.block(n).Ok? ==>
         forall a :: a in chain(n) <==> exists h :: h in p.block(n).value.txs && a in txNames(n, h))
    && (forall n, r :: p.receipts(n).Ok? && r in p.receipts(n).value ==>
         forall a :: a != ZERO ==>
           (a in txNames(n, r.tx) <==> exists l :: l in r.logs && l.address == inbox && l.topic && l.outbox == Some(a)))
  }

  predicate LogOk(l: Log, inbox: Address, from: nat, to: nat) {
    && l.address == inbox && !l.removed && l.provenance && l.outbox.Some?
    && l.block.Some? && from <= l.block.value <= to
  }

  /** Decode a batch, refusing it as a whole on any foreign, removed, misplaced or undecodable log. */
  method CollectOutboxes(inbox: Address, from: nat, to: nat, logs: seq<Log>) returns (r: Result<set<Address>>)
    ensures r.Ok? <==> forall l :: l in logs ==>
              && l.address == inbox && !l.removed && l.provenance && l.outbox != None
              && l.block.Some? && from <= l.block.value && l.block.value <= to
    ensures r.Ok? ==> r.value == Named(logs)
  {
    var found: set<Address> := {};
    for i := 0 to |logs|
      invariant forall l :: l in logs[..i] ==> LogOk(l, inbox, from, to)
      invariant found == Named(logs[..i])
    {
      assert logs[..i + 1] == logs[..i] + [logs[i]];
      if !LogOk(logs[i], inbox, from, to) { return Err; }
      if logs[i].outbox.value != ZERO { found := found + {logs[i].outbox.value}; }
    }
    assert logs[..|logs|] == logs;
    return Ok(found);
  }

  predicate ReceiptOk(r: Receipt, b: Block) {
    && r.block == Some(b.number) && r.blockHash == Some(b.hash) && r.owned
    && r.index.Some? && r.index.value < |b.txs| && b.txs[r.index.value] == r.tx
  }

  ghost predicate ReceiptsOk(b: Block, receipts: seq<Receipt>) {
    && |receipts| == |b.txs| && Distinct(b.txs)
    && (forall i :: 0 <= i < |receipts| ==> ReceiptOk(receipts[i], b))
    && forall i, j :: 0 <= i < j < |receipts| ==> receipts[i].tx != receipts[j].tx
  }

  /** The receipt fallback accepts the block. */
  ghost predicate Covered(p: Provider, n: nat) {
    && p.block(n).Ok? && p.receipts(n).Ok?
    && p.block(n).value.number == n && p.block(n).value.hash != 0 && p.block(n).value.txs != []
    && ReceiptsOk(p.block(n).value, p.receipts(n).value)
  }

  /** The block and its receipts, one per transaction in order, with consistent provenance. */
  ghost predicate Complete(p: Provider, n: nat) {
    && p.block(n).Ok? && p.receipts(n).Ok?
    && var b, receipts := p.block(n).value, p.receipts(n).value;
       && b.number == n && b.hash != 0 && |b.txs| == |receipts| > 0
       && (forall i, j :: 0 <= i < j < |b.txs| ==> b.txs[i] != b.txs[j])
       && (forall i :: 0 <= i < |receipts| ==> receipts[i].tx == b.txs[i] && receipts[i].index == Some(i))
       && (forall i :: 0 <= i < |receipts| ==>
             receipts[i].block == Some(n) && receipts[i].blockHash == Some(b.hash) && receipts[i].owned)
  }

  lemma CompleteIsCovered(p: Provider, n: nat)
    ensures Complete(p, n) ==> Covered(p, n)
  {
  }

  method AllDistinct(s: seq<TxHash>) returns (ok: bool)
    ensures ok <==> Distinct(s)
  {
    var seen: set<TxHash> := {};
    for i := 0 to |s|
      invariant Distinct(s[..i]) && forall x :: x in seen <==> x in s[..i]
    {
      if s[i] in seen { return false; }
      seen := seen + {s[i]};
      assert s[..i + 1] == s[..i] + [s[i]];
    }
    assert s[..|s|] == s;
    return true;
  }

  lemma {:induction false} DistinctSize(s: seq<TxHash>)
    requires Distinct(s)
    ensures |Elements(s)| == |s|
  {
    if s != [] {
      var n := |s| - 1;
      DistinctSize(s[..n]);
      assert Elements(s) == Elements(s[..n]) + {s[n]};
    }
  }

  lemma {:induction false} EqualSizeSubset(a: set<TxHash>, b: set<TxHash>)
    requires a <= b && |a| == |b|
    ensures a == b
  {
    if a != {} {
      var x :| x in a;
      EqualSizeSubset(a - {x}, b - {x});
    }
  }

  /**
   As many validated receipts with distinct hashes as the block has transactions: then every
   transaction of the block has its receipt among them.
   */
  lemma ReceiptsCoverBlock(b: Block, receipts: seq<Receipt>)
    requires ReceiptsOk(b, receipts)
    ensures forall h :: h in b.txs <==> exists r :: r in receipts && r.tx == h
  {
    var hashes := seq(|receipts|, i requires 0 <= i < |receipts| => receipts[i].tx);
    var have, want := Elements(hashes), Elements(b.txs);
    DistinctSize(hashes);
    DistinctSize(b.txs);
    assert have <= want;
    EqualSizeSubset(have, want);
    forall h | h in b.txs ensures exists r :: r in receipts && r.tx == h {
      assert h in have;
      var i :| 0 <= i < |hashes| && hashes[i] == h;
      assert receipts[i] in receipts;
    }
  }

  ghost predicate IsReceiptLog(p: Provider, inbox: Address, n: nat, l: Log) {
    p.receipts(n).Ok? && exists x :: x in p.receipts(n).value && l in InboxLogs(inbox, x.logs)
  }

  /** The fallback for a block too dense for a log query: the matching logs of all its receipts. */
  method LogsFromReceipts(p: Provider, inbox: Address, n: nat) returns (r: Result<seq<Log>>)
    ensures r.Ok? <==> Covered(p, n)
    ensures r.Ok? ==>
              && p.block(n).Ok? && p.receipts(n).Ok?
              && var b, receipts := p.block(n).value, p.receipts(n).value;
                 && b.number == n && b.hash != 0 && |receipts| == |b.txs| > 0
                 && forall x :: x in receipts ==>
                   x.block == Some(n) && x.blockHash == Some(b.hash) && x.owned && x.tx in b.txs
    ensures r.Ok? ==> forall l :: l in r.value <==> IsReceiptLog(p, inbox, n, l)
  {
    var block := p.block(n);
    if block.Err? { return Err; }
    var b := block.value;
    var txsDistinct := AllDistinct(b.txs);
    if b.number != n || b.hash == 0 || b.txs == [] || !txsDistinct { return Err; }
    var answer := p.receipts(n);
    if answer.Err? || |answer.value| != |b.txs| { return Err; }
    var receipts := answer.value;
    var logs: seq<Log> := [];
    var seen: set<TxHash> := {};
    for i := 0 to |receipts|
      invariant forall h :: h in seen <==> exists k :: 0 <= k < i && receipts[k].tx == h
      invariant forall k :: 0 <= k < i ==> ReceiptOk(receipts[k], b)
      invariant forall j, k :: 0 <= j < k < i ==> receipts[j].tx != receipts[k].tx
      invariant forall l :: l in logs <==> exists k :: 0 <= k < i && l in InboxLogs(inbox, receipts[k].logs)
    {
      if !ReceiptOk(receipts[i], b) || receipts[i].tx in seen { return Err; }
      seen := seen + {receipts[i].tx};
      var mine := MatchingLogs(inbox, receipts[i].logs);
      logs := logs + mine;
    }
    AllReceiptLogs(p, inbox, n, logs);
    return Ok(logs);
  }

  lemma AllReceiptLogs(p: Provider, inbox: Address, n: nat, logs: seq<Log>)
    requires p.receipts(n).Ok?
    requires var receipts := p.receipts(n).value;
             forall l :: l in logs <==> exists k :: 0 <= k < |receipts| && l in InboxLogs(inbox, receipts[k].logs)
    ensures forall l :: l in logs <==> IsReceiptLog(p, inbox, n, l)
  {
    var receipts := p.receipts(n).value;
    forall l ensures l in logs <==> IsReceiptLog(p, inbox, n, l) {
      if IsReceiptLog(p, inbox, n, l) {
        var x :| x in receipts && l in InboxLogs(inbox, x.logs);
        var k :| 0 <= k < |receipts| && receipts[k] == x;
      }
    }
  }

  method MatchingLogs(inbox: Address, logs: seq<Log>) returns (mine: seq<Log>)
    ensures forall l :: l in mine <==> l in InboxLogs(inbox, logs)
  {
    mine := [];
    for i := 0 to |logs|
      invariant forall l :: l in mine <==> l in InboxLogs(inbox, logs[..i])
    {
      assert logs[..i + 1] == logs[..i] + [logs[i]];
      if logs[i].address == inbox && logs[i].topic { mine := mine + [logs[i]]; }
    }
    assert logs[..|logs|] == logs;
  }

  /** Exactly when a range read succeeds: a clean log answer, or the fallback for a single block. */
  ghost predicate Readable(p: Provider, inbox: Address, from: nat, to: nat) {
    if p.logs(from, to).Ok? then forall l :: l in p.logs(from, to).value ==> LogOk(l, inbox, from, to)
    else from == to && Covered(p, from) && forall l :: IsReceiptLog(p, inbox, from, l) ==> LogOk(l, inbox, from, to)
  }

  /** A log of the Inbox in the range, not removed, with full provenance and a body that decodes. */
  predicate InRange(l: Log, inbox: Address, from: nat, to: nat) {
    && l.address == inbox && !l.removed && l.provenance && l.outbox != None
    && l.block.Some? && from <= l.block.value && l.block.value <= to
  }

  /** An honest node's successful answer for a range names exactly the Outboxes of that range. */
  method ReadRange(p: Provider, inbox: Address, from: nat, to: nat, ghost chain: Chain,
      ghost txNames: (nat, TxHash) -> set<Address>)
    returns (r: Result<set<Address>>)
    requires from <= to && Honest(p, chain, inbox, txNames)
    ensures r.Ok? <==> Readable(p, inbox, from, to)
    ensures p.logs(from, to).Ok? && (forall l :: l in p.logs(from, to).value ==> InRange(l, inbox, from, to)) ==> r.Ok?
    ensures from == to && p.logs(from, to).Err? && Complete(p, from) ==>
              (forall l :: IsReceiptLog(p, inbox, from, l) ==> InRange(l, inbox, from, to)) ==> r.Ok?
    ensures r.Ok? ==> r.value == NamedIn(chain, from, to)
  {
    var answer := p.logs(from, to);
    if answer.Ok? {
      r := CollectOutboxes(inbox, from, to, answer.value);
      if r.Ok? { QueryNames(p, inbox, from, to, chain, txNames); }
      return;
    }
    if from != to { return Err; }
    CompleteIsCovered(p, from);
    var logs := LogsFromReceipts(p, inbox, from);
    if logs.Err? { return Err; }
    r := CollectOutboxes(inbox, from, to, logs.value);
    if r.Ok? { FallbackNames(p, inbox, from, chain, txNames, logs.value); }
  }

  lemma QueryNames(p: Provider, inbox: Address, from: nat, to: nat, chain: Chain,
      txNames: (nat, TxHash) -> set<Address>)
    requires Honest(p, chain, inbox, txNames) && p.logs(from, to).Ok?
    ensures Named(p.logs(from, to).value) == NamedIn(chain, from, to)
  {
    forall a ensures a in Named(p.logs(from, to).value) <==> a in NamedIn(chain, from, to) {
    }
  }

  /** The fallback names exactly the block's Outboxes: no transaction is left out. */
  lemma FallbackNames(p: Provider, inbox: Address, n: nat, chain: Chain, txNames: (nat, TxHash) -> set<Address>,
      logs: seq<Log>)
    requires Honest(p, chain, inbox, txNames) && Covered(p, n)
    requires forall l :: l in logs <==> IsReceiptLog(p, inbox, n, l)
    ensures Named(logs) == NamedIn(chain, n, n)
  {
    var receipts := p.receipts(n).value;
    ReceiptsCoverBlock(p.block(n).value, receipts);
    forall a | a in Named(logs) ensures a in NamedIn(chain, n, n) {
      var l :| l in logs && l.outbox == Some(a);
      var x :| x in receipts && l in InboxLogs(inbox, x.logs);
      assert a in txNames(n, x.tx);
      assert x.tx in p.block(n).value.txs;
      assert a in chain(n);
    }
    forall a | a in NamedIn(chain, n, n) ensures a in Named(logs) {
      var h :| h in p.block(n).value.txs && a in txNames(n, h);
      var x :| x in receipts && x.tx == h;
      var l :| l in x.logs && l.address == inbox && l.topic && l.outbox == Some(a);
      assert l in InboxLogs(inbox, x.logs);
      assert l in logs;
    }
  }

  // ----- halving scans -----

  /** Forward: a nonempty prefix of the range, complete, or a failed single block. */
  method Scan(p: Provider, inbox: Address, from: nat, to: nat, ghost chain: Chain,
      ghost txNames: (nat, TxHash) -> set<Address>)
    returns (r: Result<(nat, set<Address>)>)
    requires from <= to && Honest(p, chain, inbox, txNames)
    ensures r.Ok? ==> from <= r.value.0 <= to && r.value.1 == NamedIn(chain, from, r.value.0)
    ensures Readable(p, inbox, from, from) ==> r.Ok?
    ensures Readable(p, inbox, from, to) ==> r.Ok? && r.value.0 == to
    ensures r.Ok? && r.value.0 < to ==>
              exists w :: from <= w <= to && !Readable(p, inbox, from, w) && r.value.0 == from + (w - from) / 2
  {
    var end := to;
    while true
      invariant from <= end <= to && (end < to ==> !Readable(p, inbox, from, to))
      invariant end < to ==> exists w :: from <= w <= to && !Readable(p, inbox, from, w) && end == from + (w - from) / 2
      decreases end
    {
      var found := ReadRange(p, inbox, from, end, chain, txNames);
      if found.Ok? { return Ok((end, found.value)); }
      if from == end { return Err; }
      end := from + (end - from) / 2;
    }
  }

  /** Backward: a nonempty suffix of the range, complete, or a failed single block. */
  method ScanBackwards(p: Provider, inbox: Address, low: nat, high: nat, ghost chain: Chain,
      ghost txNames: (nat, TxHash) -> set<Address>)
    returns (r: Result<(nat, set<Address>)>)
    requires low <= high && Honest(p, chain, inbox, txNames)
    ensures r.Ok? ==> low <= r.value.0 <= high && r.value.1 == NamedIn(chain, r.value.0, high)
    ensures Readable(p, inbox, high, high) ==> r.Ok?
    ensures Readable(p, inbox, low, high) ==> r.Ok? && r.value.0 == low
    ensures r.Ok? && low < r.value.0 ==>
              exists w :: low <= w <= high && !Readable(p, inbox, w, high) && r.value.0 == w + (high - w + 1) / 2
  {
    var start := low;
    while true
      invariant low <= start <= high && (low < start ==> !Readable(p, inbox, low, high))
      invariant low < start ==>
                  exists w :: low <= w <= high && !Readable(p, inbox, w, high) && start == w + (high - w + 1) / 2
      decreases high - start
    {
      var found := ReadRange(p, inbox, start, high, chain, txNames);
      if found.Ok? { return Ok((start, found.value)); }
      if start == high { return Err; }
      var step := (high - start + 1) / 2;
      assert 1 <= step <= high - start;
      start := start + step;
    }
  }
}
