/**
 Aggregation of attestor-set-update votes for one route. The update digest and signature recovery
 are an arbitrary injective function and an arbitrary partial function.
 */
module SetUpdate {
  import opened Basics
  import opened Ordered

  type Digest = nat
  type Signature = nat

  // ----- canonical attestor order -----

  /** Reference: insert every address into an ascending set. */
  function Canonical(addrs: seq<Address>): (r: seq<Address>)
    ensures Ascending(r)
    ensures forall a :: a in r <==> a in addrs
  {
    if addrs == [] then []
    else
      assert addrs == addrs[..|addrs| - 1] + [addrs[|addrs| - 1]];
      InsertAscending(Canonical(addrs[..|addrs| - 1]), addrs[|addrs| - 1]);
      Insert(Canonical(addrs[..|addrs| - 1]), addrs[|addrs| - 1])
  }

  ghost predicate NonDescending(s: seq<nat>) {
    forall i, j :: 0 <= i < j < |s| ==> s[i] <= s[j]
  }

  function InsertSorted(s: seq<nat>, x: nat): (r: seq<nat>)
    ensures forall y :: y in r <==> y in s || y == x
  {
    if s == [] then [x]
    else if x <= s[0] then [x] + s
    else
      assert forall y :: y in s <==> y == s[0] || y in s[1..];
      [s[0]] + InsertSorted(s[1..], x)
  }

  lemma ConsNonDescending(x: nat, rest: seq<nat>)
    requires NonDescending(rest) && forall y :: y in rest ==> x <= y
    ensures NonDescending([x] + rest)
  {
    var r := [x] + rest;
    forall i, j | 0 <= i < j < |r| ensures r[i] <= r[j] {
      assert r[j] == rest[j - 1] && r[j] in rest;
    }
  }

  lemma {:induction false} InsertSortedKeepsOrder(s: seq<nat>, x: nat)
    requires NonDescending(s)
    ensures NonDescending(InsertSorted(s, x))
  {
    if s != [] {
      if x <= s[0] {
        ConsNonDescending(x, s);
      } else {
        InsertSortedKeepsOrder(s[1..], x);
        ConsNonDescending(s[0], InsertSorted(s[1..], x));
      }
    }
  }

  /** Sort, then drop adjacent repeats. The result is the canonical listing of the address set. */
  method CanonicalAttestorOrder(addrs: seq<Address>) returns (out: seq<Address>)
    ensures out == Canonical(addrs)
  {
    var sorted: seq<Address> := [];
    for i := 0 to |addrs|
      invariant NonDescending(sorted)
      invariant forall a :: a in sorted <==> a in addrs[..i]
    {
      assert addrs[..i + 1] == addrs[..i] + [addrs[i]];
      InsertSortedKeepsOrder(sorted, addrs[i]);
      sorted := InsertSorted(sorted, addrs[i]);
    }
    assert addrs[..|addrs|] == addrs;
    out := [];
    for i := 0 to |sorted|
      invariant Ascending(out)
      invariant forall a :: a in out <==> a in sorted[..i]
      invariant if i == 0 then out == [] else out != [] && out[|out| - 1] == sorted[i - 1]
    {
      assert forall k :: 0 <= k < |out| ==> out[k] <= out[|out| - 1];
      assert sorted[..i + 1] == sorted[..i] + [sorted[i]];
      if out == [] || out[|out| - 1] != sorted[i] {
        out := out + [sorted[i]];
      }
    }
    assert sorted[..|sorted|] == sorted;
    AscendingUnique(out, Canonical(addrs));
  }

  /** Permuted or repeated proposals have one canonical form, and only those do. */
  lemma CanonicalIffSameSet(a: seq<Address>, b: seq<Address>)
    ensures Canonical(a) == Canonical(b) <==> (forall x :: x in a <==> x in b)
  {
    if forall x :: x in a <==> x in b {
      AscendingUnique(Canonical(a), Canonical(b));
    }
    if Canonical(a) == Canonical(b) {
      assert forall x :: x in a <==> x in Canonical(a);
      assert forall x :: x in b <==> x in Canonical(b);
    }
  }

  // ----- votes -----

  datatype Crypto = Crypto(
    digest: (Address, seq<Address>, nat, nat) -> Digest,
    recover: (Digest, Signature) -> Option<Address>)

  ghost predicate Injective(c: Crypto) {
    forall v, s, i, n, v', s', i', n' ::
      c.digest(v, s, i, n) == c.digest(v', s', i', n') ==> v == v' && s == s' && i == i' && n == n'
  }

  datatype OnChain = OnChain(attestors: set<Address>, threshold: nat, nonce: nat, chainId: nat)

  datatype Vote = Vote(nonce: nat, newAttestors: seq<Address>, signature: Signature)

  datatype Verified = Verified(canonical: seq<Address>, digest: Digest, signer: Address)

  function VerifyVote(c: Crypto, validator: Address, vote: Vote, view: OnChain): Option<Verified> {
    if vote.nonce != view.nonce then None
    else
      var canonical := Canonical(vote.newAttestors);
      var digest := c.digest(validator, canonical, view.chainId, vote.nonce);
      match c.recover(digest, vote.signature)
      case None => None
      case Some(signer) => if signer in view.attestors then Some(Verified(canonical, digest, signer)) else None
  }

  /** Two votes that verify against one view share a slot exactly when they propose the same set. */
  lemma SameSlotIffSameSet(c: Crypto, validator: Address, v: Vote, w: Vote, view: OnChain)
    requires Injective(c)
    requires VerifyVote(c, validator, v, view).Some? && VerifyVote(c, validator, w, view).Some?
    ensures VerifyVote(c, validator, v, view).value.digest == VerifyVote(c, validator, w, view).value.digest
            <==> (forall a :: a in v.newAttestors <==> a in w.newAttestors)
  {
    CanonicalIffSameSet(v.newAttestors, w.newAttestors);
  }

  // ----- aggregation -----

  type Slot = map<Address, Signature>

  datatype Route = Route(current: Option<OnChain>, votes: map<Digest, Slot>, inFlight: set<Digest>)

  const IDLE := Route(None, map[], {})

  datatype Submission = Submission(canonical: seq<Address>, digest: Digest, signatures: Slot)

  /** `votes.entry(d).or_default()`. */
  function SlotOf(votes: map<Digest, Slot>, d: Digest): Slot {
    if d in votes then votes[d] else map[]
  }

  /** The submission a verified vote triggers: a new signer who completes a slot not in flight. */
  function Completes(s: Route, v: Verified, sig: Signature, threshold: nat): Option<Submission> {
    var slot := SlotOf(s.votes, v.digest)[v.signer := sig];
    if v.digest in s.inFlight || v.signer in SlotOf(s.votes, v.digest) || |slot| < threshold then None
    else Some(Submission(v.canonical, v.digest, slot))
  }

  function Counts(s: Route, v: Verified, sig: Signature, threshold: nat, submitOk: bool): Route {
    if v.digest in s.inFlight then s
    else if Completes(s, v, sig, threshold).Some? then
      s.(votes := s.votes - {v.digest}, inFlight := if submitOk then s.inFlight + {v.digest} else s.inFlight)
    else s.(votes := s.votes[v.digest := SlotOf(s.votes, v.digest)[v.signer := sig]])
  }

  /** The submission a vote triggers, if any. */
  function Submits(c: Crypto, validator: Address, s: Route, vote: Vote): Option<Submission> {
    if s.current.None? then None
    else match VerifyVote(c, validator, vote, s.current.value)
      case None => None
      case Some(v) => Completes(s, v, vote.signature, s.current.value.threshold)
  }

  function OnVote(c: Crypto, validator: Address, s: Route, vote: Vote, submitOk: bool): Route {
    if s.current.None? then s
    else match VerifyVote(c, validator, vote, s.current.value)
      case None => s
      case Some(v) => Counts(s, v, vote.signature, s.current.value.threshold, submitOk)
  }

  function OnRefresh(s: Route, view: OnChain): Route {
    if s.current.Some? && s.current.value.nonce != view.nonce then Route(Some(view), map[], {})
    else s.(current := Some(view))
  }

  lemma EntryThenRemove(votes: map<Digest, Slot>, d: Digest, slot: Slot)
    ensures votes[d := slot] - {d} == votes - {d}
  {
  }

  lemma MarkThenUnmark(marks: set<Digest>, d: Digest)
    requires d !in marks
    ensures marks + {d} - {d} == marks
  {
  }

  class RouteState {
    const validator: Address
    var current: Option<OnChain>
    var votes: map<Digest, Slot>
    var inFlight: set<Digest>

    ghost function View(): Route
      reads this
    {
      Route(current, votes, inFlight)
    }

    constructor (validator: Address)
      ensures this.validator == validator && View() == IDLE
    {
      this.validator, current, votes, inFlight := validator, None, map[], {};
    }

    /** Replace the view, or keep everything if an on-chain read failed. */
    method Refresh(read: Result<OnChain>)
      modifies this
      ensures View() == if read.Ok? then OnRefresh(old(View()), read.value) else old(View())
      ensures current == if read.Ok? then Some(read.value) else old(current)
    {
      if read.Err? { return; }
      if current.Some? && current.value.nonce != read.value.nonce {
        votes, inFlight := map[], {};
      }
      current := Some(read.value);
    }

    /** Validate a vote against the view, then count it. */
    method HandleVote(c: Crypto, vote: Vote) returns (submission: Option<Submission>, submitOk: bool)
      modifies this
      ensures submission == Submits(c, validator, old(View()), vote)
      ensures View() == OnVote(c, validator, old(View()), vote, submitOk)
    {
      submission, submitOk := None, false;
      if current.None? { return; }
      var verified := VerifyVote(c, validator, vote, current.value);
      if verified.None? { return; }
      submission, submitOk := CountVote(verified.value, vote.signature, current.value.threshold);
    }

    /** Dedup and submit on threshold; the submission itself succeeds or fails. */
    method CountVote(v: Verified, signature: Signature, threshold: nat)
      returns (submission: Option<Submission>, submitOk: bool)
      modifies this
      ensures submission == Completes(old(View()), v, signature, threshold)
      ensures View() == Counts(old(View()), v, signature, threshold, submitOk)
    {
      submission, submitOk := None, false;
      ghost var before := View();
      if v.digest in inFlight { return; }
      var slot := SlotOf(votes, v.digest);
      var duplicate := v.signer in slot;
      slot := slot[v.signer := signature];
      votes := votes[v.digest := slot];
      if duplicate || |slot| < threshold { return; }
      submission := Some(Submission(v.canonical, v.digest, slot));
      EntryThenRemove(before.votes, v.digest, slot);
      votes := votes - {v.digest};
      MarkThenUnmark(inFlight, v.digest);
      inFlight := inFlight + {v.digest};
      if * {
        submitOk := true;
      } else {
        inFlight := inFlight - {v.digest};
      }
    }
  }

  // ----- every trace of votes and refreshes -----

  datatype Event = Voted(vote: Vote, submitOk: bool) | Refreshed(view: OnChain)

  function Next(c: Crypto, validator: Address, s: Route, e: Event): Route {
    match e
    case Voted(vote, submitOk) => OnVote(c, validator, s, vote, submitOk)
    case Refreshed(view) => OnRefresh(s, view)
  }

  ghost predicate Run(c: Crypto, validator: Address, states: seq<Route>, events: seq<Event>) {
    && |states| == |events| + 1
    && states[0] == IDLE
    && (forall i {:trigger Next(c, validator, states[i], events[i])} :: 0 <= i < |events| ==>
          states[i + 1] == Next(c, validator, states[i], events[i]))
  }

  /** The view of step `i` had this attestor, and its nonce has been the current one from then to `k`. */
  ghost predicate SeenAsAttestor(states: seq<Route>, i: nat, k: nat, a: Address) {
    && i <= k < |states|
    && states[i].current.Some? && a in states[i].current.value.attestors
    && states[k].current.Some?
    && forall j :: i <= j <= k ==>
      states[j].current.Some? && states[j].current.value.nonce == states[k].current.value.nonce
  }

  /** A signature recovers over the digest and was an attestor's when it was counted. */
  ghost predicate Vouched(c: Crypto, states: seq<Route>, k: nat, d: Digest, a: Address, sig: Signature) {
    c.recover(d, sig) == Some(a) && exists i :: SeenAsAttestor(states, i, k, a)
  }

  ghost predicate SlotsVerified(c: Crypto, states: seq<Route>, k: nat)
    requires k < |states|
  {
    forall d, a :: d in states[k].votes && a in states[k].votes[d] ==>
      Vouched(c, states, k, d, a, states[k].votes[d][a])
  }

  lemma SeenExtends(states: seq<Route>, i: nat, k: nat, a: Address)
    requires SeenAsAttestor(states, i, k, a) && k + 1 < |states|
    requires states[k + 1].current.Some? && states[k + 1].current.value.nonce == states[k].current.value.nonce
    ensures SeenAsAttestor(states, i, k + 1, a)
  {
  }

  /** A slot entry after one step is an old one under the same nonce, or the vote just verified. */
  lemma StepSlot(c: Crypto, validator: Address, s: Route, e: Event, d: Digest, a: Address)
    requires var t := Next(c, validator, s, e); d in t.votes && a in t.votes[d]
    requires s.current.None? ==> s.votes == map[]
    ensures var t := Next(c, validator, s, e);
            && t.current.Some?
            && (|| (&& d in s.votes && a in s.votes[d] && t.votes[d][a] == s.votes[d][a]
                    && s.current.Some? && t.current.value.nonce == s.current.value.nonce)
                || (c.recover(d, t.votes[d][a]) == Some(a) && a in t.current.value.attestors))
  {
  }

  lemma {:induction false} VotesNeedView(c: Crypto, validator: Address, states: seq<Route>, events: seq<Event>, k: nat)
    requires Run(c, validator, states, events) && k <= |events|
    ensures states[k].current.None? ==> states[k].votes == map[]
  {
    if k > 0 {
      VotesNeedView(c, validator, states, events, k - 1);
      assert states[k] == Next(c, validator, states[k - 1], events[k - 1]);
    }
  }

  lemma VouchedStays(c: Crypto, states: seq<Route>, k: nat, d: Digest, a: Address, sig: Signature)
    requires Vouched(c, states, k, d, a, sig) && k + 1 < |states|
    requires states[k].current.Some? && states[k + 1].current.Some?
    requires states[k + 1].current.value.nonce == states[k].current.value.nonce
    ensures Vouched(c, states, k + 1, d, a, sig)
  {
    var i :| SeenAsAttestor(states, i, k, a);
    SeenExtends(states, i, k, a);
  }

  lemma VouchedNow(c: Crypto, states: seq<Route>, k: nat, d: Digest, a: Address, sig: Signature)
    requires k < |states| && states[k].current.Some? && a in states[k].current.value.attestors
    requires c.recover(d, sig) == Some(a)
    ensures Vouched(c, states, k, d, a, sig)
  {
    assert SeenAsAttestor(states, k, k, a);
  }

  lemma {:induction false} RunKeepsSlots(c: Crypto, validator: Address, states: seq<Route>, events: seq<Event>, k: nat)
    requires Run(c, validator, states, events) && k <= |events|
    ensures SlotsVerified(c, states, k)
  {
    if k > 0 {
      RunKeepsSlots(c, validator, states, events, k - 1);
      VotesNeedView(c, validator, states, events, k - 1);
      var s, t := states[k - 1], states[k];
      assert t == Next(c, validator, s, events[k - 1]);
      forall d, a | d in t.votes && a in t.votes[d] ensures Vouched(c, states, k, d, a, t.votes[d][a]) {
        StepSlot(c, validator, s, events[k - 1], d, a);
        if c.recover(d, t.votes[d][a]) == Some(a) && a in t.current.value.attestors {
          VouchedNow(c, states, k, d, a, t.votes[d][a]);
        } else {
          VouchedStays(c, states, k - 1, d, a, t.votes[d][a]);
        }
      }
    }
  }

  /**
   Soundness over every trace: a submission carries at least `threshold` signatures of distinct
   signers, each recovering over the one digest of one canonical set at the view's nonce, and each
   signer was an attestor in a view of that same nonce.
   */
  lemma SubmissionsAreVerified(c: Crypto, validator: Address, states: seq<Route>, events: seq<Event>, k: nat)
    requires Run(c, validator, states, events) && k < |events| && events[k].Voted?
    requires Submits(c, validator, states[k], events[k].vote).Some?
    ensures var s := Submits(c, validator, states[k], events[k].vote).value;
            var view := states[k].current;
            && view.Some?
            && |s.signatures| >= view.value.threshold
            && Ascending(s.canonical)
            && s.digest == c.digest(validator, s.canonical, view.value.chainId, view.value.nonce)
            && forall a :: a in s.signatures ==> Vouched(c, states, k, s.digest, a, s.signatures[a])
  {
    RunKeepsSlots(c, validator, states, events, k);
    var s := Submits(c, validator, states[k], events[k].vote).value;
    forall a | a in s.signatures ensures Vouched(c, states, k, s.digest, a, s.signatures[a]) {
      if a !in SlotOf(states[k].votes, s.digest) { VouchedNow(c, states, k, s.digest, a, s.signatures[a]); }
    }
  }

  /** Step `k` broadcast `d` and the node took it. */
  ghost predicate Broadcasts(c: Crypto, validator: Address, states: seq<Route>, events: seq<Event>, k: nat, d: Digest) {
    && k < |events| < |states|
    && events[k].Voted? && events[k].submitOk
    && Submits(c, validator, states[k], events[k].vote).Some?
    && Submits(c, validator, states[k], events[k].vote).value.digest == d
  }

  lemma {:induction false} InFlightUntilNonceMoves(c: Crypto, validator: Address, states: seq<Route>,
      events: seq<Event>, i: nat, k: nat, d: Digest)
    requires Run(c, validator, states, events) && Broadcasts(c, validator, states, events, i, d)
    requires i < k <= |events|
    requires forall j :: i <= j <= k ==>
             states[j].current.Some? && states[j].current.value.nonce == states[i].current.value.nonce
    ensures d in states[k].inFlight
  {
    assert states[k] == Next(c, validator, states[k - 1], events[k - 1]);
    if k > i + 1 { InFlightUntilNonceMoves(c, validator, states, events, i, k - 1, d); }
  }

  lemma {:induction false} CurrentStays(c: Crypto, validator: Address, states: seq<Route>, events: seq<Event>, i: nat,
      k: nat)
    requires Run(c, validator, states, events) && i <= k <= |events| && states[i].current.Some?
    ensures states[k].current.Some?
  {
    if k > i {
      CurrentStays(c, validator, states, events, i, k - 1);
      assert states[k] == Next(c, validator, states[k - 1], events[k - 1]);
    }
  }

  predicate NonceMoved(s: Route, t: Route) {
    s.current.Some? && t.current.Some? && t.current.value.nonce != s.current.value.nonce
  }

  /** Between nonce changes an update is broadcast successfully at most once. */
  lemma BroadcastOncePerNonce(c: Crypto, validator: Address, states: seq<Route>, events: seq<Event>, i: nat, k: nat,
      d: Digest)
    requires Run(c, validator, states, events) && i < k
    requires Broadcasts(c, validator, states, events, i, d) && Broadcasts(c, validator, states, events, k, d)
    ensures exists j :: i < j <= k && NonceMoved(states[i], states[j])
  {
    forall j | i <= j <= k ensures states[j].current.Some? {
      CurrentStays(c, validator, states, events, i, j);
    }
    if forall j :: i < j <= k ==> !NonceMoved(states[i], states[j]) {
      InFlightUntilNonceMoves(c, validator, states, events, i, k, d);
      assert false;
    }
  }

  // ----- what is in flight and what is held, exactly -----

  /** The vote of step `i` is signed by attestor `a` of that step's view, for the update `d`, at its nonce. */
  ghost predicate VoteFor(c: Crypto, validator: Address, s: Route, e: Event, d: Digest, a: Address) {
    && e.Voted? && s.current.Some?
    && e.vote.nonce == s.current.value.nonce
    && d == c.digest(validator, Canonical(e.vote.newAttestors), s.current.value.chainId, s.current.value.nonce)
    && c.recover(d, e.vote.signature) == Some(a) && a in s.current.value.attestors
  }

  /** A vote is aggregated exactly when an attestor signed the update's digest at the current nonce. */
  lemma VerifiedExactly(c: Crypto, validator: Address, s: Route, e: Event, d: Digest, a: Address)
    requires e.Voted? && s.current.Some?
    ensures VoteFor(c, validator, s, e, d, a) <==>
              VerifyVote(c, validator, e.vote, s.current.value) == Some(Verified(Canonical(e.vote.newAttestors), d, a))
  {
  }

  /** The signers whose votes for `d` are held. */
  function Voters(s: Route, d: Digest): set<Address> {
    if d in s.votes then s.votes[d].Keys else {}
  }

  /** The vote makes its signer the one that reaches the threshold for an update not in flight. */
  ghost predicate Reaches(c: Crypto, validator: Address, s: Route, e: Event, d: Digest, a: Address) {
    && VoteFor(c, validator, s, e, d, a) && d !in s.inFlight && a !in Voters(s, d)
    && |Voters(s, d)| + 1 >= s.current.value.threshold
  }

  /** A submission of `d` is made exactly by a vote that reaches the threshold. */
  lemma SubmitsExactly(c: Crypto, validator: Address, s: Route, e: Event, d: Digest)
    requires e.Voted?
    ensures Submits(c, validator, s, e.vote).Some? && Submits(c, validator, s, e.vote).value.digest == d <==>
              exists a :: Reaches(c, validator, s, e, d, a)
  {
    if s.current.Some? && VerifyVote(c, validator, e.vote, s.current.value).Some? {
      var v := VerifyVote(c, validator, e.vote, s.current.value).value;
      assert VoteFor(c, validator, s, e, v.digest, v.signer);
      assert forall x, a :: VoteFor(c, validator, s, e, x, a) ==> x == v.digest && a == v.signer;
      var slot := SlotOf(s.votes, v.digest);
      assert Voters(s, v.digest) == slot.Keys;
      var grown := slot[v.signer := e.vote.signature];
      assert grown.Keys == slot.Keys + {v.signer};
      assert |grown| == |grown.Keys|;
      assert v.signer !in slot ==> |grown.Keys| == |slot.Keys| + 1;
      assert Reaches(c, validator, s, e, v.digest, v.signer) <==>
        Completes(s, v, e.vote.signature, s.current.value.threshold).Some?;
    } else {
      assert forall x, a :: !VoteFor(c, validator, s, e, x, a);
    }
  }

  /** It carries the votes held for the update together with the one that reached the threshold. */
  lemma SubmissionCarriesVotes(c: Crypto, validator: Address, s: Route, e: Event, d: Digest, a: Address)
    requires Reaches(c, validator, s, e, d, a)
    ensures var submission := Submits(c, validator, s, e.vote);
            && submission.Some? && submission.value.digest == d
            && submission.value.canonical == Canonical(e.vote.newAttestors)
            && submission.value.signatures.Keys == Voters(s, d) + {a}
            && submission.value.signatures[a] == e.vote.signature
            && forall b :: b in Voters(s, d) ==> submission.value.signatures[b] == s.votes[d][b]
  {
    SubmitsExactly(c, validator, s, e, d);
  }

  /** A vote that does not reach the threshold is held with its signature, newest last, beside the others. */
  lemma VoteIsHeld(c: Crypto, validator: Address, s: Route, e: Event, d: Digest, a: Address)
    requires VoteFor(c, validator, s, e, d, a) && d !in s.inFlight && !Reaches(c, validator, s, e, d, a)
    ensures var t := Next(c, validator, s, e);
            && Voters(t, d) == Voters(s, d) + {a} && t.votes[d][a] == e.vote.signature
            && (forall b :: b in Voters(s, d) && b != a ==> t.votes[d][b] == s.votes[d][b])
            && (forall x :: x != d ==> Voters(t, x) == Voters(s, x)) && t.inFlight == s.inFlight
  {
    SubmitsExactly(c, validator, s, e, d);
    assert forall b :: Reaches(c, validator, s, e, d, b) ==> b == a;
  }

  /** A refresh of this step changes the nonce. */
  predicate MovesNonce(s: Route, e: Event) {
    e.Refreshed? && s.current.Some? && s.current.value.nonce != e.view.nonce
  }

  /** What one step does to the marks: a successful submission adds its digest, a new nonce drops all. */
  lemma StepInFlight(c: Crypto, validator: Address, s: Route, e: Event, d: Digest)
    ensures d in Next(c, validator, s, e).inFlight <==>
              || (e.Voted? && e.submitOk && exists a :: Reaches(c, validator, s, e, d, a))
              || (d in s.inFlight && !MovesNonce(s, e))
  {
    if e.Voted? { SubmitsExactly(c, validator, s, e, d); }
  }

  /** Step `i` submitted `d` successfully, and no refresh up to `k` changed the nonce. */
  ghost predicate InFlightSince(c: Crypto, validator: Address, states: seq<Route>, events: seq<Event>, i: nat, k: nat,
      d: Digest) {
    && i < k <= |events| < |states|
    && events[i].Voted? && events[i].submitOk && (exists a :: Reaches(c, validator, states[i], events[i], d, a))
    && forall j :: i < j < k ==> !MovesNonce(states[j], events[j])
  }

  lemma InFlightAt(c: Crypto, validator: Address, states: seq<Route>, events: seq<Event>, n: nat, d: Digest)
    requires Run(c, validator, states, events) && n < |events|
    ensures d in states[n + 1].inFlight <==>
              || InFlightSince(c, validator, states, events, n, n + 1, d)
              || (d in states[n].inFlight && !MovesNonce(states[n], events[n]))
  {
    StepInFlight(c, validator, states[n], events[n], d);
  }

  lemma InFlightExtends(c: Crypto, validator: Address, states: seq<Route>, events: seq<Event>, i: nat, n: nat,
      d: Digest)
    requires i < n < |events| < |states|
    ensures InFlightSince(c, validator, states, events, i, n + 1, d) <==>
              InFlightSince(c, validator, states, events, i, n, d) && !MovesNonce(states[n], events[n])
  {
  }

  ghost predicate WasSubmitted(c: Crypto, validator: Address, states: seq<Route>, events: seq<Event>, k: nat,
      d: Digest) {
    exists i: nat :: InFlightSince(c, validator, states, events, i, k, d)
  }

  lemma SubmittedStep(c: Crypto, validator: Address, states: seq<Route>, events: seq<Event>, n: nat, d: Digest)
    requires n < |events| < |states|
    ensures WasSubmitted(c, validator, states, events, n + 1, d) <==>
              || InFlightSince(c, validator, states, events, n, n + 1, d)
              || (WasSubmitted(c, validator, states, events, n, d) && !MovesNonce(states[n], events[n]))
  {
    if WasSubmitted(c, validator, states, events, n + 1, d) {
      var i: nat :| InFlightSince(c, validator, states, events, i, n + 1, d);
      if i < n { InFlightExtends(c, validator, states, events, i, n, d); }
    }
    if WasSubmitted(c, validator, states, events, n, d) && !MovesNonce(states[n], events[n]) {
      var i: nat :| InFlightSince(c, validator, states, events, i, n, d);
      InFlightExtends(c, validator, states, events, i, n, d);
    }
  }

  /**
   In every trace a digest is in flight if and only if some step submitted it successfully and the
   nonce has not changed since. A failed submission leaves no mark.
   */
  lemma {:induction false} InFlightExactly(c: Crypto, validator: Address, states: seq<Route>, events: seq<Event>,
      k: nat, d: Digest)
    requires Run(c, validator, states, events) && k <= |events|
    ensures d in states[k].inFlight <==> WasSubmitted(c, validator, states, events, k, d)
  {
    if k > 0 {
      InFlightExactly(c, validator, states, events, k - 1, d);
      InFlightAt(c, validator, states, events, k - 1, d);
      SubmittedStep(c, validator, states, events, k - 1, d);
    }
  }

  /**
   A submission, successful or not, empties its own slot and leaves every other update's votes as they
   were; a failed one is not in flight, so that new votes can complete the slot again.
   */
  lemma SubmissionTouchesOnlyItsSlot(c: Crypto, validator: Address, s: Route, e: Event, d: Digest, a: Address,
      x: Digest)
    requires Reaches(c, validator, s, e, d, a)
    ensures var t := Next(c, validator, s, e);
            && Voters(t, d) == {} && (d in t.inFlight <==> e.submitOk)
            && (x != d ==> (x in t.votes <==> x in s.votes) && (x in s.votes ==> t.votes[x] == s.votes[x]))
            && (x != d ==> (x in t.inFlight <==> x in s.inFlight))
  {
    SubmitsExactly(c, validator, s, e, d);
  }

  /** What one step does to the votes held: a counted vote adds its signer, a submission or a new nonce drops. */
  lemma StepVoters(c: Crypto, validator: Address, s: Route, e: Event, d: Digest, a: Address)
    ensures a in Voters(Next(c, validator, s, e), d) <==>
              && (a in Voters(s, d) || (VoteFor(c, validator, s, e, d, a) && d !in s.inFlight))
              && !(exists b :: Reaches(c, validator, s, e, d, b)) && !MovesNonce(s, e)
  {
    if e.Voted? { SubmitsExactly(c, validator, s, e, d); }
  }

  /** `a` voted for `d` at step `i`, and up to `k` neither was it submitted nor did the nonce change. */
  ghost predicate HeldSince(c: Crypto, validator: Address, states: seq<Route>, events: seq<Event>, i: nat, k: nat,
      d: Digest, a: Address) {
    && i < k <= |events| < |states|
    && VoteFor(c, validator, states[i], events[i], d, a) && d !in states[i].inFlight
    && forall j :: i <= j < k ==> !Drops(c, validator, states[j], events[j], d)
  }

  ghost predicate Drops(c: Crypto, validator: Address, s: Route, e: Event, d: Digest) {
    MovesNonce(s, e) || exists b :: Reaches(c, validator, s, e, d, b)
  }

  lemma VotersAt(c: Crypto, validator: Address, states: seq<Route>, events: seq<Event>, n: nat, d: Digest, a: Address)
    requires Run(c, validator, states, events) && n < |events|
    ensures a in Voters(states[n + 1], d) <==>
              || HeldSince(c, validator, states, events, n, n + 1, d, a)
              || (a in Voters(states[n], d) && !Drops(c, validator, states[n], events[n], d))
  {
    StepVoters(c, validator, states[n], events[n], d, a);
  }

  lemma HeldExtends(c: Crypto, validator: Address, states: seq<Route>, events: seq<Event>, i: nat, n: nat, d: Digest,
      a: Address)
    requires i < n < |events| < |states|
    ensures HeldSince(c, validator, states, events, i, n + 1, d, a) <==>
              HeldSince(c, validator, states, events, i, n, d, a) && !Drops(c, validator, states[n], events[n], d)
  {
  }

  ghost predicate WasCast(c: Crypto, validator: Address, states: seq<Route>, events: seq<Event>, k: nat, d: Digest,
      a: Address) {
    exists i: nat :: HeldSince(c, validator, states, events, i, k, d, a)
  }

  lemma CastStep(c: Crypto, validator: Address, states: seq<Route>, events: seq<Event>, n: nat, d: Digest, a: Address)
    requires n < |events| < |states|
    ensures WasCast(c, validator, states, events, n + 1, d, a) <==>
              || HeldSince(c, validator, states, events, n, n + 1, d, a)
              || (WasCast(c, validator, states, events, n, d, a) && !Drops(c, validator, states[n], events[n], d))
  {
    if WasCast(c, validator, states, events, n + 1, d, a) {
      var i: nat :| HeldSince(c, validator, states, events, i, n + 1, d, a);
      if i < n { HeldExtends(c, validator, states, events, i, n, d, a); }
    }
    if WasCast(c, validator, states, events, n, d, a) && !Drops(c, validator, states[n], events[n], d) {
      var i: nat :| HeldSince(c, validator, states, events, i, n, d, a);
      HeldExtends(c, validator, states, events, i, n, d, a);
    }
  }

  /**
   In every trace the votes held for an update are exactly those cast since it was last submitted and
   since the nonce last changed; so after a failed submission new votes can reach the threshold again,
   and a submission of one update leaves the votes for all others alone.
   */
  lemma {:induction false} VotersExactly(c: Crypto, validator: Address, states: seq<Route>, events: seq<Event>,
      k: nat, d: Digest, a: Address)
    requires Run(c, validator, states, events) && k <= |events|
    ensures a in Voters(states[k], d) <==> WasCast(c, validator, states, events, k, d, a)
  {
    if k > 0 {
      VotersExactly(c, validator, states, events, k - 1, d, a);
      VotersAt(c, validator, states, events, k - 1, d, a);
      CastStep(c, validator, states, events, k - 1, d, a);
    }
  }

  // ----- are the signers attestors *now*? -----

  /** Every vote held is from an attestor of the current view. */
  ghost predicate VotersCurrent(s: Route) {
    forall d, a :: d in s.votes && a in s.votes[d] ==> s.current.Some? && a in s.current.value.attestors
  }

  ghost predicate HasVoted(s: Route, a: Address) {
    exists d :: d in s.votes && a in s.votes[d]
  }

  /** A refresh that keeps the nonce and retires an attestor who has already voted. */
  ghost predicate RetiresVoter(s: Route, view: OnChain) {
    && s.current.Some? && s.current.value.nonce == view.nonce
    && exists a :: a in s.current.value.attestors - view.attestors && HasVoted(s, a)
  }

  /** Exactly the refreshes that retire a voter under an unchanged nonce leave stale votes behind. */
  lemma RefreshKeepsVotersCurrentIff(s: Route, view: OnChain)
    requires VotersCurrent(s) && (s.current.None? ==> s.votes == map[])
    ensures VotersCurrent(OnRefresh(s, view)) <==> !RetiresVoter(s, view)
  {
    var t := OnRefresh(s, view);
    if RetiresVoter(s, view) {
      var a :| a in s.current.value.attestors - view.attestors && HasVoted(s, a);
      var d :| d in s.votes && a in s.votes[d];
      assert d in t.votes && a in t.votes[d];
    } else {
      forall d, a | d in t.votes && a in t.votes[d] ensures a in view.attestors {
        assert HasVoted(s, a);
      }
    }
  }

  /** In every trace without such a refresh, all signatures of a submission are current attestors'. */
  lemma {:induction false} SignersCurrentWithoutRetiredVoters(c: Crypto, validator: Address, states: seq<Route>,
      events: seq<Event>, k: nat)
    requires Run(c, validator, states, events) && k <= |events|
    requires forall i :: 0 <= i < k && events[i].Refreshed? ==> !RetiresVoter(states[i], events[i].view)
    ensures VotersCurrent(states[k]) && (states[k].current.None? ==> states[k].votes == map[])
    ensures k < |events| && events[k].Voted? && Submits(c, validator, states[k], events[k].vote).Some? ==>
              forall a :: a in Submits(c, validator, states[k], events[k].vote).value.signatures ==>
                a in states[k].current.value.attestors
  {
    if k > 0 {
      SignersCurrentWithoutRetiredVoters(c, validator, states, events, k - 1);
      assert states[k] == Next(c, validator, states[k - 1], events[k - 1]);
      if events[k - 1].Refreshed? {
        RefreshKeepsVotersCurrentIff(states[k - 1], events[k - 1].view);
      }
    }
  }

  /** A concrete trace whose submission carries a retired attestor's signature. */
  lemma RetiredSignerExample(c: Crypto, validator: Address, first: Signature, second: Signature)
    requires c.recover(c.digest(validator, [7], 5, 0), first) == Some(1)
    requires c.recover(c.digest(validator, [7], 5, 0), second) == Some(2)
    ensures var s1 := OnRefresh(IDLE, OnChain({1, 2}, 2, 0, 5));
            var s2 := OnVote(c, validator, s1, Vote(0, [7], first), false);
            var s3 := OnRefresh(s2, OnChain({2, 3}, 2, 0, 5));
            var submission := Submits(c, validator, s3, Vote(0, [7], second));
            && submission.Some?
            && 1 in submission.value.signatures
            && 1 !in s3.current.value.attestors
  {
    assert Canonical([7]) == [7] by {
      AscendingUnique(Canonical([7]), [7]);
    }
    var s1 := OnRefresh(IDLE, OnChain({1, 2}, 2, 0, 5));
    var d := c.digest(validator, [7], 5, 0);
    assert VerifyVote(c, validator, Vote(0, [7], first), s1.current.value) == Some(Verified([7], d, 1));
    var one: Slot := map[1 := first];
    assert SlotOf(s1.votes, d)[1 := first] == one && |one| == 1;
    assert OnVote(c, validator, s1, Vote(0, [7], first), false).votes == map[d := one];
    var both := one[2 := second];
    assert |both| == 2;
  }
}
