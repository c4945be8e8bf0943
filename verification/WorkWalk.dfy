/**
 The walk of one route's cursor over its unfinished-message directory, as a step system. Writers
 may add and remove records between any two cursor steps. The directory is the plain set of record
 IDs (256-bit words in byte order, so naturals); the cursor holds a bounded window of it.
 */
module WorkWalk {
  import opened Basics
  import opened Ordered

  const WINDOW_SIZE: nat := 4096

  type Id = nat

  /** Position of the walk: last ID handed out, upcoming IDs, and the largest ID of this lap. */
  datatype Cursor = Cursor(after: Option<Id>, window: seq<Id>, lapEnd: Option<Id>)

  datatype Walk = Walk(files: set<Id>, cursor: Cursor)

  datatype Event =
    | Recorded(id: Id)
    | Completed(id: Id)
    | Refilled
    | Examined(id: Id)
    | LapEnded

  /** What a refill keeps: beyond the last ID handed out and, inside a lap, within the lap. */
  predicate Qualifies(c: Cursor, id: Id) {
    && (c.after.Some? ==> c.after.value < id)
    && (c.after.Some? && c.lapEnd.Some? ==> id <= c.lapEnd.value)
  }

  ghost function Qualifying(w: Walk): set<Id> {
    set id | id in w.files && Qualifies(w.cursor, id)
  }

  ghost predicate IsLargest(m: Option<Id>, files: set<Id>) {
    match m
    case None => files == {}
    case Some(x) => x in files && forall y :: y in files ==> y <= x
  }

  ghost predicate Step(s: Walk, e: Event, t: Walk) {
    match e
    case Recorded(id) => t == s.(files := s.files + {id})
    case Completed(id) => t == s.(files := s.files - {id})
    case Refilled =>
      && s.cursor.window == []
      && t.files == s.files
      && t.cursor.after == s.cursor.after
      && IsFirst(t.cursor.window, Qualifying(s), WINDOW_SIZE)
      && (if s.cursor.after.None? then IsLargest(t.cursor.lapEnd, s.files)
          else t.cursor.lapEnd == s.cursor.lapEnd)
    case Examined(id) =>
      && s.cursor.window != []
      && id == s.cursor.window[0]
      && t == s.(cursor := s.cursor.(after := Some(id), window := s.cursor.window[1..]))
    case LapEnded =>
      && s.cursor.window == []
      && (s.files == {} || (s.cursor.after.Some? && Qualifying(s) == {}))
      && t == s.(cursor := s.cursor.(after := None))
  }

  ghost predicate Run(states: seq<Walk>, events: seq<Event>) {
    && |states| == |events| + 1
    && forall i :: 0 <= i < |events| ==> Step(states[i], events[i], states[i + 1])
  }

  /** The window is ascending and lies strictly after `after` and no later than the lap's end. */
  ghost predicate Inv(w: Walk) {
    var c := w.cursor;
    && Ascending(c.window)
    && (forall id :: id in c.window ==> c.lapEnd.Some? && id <= c.lapEnd.value)
    && (forall id :: id in c.window && c.after.Some? ==> c.after.value < id)
    && (c.after.Some? ==> c.lapEnd.Some? && c.after.value <= c.lapEnd.value)
  }

  lemma StepKeepsInv(s: Walk, e: Event, t: Walk)
    requires Inv(s) && Step(s, e, t)
    ensures Inv(t)
  {
    if e.Examined? {
      var w := s.cursor.window;
      assert forall x :: x in w[1..] ==> x in w && w[0] < x;
      assert w[0] in w;
    }
  }

  lemma {:induction false} RunKeepsInv(states: seq<Walk>, events: seq<Event>, k: nat)
    requires Run(states, events) && Inv(states[0]) && k <= |events|
    ensures Inv(states[k])
  {
    if k > 0 {
      RunKeepsInv(states, events, k - 1);
      StepKeepsInv(states[k - 1], events[k - 1], states[k]);
    }
  }

  lemma RunExtends(states: seq<Walk>, events: seq<Event>, e: Event, t: Walk)
    requires Run(states, events) && Step(states[|events|], e, t)
    ensures Run(states + [t], events + [e])
  {
    var ss, es := states + [t], events + [e];
    forall i | 0 <= i < |es| ensures Step(ss[i], es[i], ss[i + 1]) {
      if i < |events| { assert Step(states[i], events[i], states[i + 1]); }
    }
  }

  /** Consecutive calls make one run, so what holds of runs holds of any sequence of calls. */
  lemma RunsCompose(states: seq<Walk>, events: seq<Event>, more: seq<Walk>, later: seq<Event>)
    requires Run(states, events) && Run(more, later) && more[0] == states[|events|]
    ensures Run(states + more[1..], events + later)
  {
    var ss, es := states + more[1..], events + later;
    forall i | 0 <= i < |es| ensures Step(ss[i], es[i], ss[i + 1]) {
      if i < |events| {
        assert Step(states[i], events[i], states[i + 1]);
      } else {
        var j := i - |events|;
        assert ss[i] == more[j] && ss[i + 1] == more[j + 1];
        assert Step(more[j], later[j], more[j + 1]);
      }
    }
  }

  // ----- no record is starved -----

  /** The walk still has `id` ahead of it in the current lap. */
  ghost predicate Ahead(s: Walk, id: Id) {
    var c := s.cursor;
    && (c.after.Some? ==> c.after.value < id)
    && c.lapEnd.Some? && id <= c.lapEnd.value
    && (c.window != [] ==> id in c.window || c.window[|c.window| - 1] < id)
    && (c.after.None? ==> c.window != [])
  }

  /** Between two laps: the next one has not taken its first window yet. */
  ghost predicate BetweenLaps(s: Walk) {
    s.cursor.after.None? && s.cursor.window == []
  }

  lemma StepKeepsAhead(s: Walk, e: Event, t: Walk, id: Id)
    requires Inv(s) && Step(s, e, t) && e != Examined(id)
    requires e.Refilled? || e.LapEnded? ==> id in s.files
    requires BetweenLaps(s) || Ahead(s, id)
    ensures e != LapEnded
    ensures BetweenLaps(t) || Ahead(t, id)
  {
    var w := s.cursor.window;
    assert id in s.files && Qualifies(s.cursor, id) ==> id in Qualifying(s);
    match e
    case LapEnded =>
    case Refilled =>
      var v := t.cursor.window;
      assert v != [];
      assert v[|v| - 1] in v;
    case Examined(x) =>
      assert forall y :: y in w[1..] <==> y in w && y != w[0] by {
        forall y ensures y in w[1..] <==> y in w && y != w[0] { TailMember(w, y); }
      }
    case _ =>
  }

  /** The directory passes of steps `a .. k - 1` find the record; it may be away in between. */
  ghost predicate PresentAtPasses(states: seq<Walk>, events: seq<Event>, a: nat, k: nat, id: Id) {
    && k <= |events| < |states|
    && forall i :: a <= i < k && (events[i].Refilled? || events[i].LapEnded?) ==> id in states[i].files
  }

  lemma {:induction false} AheadUntilExamined(states: seq<Walk>, events: seq<Event>, a: nat, k: nat, id: Id)
    requires Run(states, events) && Inv(states[0])
    requires a <= k <= |events| && BetweenLaps(states[a])
    requires forall i :: a <= i < k ==> events[i] != Examined(id)
    requires PresentAtPasses(states, events, a, k, id)
    ensures BetweenLaps(states[k]) || Ahead(states[k], id)
  {
    if a < k {
      AheadUntilExamined(states, events, a, k - 1, id);
      RunKeepsInv(states, events, k - 1);
      StepKeepsAhead(states[k - 1], events[k - 1], states[k], id);
    }
  }

  /** The walk has gone by `id` in the current lap. */
  ghost predicate Passed(s: Walk, id: Id) {
    s.cursor.after.Some? && id <= s.cursor.after.value
  }

  /**
   Fair walk: from the start of any lap, a process's first one included, a record that the
   directory passes find until the walk has gone by it was examined by then. Nothing is asked of it
   afterwards: it may be completed before the lap ends.
   */
  lemma ExaminedBeforePassed(states: seq<Walk>, events: seq<Event>, a: nat, k: nat, id: Id)
    requires Run(states, events) && Inv(states[0])
    requires a <= k <= |events| && BetweenLaps(states[a])
    requires PresentAtPasses(states, events, a, k, id) && Passed(states[k], id)
    ensures exists i :: a <= i < k && events[i] == Examined(id)
  {
    if forall i :: a <= i < k ==> events[i] != Examined(id) {
      AheadUntilExamined(states, events, a, k, id);
      assert false;
    }
  }

  /** And no lap ends before it has examined every record its passes find. */
  lemma ExaminedByLapEnd(states: seq<Walk>, events: seq<Event>, a: nat, b: nat, id: Id)
    requires Run(states, events) && Inv(states[0])
    requires a <= b < |events| && BetweenLaps(states[a]) && events[b] == LapEnded
    requires PresentAtPasses(states, events, a, b + 1, id)
    ensures exists k :: a <= k < b && events[k] == Examined(id)
  {
    if forall k :: a <= k < b ==> events[k] != Examined(id) {
      AheadUntilExamined(states, events, a, b, id);
      RunKeepsInv(states, events, b);
      assert Step(states[b], events[b], states[b + 1]);
      StepKeepsAhead(states[b], events[b], states[b + 1], id);
      assert false;
    }
  }

  // ----- every lap ends: arrivals cannot extend it -----

  ghost function Count(events: seq<Event>, lapEnds: bool): nat {
    if events == [] then 0
    else Count(events[..|events| - 1], lapEnds) +
         (var e := events[|events| - 1]; if (if lapEnds then e.LapEnded? else e.Examined?) then 1 else 0)
  }

  /** How many IDs of `u` the walk has gone by in this lap. */
  ghost function Rank(w: Walk, u: set<Id>): nat {
    |set y | y in u && Passed(w, y)|
  }

  lemma RankBounded(w: Walk, u: set<Id>)
    ensures Rank(w, u) <= |u|
  {
    var passed := set y | y in u && Passed(w, y);
    SubsetCount(passed, u);
  }

  /** One step: an examination moves the cursor past one more ID, only a lap end takes it back. */
  lemma StepMoves(s: Walk, e: Event, t: Walk, u: set<Id>)
    requires Inv(s) && Step(s, e, t) && Elements(s.cursor.window) <= u
    ensures Rank(s, u) + (if e.Examined? then 1 else 0) <= Rank(t, u) + (if e.LapEnded? then |u| else 0)
  {
    var before := set y | y in u && Passed(s, y);
    var after := set y | y in u && Passed(t, y);
    match e
    case Examined(id) =>
      assert id in s.cursor.window;
      assert id in Elements(s.cursor.window);
      SubsetCount(before + {id}, after);
    case LapEnded => RankBounded(s, u);
    case _ => assert before == after;
  }

  /**
   Inside a lap every examination moves the cursor past one more of the IDs that occur in the run,
   so a lap examines at most as many IDs as there are, even if arrivals never stop.
   */
  lemma {:induction false} ExaminationsPerLap(states: seq<Walk>, events: seq<Event>, u: set<Id>, n: nat)
    requires Run(states, events) && Inv(states[0]) && n <= |events|
    requires Elements(states[0].cursor.window) <= u
    requires forall k :: 0 <= k < |states| ==> states[k].files <= u
    ensures Elements(states[n].cursor.window) <= u
    ensures Count(events[..n], false) + Rank(states[0], u) <= Rank(states[n], u) + |u| * Count(events[..n], true)
    ensures Count(events[..n], false) <= |u| * (Count(events[..n], true) + 1)
  {
    if n > 0 {
      ExaminationsPerLap(states, events, u, n - 1);
      RunKeepsInv(states, events, n - 1);
      StepMoves(states[n - 1], events[n - 1], states[n], u);
      CountNext(events, n, |u|);
      assert states[n - 1].files <= u;
    }
    RankBounded(states[n], u);
  }

  lemma CountNext(events: seq<Event>, n: nat, bound: nat)
    requires 0 < n <= |events|
    ensures Count(events[..n], false) == Count(events[..n - 1], false) + (if events[n - 1].Examined? then 1 else 0)
    ensures bound * Count(events[..n], true) ==
            bound * Count(events[..n - 1], true) + (if events[n - 1].LapEnded? then bound else 0)
  {
    assert events[..n][..n - 1] == events[..n - 1];
    var laps := Count(events[..n - 1], true);
    assert bound * (laps + 1) == bound * laps + bound;
  }

  lemma {:induction false} LapEndPositions(events: seq<Event>) returns (a: nat, b: nat)
    requires Count(events, true) >= 2
    ensures a < b < |events| && events[a] == LapEnded && events[b] == LapEnded
  {
    var n := |events| - 1;
    if events[n].LapEnded? {
      b := n;
      a := LastLapEnd(events[..n]);
    } else {
      a, b := LapEndPositions(events[..n]);
    }
  }

  lemma {:induction false} LastLapEnd(events: seq<Event>) returns (a: nat)
    requires Count(events, true) >= 1
    ensures a < |events| && events[a] == LapEnded
  {
    var n := |events| - 1;
    if events[n].LapEnded? { a := n; } else { a := LastLapEnd(events[..n]); }
  }

  lemma FewLaps(n: nat, laps: nat)
    ensures laps == 0 ==> n * (laps + 1) == n
    ensures laps <= 1 ==> n * (laps + 1) <= 2 * n
  {
  }

  /**
   No starvation: in any run throughout which a record stays present, it is examined within twice
   as many examinations as IDs occur in the run; within as many, if the run starts with a lap.
   */
  lemma NoStarvation(states: seq<Walk>, events: seq<Event>, u: set<Id>, id: Id)
    requires Run(states, events) && Inv(states[0]) && Elements(states[0].cursor.window) <= u
    requires forall k :: 0 <= k < |states| ==> states[k].files <= u && id in states[k].files
    requires Count(events, false) > (if BetweenLaps(states[0]) then |u| else 2 * |u|)
    ensures exists k :: 0 <= k < |events| && events[k] == Examined(id)
  {
    ExaminationsPerLap(states, events, u, |events|);
    assert events[..|events|] == events;
    var laps := Count(events, true);
    FewLaps(|u|, laps);
    if BetweenLaps(states[0]) {
      var b := LastLapEnd(events);
      ExaminedByLapEnd(states, events, 0, b, id);
    } else {
      var a, b := LapEndPositions(events);
      assert Step(states[a], events[a], states[a + 1]);
      ExaminedByLapEnd(states, events, a + 1, b, id);
    }
  }

  // ----- what the rest of a lap examines -----

  /**
   What the current lap has yet to examine if the directory does not change: the window, and what
   lies beyond it up to the lap's end. A record that arrives inside the window's span is not in it.
   */
  ghost function Due(w: Walk): set<Id> {
    var c := w.cursor;
    if BetweenLaps(w) then w.files
    else Elements(c.window) + set id | id in w.files && Beyond(c, id)
  }

  ghost predicate Beyond(c: Cursor, id: Id) {
    && (c.window != [] ==> c.window[|c.window| - 1] < id)
    && (c.window == [] && c.after.Some? ==> c.after.value < id)
    && (c.lapEnd.Some? ==> id <= c.lapEnd.value)
  }

  lemma DueExamined(s: Walk, id: Id, t: Walk)
    requires Inv(s) && Step(s, Examined(id), t)
    ensures id in Due(s) && Due(t) == Due(s) - {id}
  {
    var w := s.cursor.window;
    forall y ensures y in w[1..] <==> y in w && y != id { TailMember(w, y); }
    assert id in w && w[|w| - 1] in w;
    assert |w| > 1 ==> t.cursor.window[|w| - 2] == w[|w| - 1];
    assert forall y :: Beyond(s.cursor, y) ==> id < y;
    assert forall y :: Beyond(t.cursor, y) <==> Beyond(s.cursor, y);
  }

  lemma DueRefilled(s: Walk, t: Walk)
    requires Inv(s) && Step(s, Refilled, t)
    ensures Due(t) == Due(s)
  {
    var q, v := Qualifying(s), t.cursor.window;
    assert s.cursor.after.None? ==> q == s.files;
    assert Due(s) == q;
    if v == [] {
      assert q == {};
    } else {
      assert v[|v| - 1] in v;
      forall id ensures id in Due(t) <==> id in q { }
    }
  }

  lemma DueLapEnded(s: Walk, t: Walk)
    requires Inv(s) && Step(s, LapEnded, t)
    ensures Due(s) == {} && Due(t) == s.files
  {
    if s.files != {} { assert Due(s) == Qualifying(s); }
  }
}
