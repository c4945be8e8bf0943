/**
 The durable store of unfinished messages for one route: `RouteCursor` walks the directory in
 bounded windows, `WorkStore` adds, offers and removes records. Each method is tied to the steps of
 `WorkWalk`; file-system failures are nondeterministic choices.
 */
module WorkStore {
  import opened Basics
  import opened Ordered
  import opened WorkWalk

  const MAX_EXAMINED_PER_CALL: nat := 4096

  datatype Message = Message(chainKey: nat, id: Id, body: nat)

  datatype File = Stored(message: Message) | Unreadable | Malformed

  /** One entry of a directory listing. `Failed` is an error while advancing the listing. */
  datatype DirEntry = NotRecord | BadName | Failed | RecordFile(id: Id)

  function IdsOf(listing: seq<DirEntry>): seq<Id> {
    if listing == [] then []
    else
      var e := listing[|listing| - 1];
      IdsOf(listing[..|listing| - 1]) + (if e.RecordFile? then [e.id] else [])
  }

  /** A listing of the directory: every record file once, in any order, among anything else. */
  ghost predicate Lists(listing: seq<DirEntry>, files: set<Id>) {
    && Distinct(IdsOf(listing))
    && (forall id :: id in IdsOf(listing) <==> id in files)
    && forall e :: e in listing ==> e != BadName
  }

  /** The record count `RouteCursor::new` takes; an unreadable listing yields none. */
  method CountRecords(listing: seq<DirEntry>) returns (r: Result<nat>)
    ensures r.Err? <==> Failed in listing
    ensures r.Ok? && BadName !in listing ==> r.value == |IdsOf(listing)|
  {
    var n := 0;
    for i := 0 to |listing|
      invariant Failed !in listing[..i]
      invariant BadName !in listing[..i] ==> n == |IdsOf(listing[..i])|
    {
      assert listing[..i + 1][..i] == listing[..i];
      assert listing[..i + 1] == listing[..i] + [listing[i]];
      if listing[i].Failed? { return Err; }
      if listing[i].RecordFile? || listing[i].BadName? { n := n + 1; }
    }
    assert listing[..|listing|] == listing;
    return Ok(n);
  }

  lemma {:induction false} ListedCount(s: seq<Id>, files: set<Id>)
    requires Distinct(s) && forall id :: id in s <==> id in files
    ensures |s| == |files|
  {
    if s == [] {
      assert forall id :: id !in files;
      assert files == {};
    } else {
      var x, rest := s[|s| - 1], s[..|s| - 1];
      forall id ensures id in rest <==> id in files - {x} {
        assert s == rest + [x];
      }
      ListedCount(rest, files - {x});
    }
  }

  /** Push into the bounded max-heap and, if it overflows, pop its largest entry. */
  method PushBounded(heap: seq<Id>, id: Id, ghost keep: set<Id>) returns (r: seq<Id>)
    requires IsFirst(heap, keep, WINDOW_SIZE) && id !in keep
    ensures IsFirst(r, keep + {id}, WINDOW_SIZE)
  {
    PushKeepsFirst(heap, keep, WINDOW_SIZE, id);
    r := Insert(heap, id);
    if |r| > WINDOW_SIZE {
      r := r[..|r| - 1];
    }
  }

  class RouteCursor {
    var liveRecords: nat
    var after: Option<Id>
    var window: seq<Id>
    var lapEnd: Option<Id>

    ghost function View(): Cursor
      reads this
    {
      Cursor(after, window, lapEnd)
    }

    constructor (records: nat)
      ensures liveRecords == records && View() == Cursor(None, [], None)
    {
      liveRecords, after, window, lapEnd := records, None, [], None;
    }

    /**
     One pass over a listing in any order: the window becomes exactly the first `WINDOW_SIZE`
     qualifying IDs in order. A failed pass changes nothing.
     */
    method Refill(listing: seq<DirEntry>, ghost files: set<Id>) returns (ok: bool)
      requires Distinct(IdsOf(listing)) && forall id :: id in IdsOf(listing) <==> id in files
      modifies this`window, this`lapEnd
      ensures ok <==> Failed !in listing && BadName !in listing
      ensures !ok ==> View() == old(View())
      ensures ok ==> IsFirst(window, Qualifying(Walk(files, old(View()))), WINDOW_SIZE)
      ensures ok ==> if after.None? then IsLargest(lapEnd, files) else lapEnd == old(lapEnd)
    {
      var largest, smallest;
      ok, largest, smallest := ScanListing(listing, Cursor(after, window, lapEnd), files);
      if !ok { return; }
      if after.None? { lapEnd := largest; }
      window := smallest;
    }
  }

  /** The pass of a refill: the largest ID, and a bounded heap of the smallest qualifying ones. */
  method ScanListing(listing: seq<DirEntry>, c: Cursor, ghost files: set<Id>)
    returns (ok: bool, largest: Option<Id>, smallest: seq<Id>)
    requires Distinct(IdsOf(listing)) && forall id :: id in IdsOf(listing) <==> id in files
    ensures ok <==> Failed !in listing && BadName !in listing
    ensures ok ==> IsLargest(largest, files) && IsFirst(smallest, Qualifying(Walk(files, c)), WINDOW_SIZE)
  {
    var newLap := c.after.None?;
    largest, smallest := None, [];
    ghost var keep: set<Id> := {};
    for i := 0 to |listing|
      invariant Failed !in listing[..i] && BadName !in listing[..i]
      invariant IsLargest(largest, Elements(IdsOf(listing[..i])))
      invariant keep == Qualifying(Walk(Elements(IdsOf(listing[..i])), c))
      invariant IsFirst(smallest, keep, WINDOW_SIZE)
    {
      ghost var seen := IdsOf(listing[..i]);
      assert listing[..i + 1][..i] == listing[..i];
      assert listing[..i + 1] == listing[..i] + [listing[i]];
      if listing[i].Failed? || listing[i].BadName? { return false, largest, smallest; }
      assert IdsOf(listing[..i + 1]) == if listing[i].RecordFile? then seen + [listing[i].id] else seen;
      if listing[i].RecordFile? {
        var id := listing[i].id;
        assert id !in seen by { PrefixDistinct(listing, i); }
        assert Elements(seen + [id]) == Elements(seen) + {id};
        LargestExtends(largest, Elements(seen), id);
        QualifyingExtends(c, Elements(seen), id);
        largest := Some(if largest.None? then id else Max(largest.value, id));
        if (c.after.Some? && id <= c.after.value) || (!newLap && c.lapEnd.Some? && id > c.lapEnd.value) {
          assert !Qualifies(c, id);
        } else {
          assert Qualifies(c, id) && id !in keep;
          smallest := PushBounded(smallest, id, keep);
          keep := keep + {id};
        }
      }
    }
    assert listing[..|listing|] == listing;
    assert Elements(IdsOf(listing)) == files;
    return true, largest, smallest;
  }

  lemma LargestExtends(m: Option<Id>, files: set<Id>, id: Id)
    requires IsLargest(m, files)
    ensures IsLargest(Some(if m.None? then id else Max(m.value, id)), files + {id})
  {
  }

  lemma QualifyingExtends(c: Cursor, files: set<Id>, id: Id)
    ensures Qualifying(Walk(files + {id}, c)) == Qualifying(Walk(files, c)) + (if Qualifies(c, id) then {id} else {})
  {
  }

  lemma PrefixDistinct(listing: seq<DirEntry>, i: nat)
    requires i < |listing| && listing[i].RecordFile? && Distinct(IdsOf(listing))
    ensures listing[i].id !in IdsOf(listing[..i])
  {
    assert listing[..i + 1][..i] == listing[..i];
    IdsPrefix(listing, i + 1);
    var all, seen := IdsOf(listing[..i + 1]), IdsOf(listing[..i]);
    assert all == seen + [listing[i].id];
    assert forall k :: 0 <= k < |seen| ==> seen[k] == all[k] == IdsOf(listing)[k];
    assert all[|seen|] == IdsOf(listing)[|seen|];
  }

  lemma {:induction false} IdsPrefix(listing: seq<DirEntry>, i: nat)
    requires i <= |listing|
    ensures IdsOf(listing[..i]) <= IdsOf(listing)
    decreases |listing| - i
  {
    if i == |listing| {
      assert listing[..i] == listing;
    } else {
      IdsPrefix(listing, i + 1);
      assert listing[..i + 1][..i] == listing[..i];
    }
  }

  // ----- what one `pending` call hands out -----

  ghost function ExaminedIds(trace: seq<Event>): seq<Id> {
    if trace == [] then []
    else
      var e := trace[|trace| - 1];
      ExaminedIds(trace[..|trace| - 1]) + (if e.Examined? then [e.id] else [])
  }

  /** Ascending from just after `start` up to `cut`, then ascending again and not past `start`. */
  ghost predicate CyclicFrom(ids: seq<Id>, start: Option<Id>, cut: nat) {
    && cut <= |ids|
    && Ascending(ids[..cut])
    && Ascending(ids[cut..])
    && (start.None? ==> cut == |ids|)
    && (start.Some? ==> (forall k :: 0 <= k < cut ==> start.value < ids[k]))
    && (start.Some? ==> (forall k :: cut <= k < |ids| ==> ids[k] <= start.value))
  }

  /** One call never examines an ID twice. */
  lemma CyclicDistinct(ids: seq<Id>, start: Option<Id>, cut: nat)
    requires CyclicFrom(ids, start, cut)
    ensures Distinct(ids)
  {
    forall i, j | 0 <= i < j < |ids| ensures ids[i] != ids[j] {
      if j < cut {
        assert ids[..cut][i] < ids[..cut][j];
      } else if i >= cut {
        assert ids[cut..][i - cut] < ids[cut..][j - cut];
      }
    }
  }

  lemma CyclicExtends(ids: seq<Id>, start: Option<Id>, cut: nat, wrapped: bool, id: Id)
    requires CyclicFrom(ids, start, cut)
    requires !wrapped ==> cut == |ids|
    requires !wrapped && start.Some? ==> start.value < id
    requires wrapped ==> start.Some? && id <= start.value
    requires !wrapped ==> forall k :: 0 <= k < |ids| ==> ids[k] < id
    requires forall k :: cut <= k < |ids| ==> ids[k] < id
    ensures CyclicFrom(ids + [id], start, if wrapped then cut else cut + 1)
  {
    var all := ids + [id];
    if wrapped {
      assert all[..cut] == ids[..cut];
      assert all[cut..] == ids[cut..] + [id];
      assert forall k :: 0 <= k < |ids[cut..]| ==> ids[cut..][k] == ids[cut + k] < id;
    } else {
      assert all[..cut + 1] == all;
      assert ids[..cut] == ids;
    }
  }

  /** The messages of the examined IDs that the caller does not hold and that are still stored. */
  ghost function Offers(ids: seq<Id>, loaded: set<Id>, files: map<Id, File>): seq<Message> {
    if ids == [] then []
    else
      var id := ids[|ids| - 1];
      Offers(ids[..|ids| - 1], loaded, files) +
      (if id !in loaded && id in files && files[id].Stored? then [files[id].message] else [])
  }

  /** The last record examined is there and is unreadable, malformed or filed under a foreign name. */
  ghost predicate EndsCorrupt(ids: seq<Id>, files: map<Id, File>, chainKey: nat) {
    ids != [] && Corrupt(files, ids[|ids| - 1], chainKey)
  }

  /** A readable record filed under its own identity. */
  predicate Sound(f: File, id: Id, chainKey: nat) {
    f.Stored? && f.message.id == id && f.message.chainKey == chainKey
  }

  predicate Corrupt(files: map<Id, File>, id: Id, chainKey: nat) {
    id in files && !Sound(files[id], id, chainKey)
  }

  ghost predicate WalkEvent(e: Event) {
    e.Refilled? || e.Examined? || e.LapEnded?
  }

  class WorkStore {
    const chainKey: nat
    /** The route directory; `None` until something created it. */
    var directory: Option<map<Id, File>>
    /** The bounded reader, created by the first `Pending` call of the process. */
    var cursor: RouteCursor?

    ghost function Files(): set<Id>
      reads this
    {
      if directory.None? then {} else directory.value.Keys
    }

    ghost function Records(): map<Id, File>
      reads this
    {
      if directory.None? then map[] else directory.value
    }

    ghost function View(): Walk
      reads this, cursor
    {
      Walk(Files(), if cursor == null then Cursor(None, [], None) else cursor.View())
    }

    /** The maintained count is the number of record files, and the walk's window is sound. */
    ghost predicate Valid()
      reads this, cursor
    {
      && (cursor != null ==> directory.Some? && cursor.liveRecords == |Files()|)
      && Inv(View())
    }

    /** A fresh process over whatever the previous one left on disk. */
    constructor (chainKey: nat, directory: Option<map<Id, File>>)
      ensures Valid() && this.chainKey == chainKey && this.directory == directory && cursor == null
    {
      this.chainKey, this.directory, this.cursor := chainKey, directory, null;
    }

    /**
     Directory listings come in any order, mixed with other entries. Unless the file system lists
     the directory reliably, they may fail, at once or part-way.
     */
    method ReadDir(listable: bool) returns (r: Result<seq<DirEntry>>)
      requires directory.Some?
      ensures r.Ok? ==> Lists(r.value, Files())
      ensures listable ==> r.Ok? && Failed !in r.value
    {
      if !listable {
        if * { return Err; }
      }
      var rest := directory.value.Keys;
      var listing: seq<DirEntry> := [];
      ghost var done: set<Id> := {};
      while rest != {}
        invariant done !! rest && done + rest == Files()
        invariant Lists(listing, done) && Failed !in listing
        decreases rest
      {
        var id :| id in rest;
        assert (listing + [RecordFile(id)])[..|listing|] == listing;
        assert IdsOf(listing + [RecordFile(id)]) == IdsOf(listing) + [id];
        listing := listing + [RecordFile(id)];
        rest := rest - {id};
        done := done + {id};
      }
      return Ok(listing);
    }

    /**
     Commit a message file. Success means the record is there; a failure leaves the directory with
     or without it, never anything else, and the count still agrees.
     */
    method Record(message: Message) returns (r: Result<()>)
      requires Valid()
      modifies this`directory, cursor
      ensures Valid() && cursor == old(cursor)
      ensures r.Ok? ==> directory.Some? && Records() == old(Records())[message.id := Stored(message)]
      ensures r.Err? ==> Records() == old(Records()) || Records() == old(Records())[message.id := Stored(message)]
      ensures r.Ok? ==> Step(old(View()), Recorded(message.id), View())
      ensures View() == old(View()) || Step(old(View()), Recorded(message.id), View())
    {
      if * { return Err; } // creating the directory
      if directory.None? { directory := Some(map[]); }
      if * { return Err; } // checking for the file, or the atomic write
      var existed := message.id in directory.value;
      ghost var before := Files();
      directory := Some(directory.value[message.id := Stored(message)]);
      assert Files() == before + {message.id};
      if !existed && cursor != null {
        cursor.liveRecords := cursor.liveRecords + 1;
      }
      if * { return Err; } // syncing the directory
      return Ok(());
    }

    /** Remove a finished record. A missing file is already done; a failure may have removed it. */
    method Complete(id: Id) returns (r: Result<()>)
      requires Valid()
      modifies this`directory, cursor
      ensures Valid() && cursor == old(cursor)
      ensures r.Ok? ==> Step(old(View()), Completed(id), View())
      ensures View() == old(View()) || Step(old(View()), Completed(id), View())
      ensures Records() == old(Records()) || Records() == old(Records()) - {id}
    {
      if directory.None? || id !in directory.value { return Ok(()); }
      if * { return Err; }
      ghost var before := Files();
      directory := Some(directory.value - {id});
      assert Files() == before - {id};
      if cursor != null { cursor.liveRecords := SatSub(cursor.liveRecords, 1); }
      if * { return Err; }
      return Ok(());
    }

    /**
     Refill an empty window. A refill that finds nothing qualifying, or an empty store, ends the
     lap; a failed listing leaves the walk where it was.
     */
    method FillWindow(listable: bool) returns (fill: Fill, ghost mid: Walk)
      requires Valid() && cursor != null && cursor.window == []
      modifies cursor
      ensures Valid()
      ensures FillSteps(old(View()), fill, mid, View())
      ensures fill.Broken? ==> !listable
    {
      var c := cursor;
      ghost var w := View();
      mid := w;
      if c.liveRecords == 0 {
        c.after := None;
        StepKeepsInv(w, LapEnded, View());
        return Emptied, mid;
      }
      var listing := ReadDir(listable);
      if listing.Err? { return Broken, mid; }
      var ok := c.Refill(listing.value, Files());
      if !ok { return Broken, mid; }
      mid := View();
      StepKeepsInv(w, Refilled, mid);
      if c.window != [] { return Filled, mid; }
      assert w.cursor.after.None? ==> Qualifying(w) == Files();
      assert Qualifying(mid) == Qualifying(w) == {};
      c.after := None;
      StepKeepsInv(mid, LapEnded, View());
      return LapOver, mid;
    }

    /** Read one examined record: `None` if the caller holds it or it is gone. */
    method ReadRecord(id: Id, held: set<Id>) returns (r: Result<Option<Message>>)
      requires directory.Some?
      ensures r == Ok(None) <==> id in held || id !in directory.value
      ensures r.Ok? && r.value.Some? <==>
              && id !in held && id in directory.value && directory.value[id].Stored?
              && directory.value[id].message.id == id && directory.value[id].message.chainKey == chainKey
      ensures r.Ok? && r.value.Some? ==> directory.value[id] == Stored(r.value.value)
    {
      if id in held || id !in directory.value { return Ok(None); }
      match directory.value[id]
      case Unreadable => return Err;
      case Malformed => return Err;
      case Stored(m) =>
        if m.chainKey != chainKey || m.id != id { return Err; }
        return Ok(Some(m));
    }

    /** Hand the first ID of the window to the walk. */
    method TakeFront() returns (id: Id)
      requires Valid() && cursor != null && cursor.window != []
      modifies cursor
      ensures Valid() && Step(old(View()), Examined(id), View())
      ensures id == old(cursor.window)[0]
    {
      ghost var w := View();
      id := cursor.window[0];
      cursor.window, cursor.after := cursor.window[1..], Some(id);
      StepKeepsInv(w, Examined(id), View());
    }

    /** The process's cursor for the route, created on first use; nothing to read without a directory. */
    method OpenCursor(listable: bool) returns (r: Result<bool>)
      requires Valid()
      modifies this`cursor
      ensures Valid() && View() == old(View())
      ensures old(cursor) != null ==> cursor == old(cursor) && r == Ok(true)
      ensures old(cursor) == null && cursor != null ==> fresh(cursor)
      ensures r == Ok(true) <==> cursor != null
      ensures r == Ok(false) ==> directory.None?
      ensures r.Err? ==> !listable
    {
      if cursor != null { return Ok(true); }
      if directory.None? { return Ok(false); }
      var listing := ReadDir(listable);
      if listing.Err? { return Err; }
      var records := CountRecords(listing.value);
      if records.Err? { return Err; }
      ListedCount(IdsOf(listing.value), Files());
      cursor := new RouteCursor(records.value);
      return Ok(true);
    }

    /**
     Offer at most `limit` records the caller does not hold. The call is a run of the walk's own
     steps; the IDs it examines are in cyclic order from the cursor, and a successful call returns
     exactly the stored messages among them that are not in `loaded`. A call that neither fails nor
     is cut short by `limit` or the cap ends a lap and examines exactly what was in reach. It fails
     only on a listing, or on the corrupt record it examined last.
     */
    method Pending(loaded: set<Id>, limit: nat, listable: bool) returns (r: Result<seq<Message>>, ghost c: Call)
      requires Valid()
      modifies this`cursor, cursor
      ensures Valid() && (old(cursor) != null ==> cursor == old(cursor))
      ensures old(cursor) == null && cursor != null ==> fresh(cursor)
      ensures OnTrace(c, View()) && c.first == old(View())
      ensures |c.ids| <= MAX_EXAMINED_PER_CALL
      ensures r.Ok? ==> |r.value| <= limit && OffersOf(r.value, c.ids, loaded, Records(), chainKey)
      ensures r.Ok? && |r.value| < limit && |c.ids| < MAX_EXAMINED_PER_CALL ==>
                Elements(c.ids) == Reach(c.first) && (directory.Some? ==> LapEnded in c.trace)
      ensures r.Err? ==> !listable || EndsCorrupt(c.ids, Records(), chainKey)
    {
      c := Call(View(), [View()], [], [], 0, false);
      if limit == 0 { return Ok([]), c; }
      var open := OpenCursor(listable);
      if open.Err? { return Err, c; }
      if !open.value {
        assert Reach(View()) == {};
        return Ok([]), c;
      }
      r, c := WalkLap(loaded, limit, listable);
    }

    /** Refill an empty window as part of a call. */
    method FillTraced(listable: bool, ghost states: seq<Walk>, ghost trace: seq<Event>)
      returns (fill: Fill, ghost ss: seq<Walk>, ghost es: seq<Event>)
      requires Valid() && cursor != null && cursor.window == [] && Traced(states, trace, View())
      modifies cursor
      ensures Valid() && Traced(ss, es, View()) && ss[0] == states[0]
      ensures ExaminedIds(es) == ExaminedIds(trace)
      ensures if fill.Filled? then cursor.window != [] && cursor.after == old(cursor.after)
              else fill.Broken? || cursor.after == None
      ensures fill.Filled? ==> Due(View()) == Due(old(View()))
      ensures fill.Emptied? || fill.LapOver? ==> Due(old(View())) == {} && Due(View()) == Files() && LapEnded in es
      ensures fill.Emptied? ==> Files() == {}
      ensures fill.Broken? ==> !listable
      ensures LapEnded in trace ==> LapEnded in es
    {
      ghost var before, mid := View(), View();
      fill, mid := FillWindow(listable);
      ss, es := ExtendFill(states, trace, before, fill, mid, View());
      FillDue(before, fill, mid, View());
    }

    /** The next ID of the walk, refilling first if the window is used up. */
    method NextId(start: Option<Id>, wrapped: bool, listable: bool, ghost states: seq<Walk>, ghost trace: seq<Event>)
      returns (next: Next, ghost ss: seq<Walk>, ghost es: seq<Event>)
      requires Valid() && cursor != null && Traced(states, trace, View())
      modifies cursor
      ensures Valid() && Traced(ss, es, View()) && ss[0] == states[0]
      ensures ExaminedIds(es) == if next.Takes? then ExaminedIds(trace) + [next.id] else ExaminedIds(trace)
      ensures next.Takes? ==> cursor.after == Some(next.id)
      ensures next.Takes? && old(cursor.after).Some? ==> old(cursor.after).value < next.id
      ensures next.Takes? && wrapped && start.Some? ==> next.id <= start.value
      ensures next.Wraps? ==> cursor.after == None
      ensures next.NoListing? ==> !listable
      ensures NextDue(old(View()), next, start, wrapped, View())
      ensures LapEnded in trace || next.Wraps? || (next.Stops? && !wrapped) ==> LapEnded in es
    {
      ss, es := states, trace;
      ghost var before := View();
      if cursor.window == [] {
        var fill;
        fill, ss, es := FillTraced(listable, states, trace);
        if fill.Broken? { return NoListing, ss, es; }
        if fill.Emptied? { return Stops, ss, es; }
        if fill.LapOver? { return Wraps, ss, es; }
        before := View();
      }
      assert cursor.window[0] in cursor.window;
      if wrapped && start.Some? && cursor.window[0] > start.value {
        DueFromFront(before);
        return Stops, ss, es;
      }
      var id := TakeFront();
      DueExamined(before, id, View());
      ss, es := Extend(ss, es, Examined(id), View());
      return Takes(id), ss, es;
    }

    /** Read an examined record and, unless the caller holds it or it is gone, offer it. */
    method Examine(id: Id, messages: seq<Message>, held: set<Id>, ghost ids: seq<Id>, ghost loaded: set<Id>)
      returns (ok: bool, offered: seq<Message>, holds: set<Id>)
      requires directory.Some? && id !in ids
      ensures |messages| <= |offered| <= |messages| + 1
      ensures !ok ==> EndsCorrupt(ids + [id], directory.value, chainKey)
      ensures ok && Offered(messages, ids, loaded, held, directory.value, chainKey) ==>
                Offered(offered, ids + [id], loaded, holds, directory.value, chainKey)
    {
      offered, holds := messages, held;
      var read := ReadRecord(id, held);
      if read.Err? { return false, offered, holds; }
      if Offered(messages, ids, loaded, held, directory.value, chainKey) {
        OfferExtends(messages, ids, loaded, held, directory.value, chainKey, id, read.value);
      }
      if read.value.Some? {
        offered, holds := offered + [read.value.value], holds + {id};
      }
      return true, offered, holds;
    }

    /** One turn of the call's loop: where it stands afterwards, or how it ended. */
    method Advance(start: Option<Id>, wrapped: bool, listable: bool, ghost c: Call)
      returns (move: Move, ghost d: Call)
      requires Valid() && cursor != null && start == c.first.cursor.after && wrapped == c.wrapped && OnCall(c, View())
      modifies cursor
      ensures Valid() && OnTrace(d, View()) && d.first == c.first
      ensures d.ids == if move.Examines? then c.ids + [move.id] else c.ids
      ensures d.wrapped == (wrapped || move.WrapsOnce?)
      ensures move.Examines? ==> OnCall(d, View()) && move.id !in c.ids
      ensures move.WrapsOnce? ==> OnCall(d, View()) && !wrapped
      ensures move.Completes? ==> Elements(d.ids) == Reach(d.first) && LapEnded in d.trace
      ensures move.Breaks? ==> !listable
    {
      ghost var before := View();
      var next;
      ghost var ss, es;
      next, ss, es := NextId(start, wrapped, listable, c.states, c.trace);
      if next.Takes? {
        ProgressExtends(c.ids, start, c.cut, wrapped, before.cursor.after, next.id);
        SweptTakes(c.first, c.ids, wrapped, before, next.id, View());
        d := Call(c.first, ss, es, c.ids + [next.id], if wrapped then c.cut else c.cut + 1, wrapped);
        return Examines(next.id), d;
      }
      if next.NoListing? { return Breaks, c.(states := ss, trace := es); }
      if next.Wraps? && !wrapped && start.Some? {
        ProgressWraps(c.ids, start, c.cut, before.cursor.after);
        return WrapsOnce, c.(states := ss, trace := es, wrapped := true);
      }
      SweptAll(c.first, c.ids, wrapped, before, next, View());
      return Completes, c.(states := ss, trace := es);
    }

    /** Advance, read what was examined, and say whether the call goes on. */
    method Turn(start: Option<Id>, wrapped: bool, listable: bool, messages: seq<Message>, held: set<Id>,
        limit: nat, ghost loaded: set<Id>, ghost c: Call)
      returns (step: CallStep, took: bool, wraps: bool, offered: seq<Message>, holds: set<Id>, ghost d: Call)
      requires Valid() && cursor != null && start == c.first.cursor.after && wrapped == c.wrapped && OnCall(c, View())
      requires |messages| < limit
      modifies cursor
      ensures Valid() && OnTrace(d, View()) && d.first == c.first && d.wrapped == wraps
      ensures |d.ids| == if took then |c.ids| + 1 else |c.ids|
      ensures |offered| <= limit
      ensures !step.Fails? && Offered(messages, c.ids, loaded, held, directory.value, chainKey) ==>
                Offered(offered, d.ids, loaded, holds, directory.value, chainKey)
      ensures step.Goes? ==> OnCall(d, View()) && |offered| < limit
      ensures step.Goes? ==> if took then wraps == wrapped else wraps && !wrapped
      ensures step.Ends? ==> |offered| == limit || (Elements(d.ids) == Reach(d.first) && LapEnded in d.trace)
      ensures step.Fails? ==> !listable || EndsCorrupt(d.ids, directory.value, chainKey)
    {
      offered, holds, wraps, took := messages, held, wrapped, false;
      var move;
      move, d := Advance(start, wrapped, listable, c);
      match move
      case Examines(id) =>
        took := true;
        var ok;
        ok, offered, holds := Examine(id, messages, held, c.ids, loaded);
        step := if !ok then Fails else if |offered| == limit then Ends else Goes;
      case WrapsOnce => step, wraps := Goes, true;
      case Completes => step := Ends;
      case Breaks => step := Fails;
    }

    /** The loop of `Pending`, once the cursor exists: at most one lap, resuming at the cursor. */
    method WalkLap(loaded: set<Id>, limit: nat, listable: bool) returns (r: Result<seq<Message>>, ghost c: Call)
      requires Valid() && cursor != null && limit > 0
      modifies cursor
      ensures Valid() && OnTrace(c, View()) && c.first == old(View())
      ensures |c.ids| <= MAX_EXAMINED_PER_CALL
      ensures r.Ok? ==> |r.value| <= limit && OffersOf(r.value, c.ids, loaded, Records(), chainKey)
      ensures r.Ok? && |r.value| < limit && |c.ids| < MAX_EXAMINED_PER_CALL ==>
                Elements(c.ids) == Reach(c.first) && LapEnded in c.trace
      ensures r.Err? ==> !listable || EndsCorrupt(c.ids, Records(), chainKey)
    {
      c := Call(View(), [View()], [], [], 0, false);
      var start, wrapped, examined, step := cursor.after, false, 0, Goes;
      var held := loaded;
      var messages: seq<Message> := [];
      while step.Goes? && examined < MAX_EXAMINED_PER_CALL
        invariant Valid() && OnTrace(c, View()) && c.first == old(View()) && c.wrapped == wrapped
        invariant |c.ids| == examined <= MAX_EXAMINED_PER_CALL
        invariant !step.Fails? ==> Offered(messages, c.ids, loaded, held, directory.value, chainKey)
        invariant !step.Fails? ==> |messages| <= limit
        invariant step.Goes? ==> OnCall(c, View()) && |messages| < limit
        invariant step.Ends? ==> |messages| == limit || (Elements(c.ids) == Reach(c.first) && LapEnded in c.trace)
        invariant step.Fails? ==> !listable || EndsCorrupt(c.ids, directory.value, chainKey)
        decreases step.Goes?, MAX_EXAMINED_PER_CALL - examined, !wrapped
      {
        var took;
        step, took, wrapped, messages, held, c := Turn(start, wrapped, listable, messages, held, limit, loaded, c);
        if took { examined := examined + 1; }
      }
      if step.Fails? { return Err, c; }
      CyclicDistinct(c.ids, c.first.cursor.after, c.cut);
      OffersAreSound(c.ids, loaded, directory.value, chainKey);
      return Ok(messages), c;
    }
  }

  /** After one turn the call goes on, is over, or fails. */
  datatype CallStep = Goes | Ends | Fails

  datatype Move = Examines(id: Id) | WrapsOnce | Completes | Breaks

  /**
   A `Pending` call: where it found the walk, its run so far, the IDs examined, how many of them
   before it wrapped around, and whether it did.
   */
  datatype Call = Call(first: Walk, states: seq<Walk>, trace: seq<Event>, ids: seq<Id>, cut: nat, wrapped: bool)

  /** The call is a run of the walk's steps and its IDs are in cyclic order from the cursor. */
  ghost predicate OnTrace(c: Call, w: Walk) {
    && Traced(c.states, c.trace, w) && c.states[0] == c.first && c.ids == ExaminedIds(c.trace)
    && CyclicFrom(c.ids, c.first.cursor.after, c.cut)
  }

  /** And it has all of its reach but what is still due behind it. */
  ghost predicate OnCall(c: Call, w: Walk) {
    && OnTrace(c, w)
    && Progress(c.ids, c.first.cursor.after, c.cut, c.wrapped, w.cursor.after)
    && Swept(c.first, c.ids, c.wrapped, w) && (c.wrapped ==> LapEnded in c.trace)
  }

  datatype Fill = Filled | Emptied | LapOver | Broken

  datatype Next = Takes(id: Id) | Wraps | Stops | NoListing

  ghost predicate FillSteps(s: Walk, fill: Fill, mid: Walk, t: Walk) {
    match fill
    case Filled => Step(s, Refilled, t) && t.cursor.window != []
    case Emptied => s.files == {} && Step(s, LapEnded, t)
    case LapOver => Step(s, Refilled, mid) && Step(mid, LapEnded, t)
    case Broken => t == s
  }

  /** What a step of the call's loop does to what the lap has yet to examine. */
  ghost predicate NextDue(s: Walk, next: Next, start: Option<Id>, wrapped: bool, t: Walk) {
    && t.files == s.files
    && match next
       case Takes(id) => id in Due(s) && Due(t) == Due(s) - {id}
       case Wraps => Due(s) == {} && Due(t) == t.files
       case Stops =>
         && (!wrapped ==> t.files == {})
         && forall id :: id in Due(s) ==> wrapped && start.Some? && start.value < id
       case NoListing => true
  }

  lemma FillDue(s: Walk, fill: Fill, mid: Walk, t: Walk)
    requires Inv(s) && s.cursor.window == [] && FillSteps(s, fill, mid, t)
    ensures fill.Filled? ==> Due(t) == Due(s)
    ensures fill.Emptied? || fill.LapOver? ==> Due(s) == {} && Due(t) == t.files
  {
    match fill
    case Filled => DueRefilled(s, t);
    case Emptied => DueLapEnded(s, t);
    case LapOver =>
      DueRefilled(s, mid);
      StepKeepsInv(s, Refilled, mid);
      DueLapEnded(mid, t);
    case Broken =>
  }

  /** Nothing yet to examine lies before the front of the window. */
  lemma DueFromFront(w: Walk)
    requires Inv(w) && w.cursor.window != []
    ensures forall id :: id in Due(w) ==> w.cursor.window[0] <= id
  {
  }

  /**
   What a call examines if nothing cuts it short: the rest of the lap, then everything up to where
   the call began.
   */
  ghost function Reach(w: Walk): set<Id> {
    Due(w) + set id | id in w.files && Passed(w, id)
  }

  /** The call has examined, out of its reach from `first`, all but what is still due. */
  ghost predicate Swept(first: Walk, ids: seq<Id>, wrapped: bool, w: Walk) {
    && w.files == first.files
    && (forall id :: id in ids ==> id in Due(first) || (wrapped && id in w.files && Passed(first, id)))
    && (forall id :: id in Due(first) ==> id in ids || (!wrapped && id in Due(w)))
    && (forall id :: id in Due(w) ==> if wrapped then id in w.files else id in Due(first))
    && (wrapped ==> first.cursor.after.Some? && forall id :: id in w.files ==> id in ids || id in Due(w))
  }

  lemma SweptTakes(first: Walk, ids: seq<Id>, wrapped: bool, s: Walk, id: Id, t: Walk)
    requires Swept(first, ids, wrapped, s) && NextDue(s, Takes(id), first.cursor.after, wrapped, t)
    requires wrapped ==> Passed(first, id)
    ensures Swept(first, ids + [id], wrapped, t)
  {
    assert forall x :: x in ids + [id] <==> x in ids || x == id;
  }

  lemma SweptAll(first: Walk, ids: seq<Id>, wrapped: bool, s: Walk, next: Next, t: Walk)
    requires Swept(first, ids, wrapped, s) && NextDue(s, next, first.cursor.after, wrapped, t)
    requires next.Stops? || (next.Wraps? && (wrapped || first.cursor.after.None?))
    ensures Elements(ids) == Reach(first)
  {
    forall id ensures id in ids <==> id in Reach(first) {
    }
  }

  ghost predicate BelowLast(c: Cursor, id: Id) {
    c.window != [] && id < c.window[|c.window| - 1]
  }

  ghost predicate PastLapEnd(c: Cursor, id: Id) {
    c.lapEnd.Some? && c.lapEnd.value < id
  }

  /**
   A complete call does not offer every record: one that arrived inside the span of the window, or
   beyond the lap's end, is left to a later lap.
   */
  lemma MissedByCompleteCall(w: Walk, id: Id)
    requires Inv(w) && id in w.files
    ensures id !in Reach(w) <==> !Passed(w, id) && !BetweenLaps(w) && id !in w.cursor.window &&
                                 (BelowLast(w.cursor, id) || PastLapEnd(w.cursor, id))
  {
    if w.cursor.window != [] {
      assert w.cursor.window[|w.cursor.window| - 1] in w.cursor.window;
    }
  }

  lemma MissedExample()
    ensures var w := Walk({3, 5, 7, 9}, Cursor(Some(3), [5, 9], Some(9)));
            Inv(w) && Reach(w) == {3, 5, 9} && 7 in w.files
  {
    var w := Walk({3, 5, 7, 9}, Cursor(Some(3), [5, 9], Some(9)));
    MissedByCompleteCall(w, 7);
    assert Elements([5, 9]) == {5, 9};
  }

  lemma ExtendFill(states: seq<Walk>, trace: seq<Event>, s: Walk, fill: Fill, mid: Walk, t: Walk)
    returns (ss: seq<Walk>, es: seq<Event>)
    requires Traced(states, trace, s) && Inv(s) && FillSteps(s, fill, mid, t)
    ensures Traced(ss, es, t) && ss[0] == states[0] && ExaminedIds(es) == ExaminedIds(trace)
    ensures LapEnded in trace || fill.Emptied? || fill.LapOver? ==> LapEnded in es
  {
    ss, es := states, trace;
    match fill
    case Filled => ss, es := Extend(ss, es, Refilled, t);
    case Emptied => ss, es := Extend(ss, es, LapEnded, t);
    case LapOver =>
      ss, es := Extend(ss, es, Refilled, mid);
      ss, es := Extend(ss, es, LapEnded, t);
    case Broken =>
  }

  /** A run of cursor steps that ends in `w`. */
  ghost predicate Traced(states: seq<Walk>, trace: seq<Event>, w: Walk) {
    && Run(states, trace)
    && states[|trace|] == w
    && forall e :: e in trace ==> WalkEvent(e)
  }

  /** Where a `Pending` call stands: examined IDs so far against its starting point and the cursor. */
  ghost predicate Progress(ids: seq<Id>, start: Option<Id>, cut: nat, wrapped: bool, after: Option<Id>) {
    && (!wrapped ==> cut == |ids|)
    && (wrapped ==> start.Some?)
    && (!wrapped && start.Some? ==> after.Some? && start.value <= after.value)
    && forall k :: (if wrapped then cut else 0) <= k < |ids| ==> after.Some? && ids[k] <= after.value
  }

  lemma ProgressWraps(ids: seq<Id>, start: Option<Id>, cut: nat, after: Option<Id>)
    requires Progress(ids, start, cut, false, after) && start.Some?
    ensures Progress(ids, start, cut, true, None)
  {
  }

  lemma ProgressExtends(ids: seq<Id>, start: Option<Id>, cut: nat, wrapped: bool, after: Option<Id>, id: Id)
    requires CyclicFrom(ids, start, cut) && Progress(ids, start, cut, wrapped, after)
    requires after.Some? ==> after.value < id
    requires wrapped ==> id <= start.value
    ensures CyclicFrom(ids + [id], start, if wrapped then cut else cut + 1)
    ensures Progress(ids + [id], start, if wrapped then cut else cut + 1, wrapped, Some(id))
    ensures id !in ids
  {
    CyclicExtends(ids, start, cut, wrapped, id);
    CyclicDistinct(ids + [id], start, if wrapped then cut else cut + 1);
    assert forall k :: 0 <= k < |ids| ==> (ids + [id])[k] != (ids + [id])[|ids|];
  }

  /** The offers so far, with what the caller then holds; no record examined was corrupt. */
  ghost predicate Offered(messages: seq<Message>, ids: seq<Id>, loaded: set<Id>, held: set<Id>, files: map<Id, File>,
      chainKey: nat) {
    && messages == Offers(ids, loaded, files)
    && loaded <= held <= loaded + Elements(ids)
    && (forall id :: id in ids ==> id in loaded || !Corrupt(files, id, chainKey))
  }

  lemma OfferExtends(messages: seq<Message>, ids: seq<Id>, loaded: set<Id>, held: set<Id>, files: map<Id, File>,
      chainKey: nat, id: Id, read: Option<Message>)
    requires Offered(messages, ids, loaded, held, files, chainKey) && id !in ids
    requires read.None? ==> id in held || id !in files
    requires read.Some? ==> id !in held && id in files && files[id] == Stored(read.value)
    requires read.Some? ==> Sound(files[id], id, chainKey)
    ensures read.None? ==> Offered(messages, ids + [id], loaded, held, files, chainKey)
    ensures read.Some? ==> Offered(messages + [read.value], ids + [id], loaded, held + {id}, files, chainKey)
  {
    assert (ids + [id])[..|ids|] == ids;
    assert Elements(ids + [id]) == Elements(ids) + {id};
  }

  /**
   `messages` are the offers among `ids`: distinct, each one examined, new to the caller, on this route
   and as stored; and no stored record examined that the caller does not hold is missing.
   */
  ghost predicate OffersOf(messages: seq<Message>, ids: seq<Id>, loaded: set<Id>, files: map<Id, File>, chainKey: nat) {
    && messages == Offers(ids, loaded, files)
    && (forall i, j :: 0 <= i < j < |messages| ==> messages[i].id != messages[j].id)
    && (forall m :: m in messages ==> m.id in ids && m.id !in loaded && m.chainKey == chainKey)
    && (forall id :: id in ids && id !in loaded && id in files ==> files[id].Stored? && files[id].message in messages)
    && (forall m :: m in messages ==> m.id in files && files[m.id] == Stored(m))
  }

  lemma {:induction false} OffersAreSound(ids: seq<Id>, loaded: set<Id>, files: map<Id, File>, chainKey: nat)
    requires Distinct(ids) && forall id :: id in ids ==> id in loaded || !Corrupt(files, id, chainKey)
    ensures OffersOf(Offers(ids, loaded, files), ids, loaded, files, chainKey)
  {
    if ids != [] {
      var rest, id := ids[..|ids| - 1], ids[|ids| - 1];
      assert forall x :: x in rest ==> x in ids && x != id;
      assert id in ids;
      OffersAreSound(rest, loaded, files, chainKey);
    }
  }

  lemma Extend(states: seq<Walk>, trace: seq<Event>, e: Event, t: Walk)
    returns (ss: seq<Walk>, es: seq<Event>)
    requires |states| == |trace| + 1 && Traced(states, trace, states[|trace|]) && Inv(states[|trace|])
    requires Step(states[|trace|], e, t) && WalkEvent(e)
    ensures ss == states + [t] && es == trace + [e]
    ensures Traced(ss, es, t) && Inv(t)
    ensures ExaminedIds(es) == if e.Examined? then ExaminedIds(trace) + [e.id] else ExaminedIds(trace)
  {
    ss, es := states + [t], trace + [e];
    RunExtends(states, trace, e, t);
    StepKeepsInv(states[|trace|], e, t);
    assert es[..|trace|] == trace;
  }
}
