/**
 Persistent watcher cursors: a JSON file of entries, a copy in memory, and updates that insert,
 persist and roll back on failure. `write_atomic` is an old-or-new replacement of the file.
 */
module Checkpoint {
  import opened Basics

  datatype Entry = Entry(block: nat, outbox: Option<string>, durableWork: bool)

  /** One value of the file: a bare number (the oldest format) or an object with optional fields. */
  datatype Json = Number(n: nat) | Object(block: nat, outbox: Option<string>, durableWork: Option<bool>)

  datatype File = Missing | Blank | Garbage | Text(values: map<string, Json>)

  /** Serialization skips an absent Outbox and a false marker. */
  function Encode(e: Entry): Json {
    Object(e.block, e.outbox, if e.durableWork then Some(true) else None)
  }

  function Decode(j: Json): Entry {
    match j
    case Number(n) => Entry(n, None, false)
    case Object(block, outbox, durable) => Entry(block, outbox, durable == Some(true))
  }

  function Serialize(entries: map<string, Entry>): File {
    Text(map k | k in entries :: Encode(entries[k]))
  }

  /** A missing file is an empty store; a blank or unparseable one is refused. */
  function Load(file: File): Result<map<string, Entry>> {
    match file
    case Missing => Ok(map[])
    case Blank => Err
    case Garbage => Err
    case Text(values) => Ok(map k | k in values :: Decode(values[k]))
  }

  lemma LoadInvertsSerialize(entries: map<string, Entry>)
    ensures Load(Serialize(entries)) == Ok(entries)
  {
    var values := Serialize(entries).values;
    assert forall k :: k in entries ==> Decode(values[k]) == entries[k];
    assert (map k | k in values :: Decode(values[k])) == entries;
  }

  datatype Update =
    | Set(key: string, block: nat)
    | SetWithOutbox(key: string, block: nat, outbox: string)
    | SetJournaled(key: string, block: nat, pinned: Option<string>)

  /** The entry an update writes. The plain progress update keeps the other fields. */
  function NewEntry(entries: map<string, Entry>, u: Update): Entry {
    match u
    case Set(key, block) =>
      (if key in entries then entries[key] else Entry(0, None, false)).(block := block)
    case SetWithOutbox(_, block, outbox) => Entry(block, Some(outbox), false)
    case SetJournaled(_, block, outbox) => Entry(block, outbox, true)
  }

  /** Memory and file of a running process. */
  datatype Store = Store(entries: map<string, Entry>, file: File)

  function Apply(s: Store, u: Update, persisted: bool): Store {
    var entries := s.entries[u.key := NewEntry(s.entries, u)];
    if persisted then Store(entries, Serialize(entries)) else s
  }

  function ApplyAll(s: Store, updates: seq<(Update, bool)>): Store {
    if updates == [] then s
    else
      var last := updates[|updates| - 1];
      Apply(ApplyAll(s, updates[..|updates| - 1]), last.0, last.1)
  }

  /**
   After any updates with any persistence failures, memory is what a restart would load, and keys
   without a persisted update are untouched.
   */
  lemma {:induction false} MemoryIsWhatLoadReturns(s: Store, updates: seq<(Update, bool)>, key: string)
    requires Load(s.file) == Ok(s.entries)
    ensures var t := ApplyAll(s, updates);
            && Load(t.file) == Ok(t.entries)
            && ((forall u :: u in updates && u.1 ==> u.0.key != key) ==>
                  (key in t.entries <==> key in s.entries) && (key in s.entries ==> t.entries[key] == s.entries[key]))
  {
    if updates != [] {
      var rest, last := updates[..|updates| - 1], updates[|updates| - 1];
      MemoryIsWhatLoadReturns(s, rest, key);
      LoadInvertsSerialize(Apply(ApplyAll(s, rest), last.0, true).entries);
      assert last in updates && forall u :: u in rest ==> u in updates;
    }
  }

  /**
   What a restart loads after a persisted update: the new block at the key, with the Outbox and marker
   kept by a plain progress update, replaced and unmarked by a single-Outbox one, and replaced and
   marked by a journaled one.
   */
  lemma LoadsWhatWasSet(s: Store, u: Update)
    ensures var loaded := Load(Apply(s, u, true).file);
            && loaded.Ok? && u.key in loaded.value && loaded.value[u.key].block == u.block
            && (u.Set? ==> loaded.value[u.key].durableWork == (u.key in s.entries && s.entries[u.key].durableWork))
            && (u.Set? ==> loaded.value[u.key].outbox == if u.key in s.entries then s.entries[u.key].outbox else None)
            && (u.SetWithOutbox? ==> loaded.value[u.key] == Entry(u.block, Some(u.outbox), false))
            && (u.SetJournaled? ==> loaded.value[u.key] == Entry(u.block, u.pinned, true))
  {
    LoadInvertsSerialize(Apply(s, u, true).entries);
  }

  /** Files of older versions: a bare number, or an object without a marker, loads as an unmarked cursor. */
  lemma OlderFilesLoad(values: map<string, Json>, key: string)
    requires key in values
    ensures var loaded := Load(Text(values));
            && loaded.Ok? && loaded.value.Keys == values.Keys
            && match values[key]
               case Number(n) => loaded.value[key] == Entry(n, None, false)
               case Object(block, outbox, durable) =>
                 && loaded.value[key].block == block && loaded.value[key].outbox == outbox
                 && (loaded.value[key].durableWork <==> durable == Some(true))
  {
  }

  predicate Marked(s: Store, key: string) {
    key in s.entries && s.entries[key].durableWork
  }

  /** The durability marker of a key comes only from a persisted journaled update of that key. */
  lemma {:induction false} MarkerComesFromJournal(s: Store, updates: seq<(Update, bool)>, key: string)
    requires !Marked(s, key)
    requires forall u :: u in updates && u.1 && u.0.SetJournaled? ==> u.0.key != key
    ensures !Marked(ApplyAll(s, updates), key)
  {
    if updates != [] {
      var rest, last := updates[..|updates| - 1], updates[|updates| - 1];
      assert last in updates && forall u :: u in rest ==> u in updates;
      MarkerComesFromJournal(s, rest, key);
    }
  }

  class CheckpointStore {
    var entries: map<string, Entry>
    var file: File

    ghost function View(): Store
      reads this
    {
      Store(entries, file)
    }

    /** Memory and file agree. */
    ghost predicate Valid()
      reads this
    {
      Load(file) == Ok(entries)
    }

    constructor (file: File, entries: map<string, Entry>)
      requires Load(file) == Ok(entries)
      ensures Valid() && View() == Store(entries, file)
    {
      this.file, this.entries := file, entries;
    }

    method Get(key: string) returns (block: Option<nat>, durable: bool)
      ensures block == if key in entries then Some(entries[key].block) else None
      ensures durable == (key in entries && entries[key].durableWork)
    {
      if key in entries {
        return Some(entries[key].block), entries[key].durableWork;
      }
      return None, false;
    }

    /** Insert, persist the whole map, and put the previous entry back if that failed. */
    method PersistEntry(key: string, entry: Entry) returns (r: Result<()>)
      requires Valid()
      modifies this
      ensures Valid()
      ensures r.Ok? ==> entries == old(entries)[key := entry] && file == Serialize(entries)
      ensures r.Err? ==> View() == old(View())
    {
      var previous := if key in entries then Some(entries[key]) else None;
      ghost var before := entries;
      entries := entries[key := entry];
      if * {
        if previous.Some? {
          entries := entries[key := previous.value];
        } else {
          entries := map k | k in entries && k != key :: entries[k];
        }
        assert entries == before;
        return Err;
      }
      file := Serialize(entries);
      LoadInvertsSerialize(entries);
      return Ok(());
    }

    method Execute(u: Update) returns (r: Result<()>)
      requires Valid()
      modifies this
      ensures Valid() && View() == Apply(old(View()), u, r.Ok?)
    {
      match u
      case Set(key, block) =>
        var entry := if key in entries then entries[key] else Entry(0, None, false);
        r := PersistEntry(key, entry.(block := block));
      case SetWithOutbox(key, block, outbox) =>
        r := PersistEntry(key, Entry(block, Some(outbox), false));
      case SetJournaled(key, block, outbox) =>
        r := PersistEntry(key, Entry(block, outbox, true));
    }
  }

  /** Start from a file; a blank or unparseable one is refused instead of read as an empty store. */
  method Open(file: File) returns (r: Result<CheckpointStore>)
    ensures r.Err? <==> file.Blank? || file.Garbage?
    ensures file.Missing? ==> r.Ok? && r.value.entries == map[]
    ensures r.Ok? ==> fresh(r.value) && r.value.Valid() && r.value.file == file && Load(file) == Ok(r.value.entries)
  {
    var loaded := Load(file);
    if loaded.Err? { return Err; }
    var store := new CheckpointStore(file, loaded.value);
    return Ok(store);
  }
}
