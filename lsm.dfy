/**
 The storage-independent part of the log-structured-merge engine of db.py:
 the tombstone sentinel, the contents of the three files the engine keeps
 (journal, WAL segment, DB segment), how a segment is loaded, how two tiers
 are overlaid, how tombstones are purged, how a read is resolved, how the
 journal is rotated and replayed, and what flush and merge leave on disk.
 The class in module Db drives these; the lemmas here are what its methods
 rely on.
 */
module Lsm {

  datatype Option<T> = None | Some(value: T)

  /** The reserved value that marks a logical delete (db.py:25). */
  const Tombstone: string := "delete_tombstone"

  /** One journal line: a JSON object holding exactly one key/value pair. */
  type Record = (string, string)

  /**
   What a segment file holds. `Empty` is a zero-length file (freshly touched
   or truncated by merge); `Corrupt` is content that `json.load` rejects, or
   a file that cannot be opened; `Mapping` is a JSON object of strings, as
   flush and merge write it.
   */
  datatype SegmentFile = Empty | Corrupt | Mapping(entries: map<string, string>)

  /** The WAL segment and the DB segment together. */
  datatype Disk = Disk(wal: SegmentFile, db: SegmentFile)

  /** `load`: a missing, empty or unparseable segment reads as the empty map. */
  function Load(f: SegmentFile): (m: map<string, string>)
    ensures f.Mapping? ==> m == f.entries
    ensures !f.Mapping? ==> m == map[]
  {
    match f
    case Mapping(entries) => entries
    case _ => map[]
  }

  /** Python's `{**under, **over}`: every key of either, `over` winning on a clash. */
  function Overlay(under: map<string, string>, over: map<string, string>): (r: map<string, string>)
    ensures r.Keys == under.Keys + over.Keys
    ensures forall k :: k in over ==> r[k] == over[k]
    ensures forall k :: k in under && k !in over ==> r[k] == under[k]
  {
    under + over
  }

  /** A map with every tombstoned entry removed and every live entry kept. */
  function Purged(m: map<string, string>): (r: map<string, string>)
    ensures forall k :: k in r ==> k in m && r[k] == m[k] && r[k] != Tombstone
    ensures forall k :: k in m && m[k] != Tombstone ==> k in r
  {
    map k | k in m && m[k] != Tombstone :: m[k]
  }

  /** A map in which no key holds the tombstone, as a DB segment is after a merge. */
  predicate NoTombstones(m: map<string, string>)
  {
    forall k :: k in m ==> m[k] != Tombstone
  }

  /** The public result for a stored raw value: a tombstone reads as "not found". */
  function Visible(v: string): (r: Option<string>)
    ensures r == None <==> v == Tombstone
    ensures r.Some? ==> r.value == v
  {
    if v == Tombstone then None else Some(v)
  }

  /** Reading a single, flattened map. */
  function Lookup(m: map<string, string>, key: string): (r: Option<string>)
  {
    if key in m then Visible(m[key]) else None
  }

  /**
   `get`: memtable first, then the WAL, then the DB; the first tier that has
   the key decides, and a tombstone there means "not found". Equivalently, a
   lookup in the three tiers flattened with the newer tier on top.
   */
  function Resolve(mem: map<string, string>, wal: map<string, string>, db: map<string, string>, key: string)
    : (r: Option<string>)
    ensures r.Some? ==> r.value != Tombstone
    ensures key in mem ==> r == Visible(mem[key])
    ensures key !in mem && key in wal ==> r == Visible(wal[key])
    ensures key !in mem && key !in wal && key in db ==> r == Visible(db[key])
    ensures key !in mem && key !in wal && key !in db ==> r == None
  {
    var data :=
      if key in mem then Some(mem[key])
      else if key in wal then Some(wal[key])
      else if key in db then Some(db[key])
      else None;
    if data == Some(Tombstone) then None else data
  }

  /** A read through the tiers is a lookup in the tiers flattened, the newer tier on top. */
  lemma ResolveIsFlatLookup(mem: map<string, string>, wal: map<string, string>, db: map<string, string>,
                            key: string)
    ensures Resolve(mem, wal, db, key) == Lookup(Overlay(Overlay(db, wal), mem), key)
  {
  }

  /**
   `rotate`: once the journal holds at least `limit` records it is cut down
   to its newest record. An empty journal with a zero limit has no newest
   record (`data[-1]` raises), hence the precondition.
   */
  function Rotated(lines: seq<Record>, limit: nat): (r: seq<Record>)
    requires limit > 0 || lines != []
    ensures |r| <= |lines| && r == lines[|lines| - |r|..]
    ensures lines != [] ==> r != [] && r[|r| - 1] == lines[|lines| - 1]
    ensures |lines| < limit ==> r == lines
    ensures |lines| >= limit ==> |r| == 1
  {
    if |lines| >= limit then [lines[|lines| - 1]] else lines
  }

  /** With a limit of at least 2, appending to a journal below the limit then rotating keeps it below. */
  lemma RotationBound(lines: seq<Record>, rec: Record, limit: nat)
    requires 2 <= limit && |lines| < limit
    ensures |Rotated(lines + [rec], limit)| < limit
    ensures Rotated(lines + [rec], limit)[|Rotated(lines + [rec], limit)| - 1] == rec
  {
  }

  /**
   The journal left by writing `writes`, one append and one rotation each,
   to a journal that held `start`.
   */
  function JournalAfter(start: seq<Record>, writes: seq<Record>, limit: nat): seq<Record>
    decreases |writes|
  {
    if writes == [] then start
    else Rotated(JournalAfter(start, writes[..|writes| - 1], limit) + [writes[|writes| - 1]], limit)
  }

  /** `a` is what remains of `b` after dropping some of its oldest records. */
  predicate IsSuffix(a: seq<Record>, b: seq<Record>)
  {
    |a| <= |b| && a == b[|b| - |a|..]
  }

  /** A suffix of a suffix is a suffix, and appending the same record to both keeps a suffix. */
  lemma SuffixSteps(a: seq<Record>, b: seq<Record>, c: seq<Record>, x: Record)
    requires IsSuffix(a, b)
    ensures IsSuffix(a + [x], b + [x])
    ensures IsSuffix(c, a) ==> IsSuffix(c, b)
  {
  }

  /**
   However many writes and rotations happen, the journal is a suffix of
   everything ever written to it, so it always ends with the newest writes.
   */
  lemma {:induction false} JournalIsSuffixOfWrites(start: seq<Record>, writes: seq<Record>, limit: nat)
    ensures IsSuffix(JournalAfter(start, writes, limit), start + writes)
    decreases |writes|
  {
    if writes != [] {
      var n := |writes| - 1;
      assert start + writes == (start + writes[..n]) + [writes[n]];
      JournalIsSuffixOfWrites(start, writes[..n], limit);
      var j0 := JournalAfter(start, writes[..n], limit);
      var appended := j0 + [writes[n]];
      SuffixSteps(j0, start + writes[..n], Rotated(appended, limit), writes[n]);
      SuffixSteps(appended, start + writes, Rotated(appended, limit), writes[n]);
    }
  }

  /** Journal replay: fold the records left to right, a later record overwriting an earlier one. */
  function Replay(lines: seq<Record>): (r: map<string, string>)
    ensures |r| <= |lines|
    ensures forall i :: 0 <= i < |lines| ==> lines[i].0 in r
    decreases |lines|
  {
    if lines == [] then map[]
    else
      var last := lines[|lines| - 1];
      Replay(lines[..|lines| - 1])[last.0 := last.1]
  }

  /** Every key the replay produces was written by some record. */
  lemma {:induction false} ReplayKeys(lines: seq<Record>, key: string)
    requires key in Replay(lines)
    ensures exists i :: 0 <= i < |lines| && lines[i].0 == key
    decreases |lines|
  {
    var n := |lines| - 1;
    if lines[n].0 != key {
      ReplayKeys(lines[..n], key);
      var i :| 0 <= i < n && lines[..n][i].0 == key;
      assert lines[i].0 == key;
    }
  }

  /** The newest record for a key gives its replayed value. */
  lemma {:induction false} ReplayLastWins(lines: seq<Record>, i: nat)
    requires i < |lines|
    requires forall j :: i < j < |lines| ==> lines[j].0 != lines[i].0
    ensures Replay(lines)[lines[i].0] == lines[i].1
    decreases |lines|
  {
    var n := |lines| - 1;
    if i < n {
      var prefix := lines[..n];
      forall j | i < j < |prefix|
        ensures prefix[j].0 != prefix[i].0
      {
        assert prefix[j] == lines[j];
      }
      ReplayLastWins(prefix, i);
    }
  }

  /**
   Replaying a suffix of the journal never yields a stale value: every key it
   produces gets the value the whole journal would give it.
   */
  lemma {:induction false} ReplaySuffix(lines: seq<Record>, n: nat, key: string)
    requires n <= |lines|
    requires key in Replay(lines[n..])
    ensures key in Replay(lines) && Replay(lines)[key] == Replay(lines[n..])[key]
    decreases |lines|
  {
    var m := |lines| - 1;
    var suffix := lines[n..];
    assert suffix != [];
    if lines[m].0 != key {
      assert suffix[..|suffix| - 1] == lines[..m][n..];
      ReplaySuffix(lines[..m], n, key);
    }
  }

  /**
   Rotation only forgets keys: replaying the rotated journal gives every key it
   still mentions the same value as replaying the journal before rotation.
   */
  lemma RotationKeepsLatest(lines: seq<Record>, limit: nat, key: string)
    requires limit > 0 || lines != []
    requires key in Replay(Rotated(lines, limit))
    ensures key in Replay(lines) && Replay(lines)[key] == Replay(Rotated(lines, limit))[key]
  {
    var r := Rotated(lines, limit);
    ReplaySuffix(lines, |lines| - |r|, key);
  }

  /**
   `merge` as it leaves the disk: the WAL overlaid on the DB with tombstoned
   entries dropped becomes the new DB, and the WAL is truncated.
   */
  function AfterMerge(walFile: SegmentFile, dbFile: SegmentFile): (d: Disk)
    ensures d.wal == Empty && d.db.Mapping?
    ensures NoTombstones(Load(d.db))
    ensures forall k :: k in Load(walFile) && Load(walFile)[k] != Tombstone ==>
      k in Load(d.db) && Load(d.db)[k] == Load(walFile)[k]
    ensures forall k :: k in Load(dbFile) && k !in Load(walFile) && Load(dbFile)[k] != Tombstone ==>
      k in Load(d.db) && Load(d.db)[k] == Load(dbFile)[k]
    ensures forall k :: k in Load(d.db) ==>
      if k in Load(walFile) then Load(d.db)[k] == Load(walFile)[k]
      else k in Load(dbFile) && Load(d.db)[k] == Load(dbFile)[k]
  {
    Disk(Empty, Mapping(Purged(Overlay(Load(dbFile), Load(walFile)))))
  }

  /**
   `flush` as it leaves the disk: the memtable overlaid on the WAL becomes the
   new WAL, then a merge follows when the WAL as it was BEFORE the overlay held
   at least `walObjLimit` entries.
   */
  function AfterFlush(mem: map<string, string>, walFile: SegmentFile, dbFile: SegmentFile, walObjLimit: nat)
    : (d: Disk)
    ensures |Load(walFile)| < walObjLimit ==>
      d == Disk(Mapping(Overlay(Load(walFile), mem)), dbFile)
    ensures |Load(walFile)| >= walObjLimit ==>
      d == AfterMerge(Mapping(Overlay(Load(walFile), mem)), dbFile)
  {
    var wal := Load(walFile);
    var written := Mapping(Overlay(wal, mem));
    if |wal| >= walObjLimit then AfterMerge(written, dbFile) else Disk(written, dbFile)
  }

  /** Putting a value in the memtable changes the read of that key alone. */
  lemma PutView(mem: map<string, string>, wal: map<string, string>, db: map<string, string>,
                key: string, value: string, k: string)
    ensures Resolve(mem[key := value], wal, db, k) ==
      if k == key then Visible(value) else Resolve(mem, wal, db, k)
  {
  }

  /** A merge that finds an empty WAL and a tombstone-free DB rewrites the DB as it was. */
  lemma MergeOfEmptyWal(walFile: SegmentFile, db: map<string, string>)
    requires Load(walFile) == map[] && NoTombstones(db)
    ensures AfterMerge(walFile, Mapping(db)) == Disk(Empty, Mapping(db))
  {
  }

  /**
   The merge trigger looks at the WAL as it was before the flush, so a WAL
   below the limit absorbs the whole memtable without a merge: with fresh keys
   the WAL afterwards holds the sum of both sizes, however far that is past
   the limit.
   */
  lemma FlushBelowLimitKeepsAll(mem: map<string, string>, walFile: SegmentFile, dbFile: SegmentFile,
                                walObjLimit: nat)
    requires |Load(walFile)| < walObjLimit
    requires mem.Keys !! Load(walFile).Keys
    ensures var d := AfterFlush(mem, walFile, dbFile, walObjLimit);
      d.db == dbFile && |Load(d.wal)| == |Load(walFile)| + |mem|
  {
  }

  /** Merging changes no read. */
  lemma MergeKeepsView(mem: map<string, string>, walFile: SegmentFile, dbFile: SegmentFile, key: string)
    ensures var d := AfterMerge(walFile, dbFile);
      Resolve(mem, Load(d.wal), Load(d.db), key) == Resolve(mem, Load(walFile), Load(dbFile), key)
  {
  }

  /** Flushing (with the merge it may trigger) changes no read, though it empties the memtable. */
  lemma FlushKeepsView(mem: map<string, string>, walFile: SegmentFile, dbFile: SegmentFile, walObjLimit: nat,
                       key: string)
    ensures var d := AfterFlush(mem, walFile, dbFile, walObjLimit);
      Resolve(map[], Load(d.wal), Load(d.db), key) == Resolve(mem, Load(walFile), Load(dbFile), key)
  {
  }

  /**
   A write as `upsert` performs it (a put in the memtable, then a flush once
   the memtable holds `memLimit` keys) changes the read of the written key to
   the written value and the read of no other key.
   */
  lemma UpsertView(mem: map<string, string>, walFile: SegmentFile, dbFile: SegmentFile,
                   memLimit: nat, walLimit: nat, key: string, value: string, k: string)
    ensures var put := mem[key := value];
      var flushes := |put| >= memLimit;
      var d := if flushes then AfterFlush(put, walFile, dbFile, walLimit) else Disk(walFile, dbFile);
      Resolve(if flushes then map[] else put, Load(d.wal), Load(d.db), k) ==
        if k == key then Visible(value) else Resolve(mem, Load(walFile), Load(dbFile), k)
  {
    PutView(mem, Load(walFile), Load(dbFile), key, value, k);
    if |mem[key := value]| >= memLimit {
      FlushKeepsView(mem[key := value], walFile, dbFile, walLimit, k);
    }
  }
}
