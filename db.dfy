/**
 The `LSMTree` engine of db.py as a class. The memtable is a field the
 methods update; the journal, WAL and DB files are fields holding their
 contents, appended to or overwritten wholesale as the source does with its
 files. Each method states its whole new state in terms of module Lsm, and
 the methods that move data between tiers state that no read changes.
 */
module Db {
  import opened Lsm

  /** The replay loop of `startup`: each journal line is overlaid on what came before. */
  method ReplayJournal(lines: seq<Record>) returns (data: map<string, string>)
    ensures data == Replay(lines)
  {
    data := map[];
    for i := 0 to |lines|
      invariant data == Replay(lines[..i])
    {
      var (key, value) := lines[i];
      assert lines[..i + 1][..i] == lines[..i];
      assert Replay(lines[..i + 1]) == Replay(lines[..i])[key := value];
      data := Overlay(data, map[key := value]);
      assert data == Replay(lines[..i])[key := value];
    }
    assert lines[..|lines|] == lines;
  }

  /**
   The tombstone purge inside `merge`: first collect the keys whose value is
   the tombstone into `removed`, then pop each of them. Every popped key is
   still present when popped, so no `pop` can fail.
   */
  method DropTombstones(merged: map<string, string>) returns (kept: map<string, string>)
    ensures kept == Purged(merged)
  {
    var removed: seq<string> := [];
    var pending := merged.Keys;
    while pending != {}
      invariant pending <= merged.Keys
      invariant forall j :: 0 <= j < |removed| ==>
        removed[j] in merged && merged[removed[j]] == Tombstone && removed[j] !in pending
      invariant forall a, b :: 0 <= a < b < |removed| ==> removed[a] != removed[b]
      invariant forall k :: k in merged && k !in pending && merged[k] == Tombstone ==> k in removed
      decreases |pending|
    {
      var k :| k in pending;
      if merged[k] == Tombstone {
        removed := removed + [k];
      }
      pending := pending - {k};
    }
    kept := merged;
    for i := 0 to |removed|
      invariant forall j :: i <= j < |removed| ==> removed[j] in kept
      invariant forall k :: k in kept ==> k in merged && kept[k] == merged[k]
      invariant forall k :: k in kept ==> k !in removed[..i]
      invariant forall k :: k in merged && k !in removed[..i] ==> k in kept
    {
      assert removed[i] in kept;
      kept := kept - {removed[i]};
      assert removed[..i + 1] == removed[..i] + [removed[i]];
    }
    assert removed[..|removed|] == removed;
    assert kept == Purged(merged);
  }

  class LSMTree {
    var memtable: map<string, string>
    var journalFile: seq<Record>
    var walFile: SegmentFile
    var dbFile: SegmentFile
    const memtableObjLimit: nat
    const walObjLimit: nat
    const journalLineLimit: nat

    /**
     A new engine over a storage directory whose files hold `journal`, `wal`
     and `db` (all empty when the directory is new); the memtable starts empty.
     */
    constructor (journal: seq<Record>, wal: SegmentFile, db: SegmentFile,
                 memtableLimit: nat, walLimit: nat, journalLimit: nat)
      ensures memtable == map[]
      ensures journalFile == journal && walFile == wal && dbFile == db
      ensures memtableObjLimit == memtableLimit && walObjLimit == walLimit && journalLineLimit == journalLimit
    {
      memtable := map[];
      journalFile := journal;
      walFile := wal;
      dbFile := db;
      memtableObjLimit := memtableLimit;
      walObjLimit := walLimit;
      journalLineLimit := journalLimit;
    }

    /**
     `get`: what a reader sees for `key`, the memtable shadowing the WAL and
     the WAL shadowing the DB; changes nothing.
     */
    function Get(key: string): (r: Option<string>)
      reads this
      ensures r == Lookup(Overlay(Overlay(Load(dbFile), Load(walFile)), memtable), key)
    {
      ResolveIsFlatLookup(memtable, Load(walFile), Load(dbFile), key);
      Resolve(memtable, Load(walFile), Load(dbFile), key)
    }

    /** `rotate`: keep only the newest journal record once the limit is reached. */
    method Rotate()
      requires journalLineLimit > 0 || journalFile != []
      modifies this`journalFile
      ensures journalFile == Rotated(old(journalFile), journalLineLimit)
    {
      var data := journalFile;
      if |data| >= journalLineLimit {
        journalFile := [data[|data| - 1]];
      }
    }

    /** `journal`: append the record, then rotate. */
    method Journal(key: string, value: string)
      modifies this`journalFile
      ensures journalFile == Rotated(old(journalFile) + [(key, value)], journalLineLimit)
      ensures 2 <= journalLineLimit && |old(journalFile)| < journalLineLimit ==>
        |journalFile| < journalLineLimit
    {
      journalFile := journalFile + [(key, value)];
      Rotate();
      if 2 <= journalLineLimit && |old(journalFile)| < journalLineLimit {
        RotationBound(old(journalFile), (key, value), journalLineLimit);
      }
    }

    /**
     `merge`: fold the WAL into the DB, WAL winning, drop tombstoned entries,
     write the DB and truncate the WAL.
     */
    method Merge()
      modifies this`walFile, this`dbFile
      ensures Disk(walFile, dbFile) == AfterMerge(old(walFile), old(dbFile))
      ensures walFile == Empty && NoTombstones(Load(dbFile))
      ensures forall k :: Get(k) == old(Get(k))
    {
      var wal := Load(walFile);
      var db := Load(dbFile);
      var merged := Overlay(db, wal);
      var kept := DropTombstones(merged);
      dbFile := Mapping(kept);
      walFile := Empty;
      forall k
        ensures Get(k) == old(Get(k))
      {
        MergeKeepsView(memtable, old(walFile), old(dbFile), k);
      }
    }

    /**
     `flush`: overlay the memtable on the WAL, write the WAL, empty the
     memtable, and merge when the WAL read before the overlay had reached
     its limit.
     */
    method Flush()
      modifies this`memtable, this`walFile, this`dbFile
      ensures memtable == map[]
      ensures Disk(walFile, dbFile) == AfterFlush(old(memtable), old(walFile), old(dbFile), walObjLimit)
      ensures forall k :: Get(k) == old(Get(k))
    {
      var wal := Load(walFile);
      var merged := Overlay(wal, memtable);
      walFile := Mapping(merged);
      memtable := map[];
      if |wal| >= walObjLimit {
        Merge();
      }
      forall k
        ensures Get(k) == old(Get(k))
      {
        FlushKeepsView(old(memtable), old(walFile), old(dbFile), walObjLimit, k);
      }
    }

    /**
     `upsert`: journal the write, put it in the memtable, and flush once the
     memtable holds `memtableObjLimit` keys. Afterwards `key` reads as `value`
     (as "not found" for the tombstone) and every other key reads as before.
     */
    method Upsert(key: string, value: string)
      modifies this
      ensures journalFile == Rotated(old(journalFile) + [(key, value)], journalLineLimit)
      ensures var put := old(memtable)[key := value];
        if |put| >= memtableObjLimit then
          memtable == map[] && Disk(walFile, dbFile) == AfterFlush(put, old(walFile), old(dbFile), walObjLimit)
        else
          memtable == put && walFile == old(walFile) && dbFile == old(dbFile)
      ensures memtable == map[] || |memtable| < memtableObjLimit
      ensures forall k :: Get(k) == if k == key then Visible(value) else old(Get(k))
    {
      Journal(key, value);
      memtable := memtable[key := value];
      if |memtable| >= memtableObjLimit {
        Flush();
      }
      forall k
        ensures Get(k) == if k == key then Visible(value) else old(Get(k))
      {
        UpsertView(old(memtable), old(walFile), old(dbFile), memtableObjLimit, walObjLimit, key, value, k);
      }
    }

    /** `delete`: an upsert of the tombstone; afterwards `key` reads as "not found". */
    method Delete(key: string)
      modifies this
      ensures journalFile == Rotated(old(journalFile) + [(key, Tombstone)], journalLineLimit)
      ensures var put := old(memtable)[key := Tombstone];
        if |put| >= memtableObjLimit then
          memtable == map[] && Disk(walFile, dbFile) == AfterFlush(put, old(walFile), old(dbFile), walObjLimit)
        else
          memtable == put && walFile == old(walFile) && dbFile == old(dbFile)
      ensures Get(key) == None
      ensures forall k :: k != key ==> Get(k) == old(Get(k))
    {
      Upsert(key, Tombstone);
    }

    /**
     `shutdown`: flush, merge, rotate. Afterwards the memtable and the WAL are
     empty, the DB holds no tombstone, and every key reads as before.
     */
    method Shutdown()
      requires journalLineLimit > 0 || journalFile != []
      modifies this
      ensures var flushed := AfterFlush(old(memtable), old(walFile), old(dbFile), walObjLimit);
        Disk(walFile, dbFile) == AfterMerge(flushed.wal, flushed.db)
      ensures memtable == map[] && walFile == Empty && NoTombstones(Load(dbFile))
      ensures journalFile == Rotated(old(journalFile), journalLineLimit)
      ensures forall k :: Get(k) == old(Get(k))
    {
      Flush();
      Merge();
      Rotate();
    }

    /** `startup`: the memtable becomes the replay of the journal, replacing what it held. */
    method Startup()
      modifies this`memtable
      ensures memtable == Replay(journalFile)
    {
      var data := ReplayJournal(journalFile);
      memtable := data;
    }
  }
}
