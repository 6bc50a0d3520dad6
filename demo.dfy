/**
 The driver at the end of db.py (lines 153-164), run against a new, empty
 storage directory with every limit at 5, and what the engine's contracts
 say about it.
 */
module Demo {
  import opened Lsm
  import opened Db

  /** A write that leaves the memtable below its limit touches neither segment. */
  method WriteBelowLimit(l: LSMTree, key: string, value: string)
    requires |l.memtable[key := value]| < l.memtableObjLimit
    modifies l
    ensures l.memtable == old(l.memtable)[key := value]
    ensures l.walFile == old(l.walFile) && l.dbFile == old(l.dbFile)
  {
    l.Upsert(key, value);
  }

  /** The first five writes: keys "1" to "4", key "2" written twice. */
  method FirstWrites(l: LSMTree)
    requires l.memtable == map[] && l.memtableObjLimit == 5
    modifies l
    ensures l.memtable == map["1" := "1", "2" := "3", "3" := "3", "4" := "4"]
    ensures l.walFile == old(l.walFile) && l.dbFile == old(l.dbFile)
  {
    WriteBelowLimit(l, "1", "1");
    WriteBelowLimit(l, "2", "2");
    WriteBelowLimit(l, "2", "3");
    assert |l.memtable| == 2 && "3" !in l.memtable;
    WriteBelowLimit(l, "3", "3");
    assert |l.memtable| == 3 && "4" !in l.memtable;
    WriteBelowLimit(l, "4", "4");
  }

  /** The sixth write brings the memtable to five keys and flushes it into the empty WAL. */
  method SixthWrite(l: LSMTree)
    requires l.memtable == map["1" := "1", "2" := "3", "3" := "3", "4" := "4"]
    requires l.memtableObjLimit == 5 && l.walObjLimit == 5 && l.walFile == Empty
    modifies l
    ensures l.memtable == map[]
    ensures l.walFile == Mapping(map["1" := "1", "2" := "3", "3" := "3", "4" := "4", "5" := "5"])
    ensures l.dbFile == old(l.dbFile)
  {
    assert |l.memtable| == 4 && "5" !in l.memtable;
    var put := l.memtable["5" := "5"];
    assert |put| == 5;
    assert Overlay(map[], put) == map["1" := "1", "2" := "3", "3" := "3", "4" := "4", "5" := "5"];
    assert AfterFlush(put, Empty, l.dbFile, 5) == Disk(Mapping(Overlay(map[], put)), l.dbFile);
    l.Upsert("5", "5");
  }

  /**
   The merge at shutdown purges the tombstone written by `delete("7")` and
   keeps the six live keys. The map is a parameter pinned by the requires to
   that one value only so that the map literal is not unfolded inside the
   caller's proof; the lemma is about that single map.
   */
  lemma DemoPurge(live: map<string, string>)
    requires live == map["1" := "1", "2" := "3", "3" := "3", "4" := "4", "5" := "5", "6" := "6"]
    ensures Purged(live["7" := Tombstone]) == live
  {
  }

  /**
   The flush at shutdown lays keys "6" and "7" over the five keys already in
   the WAL. As in `DemoPurge`, the parameters are pinned to one value each so
   that the caller's proof names the maps without unfolding them.
   */
  lemma DemoOverlay(mem: map<string, string>, wal: map<string, string>)
    requires mem == map["6" := "6", "7" := Tombstone]
    requires wal == map["1" := "1", "2" := "3", "3" := "3", "4" := "4", "5" := "5"]
    ensures Overlay(map[], Overlay(wal, mem)) == wal["6" := "6"]["7" := Tombstone]
  {
  }

  /**
   Shutting down with the five flushed writes in the WAL and keys "6" (live)
   and "7" (deleted) in the memtable: the flush sees a full WAL and merges,
   the tombstone of "7" is purged, and the second merge finds an empty WAL.
   */
  lemma DemoShutdown()
    ensures var flushed := AfterFlush(map["6" := "6", "7" := Tombstone],
                                      Mapping(map["1" := "1", "2" := "3", "3" := "3", "4" := "4", "5" := "5"]),
                                      Empty, 5);
      Load(AfterMerge(flushed.wal, flushed.db).db) ==
        map["1" := "1", "2" := "3", "3" := "3", "4" := "4", "5" := "5", "6" := "6"]
  {
    var mem := map["6" := "6", "7" := Tombstone];
    var wal := map["1" := "1", "2" := "3", "3" := "3", "4" := "4", "5" := "5"];
    var want := wal["6" := "6"];
    assert |wal| == 5;
    DemoOverlay(mem, wal);
    DemoPurge(want);
    var flushed := AfterFlush(mem, Mapping(wal), Empty, 5);
    assert flushed == Disk(Empty, Mapping(want));
    MergeOfEmptyWal(Empty, want);
  }

  /** The whole driver; the values returned are the states the driver passes through. */
  method DemoTrace() returns (memAfterFlush: map<string, string>, walAfterFlush: map<string, string>,
                              got7: Option<string>, dbAfterShutdown: map<string, string>)
    ensures memAfterFlush == map[]
    ensures walAfterFlush == map["1" := "1", "2" := "3", "3" := "3", "4" := "4", "5" := "5"]
    ensures got7 == None
    ensures dbAfterShutdown == map["1" := "1", "2" := "3", "3" := "3", "4" := "4", "5" := "5", "6" := "6"]
  {
    var l := new LSMTree([], Empty, Empty, 5, 5, 5);
    l.Startup();
    assert l.memtable == map[] by { assert l.journalFile == []; }
    FirstWrites(l);
    SixthWrite(l);
    memAfterFlush, walAfterFlush := l.memtable, Load(l.walFile);
    WriteBelowLimit(l, "6", "6");
    l.Delete("7");
    assert l.memtable == map["6" := "6", "7" := Tombstone];
    got7 := l.Get("7");
    l.Shutdown();
    DemoShutdown();
    dbAfterShutdown := Load(l.dbFile);
  }
}
