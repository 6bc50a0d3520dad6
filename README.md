# LSM tree key/value engine, modelled in Dafny

This project models `LSMTree` from db.py, a small log-structured-merge
key/value store. The engine has four pieces of state:

- a **memtable**: the in-memory dictionary of recent writes;
- a **journal**: an append-only file with one `{key: value}` record per line;
- a **WAL segment**: a file holding one mapping, written by flush;
- a **DB segment**: a file holding one mapping, written by merge.

A delete writes the sentinel value `"delete_tombstone"`. A read resolves a
key in the memtable first, then in the WAL, then in the DB. A tombstone found
there reads as "not found".

The model has three modules:

- `Lsm` (lsm.dfy) holds the pure part. It defines the file contents, how a
  segment is loaded, dictionary overlay, tombstone purging, read resolution,
  journal rotation and replay, and what flush and merge leave on disk. The
  lemmas about these live here too.
- `Db` (db.dfy) holds the class `LSMTree`. Its fields are the memtable, the
  journal contents, the WAL file, the DB file and the three limits. Each
  method states its whole new state. The methods that move data between
  tiers also state that no read changes. The source's three loops are
  modelled by two methods proved against the specification functions of
  `Lsm`: the journal replay loop of `startup`, and the collect loop and pop
  loop of `merge`'s tombstone purge, both in one method.
- `Demo` (demo.dfy) replays the driver at the end of db.py against an empty
  storage directory, with every limit at 5.

File contents are modelled abstractly. The journal is a `seq<(string,
string)>`. A segment file is `Empty` (touched or truncated), `Corrupt`
(content that `json.load` rejects) or `Mapping(m)`, a JSON object of
strings. `Load` turns both `Empty` and `Corrupt` into the empty map, as the
catch-all in `load` does. The class's `Get` is the read-only `get`. It
applies `Lsm.Resolve` to the memtable and the loaded segments.

The source fixes all three limits at 5 (db.py:28-30). The model takes them
as constructor arguments, and the demo passes 5. The only precondition is
the one the source itself needs. `rotate` reads `data[-1]`, which raises on
an empty journal when the line limit is 0, so `Rotate`, `Rotated` and
`Shutdown` require a positive limit or a non-empty journal.

Two behaviours of the code are easy to misread, and the model keeps both as written:

- `flush` decides whether to merge from the size of the WAL it loaded
  BEFORE overlaying the memtable (db.py:103), not from the size of the WAL
  it writes. `Lsm.FlushBelowLimitKeepsAll` shows the consequence. A WAL just
  below the limit takes a whole memtable of fresh keys without merging, so
  the WAL can sit above its limit until the next flush, not only
  transiently.
- `shutdown` merges twice in effect. Its own `flush` may already merge, and
  the explicit `merge` then finds an empty WAL. `Lsm.MergeOfEmptyWal` shows
  that this second merge changes nothing when the DB is already
  tombstone-free.

## Model

| member | source | states |
|---|---|---|
| `Lsm.Load` | db.py:128-133 | a written segment loads as its mapping; an empty or unreadable one loads as the empty map |
| `Lsm.Overlay` | db.py:92 | `{**under, **over}` holds every key of either map, and `over` wins on a shared key |
| `Lsm.Purged` | db.py:112-118 | the result has no tombstone, keeps every live entry with its value, and adds nothing |
| `Lsm.Visible` | db.py:62-64 | a raw value reads as "not found" exactly when it is the tombstone, otherwise as itself |
| `Lsm.Resolve` | db.py:47-66 | a read never returns the tombstone; a key in the memtable reads as its memtable value, else a key in the WAL as its WAL value, else a key in the DB as its DB value, else as "not found" |
| `Lsm.ResolveIsFlatLookup` | db.py:47-66 | the tiered read equals a lookup in DB overlaid by WAL overlaid by memtable |
| `Lsm.Rotated` | db.py:77-87 | rotation keeps a suffix that ends with the newest record; below the limit nothing changes; at or above it one record remains |
| `Lsm.RotationBound` | db.py:68-87 | with a limit of at least 2, a journal below the limit stays below it after an append and rotation, and ends with the new record |
| `Lsm.JournalIsSuffixOfWrites` | db.py:68-87 | `JournalAfter` is the journal after any number of appends, each followed by a rotation; it is always a suffix of everything written to the journal |
| `Lsm.Replay` | db.py:143-151 | replay has at most one key per record and holds every key that any record writes |
| `Lsm.ReplayKeys` | db.py:145-150 | every replayed key was written by some record |
| `Lsm.ReplayLastWins` | db.py:147-150 | the newest record for a key gives its replayed value |
| `Lsm.ReplaySuffix` | db.py:143-151 | replaying a suffix of a journal gives every key it holds the same value as replaying the whole journal |
| `Lsm.RotationKeepsLatest` | db.py:77-87 | rotation only forgets keys; replay after rotation never yields a stale value |
| `Lsm.AfterMerge` | db.py:107-126 | after merge the WAL is empty and the DB has no tombstone; the DB takes every live WAL entry and keeps every live DB entry the WAL does not shadow; every DB entry comes from the WAL if the WAL has the key, else from the old DB |
| `Lsm.AfterFlush` | db.py:90-104 | the WAL becomes the old WAL overlaid by the memtable; a merge follows exactly when the pre-flush WAL size reaches the limit; otherwise the DB is untouched |
| `Lsm.FlushBelowLimitKeepsAll` | db.py:98-104 | with the pre-flush WAL below the limit and fresh keys, no merge happens and the WAL grows by the whole memtable |
| `Lsm.PutView` | db.py:36 | a memtable put changes the read of that key alone |
| `Lsm.UpsertView` | db.py:32-42 | a put followed by the flush it may trigger reads the written key as the written value (as "not found" for the tombstone) and every other key as before |
| `Lsm.MergeOfEmptyWal` | db.py:136-140 | a merge that finds an empty WAL and a tombstone-free DB leaves the DB as it was |
| `Lsm.MergeKeepsView` | db.py:107-126 | a merge changes the read of no key |
| `Lsm.FlushKeepsView` | db.py:90-104 | a flush, including the merge it may trigger, changes the read of no key, although it empties the memtable |
| `Db.ReplayJournal` | db.py:145-151 | the replay loop computes the left fold of the journal records |
| `Db.DropTombstones` | db.py:113-118 | the collect-then-pop loops remove exactly the tombstoned keys, and each pop finds its key |
| `Db.LSMTree.constructor` | db.py:11-30 | the memtable starts empty; the files hold what the storage directory holds; the limits are as given |
| `Db.LSMTree.Get` | db.py:47-66 | the read equals a lookup in the DB overlaid by the WAL overlaid by the memtable, a tombstone reading as "not found"; the function reads state and changes none |
| `Db.LSMTree.Rotate` | db.py:77-87 | the journal becomes its rotation |
| `Db.LSMTree.Journal` | db.py:68-74 | the record is appended and the journal then rotated; with a limit of at least 2 it stays below the limit |
| `Db.LSMTree.Merge` | db.py:107-126 | the segments become what `AfterMerge` says; the memtable and journal are unchanged; the WAL is empty, the DB has no tombstone, and every read is unchanged |
| `Db.LSMTree.Flush` | db.py:90-104 | the memtable is emptied; the segments become what `AfterFlush` says; the journal is unchanged; every read is unchanged |
| `Db.LSMTree.Upsert` | db.py:32-42 | the journal gains the record and is rotated; the memtable takes the put, or is flushed once it reaches the limit; it then stays below the limit (or is empty); the key reads as the value (as "not found" for the tombstone); every other key reads as before |
| `Db.LSMTree.Delete` | db.py:44-45 | the same state change as an upsert of the tombstone; afterwards the key reads as "not found" whichever tier held an older value; other keys are unaffected |
| `Db.LSMTree.Shutdown` | db.py:136-140 | flush then merge: the memtable and WAL end empty, the DB has no tombstone, the journal is rotated, and every read is unchanged |
| `Db.LSMTree.Startup` | db.py:143-151 | the memtable is replaced by the replay of the journal |
| `Demo.WriteBelowLimit` | db.py:32-42 | a write that keeps the memtable below the limit touches neither segment |
| `Demo.FirstWrites` | db.py:155-159 | the first five writes leave the memtable `{"1":"1","2":"3","3":"3","4":"4"}` |
| `Demo.SixthWrite` | db.py:160 | the write of `("5","5")` flushes, leaving the memtable empty and the WAL `{"1":"1","2":"3","3":"3","4":"4","5":"5"}` |
| `Demo.DemoPurge` | db.py:162-164 | the merge at shutdown drops the tombstone of key "7" and keeps the six live keys |
| `Demo.DemoOverlay` | db.py:162-164 | the flush at shutdown lays keys "6" and "7" over the five keys already in the WAL |
| `Demo.DemoShutdown` | db.py:164 | shutting down the demo state leaves the DB `{"1":"1","2":"3","3":"3","4":"4","5":"5","6":"6"}` |
| `Demo.DemoTrace` | db.py:153-164 | the driver flushes at the sixth write, `get("7")` after `delete("7")` is "not found", and shutdown leaves the six live keys in the DB |

## Left out

- JSON encoding and decoding of journal lines and segment files: file contents are modelled as records and maps.
- The distinct causes of a failed `load` (missing file, empty file, malformed JSON, I/O error): all of them are `Empty` or `Corrupt`, and both load as the empty map.
- A malformed journal line, which makes `startup` raise: journal records are well formed by type.
- Values that are not strings: callers of the source pass strings, and the model's keys and values are strings.
- Creating the storage directory and files, and building path strings: storage is the three file-content fields, given to the constructor.
- File handles left unclosed until garbage collection, write failures such as a full disk, and logging: these are runtime and I/O concerns.
- The iteration order of the dictionary in `merge`: the model picks pending keys in an arbitrary order, and the result does not depend on it.
- The restart scenario is stated through lemmas, not as a two-engine trace. `Lsm.JournalIsSuffixOfWrites` proves that the journal stays a suffix of all writes, and `Lsm.ReplaySuffix` proves that replaying a suffix never restores a value older than the latest write of that key.
- A segment holding valid JSON that is not an object (`[]`, `null`, `5`, `"abc"`): `load` returns it unchanged (db.py:128-133). Flush (for the WAL) and merge (for either segment) then raise TypeError when they unpack it with `**` (db.py:92, db.py:111). In `get`, `null` and `5` make the `key in` test on that segment raise; for a string it is a substring test, and a hit makes the subscript raise; `[]` holds no key, so the read falls through to the next tier as for an empty segment. The model has no such segment, because its segments are maps of strings and `Corrupt` is only content that `json.load` rejects.
- A segment holding a JSON object with a value that is not a string (`{"a": 1}`, `{"a": null}`): flush and merge carry the value through unchanged, since it is never equal to the tombstone (db.py:115), and `get` returns the raw value. A `null` value reads as "not found" and, because the key is present in its tier, hides any value of that key in a lower tier (db.py:50-60). The model has no such segment, because its values are strings.
- Concurrency: the engine is single-threaded.
