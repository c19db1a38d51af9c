/** Two stores, one contract: the SQLite store refines the memory store. */
module StoreRefinement {
  import opened Records
  import opened MemoryStores
  import opened SqliteStores

  /** Every sequence of calls, with the same clock readings, gets the same answers
      from both stores and leaves them with the same contents. */
  method ReplayBoth(memory: MemoryStore, sqlite: SQLiteStore, calls: seq<Call>)
    returns (fromMemory: seq<Answer>, fromSqlite: seq<Answer>)
    requires sqlite.Valid() && sqlite.Readable() && memory.State() == sqlite.State()
    modifies memory, sqlite
    ensures sqlite.Valid() && sqlite.Readable()
    ensures memory.State() == sqlite.State() && fromMemory == fromSqlite
    ensures (memory.State(), fromMemory) == ExecuteAll(old(memory.State()), calls)
  {
    fromMemory, fromSqlite := [], [];
    for i := 0 to |calls|
      invariant sqlite.Valid() && sqlite.Readable()
      invariant memory.State() == sqlite.State() && fromMemory == fromSqlite
      invariant (memory.State(), fromMemory) == ExecuteAll(old(memory.State()), calls[..i])
    {
      assert calls[..i + 1][..i] == calls[..i];
      var m := memory.Apply(calls[i]);
      var q := sqlite.Apply(calls[i]);
      fromMemory, fromSqlite := fromMemory + [m], fromSqlite + [q];
    }
    assert calls[..|calls|] == calls;
  }
}
