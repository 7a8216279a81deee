/** One table of the gateway store: records in memory, the ids whose records are to be written or
    deleted, and the rows in Postgres. */
module WriteBack {

  /** An upsert never changes `createdAt` of an existing row; `data` stands for all other columns. */
  datatype Row<+T> = Row(createdAt: int, data: T)

  type Table<T> = map<string, Row<T>>

  datatype Cached<T> = Cached(rows: Table<T>, dirty: set<string>, deleted: set<string>)

  function Put<T>(c: Cached<T>, id: string, row: Row<T>): Cached<T> {
    Cached(c.rows[id := row], c.dirty + {id}, c.deleted - {id})
  }

  function Remove<T>(c: Cached<T>, id: string): Cached<T> {
    Cached(c.rows - {id}, c.dirty - {id}, c.deleted + {id})
  }

  function Clean<T>(rows: Table<T>): Cached<T> {
    Cached(rows, {}, {})
  }

  predicate Pending<T>(c: Cached<T>) {
    c.dirty != {} || c.deleted != {}
  }

  /** The records that a save sends. */
  function Changed<T>(c: Cached<T>): Table<T> {
    map id | id in c.dirty && id in c.rows :: c.rows[id]
  }

  /** Deletions, then upserts. */
  ghost function Flush<T>(table: Table<T>, changed: Table<T>, deleted: set<string>): Table<T> {
    map id | id in (table.Keys - deleted) + changed.Keys ::
      if id !in changed then table[id]
      else if id in table && id !in deleted then Row(table[id].createdAt, changed[id].data)
      else changed[id]
  }

  ghost function FlushCached<T>(table: Table<T>, c: Cached<T>): Table<T> {
    Flush(table, Changed(c), c.deleted)
  }

  /** The bookkeeping of the cache itself. */
  ghost predicate Tidy<T>(c: Cached<T>) {
    c.dirty !! c.deleted && c.dirty <= c.rows.Keys && c.deleted !! c.rows.Keys
  }

  ghost predicate RowSynced<T>(c: Cached<T>, table: Table<T>, id: string) {
    if id in c.deleted then id !in c.rows
    else if id in c.dirty then id in c.rows && (id in table ==> table[id].createdAt == c.rows[id].createdAt)
    else if id in c.rows then id in table && table[id] == c.rows[id]
    else id !in table
  }

  /** In step with the table, except for ids that another gateway has written. */
  ghost predicate Synced<T>(c: Cached<T>, table: Table<T>, foreign: set<string>) {
    Tidy(c) && forall id :: id !in foreign ==> RowSynced(c, table, id)
  }

  /** Being in step means exactly that writing what is pending would make the table equal to memory. */
  lemma SyncedMeansFlushYieldsMemory<T>(c: Cached<T>, table: Table<T>)
    requires Tidy(c)
    ensures Synced(c, table, {}) <==> FlushCached(table, c) == c.rows
  {
    var flushed := FlushCached(table, c);
    if Synced(c, table, {}) {
      forall id
        ensures id in flushed <==> id in c.rows
        ensures id in c.rows ==> flushed[id] == c.rows[id]
      {
        assert RowSynced(c, table, id);
      }
    }
    if flushed == c.rows {
      forall id
        ensures RowSynced(c, table, id)
      {
        assert id in flushed <==> id in c.rows;
      }
    }
  }

  /** The ids of the records and rows are all in `issued`, the ids ever given out. */
  ghost predicate Recorded<T>(c: Cached<T>, table: Table<T>, foreign: set<string>, issued: set<string>) {
    forall id :: id !in foreign && (id in c.rows || id in table) ==> id in issued
  }

  /** A record that is there keeps its creation time, and a record that is not there has a new id. */
  ghost predicate PutAllowed<T>(c: Cached<T>, issued: set<string>, id: string, row: Row<T>) {
    if id in c.rows then row.createdAt == c.rows[id].createdAt else id !in issued
  }

  /** A record in memory that keeps its creation time agrees in it with the row that may be stored. */
  lemma KeptCreationMatches<T>(c: Cached<T>, table: Table<T>, foreign: set<string>, id: string, row: Row<T>)
    requires Synced(c, table, foreign) && id !in foreign && id in c.rows && row.createdAt == c.rows[id].createdAt
    ensures id in table ==> table[id].createdAt == row.createdAt
  {
    assert RowSynced(c, table, id);
  }

  lemma PutKeepsSynced<T>(c: Cached<T>, table: Table<T>, foreign: set<string>, issued: set<string>, id: string,
                          row: Row<T>)
    requires Synced(c, table, foreign) && Recorded(c, table, foreign, issued) && PutAllowed(c, issued, id, row)
    ensures Synced(Put(c, id, row), table, foreign) && Recorded(Put(c, id, row), table, foreign, issued + {id})
  {
    var c' := Put(c, id, row);
    forall k | k !in foreign
      ensures RowSynced(c', table, k)
    {
      assert RowSynced(c, table, k);
      if k == id && id in c.rows {
        KeptCreationMatches(c, table, foreign, id, row);
      }
    }
  }

  /** Records of a table from which nothing is ever deleted need no history of their ids. */
  lemma PutWhereNoneIsDeleted<T>(c: Cached<T>, table: Table<T>, foreign: set<string>, id: string, row: Row<T>)
    requires Synced(c, table, foreign) && c.deleted == {}
    requires id !in foreign && id in c.rows ==> row.createdAt == c.rows[id].createdAt
    ensures Synced(Put(c, id, row), table, foreign)
  {
    var c' := Put(c, id, row);
    forall k | k !in foreign
      ensures RowSynced(c', table, k)
    {
      assert RowSynced(c, table, k);
    }
  }

  /** The save after a change makes the table equal to memory exactly when the table has no row of that id
      with another creation time: an upsert does not overwrite it. */
  lemma PutIsWrittenBackExactly<T>(c: Cached<T>, table: Table<T>, id: string, row: Row<T>)
    requires Synced(c, table, {})
    ensures FlushCached(table, Put(c, id, row)) == Put(c, id, row).rows <==>
            (id in table ==> table[id].createdAt == row.createdAt)
  {
    var c' := Put(c, id, row);
    if id in table ==> table[id].createdAt == row.createdAt {
      forall k
        ensures RowSynced(c', table, k)
      {
        assert RowSynced(c, table, k);
      }
      SyncedMeansFlushYieldsMemory(c', table);
    } else {
      assert FlushCached(table, c')[id].createdAt == table[id].createdAt;
    }
  }

  lemma RemoveKeepsSynced<T>(c: Cached<T>, table: Table<T>, foreign: set<string>, id: string)
    requires Synced(c, table, foreign)
    ensures Synced(Remove(c, id), table, foreign)
  {
    var c' := Remove(c, id);
    forall k | k !in foreign
      ensures RowSynced(c', table, k)
    {
      assert RowSynced(c, table, k);
    }
  }

  /** After a save the table is in step whether or not the pending sets were cleared, so a commit
      whose answer was lost does no harm. */
  lemma FlushKeepsSynced<T>(c: Cached<T>, table: Table<T>, foreign: set<string>)
    requires Synced(c, table, foreign)
    ensures Synced(c, FlushCached(table, c), foreign)
    ensures Synced(Clean(c.rows), FlushCached(table, c), foreign)
  {
    forall k | k !in foreign
      ensures RowSynced(c, FlushCached(table, c), k) && RowSynced(Clean(c.rows), FlushCached(table, c), k)
    {
      assert RowSynced(c, table, k);
    }
  }

  ghost predicate AgreeOutside<T>(a: Table<T>, b: Table<T>, foreign: set<string>) {
    forall id :: id !in foreign ==> (id in a <==> id in b) && (id in a ==> a[id] == b[id])
  }

  /** What a save would write agrees with memory wherever the two are in step. */
  lemma FlushAgrees<T>(c: Cached<T>, table: Table<T>, foreign: set<string>)
    requires Synced(c, table, foreign)
    ensures AgreeOutside(FlushCached(table, c), c.rows, foreign)
  {
    forall id | id !in foreign
      ensures id in FlushCached(table, c) <==> id in c.rows
      ensures id in c.rows ==> FlushCached(table, c)[id] == c.rows[id]
    {
      assert RowSynced(c, table, id);
    }
  }

  lemma CleanMeansAgree<T>(c: Cached<T>, table: Table<T>, foreign: set<string>)
    requires Synced(c, table, foreign) && !Pending(c)
    ensures AgreeOutside(c.rows, table, foreign)
  {
    forall id | id !in foreign
      ensures (id in c.rows <==> id in table) && (id in c.rows ==> c.rows[id] == table[id])
    {
      assert RowSynced(c, table, id);
    }
  }

  lemma RemoveKeepsRecorded<T>(c: Cached<T>, table: Table<T>, foreign: set<string>, issued: set<string>, id: string)
    requires Recorded(c, table, foreign, issued)
    ensures Recorded(Remove(c, id), table, foreign, issued)
  {
  }

  lemma FlushKeepsRecorded<T>(c: Cached<T>, table: Table<T>, foreign: set<string>, issued: set<string>)
    requires Recorded(c, table, foreign, issued)
    ensures Recorded(c, FlushCached(table, c), foreign, issued)
    ensures Recorded(Clean(c.rows), FlushCached(table, c), foreign, issued)
  {
  }

  lemma ForeignKeepsRecorded<T>(c: Cached<T>, table: Table<T>, table': Table<T>, foreign: set<string>,
                                foreign': set<string>,
                                issued: set<string>)
    requires Recorded(c, table, foreign, issued) && foreign <= foreign' && AgreeOutside(table, table', foreign')
    ensures Recorded(c, table', foreign', issued)
  {
  }

  lemma ForeignKeepsSynced<T>(c: Cached<T>, table: Table<T>, table': Table<T>, foreign: set<string>,
                              foreign': set<string>)
    requires Synced(c, table, foreign) && foreign <= foreign' && AgreeOutside(table, table', foreign')
    ensures Synced(c, table', foreign')
  {
    forall id | id !in foreign'
      ensures RowSynced(c, table', id)
    {
      assert RowSynced(c, table, id);
    }
  }

  // ---------- all columns but the creation time ----------

  /** The table without its creation times. */
  function Undated<T>(table: Table<T>): Table<T> {
    map id | id in table :: Row(0, table[id].data)
  }

  function UndatedCache<T>(c: Cached<T>): Cached<T> {
    c.(rows := Undated(c.rows))
  }

  /** The same ids, and the same columns other than the creation time. */
  ghost predicate DataAgrees<T>(a: Table<T>, b: Table<T>, foreign: set<string>) {
    AgreeOutside(Undated(a), Undated(b), foreign)
  }

  ghost predicate DataSynced<T>(c: Cached<T>, table: Table<T>, foreign: set<string>) {
    Synced(UndatedCache(c), Undated(table), foreign)
  }

  lemma FlushUndated<T>(c: Cached<T>, table: Table<T>)
    ensures FlushCached(Undated(table), UndatedCache(c)) == Undated(FlushCached(table, c))
  {
  }

  /** Where nothing is ever deleted a record may be stored in any way: all its columns but the creation time
      are written back. */
  lemma PutKeepsDataSynced<T>(c: Cached<T>, table: Table<T>, foreign: set<string>, id: string, row: Row<T>)
    requires DataSynced(c, table, foreign) && c.deleted == {}
    ensures DataSynced(Put(c, id, row), table, foreign)
  {
    assert UndatedCache(Put(c, id, row)) == Put(UndatedCache(c), id, Row(0, row.data));
    PutWhereNoneIsDeleted(UndatedCache(c), Undated(table), foreign, id, Row(0, row.data));
  }

  lemma FlushKeepsDataSynced<T>(c: Cached<T>, table: Table<T>, foreign: set<string>)
    requires DataSynced(c, table, foreign)
    ensures DataSynced(c, FlushCached(table, c), foreign)
    ensures DataSynced(Clean(c.rows), FlushCached(table, c), foreign)
  {
    FlushUndated(c, table);
    FlushKeepsSynced(UndatedCache(c), Undated(table), foreign);
    assert UndatedCache(Clean(c.rows)) == Clean(UndatedCache(c).rows);
  }

  lemma FlushDataAgrees<T>(c: Cached<T>, table: Table<T>, foreign: set<string>)
    requires DataSynced(c, table, foreign)
    ensures DataAgrees(FlushCached(table, c), c.rows, foreign)
  {
    FlushUndated(c, table);
    FlushAgrees(UndatedCache(c), Undated(table), foreign);
  }

  /** Of a record whose data is in step, the creation time is written back exactly if no row of that id has
      another one. */
  lemma RowIsWrittenBackExactly<T>(c: Cached<T>, table: Table<T>, foreign: set<string>, id: string)
    requires DataSynced(c, table, foreign) && id !in foreign && id in c.rows
    ensures id in FlushCached(table, c)
    ensures FlushCached(table, c)[id] == c.rows[id] <==> (id in table ==> table[id].createdAt == c.rows[id].createdAt)
  {
    FlushDataAgrees(c, table, foreign);
    assert id in Undated(c.rows);
    assert id in Undated(FlushCached(table, c));
    assert Undated(FlushCached(table, c))[id] == Undated(c.rows)[id];
    assert RowSynced(UndatedCache(c), Undated(table), id);
  }
}
