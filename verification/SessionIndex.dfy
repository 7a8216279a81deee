/** The two hash indexes over sessions: token hash to session id and subscribe hash to session id. */
module SessionIndex {
  import opened WriteBack
  import opened StoreProtocol

  datatype Kind = ByToken | BySubscribe

  type Index = map<string, string>

  function Hash(kind: Kind, session: SessionData): string {
    match kind
    case ByToken => session.tokenHash
    case BySubscribe => session.subscribeHash
  }

  /** The index is the inverse of the sessions' nonempty hashes. */
  ghost predicate Exact(kind: Kind, index: Index, rows: Table<SessionData>) {
    (forall h :: h in index ==> h != "" && index[h] in rows && Hash(kind, rows[index[h]].data) == h) &&
    (forall id :: id in rows && Hash(kind, rows[id].data) != "" ==>
       Hash(kind, rows[id].data) in index && index[Hash(kind, rows[id].data)] == id)
  }

  ghost predicate UniqueHashes(kind: Kind, rows: Table<SessionData>) {
    forall a, b :: a in rows && b in rows && a != b && Hash(kind, rows[a].data) != "" ==>
      Hash(kind, rows[a].data) != Hash(kind, rows[b].data)
  }

  function WithSession(kind: Kind, index: Index, id: string, session: SessionData): Index {
    if Hash(kind, session) != "" then index[Hash(kind, session) := id] else index
  }

  function WithoutSession(kind: Kind, index: Index, session: SessionData): Index {
    index - {Hash(kind, session)}
  }

  /** The index without the hash of the session `id`, if there is one. */
  function Unindexed(kind: Kind, index: Index, rows: Table<SessionData>, id: string): Index {
    if id in rows then WithoutSession(kind, index, rows[id].data) else index
  }

  /** Indexing a new session keeps the index exact if and only if no other session has its hash. */
  lemma AddKeepsExact(kind: Kind, index: Index, rows: Table<SessionData>, id: string, row: Row<SessionData>)
    requires Exact(kind, index, rows) && id !in rows
    ensures Exact(kind, WithSession(kind, index, id, row.data), rows[id := row]) <==> Hash(kind, row.data) !in index
  {
    var h := Hash(kind, row.data);
    var rows' := rows[id := row];
    if h in index {
      var other := index[h];
      assert other in rows' && other != id && Hash(kind, rows'[other].data) == h;
    } else {
      forall k | k in rows' && Hash(kind, rows'[k].data) != ""
        ensures Hash(kind, rows'[k].data) in WithSession(kind, index, id, row.data)
        ensures WithSession(kind, index, id, row.data)[Hash(kind, rows'[k].data)] == k
      {
      }
    }
  }

  lemma DeleteKeepsExact(kind: Kind, index: Index, rows: Table<SessionData>, id: string)
    requires Exact(kind, index, rows) && id in rows
    ensures Exact(kind, WithoutSession(kind, index, rows[id].data), rows - {id})
  {
  }

  lemma UpdateKeepsExact(kind: Kind, index: Index, rows: Table<SessionData>, id: string, row: Row<SessionData>)
    requires Exact(kind, index, rows) && id in rows && Hash(kind, row.data) == Hash(kind, rows[id].data)
    ensures Exact(kind, index, rows[id := row])
  {
    var rows' := rows[id := row];
    forall h | h in index
      ensures h != "" && index[h] in rows' && Hash(kind, rows'[index[h]].data) == h
    {
      assert index[h] in rows;
    }
  }

  /** There is only one exact index, so indexing one session at a time and rebuilding from scratch agree. */
  lemma ExactIsUnique(kind: Kind, index: Index, index': Index, rows: Table<SessionData>)
    requires Exact(kind, index, rows) && Exact(kind, index', rows)
    ensures index == index'
  {
    forall h
      ensures h in index <==> h in index'
      ensures h in index ==> index[h] == index'[h]
    {
      if h in index {
        assert index[h] in rows;
      }
      if h in index' {
        assert index'[h] in rows;
      }
    }
  }

  lemma ExactMeansUnique(kind: Kind, index: Index, rows: Table<SessionData>)
    requires Exact(kind, index, rows)
    ensures UniqueHashes(kind, rows)
  {
  }

  ghost predicate Visited(rows: Table<SessionData>, todo: set<string>, seen: Table<SessionData>) {
    forall k :: (k in rows <==> k in todo || k in seen) && (k in seen ==> k !in todo && seen[k] == rows[k])
  }

  lemma VisitedStep(rows: Table<SessionData>, todo: set<string>, seen: Table<SessionData>, id: string)
    requires Visited(rows, todo, seen) && id in todo
    ensures id in rows && Visited(rows, todo - {id}, seen[id := rows[id]])
  {
  }

  /** The loop visits the sessions in any order. */
  method RebuildIndexes(rows: Table<SessionData>) returns (byToken: Index, bySubscribe: Index)
    ensures Exact(ByToken, byToken, rows) <==> UniqueHashes(ByToken, rows)
    ensures Exact(BySubscribe, bySubscribe, rows) <==> UniqueHashes(BySubscribe, rows)
  {
    byToken, bySubscribe := map[], map[];
    var todo := rows.Keys;
    ghost var seen: Table<SessionData> := map[];
    while todo != {}
      invariant Visited(rows, todo, seen)
      invariant UniqueHashes(ByToken, rows) ==> Exact(ByToken, byToken, seen)
      invariant UniqueHashes(BySubscribe, rows) ==> Exact(BySubscribe, bySubscribe, seen)
      decreases |todo|
    {
      var id :| id in todo;
      VisitedStep(rows, todo, seen, id);
      todo := todo - {id};
      var session := rows[id].data;
      IndexNext(ByToken, byToken, rows, seen, id);
      IndexNext(BySubscribe, bySubscribe, rows, seen, id);
      if session.tokenHash != "" {
        byToken := byToken[session.tokenHash := id];
      }
      if session.subscribeHash != "" {
        bySubscribe := bySubscribe[session.subscribeHash := id];
      }
      seen := seen[id := rows[id]];
    }
    assert seen == rows;
    if Exact(ByToken, byToken, rows) {
      ExactMeansUnique(ByToken, byToken, rows);
    }
    if Exact(BySubscribe, bySubscribe, rows) {
      ExactMeansUnique(BySubscribe, bySubscribe, rows);
    }
  }

  lemma IndexNext(kind: Kind, index: Index, rows: Table<SessionData>, seen: Table<SessionData>, id: string)
    requires id in rows && id !in seen && forall k :: k in seen ==> k in rows && seen[k] == rows[k]
    ensures UniqueHashes(kind, rows) && Exact(kind, index, seen) ==>
              Exact(kind, WithSession(kind, index, id, rows[id].data), seen[id := rows[id]])
  {
    if UniqueHashes(kind, rows) && Exact(kind, index, seen) {
      AddKeepsExact(kind, index, seen, id, rows[id]);
    }
  }
}
