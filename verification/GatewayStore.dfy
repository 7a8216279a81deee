/** The gateway store and its Postgres tables as objects that are updated in place. Every method is
    tied to the transition of the store protocol that it performs. */
module GatewayStore {
  import opened Collections
  import opened WriteBack
  import opened StoreProtocol
  import opened SessionIndex
  import opened AuditTrail

  datatype Changes = Changes(
    users: Table<UserData>, devices: Table<DeviceData>, sessions: Table<SessionData>, audits: Table<AuditData>,
    deletedDevices: set<string>, deletedSessions: set<string>, deletedAudits: set<string>)
  {
    predicate Empty() {
      users == map[] && devices == map[] && sessions == map[] && audits == map[] &&
      deletedDevices == {} && deletedSessions == {} && deletedAudits == {}
    }
  }

  ghost function Flushed(db: Database, c: Changes): Database {
    Database(Flush(db.users, c.users, {}), Flush(db.devices, c.devices, c.deletedDevices),
             Flush(db.sessions, c.sessions, c.deletedSessions), Flush(db.audits, c.audits, c.deletedAudits))
  }

  /** What one upsert does: a row that is there keeps its creation time. */
  function Upserted<T>(table: Table<T>, id: string, row: Row<T>): Table<T> {
    table[id := if id in table then Row(table[id].createdAt, row.data) else row]
  }

  lemma OneMoreUpsert<T>(table: Table<T>, done: Table<T>, id: string, row: Row<T>)
    requires id !in done
    ensures Flush(table, done[id := row], {}) == Upserted(Flush(table, done, {}), id, row)
  {
  }

  lemma UpsertEnds<T>(table: Table<T>, records: Table<T>)
    ensures Flush(table, records - records.Keys, {}) == table && records - {} == records
  {
  }

  lemma OneLessToDo<T>(records: Table<T>, todo: set<string>, id: string)
    requires id in todo && todo <= records.Keys
    ensures records - (todo - {id}) == (records - todo)[id := records[id]]
  {
  }

  /** One upsert for each record, in any order. */
  method UpsertRows<T>(table: Table<T>, records: Table<T>) returns (result: Table<T>)
    ensures result == Flush(table, records, {})
  {
    result := table;
    var todo := records.Keys;
    UpsertEnds(table, records);
    while todo != {}
      invariant todo <= records.Keys
      invariant result == Flush(table, records - todo, {})
      decreases |todo|
    {
      var id :| id in todo;
      OneLessToDo(records, todo, id);
      OneMoreUpsert(table, records - todo, id, records[id]);
      todo := todo - {id};
      result := Upserted(result, id, records[id]);
    }
  }

  lemma DeleteThenUpsert<T>(table: Table<T>, records: Table<T>, deleted: set<string>)
    ensures Flush(table - deleted, records, {}) == Flush(table, records, deleted)
  {
  }

  class PostgresStore {
    var users: Table<UserData>
    var devices: Table<DeviceData>
    var sessions: Table<SessionData>
    var audits: Table<AuditData>

    ghost function Rows(): Database
      reads this
    {
      Database(users, devices, sessions, audits)
    }

    /** One transaction: it takes effect as a whole or not at all, and a failure may be reported even
        though the commit took effect. */
    method SaveChanges(c: Changes) returns (ok: bool)
      modifies this
      ensures ok ==> Rows() == Flushed(old(Rows()), c)
      ensures !ok ==> Rows() == old(Rows()) || Rows() == Flushed(old(Rows()), c)
    {
      if c.Empty() {
        NothingToFlush(Rows(), c);
        return true;
      }
      var users' := UpsertRows(users, c.users);
      var devices' := UpsertRows(devices - c.deletedDevices, c.devices);
      var sessions' := UpsertRows(sessions - c.deletedSessions, c.sessions);
      var audits' := UpsertRows(audits - c.deletedAudits, c.audits);
      DeleteThenUpsert(devices, c.devices, c.deletedDevices);
      DeleteThenUpsert(sessions, c.sessions, c.deletedSessions);
      DeleteThenUpsert(audits, c.audits, c.deletedAudits);
      if * {
        return false;
      }
      users, devices, sessions, audits := users', devices', sessions', audits';
      if * {
        return false;
      }
      return true;
    }
  }

  lemma NothingToFlush(db: Database, c: Changes)
    requires c.Empty()
    ensures Flushed(db, c) == db
  {
    assert Flush(db.users, c.users, {}) == db.users;
    assert Flush(db.devices, c.devices, {}) == db.devices;
    assert Flush(db.sessions, c.sessions, {}) == db.sessions;
    assert Flush(db.audits, c.audits, {}) == db.audits;
  }

  datatype StoreState = StoreState(memory: Memory, log: seq<AuditLog>, byToken: Index, bySubscribe: Index)

  ghost function ReadTables(start: nat, db: Database): Reload {
    Reload(start, Some(db.users), Some(db.devices), Some(db.sessions), Some(db.audits))
  }

  /** Reading one table after the other is reading them all, when nothing comes between. */
  lemma ReadInTurn(reloads: map<nat, Reload>, k: nat, db: Database)
    requires k in reloads
    ensures var first := reloads[k := reloads[k].(users := Some(db.users))];
            var second := first[k := first[k].(devices := Some(db.devices))];
            var third := second[k := second[k].(sessions := Some(db.sessions))];
            third[k := third[k].(audits := Some(db.audits))] == reloads[k := ReadTables(reloads[k].start, db)]
  {
  }

  /** One step of the store protocol. */
  ghost predicate Steps(w: World, e: Event, w': World) {
    Enabled(w, e) && w' == Next(w, e)
  }

  /** As long as the revision is the one that a reload started from, nothing is pending. */
  lemma UnmovedMeansClean(w: World, k: nat)
    requires Reached(w) && k in w.reloads
    ensures w.reloads[k].start == w.memory.revision ==> !HasPending(w.memory)
  {
    ReachedInv(w);
    assert ReloadSound(w.memory, w.foreign, Astray(w), w.reloads[k]);
  }

  /** Without other gateways a reload reads the sessions that memory holds, so their hashes are as unique. */
  lemma ReadSessionsAreUnique(w: World, k: nat, byToken: Index, bySubscribe: Index)
    requires Reached(w) && w.foreign == {} && k in w.reloads && w.reloads[k].sessions.Some?
    requires w.reloads[k].start == w.memory.revision
    requires Exact(ByToken, byToken, w.memory.sessions.rows) && Exact(BySubscribe, bySubscribe, w.memory.sessions.rows)
    ensures var sessions := w.reloads[k].sessions.value;
            UniqueHashes(ByToken, sessions) && UniqueHashes(BySubscribe, sessions)
  {
    ReachedInv(w);
    assert ReloadSound(w.memory, w.foreign, Astray(w), w.reloads[k]);
    AgreeEverywhere(w.reloads[k].sessions.value, w.memory.sessions.rows);
    ExactMeansUnique(ByToken, byToken, w.memory.sessions.rows);
    ExactMeansUnique(BySubscribe, bySubscribe, w.memory.sessions.rows);
  }

  /** Appending and trimming the trail is what the protocol does to the audit records in memory. */
  lemma AuditedMemory(m: Memory, t: Trail, audit: AuditLog, t': Trail)
    requires m.audits == Cache(t)
    requires Cache(t') == RemoveAll(Put(Cache(t), audit.id, audit.row), Ids(Excess(t.log + [audit])))
    ensures Mutated(m, StoreProtocol.AddAudit(audit.id, audit.row, Ids(Excess(t.log + [audit])))) ==
            m.(audits := Cache(t'), revision := m.revision + 1)
  {
  }

  class Store {
    var users: Cached<UserData>
    var devices: Cached<DeviceData>
    var sessions: Cached<SessionData>
    var audits: Trail
    var byToken: Index
    var bySubscribe: Index
    var revision: nat
    const pg: PostgresStore
    /** The state of the store protocol that store and database are in. */
    ghost var world: World

    ghost function State(): StoreState
      reads this
    {
      StoreState(Memory(users, devices, sessions, Cache(audits), revision), audits.log, byToken, bySubscribe)
    }

    ghost predicate Tracked()
      reads this, pg
    {
      Reached(world) && world.memory == State().memory && world.db == pg.Rows() && pg as object != this
    }

    /** Everything but the indexes. */
    ghost predicate Consistent()
      reads this, pg
    {
      TrailValid(audits) && Tracked()
    }

    ghost predicate Valid()
      reads this, pg
    {
      Consistent() && Exact(ByToken, byToken, sessions.rows) && Exact(BySubscribe, bySubscribe, sessions.rows)
    }

    /** A store that has just read its tables; `log` is the audit table in the order of the query. The
        indexes are exact if and only if no two sessions share a hash. */
    constructor (pg: PostgresStore, log: seq<AuditLog>)
      requires DistinctIds(log) && AuditTable(log) == pg.audits
      ensures Consistent() && this.pg == pg && Started(world)
      ensures Valid() <==> UniqueHashes(ByToken, pg.sessions) && UniqueHashes(BySubscribe, pg.sessions)
    {
      users, devices, sessions := Clean(pg.users), Clean(pg.devices), Clean(pg.sessions);
      LoadedTrail(log, pg.audits);
      audits := Trail(log, map[], {});
      revision := 0;
      this.pg := pg;
      world := StartedFrom(pg.Rows());
      new;
      StartIsReached(world);
      assert Tracked();
      byToken, bySubscribe := RebuildIndexes(sessions.rows);
    }

    ghost method Advance(e: Event)
      requires Reached(world) && Enabled(world, e)
      modifies this`world
      ensures Reached(world) && Steps(old(world), e, world)
    {
      StepIsReached(world, e);
      world := Next(world, e);
    }

    /** Any user may be stored, also one that is new under the id of another; see `restamped`. */
    method PutUser(id: string, user: Row<UserData>)
      requires Valid()
      modifies this`users, this`revision, this`world
      ensures Valid()
      ensures world == old(world).(
                memory := State().memory,
                restamped := old(world.restamped) + RestampedBy(old(State()).memory, StoreProtocol.PutUser(id, user)))
      ensures State() == old(State()).(memory := Mutated(old(State()).memory, StoreProtocol.PutUser(id, user)))
    {
      Advance(Mutate(StoreProtocol.PutUser(id, user)));
      users := Put(users, id, user);
      revision := revision + 1;
    }

    method PutDevice(id: string, device: Row<DeviceData>)
      requires Valid() && PutAllowed(devices, world.issued, id, device)
      modifies this`devices, this`revision, this`world
      ensures Valid() && world == old(world).(memory := State().memory, issued := old(world.issued) + {id})
      ensures State() == old(State()).(memory := Mutated(old(State()).memory, StoreProtocol.PutDevice(id, device)))
    {
      Advance(Mutate(StoreProtocol.PutDevice(id, device)));
      devices := Put(devices, id, device);
      revision := revision + 1;
    }

    method IndexSession(id: string, session: SessionData)
      modifies this`byToken, this`bySubscribe
      ensures byToken == WithSession(ByToken, old(byToken), id, session)
      ensures bySubscribe == WithSession(BySubscribe, old(bySubscribe), id, session)
    {
      if session.tokenHash != "" {
        byToken := byToken[session.tokenHash := id];
      }
      if session.subscribeHash != "" {
        bySubscribe := bySubscribe[session.subscribeHash := id];
      }
    }

    /** A new session, with hashes that no session has, joins the indexes. */
    method AddSession(id: string, session: Row<SessionData>)
      requires Valid() && id !in sessions.rows && id !in world.issued
      requires session.data.tokenHash !in byToken && session.data.subscribeHash !in bySubscribe
      modifies this
      ensures Valid() && world == old(world).(memory := State().memory, issued := old(world.issued) + {id})
      ensures State() == old(State()).(
                memory := Mutated(old(State()).memory, PutSession(id, session)),
                byToken := WithSession(ByToken, old(byToken), id, session.data),
                bySubscribe := WithSession(BySubscribe, old(bySubscribe), id, session.data))
    {
      AddKeepsExact(ByToken, byToken, sessions.rows, id, session);
      AddKeepsExact(BySubscribe, bySubscribe, sessions.rows, id, session);
      StoreSession(id, session);
      IndexSession(id, session.data);
    }

    /** Stores a session without looking at the indexes. */
    method StoreSession(id: string, session: Row<SessionData>)
      requires Consistent() && PutAllowed(sessions, world.issued, id, session)
      modifies this`sessions, this`revision, this`world
      ensures Consistent() && world == old(world).(memory := State().memory, issued := old(world.issued) + {id})
      ensures State() == old(State()).(memory := Mutated(old(State()).memory, PutSession(id, session)))
    {
      Advance(Mutate(PutSession(id, session)));
      sessions := Put(sessions, id, session);
      revision := revision + 1;
    }

    /** The hashes of a session never change after its creation. */
    method UpdateSession(id: string, session: Row<SessionData>)
      requires Valid() && id in sessions.rows && session.createdAt == sessions.rows[id].createdAt
      requires session.data.tokenHash == sessions.rows[id].data.tokenHash
      requires session.data.subscribeHash == sessions.rows[id].data.subscribeHash
      modifies this
      ensures Valid() && world == old(world).(memory := State().memory, issued := old(world.issued) + {id})
      ensures State() == old(State()).(memory := Mutated(old(State()).memory, PutSession(id, session)))
    {
      UpdateKeepsExact(ByToken, byToken, sessions.rows, id, session);
      UpdateKeepsExact(BySubscribe, bySubscribe, sessions.rows, id, session);
      StoreSession(id, session);
    }

    method DeleteDevice(id: string)
      requires Valid()
      modifies this`devices, this`revision, this`world
      ensures Valid() && world == old(world).(memory := State().memory)
      ensures State() == old(State()).(memory := Mutated(old(State()).memory, StoreProtocol.DeleteDevice(id)))
    {
      Advance(Mutate(StoreProtocol.DeleteDevice(id)));
      devices := Remove(devices, id);
      revision := revision + 1;
    }

    method DeleteSession(id: string)
      requires Valid()
      modifies this
      ensures Valid() && world == old(world).(memory := State().memory)
      ensures State().memory == Mutated(old(State()).memory, StoreProtocol.DeleteSession(id)) && audits == old(audits)
      ensures byToken == Unindexed(ByToken, old(byToken), old(sessions.rows), id)
      ensures bySubscribe == Unindexed(BySubscribe, old(bySubscribe), old(sessions.rows), id)
    {
      UnindexSession(id);
      DropSession(id);
    }

    /** Takes the hashes of the session, if there is one, out of the indexes. */
    method UnindexSession(id: string)
      requires Exact(ByToken, byToken, sessions.rows) && Exact(BySubscribe, bySubscribe, sessions.rows)
      modifies this`byToken, this`bySubscribe
      ensures Exact(ByToken, byToken, sessions.rows - {id}) && Exact(BySubscribe, bySubscribe, sessions.rows - {id})
      ensures byToken == Unindexed(ByToken, old(byToken), sessions.rows, id)
      ensures bySubscribe == Unindexed(BySubscribe, old(bySubscribe), sessions.rows, id)
    {
      if id in sessions.rows {
        var session := sessions.rows[id].data;
        DeleteKeepsExact(ByToken, byToken, sessions.rows, id);
        DeleteKeepsExact(BySubscribe, bySubscribe, sessions.rows, id);
        byToken := byToken - {session.tokenHash};
        bySubscribe := bySubscribe - {session.subscribeHash};
      } else {
        assert sessions.rows - {id} == sessions.rows;
      }
    }

    method DropSession(id: string)
      requires Consistent()
      modifies this`sessions, this`revision, this`world
      ensures Consistent() && world == old(world).(memory := State().memory) && sessions == Remove(old(sessions), id)
      ensures State() == old(State()).(memory := Mutated(old(State()).memory, StoreProtocol.DeleteSession(id)))
    {
      Advance(Mutate(StoreProtocol.DeleteSession(id)));
      sessions := Remove(sessions, id);
      revision := revision + 1;
    }

    method HasPendingChanges() returns (pending: bool)
      ensures pending <==> HasPending(State().memory)
    {
      pending := users.dirty != {} || devices.dirty != {} || sessions.dirty != {} || audits.dirty != map[] ||
        users.deleted != {} || devices.deleted != {} || sessions.deleted != {} || audits.deleted != {};
      assert audits.dirty != map[] <==> audits.dirty.Keys != {};
    }

    method AddAudit(audit: AuditLog)
      requires Valid() && audit.id !in AuditTable(audits.log) && audit.id !in world.issued
      modifies this`audits, this`revision, this`world
      ensures Valid() && world == old(world).(memory := State().memory, issued := old(world.issued) + {audit.id})
      ensures EndsWith(audits.log, audit)
      ensures var trimmed := Excess(old(audits.log) + [audit]);
              audits.log == Kept(old(audits.log) + [audit]) &&
              State() == old(State()).(
                log := audits.log,
                memory := Mutated(old(State()).memory, StoreProtocol.AddAudit(audit.id, audit.row, Ids(trimmed))))
    {
      NewestStays(audits.log, audit);
      Advance(Mutate(StoreProtocol.AddAudit(audit.id, audit.row, Ids(Excess(audits.log + [audit])))));
      AppendAudit(audit);
    }

    method AppendAudit(audit: AuditLog)
      requires TrailValid(audits) && audit.id !in AuditTable(audits.log)
      modifies this`audits, this`revision
      ensures TrailValid(audits) && audits.log == Kept(old(audits.log) + [audit]) && EndsWith(audits.log, audit)
      ensures var trimmed := Excess(old(audits.log) + [audit]);
              State() == old(State()).(
                log := audits.log,
                memory := Mutated(old(State()).memory, StoreProtocol.AddAudit(audit.id, audit.row, Ids(trimmed))))
    {
      var t := AppendAndTrim(audits, audit);
      AuditedMemory(State().memory, audits, audit, t);
      audits := t;
      revision := revision + 1;
    }

    function PendingChanges(): Changes
      reads this
    {
      Changes(Changed(users), Changed(devices), Changed(sessions), audits.dirty,
              devices.deleted, sessions.deleted, audits.deleted)
    }

    lemma PendingChangesFlush(db: Database)
      requires Consistent()
      ensures Flushed(db, PendingChanges()) == FlushAll(db, State().memory)
    {
      ReachedInv(world);
      assert audits.dirty == Changed(Cache(audits));
    }

    method ClearDirty()
      requires TrailValid(audits)
      modifies this`users, this`devices, this`sessions, this`audits
      ensures State() == old(State()).(memory := Cleaned(old(State()).memory)) && TrailValid(audits)
      ensures audits.log == old(audits.log)
    {
      users, devices, sessions := Clean(users.rows), Clean(devices.rows), Clean(sessions.rows);
      audits := Trail(audits.log, map[], {});
    }

    method SaveLocked() returns (ok: bool)
      requires Valid()
      modifies this, pg
      ensures Valid() && world == old(world).(memory := State().memory, db := pg.Rows())
      ensures State() == if ok then old(State()).(memory := Cleaned(old(State()).memory)) else old(State())
      ensures ok ==> pg.Rows() == FlushAll(old(pg.Rows()), old(State()).memory)
      ensures pg.Rows() == old(pg.Rows()) || pg.Rows() == FlushAll(old(pg.Rows()), old(State()).memory)
    {
      PendingChangesFlush(pg.Rows());
      ok := pg.SaveChanges(PendingChanges());
      ghost var committed := ok || pg.Rows() != old(pg.Rows());
      if ok {
        ClearDirty();
      }
      Advance(Save(committed, ok));
    }

    /** The first step of a reload, on a session miss or in the sync loop; `k` stands for it in the protocol. */
    method StartReload(ghost k: nat) returns (allowed: bool, startRevision: nat)
      requires Valid() && k !in world.reloads
      modifies this`world
      ensures Valid() && State() == old(State())
      ensures allowed <==> !HasPending(State().memory)
      ensures startRevision == revision
      ensures if allowed then Steps(old(world), BeginReload(k), world) else world == old(world)
    {
      startRevision := revision;
      var pending := HasPendingChanges();
      allowed := !pending;
      if allowed {
        Advance(BeginReload(k));
      }
    }

    // The tables are read one after the other, and other requests may come between two of them.

    method LoadUsers(ghost k: nat) returns (users: Table<UserData>)
      requires Valid() && k in world.reloads
      modifies this`world
      ensures Valid() && users == pg.users
      ensures world == old(world).(
                reloads := old(world.reloads)[k := old(world.reloads[k]).(users := Some(users))])
    {
      users := pg.users;
      Advance(StoreProtocol.LoadUsers(k));
    }

    method LoadDevices(ghost k: nat) returns (devices: Table<DeviceData>)
      requires Valid() && k in world.reloads
      modifies this`world
      ensures Valid() && devices == pg.devices
      ensures world == old(world).(
                reloads := old(world.reloads)[k := old(world.reloads[k]).(devices := Some(devices))])
    {
      devices := pg.devices;
      Advance(StoreProtocol.LoadDevices(k));
    }

    method LoadSessions(ghost k: nat) returns (sessions: Table<SessionData>)
      requires Valid() && k in world.reloads
      modifies this`world
      ensures Valid() && sessions == pg.sessions
      ensures world == old(world).(
                reloads := old(world.reloads)[k := old(world.reloads[k]).(sessions := Some(sessions))])
    {
      sessions := pg.sessions;
      Advance(StoreProtocol.LoadSessions(k));
    }

    method LoadAudits(ghost k: nat) returns (audits: Table<AuditData>)
      requires Valid() && k in world.reloads
      modifies this`world
      ensures Valid() && audits == pg.audits
      ensures world == old(world).(
                reloads := old(world.reloads)[k := old(world.reloads[k]).(audits := Some(audits))])
    {
      audits := pg.audits;
      Advance(StoreProtocol.LoadAudits(k));
    }

    /** All tables, when nothing comes between. */
    method LoadAll(ghost k: nat) returns (tables: Database)
      requires Valid() && k in world.reloads
      modifies this`world
      ensures Valid() && tables == pg.Rows()
      ensures world == old(world).(
                reloads := old(world.reloads)[k := ReadTables(old(world.reloads[k].start), tables)])
    {
      ReadInTurn(world.reloads, k, pg.Rows());
      var users' := LoadUsers(k);
      var devices' := LoadDevices(k);
      var sessions' := LoadSessions(k);
      var audits' := LoadAudits(k);
      tables := Database(users', devices', sessions', audits');
    }

    /** The last step: `onMiss` tests the pending sets again, the sync loop only the revision. The tables are
        those that reload `k` has read. The indexes are exact afterwards if and only if no two sessions read
        share a hash, as is the case unless another gateway has written. */
    method InstallReload(startRevision: nat, onMiss: bool, tables: Database, freshLog: seq<AuditLog>, ghost k: nat)
      returns (installed: bool)
      requires Valid() && k in world.reloads && world.reloads[k] == ReadTables(startRevision, tables)
      requires AuditTable(freshLog) == tables.audits && DistinctIds(freshLog)
      modifies this
      ensures Consistent()
      ensures installed <==> old(revision) == startRevision
      ensures old(world.foreign) == {} ==> Valid()
      ensures if installed then Steps(old(world), Install(k, onMiss), world)
              else Steps(old(world), AbandonReload(k), world)
      ensures !installed ==> Valid() && State() == old(State())
      ensures installed ==> audits.log == freshLog
      ensures installed ==> State().memory == Loaded(old(State()).memory, ReadTables(startRevision, tables))
      ensures installed ==>
                (Valid() <==> UniqueHashes(ByToken, tables.sessions) && UniqueHashes(BySubscribe, tables.sessions))
    {
      UnmovedMeansClean(world, k);
      var pending := false;
      if onMiss {
        pending := HasPendingChanges();
      }
      installed := revision == startRevision && !pending;
      if installed {
        if world.foreign == {} {
          ReadSessionsAreUnique(world, k, byToken, bySubscribe);
        }
        ReplaceAll(startRevision, onMiss, tables, freshLog, k);
      } else {
        Advance(AbandonReload(k));
      }
    }

    /** Reads the tables again when nothing is pending, with no other request in between; `loads` says whether
        the tables can be read, and `freshLog` is the audit table in the order of the query. */
    method ReloadOnMiss(loads: bool, freshLog: seq<AuditLog>, ghost k: nat) returns (reloaded: bool)
      requires Valid() && k !in world.reloads && AuditTable(freshLog) == pg.audits && DistinctIds(freshLog)
      modifies this
      ensures Consistent() && world.foreign == old(world.foreign) && world.issued == old(world.issued)
      ensures reloaded <==> loads && !HasPending(old(State()).memory)
      ensures !reloaded ==> Valid() && State() == old(State())
      ensures reloaded ==> audits.log == freshLog
      ensures reloaded ==> State().memory == Loaded(old(State()).memory, ReadTables(old(revision), pg.Rows()))
      ensures reloaded ==> (Valid() <==> UniqueHashes(ByToken, pg.sessions) && UniqueHashes(BySubscribe, pg.sessions))
      ensures world.foreign == {} ==> Valid()
    {
      var allowed, startRevision := StartReload(k);
      if !allowed {
        return false;
      }
      if !loads {
        Advance(AbandonReload(k));
        return false;
      }
      ReadAndInstall(startRevision, freshLog, k);
      reloaded := true;
    }

    method ReadAndInstall(startRevision: nat, freshLog: seq<AuditLog>, ghost k: nat)
      requires Valid() && k in world.reloads && world.reloads[k].start == startRevision == revision
      requires AuditTable(freshLog) == pg.audits && DistinctIds(freshLog)
      modifies this
      ensures Consistent() && world.foreign == old(world.foreign) && world.issued == old(world.issued)
      ensures audits.log == freshLog
      ensures State().memory == Loaded(old(State()).memory, ReadTables(startRevision, pg.Rows()))
      ensures Valid() <==> UniqueHashes(ByToken, pg.sessions) && UniqueHashes(BySubscribe, pg.sessions)
      ensures world.foreign == {} ==> Valid()
    {
      var tables := LoadAll(k);
      var _ := InstallReload(startRevision, true, tables, freshLog, k);
    }

    /** Without other gateways, and with nothing pending, the database holds the sessions in memory. */
    lemma AloneReadsSame()
      requires Consistent() && world.foreign == {} && !HasPending(State().memory)
      ensures pg.sessions == sessions.rows
    {
      ReachedInv(world);
      CleanMeansAgree(sessions, pg.sessions, {});
      AgreeEverywhere(sessions.rows, pg.sessions);
    }

    /** Other gateways write the rows with the ids in `ids`. */
    method OthersWrite(db: Database, ghost ids: set<string>)
      requires Valid() && Enabled(world, ForeignWrite(db, ids))
      modifies pg, this`world
      ensures Valid() && State() == old(State()) && pg.Rows() == db
      ensures world == old(world).(db := db, foreign := old(world.foreign) + ids)
    {
      pg.users, pg.devices, pg.sessions, pg.audits := db.users, db.devices, db.sessions, db.audits;
      Advance(ForeignWrite(db, ids));
    }

    method ReplaceAll(startRevision: nat, ghost onMiss: bool, tables: Database, freshLog: seq<AuditLog>, ghost k: nat)
      requires Consistent() && k in world.reloads && world.reloads[k] == ReadTables(startRevision, tables)
      requires AuditTable(freshLog) == tables.audits && DistinctIds(freshLog)
      requires revision == startRevision && !HasPending(State().memory)
      modifies this
      ensures Consistent() && Steps(old(world), Install(k, onMiss), world) && audits.log == freshLog
      ensures State().memory == Loaded(old(State()).memory, ReadTables(startRevision, tables))
      ensures Valid() <==> UniqueHashes(ByToken, tables.sessions) && UniqueHashes(BySubscribe, tables.sessions)
    {
      Advance(Install(k, onMiss));
      ReplaceTables(tables, freshLog);
    }

    method ReplaceTables(tables: Database, freshLog: seq<AuditLog>)
      requires AuditTable(freshLog) == tables.audits && DistinctIds(freshLog)
      requires !HasPending(State().memory)
      modifies this`users, this`devices, this`sessions, this`audits, this`byToken, this`bySubscribe
      ensures audits.log == freshLog && TrailValid(audits)
      ensures users == Clean(tables.users) && devices == Clean(tables.devices) && sessions == Clean(tables.sessions)
      ensures Cache(audits) == Clean(tables.audits)
      ensures Exact(ByToken, byToken, tables.sessions) <==> UniqueHashes(ByToken, tables.sessions)
      ensures Exact(BySubscribe, bySubscribe, tables.sessions) <==> UniqueHashes(BySubscribe, tables.sessions)
    {
      users, devices := users.(rows := tables.users), devices.(rows := tables.devices);
      sessions := sessions.(rows := tables.sessions);
      LoadedTrail(freshLog, tables.audits);
      assert audits.dirty == map[];
      audits := audits.(log := freshLog);
      byToken, bySubscribe := RebuildIndexes(sessions.rows);
    }
  }
}
