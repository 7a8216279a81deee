/** The gateway store as a state machine: local mutations, saves that may fail or lose their answer,
    writes of other gateways, and reloads whose steps interleave with everything else. */
module StoreProtocol {
  import opened Collections
  import opened WriteBack

  datatype Status = Active | Revoked | Expired

  datatype UserData = UserData(
    deviceLimit: Option<int>, deviceLimitOverride: Option<int>, profile: string, email: string, businessId: string)

  datatype DeviceData = DeviceData(
    userId: string, deviceHash: string, status: Status, lastSeenAt: int,
    revokedAt: Option<int>, revokedBy: string, info: string)

  datatype SessionData = SessionData(
    userId: string, deviceId: string, tokenHash: string, subscribeHash: string,
    status: Status, expiresAt: int, lastSeenAt: int, info: string)

  datatype AuditData = AuditData(userId: string, deviceId: string, action: string, actor: string)

  datatype Database = Database(
    users: Table<UserData>, devices: Table<DeviceData>, sessions: Table<SessionData>, audits: Table<AuditData>)

  datatype Memory = Memory(
    users: Cached<UserData>, devices: Cached<DeviceData>, sessions: Cached<SessionData>, audits: Cached<AuditData>,
    revision: nat)

  /** A reload in flight: the revision it started from and the tables it has read so far. */
  datatype Reload = Reload(
    start: nat,
    users: Option<Table<UserData>>, devices: Option<Table<DeviceData>>,
    sessions: Option<Table<SessionData>>, audits: Option<Table<AuditData>>)

  /** History of a world: `foreign` are the ids that other gateways have ever written, `restamped` the users
      that were stored again with another creation time, `issued` the ids ever given out. */
  datatype World = World(
    memory: Memory, db: Database, reloads: map<nat, Reload>,
    foreign: set<string>, restamped: set<string>, issued: set<string>)

  datatype Mutation =
    | PutUser(id: string, user: Row<UserData>)
    | PutDevice(id: string, device: Row<DeviceData>)
    | PutSession(id: string, session: Row<SessionData>)
    | AddAudit(id: string, audit: Row<AuditData>, trimmed: set<string>)
    | DeleteDevice(id: string)
    | DeleteSession(id: string)

  datatype Event =
    | Mutate(mutation: Mutation)
    | Save(committed: bool, reported: bool)
    | ForeignWrite(db: Database, ids: set<string>)
    | BeginReload(key: nat)
    | LoadUsers(key: nat)
    | LoadDevices(key: nat)
    | LoadSessions(key: nat)
    | LoadAudits(key: nat)
    | AbandonReload(key: nat)
    | Install(key: nat, onMiss: bool)

  predicate HasPending(m: Memory) {
    Pending(m.users) || Pending(m.devices) || Pending(m.sessions) || Pending(m.audits)
  }

  /** Trimming the audit log takes the oldest records away without marking anything else. */
  function RemoveAll<T>(c: Cached<T>, ids: set<string>): Cached<T> {
    Cached(c.rows - ids, c.dirty - ids, c.deleted + ids)
  }

  /** Every mutation of the store raises the revision. */
  function Mutated(m: Memory, u: Mutation): Memory {
    match u
    case PutUser(id, row) => m.(users := Put(m.users, id, row), revision := m.revision + 1)
    case PutDevice(id, row) => m.(devices := Put(m.devices, id, row), revision := m.revision + 1)
    case PutSession(id, row) => m.(sessions := Put(m.sessions, id, row), revision := m.revision + 1)
    case AddAudit(id, row, trimmed) =>
      m.(audits := RemoveAll(Put(m.audits, id, row), trimmed), revision := m.revision + 1)
    case DeleteDevice(id) => m.(devices := Remove(m.devices, id), revision := m.revision + 1)
    case DeleteSession(id) => m.(sessions := Remove(m.sessions, id), revision := m.revision + 1)
  }

  function Cleaned(m: Memory): Memory {
    m.(users := Clean(m.users.rows), devices := Clean(m.devices.rows),
       sessions := Clean(m.sessions.rows), audits := Clean(m.audits.rows))
  }

  function Loaded(m: Memory, r: Reload): Memory
    requires Complete(r)
  {
    m.(users := m.users.(rows := r.users.value), devices := m.devices.(rows := r.devices.value),
       sessions := m.sessions.(rows := r.sessions.value), audits := m.audits.(rows := r.audits.value))
  }

  predicate Complete(r: Reload) {
    r.users.Some? && r.devices.Some? && r.sessions.Some? && r.audits.Some?
  }

  ghost function FlushAll(db: Database, m: Memory): Database {
    Database(FlushCached(db.users, m.users), FlushCached(db.devices, m.devices),
             FlushCached(db.sessions, m.sessions), FlushCached(db.audits, m.audits))
  }

  /** What the gateway sees to: devices and sessions keep their creation time, and new ones, like audit
      records, get ids that were never given out. Of users nothing is asked. */
  ghost predicate MutationAllowed(w: World, u: Mutation) {
    match u
    case PutUser(_, _) => true
    case PutDevice(id, row) => PutAllowed(w.memory.devices, w.issued, id, row)
    case PutSession(id, row) => PutAllowed(w.memory.sessions, w.issued, id, row)
    case AddAudit(id, row, trimmed) => id !in w.memory.audits.rows && id !in w.issued && id !in trimmed
    case DeleteDevice(_) => true
    case DeleteSession(_) => true
  }

  function IssuedBy(u: Mutation): set<string> {
    if u.PutDevice? || u.PutSession? || u.AddAudit? then {u.id} else {}
  }

  /** The user, if it is stored again with another creation time. */
  function RestampedBy(m: Memory, u: Mutation): set<string> {
    if u.PutUser? && u.id in m.users.rows && u.user.createdAt != m.users.rows[u.id].createdAt then {u.id} else {}
  }

  ghost predicate Enabled(w: World, e: Event) {
    match e
    case Mutate(u) => MutationAllowed(w, u)
    case Save(committed, reported) => reported ==> committed
    case ForeignWrite(db, ids) =>
      AgreeOutside(w.db.users, db.users, ids) && AgreeOutside(w.db.devices, db.devices, ids) &&
      AgreeOutside(w.db.sessions, db.sessions, ids) && AgreeOutside(w.db.audits, db.audits, ids)
    case BeginReload(k) => k !in w.reloads && !HasPending(w.memory)
    case LoadUsers(k) => k in w.reloads
    case LoadDevices(k) => k in w.reloads
    case LoadSessions(k) => k in w.reloads
    case LoadAudits(k) => k in w.reloads
    case AbandonReload(k) => k in w.reloads
    case Install(k, onMiss) =>
      k in w.reloads && Complete(w.reloads[k]) && w.memory.revision == w.reloads[k].start &&
      (onMiss ==> !HasPending(w.memory))
  }

  ghost function Next(w: World, e: Event): World
    requires Enabled(w, e)
  {
    match e
    case Mutate(u) =>
      w.(memory := Mutated(w.memory, u), issued := w.issued + IssuedBy(u),
         restamped := w.restamped + RestampedBy(w.memory, u))
    case Save(committed, reported) =>
      w.(db := if committed then FlushAll(w.db, w.memory) else w.db,
         memory := if reported then Cleaned(w.memory) else w.memory)
    case ForeignWrite(db, ids) => w.(db := db, foreign := w.foreign + ids)
    case BeginReload(k) => w.(reloads := w.reloads[k := Reload(w.memory.revision, None, None, None, None)])
    case LoadUsers(k) => w.(reloads := w.reloads[k := w.reloads[k].(users := Some(w.db.users))])
    case LoadDevices(k) => w.(reloads := w.reloads[k := w.reloads[k].(devices := Some(w.db.devices))])
    case LoadSessions(k) => w.(reloads := w.reloads[k := w.reloads[k].(sessions := Some(w.db.sessions))])
    case LoadAudits(k) => w.(reloads := w.reloads[k := w.reloads[k].(audits := Some(w.db.audits))])
    case AbandonReload(k) => w.(reloads := w.reloads - {k})
    case Install(k, _) => w.(memory := Loaded(w.memory, w.reloads[k]), reloads := w.reloads - {k})
  }

  // ---------- the invariant ----------

  /** Outside `foreign` memory and marks are in step with the tables, but for the creation times of the users
      in `astray`. */
  ghost predicate InStep(m: Memory, db: Database, foreign: set<string>, astray: set<string>) {
    UsersInStep(m.users, db.users, foreign, astray) && Synced(m.devices, db.devices, foreign) &&
    Synced(m.sessions, db.sessions, foreign) && Synced(m.audits, db.audits, foreign)
  }

  ghost predicate UsersInStep(c: Cached<UserData>, table: Table<UserData>, foreign: set<string>, astray: set<string>) {
    DataSynced(c, table, foreign) && Synced(c, table, astray) && c.deleted == {}
  }

  ghost predicate AllRecorded(m: Memory, db: Database, foreign: set<string>, issued: set<string>) {
    Recorded(m.devices, db.devices, foreign, issued) && Recorded(m.sessions, db.sessions, foreign, issued) &&
    Recorded(m.audits, db.audits, foreign, issued)
  }

  ghost predicate LoadedAgrees<T>(loaded: Option<Table<T>>, rows: Table<T>, foreign: set<string>) {
    loaded.Some? ==> AgreeOutside(loaded.value, rows, foreign)
  }

  ghost predicate LoadedDataAgrees<T>(loaded: Option<Table<T>>, rows: Table<T>, foreign: set<string>) {
    loaded.Some? ==> DataAgrees(loaded.value, rows, foreign)
  }

  /** While the revision has not moved, nothing is pending and what was loaded is what memory holds. */
  ghost predicate ReloadSound(m: Memory, foreign: set<string>, astray: set<string>, r: Reload) {
    r.start <= m.revision &&
    (r.start == m.revision ==>
       !HasPending(m) && LoadedDataAgrees(r.users, m.users.rows, foreign) &&
       LoadedAgrees(r.users, m.users.rows, astray) && LoadedAgrees(r.devices, m.devices.rows, foreign) &&
       LoadedAgrees(r.sessions, m.sessions.rows, foreign) && LoadedAgrees(r.audits, m.audits.rows, foreign))
  }

  ghost predicate ReloadsSound(m: Memory, foreign: set<string>, astray: set<string>, reloads: map<nat, Reload>) {
    forall k :: k in reloads ==> ReloadSound(m, foreign, astray, reloads[k])
  }

  function Astray(w: World): set<string> {
    w.foreign + w.restamped
  }

  ghost predicate Inv(w: World) {
    InStep(w.memory, w.db, w.foreign, Astray(w)) && AllRecorded(w.memory, w.db, w.foreign, w.issued) &&
    ReloadsSound(w.memory, w.foreign, Astray(w), w.reloads)
  }

  /** A gateway that has just read its tables. */
  ghost predicate Started(w: World) {
    w.memory.users == Clean(w.db.users) && w.memory.devices == Clean(w.db.devices) &&
    w.memory.sessions == Clean(w.db.sessions) && w.memory.audits == Clean(w.db.audits) &&
    w.reloads == map[] && w.foreign == {} && w.restamped == {} &&
    w.db.devices.Keys + w.db.sessions.Keys + w.db.audits.Keys <= w.issued
  }

  function StartedFrom(db: Database): World {
    World(Memory(Clean(db.users), Clean(db.devices), Clean(db.sessions), Clean(db.audits), 0), db, map[], {}, {},
          db.devices.Keys + db.sessions.Keys + db.audits.Keys)
  }

  lemma RemoveAllKeepsSynced<T>(c: Cached<T>, table: Table<T>, foreign: set<string>, issued: set<string>,
                                ids: set<string>)
    requires Synced(c, table, foreign) && Recorded(c, table, foreign, issued)
    ensures Synced(RemoveAll(c, ids), table, foreign) && Recorded(RemoveAll(c, ids), table, foreign, issued)
  {
    var c' := RemoveAll(c, ids);
    forall k | k !in foreign
      ensures RowSynced(c', table, k)
    {
      assert RowSynced(c, table, k);
    }
  }

  lemma IssuedGrowsRecorded<T>(c: Cached<T>, table: Table<T>, foreign: set<string>, issued: set<string>,
                               issued': set<string>)
    requires Recorded(c, table, foreign, issued) && issued <= issued'
    ensures Recorded(c, table, foreign, issued')
  {
  }

  lemma PutUserKeepsSynced(w: World, id: string, row: Row<UserData>)
    requires Inv(w)
    ensures var w' := Next(w, Mutate(PutUser(id, row)));
            UsersInStep(w'.memory.users, w'.db.users, w'.foreign, Astray(w'))
  {
    var w' := Next(w, Mutate(PutUser(id, row)));
    ForeignKeepsSynced(w.memory.users, w.db.users, w.db.users, Astray(w), Astray(w'));
    PutWhereNoneIsDeleted(w.memory.users, w.db.users, Astray(w'), id, row);
    PutKeepsDataSynced(w.memory.users, w.db.users, w.foreign, id, row);
  }

  lemma MutationKeepsInStep(w: World, u: Mutation)
    requires Inv(w) && MutationAllowed(w, u)
    ensures var w' := Next(w, Mutate(u));
            InStep(w'.memory, w'.db, w'.foreign, Astray(w')) && AllRecorded(w'.memory, w'.db, w'.foreign, w'.issued)
  {
    var m, w' := w.memory, Next(w, Mutate(u));
    IssuedGrowsRecorded(m.devices, w.db.devices, w.foreign, w.issued, w'.issued);
    IssuedGrowsRecorded(m.sessions, w.db.sessions, w.foreign, w.issued, w'.issued);
    IssuedGrowsRecorded(m.audits, w.db.audits, w.foreign, w.issued, w'.issued);
    match u {
      case PutUser(id, row) => PutUserKeepsSynced(w, id, row);
      case PutDevice(id, row) => PutKeepsSynced(m.devices, w.db.devices, w.foreign, w.issued, id, row);
      case PutSession(id, row) => PutKeepsSynced(m.sessions, w.db.sessions, w.foreign, w.issued, id, row);
      case AddAudit(id, row, trimmed) =>
        PutKeepsSynced(m.audits, w.db.audits, w.foreign, w.issued, id, row);
        RemoveAllKeepsSynced(Put(m.audits, id, row), w.db.audits, w.foreign, w'.issued, trimmed);
      case DeleteDevice(id) =>
        RemoveKeepsSynced(m.devices, w.db.devices, w.foreign, id);
        RemoveKeepsRecorded(m.devices, w.db.devices, w.foreign, w.issued, id);
      case DeleteSession(id) =>
        RemoveKeepsSynced(m.sessions, w.db.sessions, w.foreign, id);
        RemoveKeepsRecorded(m.sessions, w.db.sessions, w.foreign, w.issued, id);
    }
  }

  lemma MutationSparesReloads(w: World, u: Mutation, astray: set<string>)
    requires ReloadsSound(w.memory, w.foreign, Astray(w), w.reloads)
    ensures ReloadsSound(Mutated(w.memory, u), w.foreign, astray, w.reloads)
  {
    var m' := Mutated(w.memory, u);
    assert m'.revision == w.memory.revision + 1;
    forall k | k in w.reloads
      ensures ReloadSound(m', w.foreign, astray, w.reloads[k])
    {
      assert ReloadSound(w.memory, w.foreign, Astray(w), w.reloads[k]);
    }
  }

  lemma SaveKeepsInStep(m: Memory, db: Database, foreign: set<string>, astray: set<string>)
    requires InStep(m, db, foreign, astray)
    ensures InStep(m, FlushAll(db, m), foreign, astray) && InStep(Cleaned(m), FlushAll(db, m), foreign, astray)
  {
    FlushKeepsSynced(m.users, db.users, astray);
    FlushKeepsDataSynced(m.users, db.users, foreign);
    FlushKeepsSynced(m.devices, db.devices, foreign);
    FlushKeepsSynced(m.sessions, db.sessions, foreign);
    FlushKeepsSynced(m.audits, db.audits, foreign);
  }

  lemma SaveKeepsRecorded(m: Memory, db: Database, foreign: set<string>, issued: set<string>)
    requires AllRecorded(m, db, foreign, issued)
    ensures AllRecorded(m, FlushAll(db, m), foreign, issued) &&
            AllRecorded(Cleaned(m), FlushAll(db, m), foreign, issued)
  {
    FlushKeepsRecorded(m.devices, db.devices, foreign, issued);
    FlushKeepsRecorded(m.sessions, db.sessions, foreign, issued);
    FlushKeepsRecorded(m.audits, db.audits, foreign, issued);
  }

  lemma CleaningSparesReloads(m: Memory, foreign: set<string>, astray: set<string>, reloads: map<nat, Reload>)
    requires ReloadsSound(m, foreign, astray, reloads)
    ensures ReloadsSound(Cleaned(m), foreign, astray, reloads)
  {
    forall k | k in reloads
      ensures ReloadSound(Cleaned(m), foreign, astray, reloads[k])
    {
      assert ReloadSound(m, foreign, astray, reloads[k]);
    }
  }

  lemma ForeignKeepsInStep(w: World, db: Database, ids: set<string>)
    requires Inv(w) && Enabled(w, ForeignWrite(db, ids))
    ensures InStep(w.memory, db, w.foreign + ids, Astray(w) + ids)
    ensures AllRecorded(w.memory, db, w.foreign + ids, w.issued)
  {
    var foreign := w.foreign + ids;
    ForeignKeepsSynced(w.memory.users, w.db.users, db.users, Astray(w), Astray(w) + ids);
    ForeignKeepsSynced(UndatedCache(w.memory.users), Undated(w.db.users), Undated(db.users), w.foreign, foreign);
    ForeignKeepsSynced(w.memory.devices, w.db.devices, db.devices, w.foreign, foreign);
    ForeignKeepsSynced(w.memory.sessions, w.db.sessions, db.sessions, w.foreign, foreign);
    ForeignKeepsSynced(w.memory.audits, w.db.audits, db.audits, w.foreign, foreign);
    ForeignKeepsRecorded(w.memory.devices, w.db.devices, db.devices, w.foreign, foreign, w.issued);
    ForeignKeepsRecorded(w.memory.sessions, w.db.sessions, db.sessions, w.foreign, foreign, w.issued);
    ForeignKeepsRecorded(w.memory.audits, w.db.audits, db.audits, w.foreign, foreign, w.issued);
  }

  lemma ForeignSparesReloads(w: World, ids: set<string>)
    requires ReloadsSound(w.memory, w.foreign, Astray(w), w.reloads)
    ensures ReloadsSound(w.memory, w.foreign + ids, Astray(w) + ids, w.reloads)
  {
    forall k | k in w.reloads
      ensures ReloadSound(w.memory, w.foreign + ids, Astray(w) + ids, w.reloads[k])
    {
      assert ReloadSound(w.memory, w.foreign, Astray(w), w.reloads[k]);
    }
  }

  /** With nothing pending memory is what the tables hold, so a table read now agrees with memory. */
  lemma ReadAgrees(w: World)
    requires InStep(w.memory, w.db, w.foreign, Astray(w)) && !HasPending(w.memory)
    ensures AgreeOutside(w.db.users, w.memory.users.rows, Astray(w))
    ensures DataAgrees(w.db.users, w.memory.users.rows, w.foreign)
    ensures AgreeOutside(w.db.devices, w.memory.devices.rows, w.foreign)
    ensures AgreeOutside(w.db.sessions, w.memory.sessions.rows, w.foreign)
    ensures AgreeOutside(w.db.audits, w.memory.audits.rows, w.foreign)
  {
    CleanMeansAgree(w.memory.users, w.db.users, Astray(w));
    CleanMeansAgree(UndatedCache(w.memory.users), Undated(w.db.users), w.foreign);
    CleanMeansAgree(w.memory.devices, w.db.devices, w.foreign);
    CleanMeansAgree(w.memory.sessions, w.db.sessions, w.foreign);
    CleanMeansAgree(w.memory.audits, w.db.audits, w.foreign);
  }

  lemma LoadKeepsInv(w: World, e: Event)
    requires Inv(w) && Enabled(w, e)
    requires e.BeginReload? || e.LoadUsers? || e.LoadDevices? || e.LoadSessions? || e.LoadAudits? || e.AbandonReload?
    ensures Inv(Next(w, e))
  {
    var w' := Next(w, e);
    forall k | k in w'.reloads
      ensures ReloadSound(w'.memory, w'.foreign, Astray(w'), w'.reloads[k])
    {
      if k in w.reloads {
        assert ReloadSound(w.memory, w.foreign, Astray(w), w.reloads[k]);
      }
      if !HasPending(w.memory) {
        ReadAgrees(w);
      }
    }
  }

  lemma AgreeTransitive<T>(a: Table<T>, b: Table<T>, c: Table<T>, foreign: set<string>)
    requires AgreeOutside(a, b, foreign) && AgreeOutside(b, c, foreign)
    ensures AgreeOutside(a, c, foreign) && AgreeOutside(c, a, foreign)
  {
  }

  lemma LoadedKeepsSynced<T>(c: Cached<T>, table: Table<T>, foreign: set<string>, loaded: Table<T>)
    requires Synced(c, table, foreign) && !Pending(c) && AgreeOutside(loaded, c.rows, foreign)
    ensures Synced(c.(rows := loaded), table, foreign)
  {
    CleanMeansAgree(c, table, foreign);
    AgreeTransitive(loaded, c.rows, table, foreign);
  }

  lemma LoadedKeepsRecorded<T>(c: Cached<T>, table: Table<T>, foreign: set<string>, issued: set<string>,
                               loaded: Table<T>)
    requires Recorded(c, table, foreign, issued) && AgreeOutside(loaded, c.rows, foreign)
    ensures Recorded(c.(rows := loaded), table, foreign, issued)
  {
  }

  lemma InstallKeepsInStep(w: World, k: nat)
    requires Inv(w) && k in w.reloads && Complete(w.reloads[k]) && w.memory.revision == w.reloads[k].start
    ensures InStep(Loaded(w.memory, w.reloads[k]), w.db, w.foreign, Astray(w))
    ensures AllRecorded(Loaded(w.memory, w.reloads[k]), w.db, w.foreign, w.issued)
  {
    var m, r := w.memory, w.reloads[k];
    assert ReloadSound(m, w.foreign, Astray(w), r);
    LoadedKeepsSynced(m.users, w.db.users, Astray(w), r.users.value);
    LoadedKeepsSynced(UndatedCache(m.users), Undated(w.db.users), w.foreign, Undated(r.users.value));
    LoadedKeepsSynced(m.devices, w.db.devices, w.foreign, r.devices.value);
    LoadedKeepsSynced(m.sessions, w.db.sessions, w.foreign, r.sessions.value);
    LoadedKeepsSynced(m.audits, w.db.audits, w.foreign, r.audits.value);
    LoadedKeepsRecorded(m.devices, w.db.devices, w.foreign, w.issued, r.devices.value);
    LoadedKeepsRecorded(m.sessions, w.db.sessions, w.foreign, w.issued, r.sessions.value);
    LoadedKeepsRecorded(m.audits, w.db.audits, w.foreign, w.issued, r.audits.value);
  }

  lemma SwapAgrees<T>(loaded: Option<Table<T>>, rows: Table<T>, rows': Table<T>, foreign: set<string>)
    requires LoadedAgrees(loaded, rows, foreign) && AgreeOutside(rows', rows, foreign)
    ensures LoadedAgrees(loaded, rows', foreign)
  {
  }

  lemma SwapDataAgrees<T>(loaded: Option<Table<T>>, rows: Table<T>, rows': Table<T>, foreign: set<string>)
    requires LoadedDataAgrees(loaded, rows, foreign) && DataAgrees(rows', rows, foreign)
    ensures LoadedDataAgrees(loaded, rows', foreign)
  {
  }

  lemma InstallSparesReload(w: World, k: nat, other: nat)
    requires Inv(w) && k in w.reloads && Complete(w.reloads[k]) && w.memory.revision == w.reloads[k].start
    requires other in w.reloads
    ensures ReloadSound(Loaded(w.memory, w.reloads[k]), w.foreign, Astray(w), w.reloads[other])
  {
    var r, o := w.reloads[k], w.reloads[other];
    assert ReloadSound(w.memory, w.foreign, Astray(w), r) && ReloadSound(w.memory, w.foreign, Astray(w), o);
    if o.start == w.memory.revision {
      SwapAgrees(o.users, w.memory.users.rows, r.users.value, Astray(w));
      SwapDataAgrees(o.users, w.memory.users.rows, r.users.value, w.foreign);
      SwapAgrees(o.devices, w.memory.devices.rows, r.devices.value, w.foreign);
      SwapAgrees(o.sessions, w.memory.sessions.rows, r.sessions.value, w.foreign);
      SwapAgrees(o.audits, w.memory.audits.rows, r.audits.value, w.foreign);
    }
  }

  lemma InstallKeepsInv(w: World, k: nat)
    requires Inv(w) && k in w.reloads && Complete(w.reloads[k]) && w.memory.revision == w.reloads[k].start
    ensures Inv(w.(memory := Loaded(w.memory, w.reloads[k]), reloads := w.reloads - {k}))
  {
    InstallKeepsInStep(w, k);
    forall other | other in w.reloads - {k}
      ensures ReloadSound(Loaded(w.memory, w.reloads[k]), w.foreign, Astray(w), w.reloads[other])
    {
      InstallSparesReload(w, k, other);
    }
  }

  lemma StepKeepsInv(w: World, e: Event)
    requires Inv(w) && Enabled(w, e)
    ensures Inv(Next(w, e)) && w.issued <= Next(w, e).issued
  {
    match e {
      case Mutate(u) =>
        MutationKeepsInStep(w, u);
        MutationSparesReloads(w, u, Astray(Next(w, e)));
      case Save(_, _) =>
        SaveKeepsInStep(w.memory, w.db, w.foreign, Astray(w));
        SaveKeepsRecorded(w.memory, w.db, w.foreign, w.issued);
        CleaningSparesReloads(w.memory, w.foreign, Astray(w), w.reloads);
      case ForeignWrite(db, ids) =>
        ForeignKeepsInStep(w, db, ids);
        ForeignSparesReloads(w, ids);
        assert Astray(Next(w, e)) == Astray(w) + ids;
      case Install(k, _) => InstallKeepsInv(w, k);
      case _ => LoadKeepsInv(w, e);
    }
  }

  // ---------- whole runs ----------

  ghost predicate IsRun(w: World, events: seq<Event>)
    decreases |events|
  {
    events == [] || (Enabled(w, events[0]) && IsRun(Next(w, events[0]), events[1..]))
  }

  ghost function After(w: World, events: seq<Event>): World
    requires IsRun(w, events)
    decreases |events|
  {
    if events == [] then w else After(Next(w, events[0]), events[1..])
  }

  ghost predicate IsRunTo(start: World, events: seq<Event>, w: World) {
    Started(start) && IsRun(start, events) && After(start, events) == w
  }

  /** Some run of the protocol leads from a start to `w`. */
  ghost predicate Reached(w: World) {
    exists start, events :: IsRunTo(start, events, w)
  }

  lemma StartedInv(w: World)
    requires Started(w)
    ensures Inv(w)
  {
  }

  lemma {:induction false} RunKeepsInv(w: World, events: seq<Event>)
    requires Inv(w) && IsRun(w, events)
    ensures Inv(After(w, events)) && w.memory.revision <= After(w, events).memory.revision
    decreases |events|
  {
    if events != [] {
      StepKeepsInv(w, events[0]);
      RunKeepsInv(Next(w, events[0]), events[1..]);
    }
  }

  lemma ReachedInv(w: World)
    requires Reached(w)
    ensures Inv(w)
  {
    var start, events :| IsRunTo(start, events, w);
    StartedInv(start);
    RunKeepsInv(start, events);
  }

  lemma {:induction false} RunAppends(w: World, events: seq<Event>, e: Event)
    requires IsRun(w, events) && Enabled(After(w, events), e)
    ensures IsRun(w, events + [e]) && After(w, events + [e]) == Next(After(w, events), e)
    decreases |events|
  {
    if events == [] {
      assert events + [e] == [e] && [e][1..] == [];
    } else {
      RunAppends(Next(w, events[0]), events[1..], e);
      assert (events + [e])[1..] == events[1..] + [e];
    }
  }

  lemma StartIsReached(w: World)
    requires Started(w)
    ensures Reached(w)
  {
    assert IsRunTo(w, [], w);
  }

  lemma StepIsReached(w: World, e: Event)
    requires Reached(w) && Enabled(w, e)
    ensures Reached(Next(w, e))
  {
    var start, events :| IsRunTo(start, events, w);
    RunAppends(start, events, e);
    assert IsRunTo(start, events + [e], Next(w, e));
  }

  function Records(m: Memory): Database {
    Database(m.users.rows, m.devices.rows, m.sessions.rows, m.audits.rows)
  }

  /** The same records, but for the creation times of users. */
  ghost predicate SameButUserDates(a: Database, b: Database) {
    Undated(a.users) == Undated(b.users) && a.devices == b.devices && a.sessions == b.sessions && a.audits == b.audits
  }

  /** The same records but for those that other gateways have written, and for the creation times of the
      users in `astray`. */
  ghost predicate SameRecords(a: Database, b: Database, foreign: set<string>, astray: set<string>) {
    DataAgrees(a.users, b.users, foreign) && AgreeOutside(a.users, b.users, astray) &&
    AgreeOutside(a.devices, b.devices, foreign) && AgreeOutside(a.sessions, b.sessions, foreign) &&
    AgreeOutside(a.audits, b.audits, foreign)
  }

  lemma SameRecordsAlone(a: Database, b: Database, foreign: set<string>, astray: set<string>)
    requires SameRecords(a, b, foreign, astray)
    ensures foreign == {} ==> SameButUserDates(a, b)
    ensures foreign == {} && astray == {} ==> a == b
  {
    if foreign == {} {
      AgreeEverywhere(Undated(a.users), Undated(b.users));
      AgreeEverywhere(a.devices, b.devices);
      AgreeEverywhere(a.sessions, b.sessions);
      AgreeEverywhere(a.audits, b.audits);
      if astray == {} {
        AgreeEverywhere(a.users, b.users);
      }
    }
  }

  lemma AgreeEverywhere<T>(a: Table<T>, b: Table<T>)
    requires AgreeOutside(a, b, {})
    ensures a == b
  {
  }

  lemma InvMeansFlushYieldsMemory(w: World)
    requires Inv(w)
    ensures SameRecords(FlushAll(w.db, w.memory), Records(w.memory), w.foreign, Astray(w))
  {
    FlushAgrees(w.memory.users, w.db.users, Astray(w));
    FlushDataAgrees(w.memory.users, w.db.users, w.foreign);
    FlushAgrees(w.memory.devices, w.db.devices, w.foreign);
    FlushAgrees(w.memory.sessions, w.db.sessions, w.foreign);
    FlushAgrees(w.memory.audits, w.db.audits, w.foreign);
  }

  /** In every state that a gateway reaches, failed saves included, writing what is pending would make the
      tables the records in memory, but for what others have written and for the creation times of users
      stored again with another one. */
  lemma WriteBackRefinement(w: World)
    requires Reached(w)
    ensures var db, records := FlushAll(w.db, w.memory), Records(w.memory);
            SameRecords(db, records, w.foreign, Astray(w)) &&
            (w.foreign == {} ==> SameButUserDates(db, records)) && (Astray(w) == {} ==> db == records)
  {
    ReachedInv(w);
    InvMeansFlushYieldsMemory(w);
    SameRecordsAlone(FlushAll(w.db, w.memory), Records(w.memory), w.foreign, Astray(w));
  }

  /** The creation time of a user is written back exactly if its row, where there is one, has that time. */
  lemma UserIsWrittenBackExactly(w: World, id: string)
    requires Reached(w) && id !in w.foreign && id in w.memory.users.rows
    ensures var users := FlushAll(w.db, w.memory).users;
            id in users && users[id].data == w.memory.users.rows[id].data &&
            (users[id] == w.memory.users.rows[id] <==>
             (id in w.db.users ==> w.db.users[id].createdAt == w.memory.users.rows[id].createdAt))
  {
    ReachedInv(w);
    RowIsWrittenBackExactly(w.memory.users, w.db.users, w.foreign, id);
  }

  /** A save that reports success leaves nothing pending and the tables equal to memory, but for the creation
      times of users stored again with another one. */
  lemma SavedEqualsMemory(w: World)
    requires Reached(w) && w.foreign == {}
    ensures var w' := Next(w, Save(true, true));
            !HasPending(w'.memory) && SameButUserDates(w'.db, Records(w'.memory)) &&
            (w.restamped == {} ==> w'.db == Records(w'.memory))
  {
    WriteBackRefinement(w);
  }

  /** Where a user is stored again with another creation time the tables stay behind, even after a save
      that reports success. */
  lemma RestampedUserStaysBehind(data: UserData)
    ensures var db := Database(map["u" := Row(0, data)], map[], map[], map[]);
            var start := StartedFrom(db);
            var events := [Mutate(PutUser("u", Row(1, data))), Save(true, true)];
            Started(start) && IsRun(start, events) &&
            !HasPending(After(start, events).memory) && After(start, events).db != Records(After(start, events).memory)
  {
    var db := Database(map["u" := Row(0, data)], map[], map[], map[]);
    var start := StartedFrom(db);
    var put, save := Mutate(PutUser("u", Row(1, data))), Save(true, true);
    var w1 := Next(start, put);
    var w2 := Next(w1, save);
    assert [put, save][1..] == [save] && [save][1..] == [];
    assert IsRun(w2, []) && IsRun(w1, [save]) && IsRun(start, [put, save]);
    assert After(w2, []) == w2 && After(w1, [save]) == w2 && After(start, [put, save]) == w2;
    assert w2.memory.users.rows["u"].createdAt == 1;
    assert w2.db.users["u"].createdAt == 0;
  }

  /** What a reload can do when it installs: nothing is pending, so the plain revision test of the sync loop
      admits no more than the test made on a session miss, and every record stays as it is that no other
      gateway has written, but for the creation time of a user that was stored again with another one. */
  lemma InstallIsSafe(w: World, k: nat)
    requires Inv(w) && Enabled(w, Install(k, false))
    ensures !HasPending(w.memory) && Enabled(w, Install(k, true))
    ensures SameRecords(Records(Next(w, Install(k, false)).memory), Records(w.memory), w.foreign, Astray(w))
  {
    assert ReloadSound(w.memory, w.foreign, Astray(w), w.reloads[k]);
  }

  /** Without other gateways a reload changes nothing in memory but such creation times. */
  lemma InstallAloneIsIdentity(w: World, k: nat)
    requires Inv(w) && Enabled(w, Install(k, false)) && w.foreign == {}
    ensures var m := Next(w, Install(k, false)).memory;
            SameButUserDates(Records(m), Records(w.memory)) && (w.restamped == {} ==> m == w.memory)
  {
    InstallIsSafe(w, k);
    SameRecordsAlone(Records(Next(w, Install(k, false)).memory), Records(w.memory), w.foreign, Astray(w));
  }

  ghost predicate SameRow<T>(a: Table<T>, b: Table<T>, id: string) {
    (id in a <==> id in b) && (id in a ==> a[id] == b[id])
  }

  ghost predicate SameRecord(m: Memory, m': Memory, id: string) {
    SameRow(Undated(m.users.rows), Undated(m'.users.rows), id) && SameRow(m.devices.rows, m'.devices.rows, id) &&
    SameRow(m.sessions.rows, m'.sessions.rows, id) && SameRow(m.audits.rows, m'.audits.rows, id)
  }

  ghost predicate Mutates(e: Event, id: string) {
    e.Mutate? && (e.mutation.id == id || (e.mutation.AddAudit? && id in e.mutation.trimmed))
  }

  lemma StepKeepsRecord(w: World, e: Event, id: string)
    requires Inv(w) && Enabled(w, e) && !Mutates(e, id) && id !in w.foreign
    ensures SameRecord(w.memory, Next(w, e).memory, id)
    ensures id !in w.restamped ==> SameRow(w.memory.users.rows, Next(w, e).memory.users.rows, id)
  {
    if e.Install? {
      assert Enabled(w, Install(e.key, false));
      assert Next(w, e) == Next(w, Install(e.key, false));
      InstallIsSafe(w, e.key);
    }
  }

  lemma {:induction false} AstrayGrows(w: World, events: seq<Event>)
    requires IsRun(w, events)
    ensures w.foreign <= After(w, events).foreign && w.restamped <= After(w, events).restamped
    decreases |events|
  {
    if events != [] {
      AstrayGrows(Next(w, events[0]), events[1..]);
    }
  }

  /** No reload ever drops a local change: through any interleaving, a record stays as the last local mutation
      left it as long as no other gateway writes it; of a user that was stored again with another creation
      time, all but that time. */
  lemma {:induction false} LocalRecordStays(w: World, events: seq<Event>, id: string)
    requires Inv(w) && IsRun(w, events) && id !in After(w, events).foreign
    requires forall e :: e in events ==> !Mutates(e, id)
    ensures SameRecord(w.memory, After(w, events).memory, id)
    ensures id !in w.restamped ==> SameRow(w.memory.users.rows, After(w, events).memory.users.rows, id)
    decreases |events|
  {
    if events != [] {
      var w' := Next(w, events[0]);
      AstrayGrows(w, events);
      AstrayGrows(w', events[1..]);
      assert events[0] in events;
      StepKeepsRecord(w, events[0], id);
      StepKeepsInv(w, events[0]);
      LocalRecordStays(w', events[1..], id);
    }
  }
}
