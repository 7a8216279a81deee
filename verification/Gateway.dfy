/** The requests of the gateway on its store: admission with kick-oldest, revocation, authorization and
    clean-up. Each method is tied to the change of the tables that it makes. */
module Gateway {
  import opened Collections
  import opened WriteBack
  import opened StoreProtocol
  import opened SessionIndex
  import opened AuditTrail
  import opened GatewayStore
  import opened SessionSafety
  import opened Devices
  import opened UserIdentity
  import opened Admissions
  import opened Requests
  import opened LastSeen

  /** Random ids and tokens: no value is ever given out twice. */
  class IdSource {
    var issued: set<string>

    method Next(prefix: string) returns (id: string)
      modifies this
      ensures id !in old(issued) && issued == old(issued) + {id} && prefix <= id
    {
      id := prefix;
      ghost var tried := {};
      while id in issued
        invariant issued == old(issued) && tried <= issued && prefix <= id
        invariant forall s :: s in tried ==> |s| < |id|
        decreases |issued| - |tried|
      {
        SubsetSize(tried + {id}, issued);
        tried := tried + {id};
        id := id + "0";
      }
      issued := issued + {id};
    }
  }

  class Server {
    const store: Store
    const ids: IdSource
    const policy: Policy
    const defaultLimit: int
    const sessionTtl: int
    ghost var issuedSessions: set<string>
    /** The ids that other gateways have written. */
    ghost var foreign: set<string>

    constructor (store: Store, ids: IdSource, policy: Policy, defaultLimit: int, sessionTtl: int)
      requires store.Valid() && store.world.issued <= ids.issued
      requires store.sessions.rows.Keys <= ids.issued && store.devices.rows.Keys <= ids.issued
      requires AuditTable(store.audits.log).Keys <= ids.issued
      requires store.byToken.Keys <= ids.issued && store.bySubscribe.Keys <= ids.issued
      ensures Valid() && this.store == store && this.ids == ids && foreign == store.world.foreign
      ensures T() == Tables(store.users.rows, store.devices.rows, store.sessions.rows, store.sessions.rows.Keys)
    {
      this.store, this.ids := store, ids;
      this.policy, this.defaultLimit, this.sessionTtl := policy, defaultLimit, sessionTtl;
      issuedSessions, foreign := store.sessions.rows.Keys, store.world.foreign;
    }

    ghost function T(): Tables
      reads this, store
    {
      Tables(store.users.rows, store.devices.rows, store.sessions.rows, issuedSessions)
    }

    ghost predicate Valid()
      reads this, store, store.pg, ids
    {
      store.Valid() && store.world.foreign == foreign && store.world.issued <= ids.issued &&
      store.sessions.rows.Keys <= issuedSessions <= ids.issued && store.devices.rows.Keys <= ids.issued &&
      AuditTable(store.audits.log).Keys <= ids.issued &&
      store.byToken.Keys <= ids.issued && store.bySubscribe.Keys <= ids.issued
    }

    /** The record at the end of the audit list. */
    ghost predicate Audited(data: AuditData, now: int)
      reads store
    {
      store.audits.log != [] && store.audits.log[|store.audits.log| - 1].row == Row(now, data)
    }

    method AddAudit(data: AuditData, now: int)
      requires Valid()
      modifies store, ids
      ensures Valid() && T() == old(T()) && old(ids.issued) <= ids.issued && Audited(data, now)
    {
      var id := ids.Next("aud_");
      KeptIds(store.audits.log, AuditLog(id, Row(now, data)));
      store.AddAudit(AuditLog(id, Row(now, data)));
    }

    method RevokeDevice(id: string, actor: string, now: int)
      requires Valid() && id in store.devices.rows
      modifies store
      ensures Valid()
      ensures T().devices == old(T()).devices[id := RevokedDevice(old(T()).devices[id], actor, now)]
      ensures T() == old(T()).(devices := T().devices)
    {
      var device := store.devices.rows[id];
      store.PutDevice(id, device.(data := device.data.(status := Revoked, revokedAt := Some(now), revokedBy := actor)));
    }

    method RevokeSessionOf(sid: string, id: string, now: int, ghost before: Table<SessionData>, ghost done: set<string>)
      requires Valid() && sid in before && sid !in done
      requires store.sessions.rows == RevokedAmong(before, id, now, done)
      modifies store
      ensures Valid()
      ensures T() == old(T()).(sessions := RevokedAmong(before, id, now, done + {sid}))
    {
      RevokedAmongStep(before, id, now, done, sid);
      var session := store.sessions.rows[sid];
      if session.data.deviceId == id && session.data.status == Active {
        store.UpdateSession(sid, session.(data := session.data.(status := Revoked, expiresAt := now)));
      }
    }

    /** Every active session of the device ends; the sessions are visited in any order. */
    method RevokeDeviceSessions(id: string, now: int)
      requires Valid()
      modifies store
      ensures Valid()
      ensures T() == old(T()).(sessions := RevokeSessions(old(store.sessions.rows), {id}, now))
    {
      ghost var before, t := store.sessions.rows, T();
      RevokedAmongEnds(before, id, now);
      var todo := store.sessions.rows.Keys;
      ghost var done := {};
      while todo != {}
        invariant Valid() && Split(before.Keys, done, todo)
        invariant T() == t.(sessions := RevokedAmong(before, id, now, done))
        decreases |todo|
      {
        var sid :| sid in todo;
        RevokeSessionOf(sid, id, now, before, done);
        SplitStep(before.Keys, done, todo, sid);
        todo, done := todo - {sid}, done + {sid};
      }
      assert done == before.Keys;
    }

    method RevokeWithSessions(id: string, actor: string, now: int)
      requires Valid() && id in store.devices.rows
      modifies store
      ensures Valid()
      ensures T() == Revoke(old(T()), {id}, actor, now)
    {
      RevokeOne(T(), id, actor, now);
      RevokeDevice(id, actor, now);
      RevokeDeviceSessions(id, now);
    }

    /** The request of a user or an administrator to remove one of the user's devices. */
    method HandleRevoke(userId: string, deviceId: string, actor: string, now: int) returns (found: bool, saved: bool)
      requires Valid()
      modifies store, store.pg, ids
      ensures Valid()
      ensures found <==> deviceId in old(T()).devices && old(T()).devices[deviceId].data.userId == userId
      ensures T() == if found then Revoke(old(T()), {deviceId}, actor, now) else old(T())
      ensures found ==> Audited(AuditData(userId, deviceId, "device.revoked", actor), now)
      ensures saved ==> found && !HasPending(store.State().memory)
    {
      if deviceId !in store.devices.rows || store.devices.rows[deviceId].data.userId != userId {
        return false, false;
      }
      RevokeWithSessions(deviceId, actor, now);
      AddAudit(AuditData(userId, deviceId, "device.revoked", actor), now);
      found := true;
      saved := Save();
    }

    method Save() returns (ok: bool)
      requires Valid()
      modifies store, store.pg
      ensures Valid() && T() == old(T()) && store.audits.log == old(store.audits.log)
      ensures ok ==> !HasPending(store.State().memory)
    {
      ok := store.SaveLocked();
    }

    /** The active devices of a user, in any order. */
    method ActiveDeviceList(userId: string) returns (devices: seq<string>)
      requires Valid()
      ensures Distinct(devices) && |devices| == |ActiveDevices(T(), userId)|
      ensures forall d :: d in devices <==> d in ActiveDevices(T(), userId)
    {
      devices := [];
      var todo := store.devices.rows.Keys;
      while todo != {}
        invariant todo <= store.devices.rows.Keys && Distinct(devices)
        invariant forall d :: d in devices <==> d in ActiveDevices(T(), userId) && d !in todo
        decreases |todo|
      {
        var d :| d in todo;
        todo := todo - {d};
        if store.devices.rows[d].data.userId == userId && store.devices.rows[d].data.status == Active {
          devices := devices + [d];
        }
      }
      DistinctSize(devices);
      assert Elements(devices) == ActiveDevices(T(), userId);
    }

    method KickDevice(id: string, userId: string, now: int)
      requires Valid() && id in store.devices.rows
      modifies store, ids
      ensures Valid() && T() == Revoke(old(T()), {id}, KICK, now) && old(ids.issued) <= ids.issued
      ensures Audited(AuditData(userId, id, "device.revoked", "system:kick_oldest"), now)
    {
      RevokeWithSessions(id, KICK, now);
      AddAudit(AuditData(userId, id, "device.revoked", KICK), now);
    }

    /** Kicks the oldest devices until a slot below the limit is free; there always is an oldest one. */
    method KickUntilBelow(devices: seq<string>, limit: int, userId: string, now: int, ghost active: set<string>)
      returns (left: seq<string>, ghost victims: set<string>)
      requires Valid() && 0 < limit && Kicking(T().devices, active, {}, devices)
      modifies store, ids
      ensures Valid() && T() == Revoke(old(T()), victims, KICK, now) && old(ids.issued) <= ids.issued
      ensures Kicking(old(T()).devices, active, victims, left)
      ensures |left| == if |devices| >= limit then limit - 1 else |devices|
    {
      ghost var t := T();
      RevokeNone(t, KICK, now);
      left, victims := devices, {};
      var activeCount := |devices|;
      while activeCount >= limit
        invariant Valid() && T() == Revoke(t, victims, KICK, now) && old(ids.issued) <= ids.issued
        invariant Kicking(t.devices, active, victims, left)
        invariant activeCount == |left| && (|devices| < limit ==> left == devices)
        invariant |devices| >= limit ==> |left| >= limit - 1
        decreases activeCount
      {
        RevokeSpares(t, victims, left, KICK, now);
        var oldest := OldestDevice(left, store.devices.rows);
        if oldest.None? {
          assert false;
        }
        KickNext(t.devices, active, victims, left, oldest.value);
        RevokeTwice(t, victims, oldest.value, KICK, now);
        KickDevice(oldest.value, userId, now);
        WithoutIsRemoval(left, oldest.value);
        left := Without(left, oldest.value);
        victims := victims + {oldest.value};
        activeCount := activeCount - 1;
      }
    }

    method FindDeviceByHash(userId: string, deviceHash: string) returns (found: Option<string>)
      requires Valid()
      ensures IsFound(T(), userId, deviceHash, found)
    {
      var todo := store.devices.rows.Keys;
      while todo != {}
        invariant todo <= store.devices.rows.Keys
        invariant forall d :: d in T().devices && d !in todo ==> !HasHash(T(), d, userId, deviceHash)
        decreases |todo|
      {
        var d :| d in todo;
        todo := todo - {d};
        if store.devices.rows[d].data.userId == userId && store.devices.rows[d].data.deviceHash == deviceHash {
          return Some(d);
        }
      }
      found := None;
    }

    /** The device becomes active and its one session begins. */
    method BeginSession(did: string, device: Row<DeviceData>, now: int) returns (token: string, ghost login: Request)
      requires Valid() && did in ids.issued && PutAllowed(store.devices, store.world.issued, did, device)
      modifies this`issuedSessions, store, ids
      ensures Valid()
      ensures login.LoginRequest? && login.did == did && login.device == device && login.now == now
      ensures login.sid !in old(issuedSessions) && login.session.data.status == Active
      ensures login.session.data.deviceId == did && login.session.data.userId == device.data.userId
      ensures IsFreshSession(login, sessionTtl, now)
      ensures IsNewToken(old(ids.issued), token, login.session)
      ensures T() == Login(old(T()), did, device, login.sid, login.session, now)
    {
      store.PutDevice(did, device);
      RevokeDeviceSessions(did, now);
      ghost var sid, session;
      token, sid, session := NewSession(device.data.userId, did, device.data.info, now);
      login := LoginRequest(did, device, sid, session, now);
    }

    method NewSession(userId: string, did: string, info: string, now: int)
      returns (token: string, ghost sid: string, ghost session: Row<SessionData>)
      requires Valid()
      modifies this`issuedSessions, store, ids
      ensures Valid()
      ensures IsNewToken(old(ids.issued), token, session)
      ensures sid !in old(issuedSessions) && session.data.status == Active
      ensures session.data.deviceId == did && session.data.userId == userId &&
              session.data.expiresAt == now + sessionTtl && session.createdAt == now && session.data.lastSeenAt == now
      ensures T() == old(T()).(sessions := old(T()).sessions[sid := session], issued := old(T()).issued + {sid})
    {
      var tokenHash := ids.Next("dg_");
      var subscribeHash := ids.Next("sub_");
      var id := ids.Next("ses_");
      var row := Row(now, SessionData(userId, did, tokenHash, subscribeHash, Active, now + sessionTtl, now, info));
      PlaceSession(id, row);
      token, sid, session := tokenHash, id, row;
    }

    /** Stores a session with an id and hashes that no other has. */
    method PlaceSession(id: string, row: Row<SessionData>)
      requires Valid() && {id, row.data.tokenHash, row.data.subscribeHash} <= ids.issued
      requires id !in issuedSessions && id !in store.sessions.rows && id !in store.world.issued
      requires row.data.tokenHash !in store.byToken && row.data.subscribeHash !in store.bySubscribe
      modifies this`issuedSessions, store
      ensures Valid()
      ensures T() == old(T()).(sessions := old(T()).sessions[id := row], issued := old(T()).issued + {id})
    {
      store.AddSession(id, row);
      issuedSessions := issuedSessions + {id};
    }

    /** Looks a user up by id, e-mail or business id; the users are visited in any order. */
    method FindUser(rawKey: string) returns (found: Option<string>)
      requires Valid()
      ensures IsUserOf(T().users, rawKey, found)
    {
      var key := Trim(rawKey);
      if key == "" {
        return None;
      }
      if key in store.users.rows {
        return Some(key);
      }
      var todo := store.users.rows.Keys;
      while todo != {}
        invariant todo <= store.users.rows.Keys
        invariant forall u :: u in store.users.rows && u !in todo ==> !Answers(store.users.rows[u].data, key)
        decreases todo
      {
        var u :| u in todo;
        todo := todo - {u};
        if Answers(store.users.rows[u].data, key) {
          return Some(u);
        }
      }
      found := None;
    }

    method FindKnown(s: Snapshot, fallbackEmail: string) returns (found: Option<string>)
      requires Valid()
      ensures IsKnownAs(T().users, s, fallbackEmail, found)
    {
      found := FindUser(BusinessIdOf(s, fallbackEmail));
      if found.None? && EmailOf(s, fallbackEmail) != "" {
        found := FindUser(EmailOf(s, fallbackEmail));
      }
    }

    /** Takes over what the business backend says about the user. */
    method UpsertUser(s: Snapshot, fallbackEmail: string, now: int)
      returns (userId: string, effectiveLimit: int, ghost found: Option<string>, ghost user: Row<UserData>)
      requires Valid()
      modifies store
      ensures Valid() && T() == WithUser(old(T()), userId, user)
      ensures IsUpsert(old(T()).users, s, fallbackEmail, defaultLimit, now, found, userId, user)
      ensures effectiveLimit == EffectiveLimit(user.data, defaultLimit)
      ensures found.Some? ==> userId == found.value && userId in old(T()).users
      ensures effectiveLimit ==
                if user.data.deviceLimitOverride.Some? then user.data.deviceLimitOverride.value
                else if s.limit.Explicit? then
                  if s.limit.limit.Some? && s.limit.limit.value > 0 then s.limit.limit.value else 0
                else if found.Some? && old(T()).users[userId].data.deviceLimit.Some? then
                  old(T()).users[userId].data.deviceLimit.value
                else defaultLimit
      ensures user.data.deviceLimitOverride ==
                if found.Some? then old(T()).users[userId].data.deviceLimitOverride else None
      ensures user.createdAt == if found.Some? then old(T()).users[userId].createdAt else now
      ensures user.data.email == (if s.email == "" then fallbackEmail else s.email) && user.data.profile == s.profile
      ensures user.data.businessId == if s.uuid == "" then user.data.email else s.uuid
    {
      var known := FindKnown(s, fallbackEmail);
      var row;
      if known.Some? {
        userId, row := known.value, store.users.rows[known.value];
      } else {
        userId, row := UserIdOf(EmailOf(s, fallbackEmail)), Row(now, NOBODY);
      }
      row := row.(data := SyncedUser(row.data, s, fallbackEmail, defaultLimit));
      found, user := known, row;
      store.PutUser(userId, row);
      effectiveLimit := EffectiveLimit(row.data, defaultLimit);
    }

    /** The second half of an admission: the device, found or new, gets its session. */
    method CompleteAdmission(userId: string, deviceHash: string, info: string, found: Option<string>, now: int)
      returns (did: string, token: string, ghost login: Request)
      requires Valid() && Safe(T()) && userId in store.users.rows
      requires IsFound(T(), userId, deviceHash, found)
      modifies this`issuedSessions, store, ids
      ensures Valid() && login.LoginRequest? && did == login.did
      ensures login.LoginRequest? && Allowed(old(T()), login) && T() == Apply(old(T()), login)
      ensures IsLoginOf(old(T()), login, userId, deviceHash, found, now) && IsFreshSession(login, sessionTtl, now)
      ensures IsNewToken(old(ids.issued), token, login.session)
    {
      ghost var t := T();
      var createdAt;
      if found.Some? {
        did, createdAt := found.value, store.devices.rows[found.value].createdAt;
      } else {
        did := ids.Next("dev_");
        createdAt := now;
      }
      assert T() == t;
      var device := DeviceData(userId, deviceHash, Active, now, None, "", info);
      token, login := BeginSession(did, Row(createdAt, device), now);
      LoginIsAllowed(t, login, userId, deviceHash, found, now);
    }

    /** Kicks exactly as many of the oldest devices as have to go for a new one. */
    method KickOldestDevices(devices: seq<string>, limit: int, userId: string, now: int, ghost active: set<string>)
      returns (activeCount: int, ghost victims: set<string>)
      requires Valid() && 0 < limit <= |devices| && Kicking(T().devices, active, {}, devices)
      modifies store, ids
      ensures Valid() && T() == Revoke(old(T()), victims, KICK, now) && old(ids.issued) <= ids.issued
      ensures activeCount == limit - 1 && AreVictims(old(T()), active, victims, |devices| - limit + 1)
    {
      ghost var t := T();
      var left;
      left, victims := KickUntilBelow(devices, limit, userId, now, active);
      KickedAreVictims(t, active, victims, left);
      activeCount := |left|;
    }

    /** The limit check: refuses, or kicks as many of the oldest devices as it takes. */
    method MakeRoom(userId: string, isNew: bool, limit: int, now: int)
      returns (refused: bool, activeCount: int, ghost victims: set<string>)
      requires Valid()
      modifies store, ids
      ensures Valid() && old(ids.issued) <= ids.issued
      ensures refused <==> isNew && 0 < limit <= |ActiveDevices(old(T()), userId)| && policy != Policy.KickOldest
      ensures refused ==> T() == old(T()) && activeCount == |ActiveDevices(old(T()), userId)|
      ensures !refused ==> T() == Revoke(old(T()), victims, KICK, now)
      ensures !refused ==> AreVictims(old(T()), ActiveDevices(old(T()), userId), victims,
                                      ToKick(|ActiveDevices(old(T()), userId)|, isNew, limit))
      ensures !refused ==> activeCount == |ActiveDevices(old(T()), userId)| - |victims|
    {
      victims := {};
      RevokeNone(T(), KICK, now);
      ghost var active := ActiveDevices(T(), userId);
      var devices := ActiveDeviceList(userId);
      activeCount := |devices|;
      refused := false;
      if isNew && limit > 0 && activeCount >= limit {
        if policy != Policy.KickOldest {
          refused := true;
        } else {
          activeCount, victims := KickOldestDevices(devices, limit, userId, now, active);
        }
      }
    }

    /** Looks the device up and makes room for it. */
    method FindAndMakeRoom(userId: string, deviceHash: string, limit: int, now: int)
      returns (refused: bool, activeCount: int, isNew: bool, found: Option<string>, ghost victims: set<string>)
      requires Valid() && Safe(T()) && userId in store.users.rows
      modifies store, ids
      ensures Valid() && old(ids.issued) <= ids.issued
      ensures refused ==> T() == old(T())
      ensures !refused ==> T() == Revoke(old(T()), victims, KICK, now)
      ensures RoomMade(policy, old(T()), userId, deviceHash, limit, refused, activeCount, isNew, found, victims)
      ensures !refused ==> Safe(T()) && userId in store.users.rows && IsFound(T(), userId, deviceHash, found)
    {
      found := FindDeviceByHash(userId, deviceHash);
      isNew := found.None? || store.devices.rows[found.value].data.status != Active;
      NewMeansNew(T(), userId, deviceHash, found);
      ghost var t := T();
      refused, activeCount, victims := MakeRoom(userId, isNew, limit, now);
      KickKeepsFinding(t, victims, now, userId, deviceHash, found);
    }

    method FinishAdmission(userId: string, deviceHash: string, info: string, found: Option<string>, now: int)
      returns (saved: bool, token: string, ghost login: Request)
      requires Valid() && Safe(T()) && userId in store.users.rows && IsFound(T(), userId, deviceHash, found)
      modifies this`issuedSessions, store, store.pg, ids
      ensures Valid() && (saved ==> !HasPending(store.State().memory))
      ensures login.LoginRequest? && Audited(AuditData(userId, login.did, "session.created", "user"), now)
      ensures login.LoginRequest? && Allowed(old(T()), login) && T() == Apply(old(T()), login)
      ensures IsLoginOf(old(T()), login, userId, deviceHash, found, now) && IsFreshSession(login, sessionTtl, now)
      ensures IsNewToken(old(ids.issued), token, login.session)
    {
      var did;
      did, token, login := CompleteAdmission(userId, deviceHash, info, found, now);
      AddAudit(AuditData(userId, did, "session.created", "user"), now);
      saved := Save();
    }

    /** Admission of a device: below the limit, or after kicking the oldest active devices of the user. `user` is
        the record of the user as the login leaves it, `victims` are the devices kicked and `login` is the change
        that the admission itself makes. */
    method AdmitDevice(s: Snapshot, fallbackEmail: string, deviceHash: string, info: string, now: int)
      returns (r: Admission, token: string, userId: string, ghost found: Option<string>, ghost user: Row<UserData>,
               ghost victims: set<string>, ghost login: Request)
      requires Valid() && Safe(T())
      modifies this`issuedSessions, store, store.pg, ids
      ensures Valid()
      ensures IsUpsert(old(T()).users, s, fallbackEmail, defaultLimit, now, found, userId, user)
      ensures found.Some? ==> userId == found.value && userId in old(T()).users
      ensures r.limit ==
                if user.data.deviceLimitOverride.Some? then user.data.deviceLimitOverride.value
                else if s.limit.Explicit? then
                  if s.limit.limit.Some? && s.limit.limit.value > 0 then s.limit.limit.value else 0
                else if found.Some? && old(T()).users[userId].data.deviceLimit.Some? then
                  old(T()).users[userId].data.deviceLimit.value
                else defaultLimit
      ensures user.data.deviceLimitOverride ==
                if found.Some? then old(T()).users[userId].data.deviceLimitOverride else None
      ensures r.limit == EffectiveLimit(user.data, defaultLimit)
      ensures AdmissionOutcome(Attempt(policy, sessionTtl, userId, user, deviceHash, now), old(T()), r, victims, login,
                               T())
      ensures !r.LimitExceeded? ==>
                login.LoginRequest? && Audited(AuditData(userId, login.did, "session.created", "user"), now)
      ensures r.Admitted? ==> !HasPending(store.State().memory)
      ensures !r.Admitted? ==> token == ""
      ensures r.Admitted? ==>
                token != "" && token !in old(ids.issued) && login.sid in T().sessions &&
                (forall sid :: sid in T().sessions && T().sessions[sid].data.tokenHash == token ==> sid == login.sid) &&
                T().sessions[login.sid].data.tokenHash == token && HasToken(T(), ByToken, token) &&
                (forall later :: Authorizes(T(), login.sid, later) <==> later <= now + sessionTtl)
    {
      ghost var t := T();
      var limit;
      userId, limit, found, user := UpsertUser(s, fallbackEmail, now);
      ApplyKeepsSafe(t, PutUserRequest(userId, user));
      r, token, victims, login := AdmitKnown(userId, limit, deviceHash, info, now, t, user);
      if r.Admitted? {
        AdmittedUntil(Attempt(policy, sessionTtl, userId, user, deviceHash, now), t, r, victims, login, T());
        TokenFindsSession(token, login);
      }
    }

    /** The index leads from the token of a session to that session alone. */
    lemma TokenFindsSession(token: string, login: Request)
      requires Valid() && login.LoginRequest? && token != "" && login.session.data.tokenHash == token
      requires login.sid in T().sessions && T().sessions[login.sid] == login.session
      ensures HasToken(T(), ByToken, token)
      ensures forall sid :: sid in T().sessions && T().sessions[sid].data.tokenHash == token ==> sid == login.sid
    {
      assert Hash(ByToken, T().sessions[login.sid].data) == token;
      ExactMeansUnique(ByToken, store.byToken, store.sessions.rows);
      forall sid | sid in T().sessions && T().sessions[sid].data.tokenHash == token
        ensures sid == login.sid
      {
        assert Hash(ByToken, store.sessions.rows[sid].data) == token;
      }
    }

    /** The rest of an admission, once the record of the user is stored. */
    method AdmitKnown(userId: string, limit: int, deviceHash: string, info: string, now: int, ghost t: Tables,
                      ghost user: Row<UserData>)
      returns (r: Admission, token: string, ghost victims: set<string>, ghost login: Request)
      requires Valid() && Safe(T()) && T() == WithUser(t, userId, user)
      modifies this`issuedSessions, store, store.pg, ids
      ensures Valid() && r.limit == limit && (r.Admitted? ==> !HasPending(store.State().memory))
      ensures !r.LimitExceeded? ==>
                login.LoginRequest? && Audited(AuditData(userId, login.did, "session.created", "user"), now)
      ensures AdmissionOutcome(Attempt(policy, sessionTtl, userId, user, deviceHash, now), t, r, victims, login, T())
      ensures if r.Admitted? then IsNewToken(old(ids.issued), token, login.session) else token == ""
    {
      ghost var a := Attempt(policy, sessionTtl, userId, user, deviceHash, now);
      var refused, activeCount, isNew, found;
      refused, activeCount, isNew, found, victims := FindAndMakeRoom(userId, deviceHash, limit, now);
      login, token := PutUserRequest(userId, user), "";
      if refused {
        r := LimitExceeded(limit, activeCount);
        RefusedOutcome(a, t, r, isNew, found, victims, login);
      } else {
        var saved, sessionToken;
        saved, sessionToken, login := FinishAdmission(userId, deviceHash, info, found, now);
        token := if saved then sessionToken else "";
        r := if saved then Admitted(limit, activeCount + if isNew then 1 else 0) else SaveFailed(limit, activeCount);
        AdmittedOutcome(a, t, r, activeCount, isNew, found, victims, login);
      }
    }

    /** An administrator sets or clears the limit of a user. */
    method PatchDeviceLimit(userKey: string, override: Option<int>, now: int)
      returns (found: Option<string>, saved: bool)
      requires Valid()
      modifies store, store.pg, ids
      ensures Valid() && IsUserOf(old(T()).users, userKey, found)
      ensures T() == if found.None? then old(T())
                     else WithUser(old(T()), found.value, WithOverride(old(T()).users[found.value], override))
      ensures found.Some? ==> Audited(AuditData(found.value, "", "user.device_limit_override.updated", "admin"), now)
      ensures saved ==> found.Some? && !HasPending(store.State().memory)
    {
      found := FindUser(userKey);
      if found.None? {
        return found, false;
      }
      store.PutUser(found.value, WithOverride(store.users.rows[found.value], override));
      AddAudit(AuditData(found.value, "", "user.device_limit_override.updated", "admin"), now);
      saved := Save();
    }

    /** Writes a heartbeat at most once a minute. */
    method Touch(sid: string, sessionInfo: string, deviceInfo: string, now: int) returns (touched: bool)
      requires Valid() && IsActiveSession(T(), sid) && T().sessions[sid].data.deviceId in T().devices
      modifies store
      ensures Valid()
      ensures touched <==> now - old(T()).sessions[sid].data.lastSeenAt > MINUTE
      ensures T() == if touched then Heartbeat(old(T()), sid, sessionInfo, deviceInfo, now) else old(T())
    {
      var session := store.sessions.rows[sid];
      touched := now - session.data.lastSeenAt > MINUTE;
      if touched {
        var did := session.data.deviceId;
        var device := store.devices.rows[did];
        store.UpdateSession(sid, session.(data := session.data.(lastSeenAt := now, info := sessionInfo)));
        store.PutDevice(did, device.(data := device.data.(lastSeenAt := now, info := deviceInfo)));
      }
    }

    method Expire(sid: string)
      requires Valid() && IsActiveSession(T(), sid)
      modifies store
      ensures Valid() && T() == Apply(old(T()), ExpireRequest(sid))
    {
      var session := store.sessions.rows[sid];
      store.UpdateSession(sid, session.(data := session.data.(status := Expired)));
    }

    /** The checks on a session that was found. */
    method AuthorizeSession(sid: string, sessionInfo: string, deviceInfo: string, now: int) returns (r: AuthResult)
      requires Valid() && sid in T().sessions
      modifies store, store.pg
      ensures Valid()
      ensures !r.Miss? && r.sid == sid
      ensures r.Refused? <==> !Authorizes(old(T()), sid, now)
      ensures r.Refused? ==> r.error == RefusalReason(old(T()), sid, now)
      ensures T() == AfterAuthorize(old(T()), sid, sessionInfo, deviceInfo, now)
      ensures !r.Refused? ==> IsSeen(old(T()), T(), sid, sessionInfo, deviceInfo, now)
      ensures var late := now - old(T()).sessions[sid].data.lastSeenAt > 60;
              (r.NotSaved? ==> late) && (r.Authorized? && late ==> !HasPending(store.State().memory))
    {
      ghost var t := T();
      var session := store.sessions.rows[sid].data;
      if session.status != Active || now > session.expiresAt {
        r := Refused(sid, AuthorizationError(store.devices.rows, session, now));
        if session.status == Active {
          Expire(sid);
          var _ := Save();
        }
        return;
      }
      if session.deviceId !in store.devices.rows || session.userId !in store.users.rows ||
         store.devices.rows[session.deviceId].data.status != Active {
        return Refused(sid, AuthorizationError(store.devices.rows, session, now));
      }
      var touched := Touch(sid, sessionInfo, deviceInfo, now);
      var saved := true;
      if touched {
        saved := Save();
      }
      AuthorizedIsSeen(t, sid, sessionInfo, deviceInfo, now);
      r := if saved then Authorized(sid) else NotSaved(sid);
    }

    /** Authorizes a request by the hash of its session or subscription token. The session found is the
        one that has the hash. */
    method Authorize(kind: Kind, tokenHash: string, sessionInfo: string, deviceInfo: string, now: int)
      returns (r: AuthResult)
      requires Valid()
      modifies store, store.pg
      ensures Valid()
      ensures r.Miss? <==> !HasToken(old(T()), kind, tokenHash)
      ensures r.Miss? ==> T() == old(T()) && store.State() == old(store.State()) && store.world == old(store.world)
      ensures r.Miss? ==> store.pg.Rows() == old(store.pg.Rows())
      ensures !r.Miss? ==> r.sid in old(T()).sessions && Hash(kind, old(T()).sessions[r.sid].data) == tokenHash
      ensures !r.Miss? ==> (r.Refused? <==> !Authorizes(old(T()), r.sid, now))
      ensures r.Refused? ==> r.error == RefusalReason(old(T()), r.sid, now)
      ensures !r.Miss? ==> T() == AfterAuthorize(old(T()), r.sid, sessionInfo, deviceInfo, now)
      ensures !r.Miss? && !r.Refused? ==> IsSeen(old(T()), T(), r.sid, sessionInfo, deviceInfo, now)
      ensures !r.Miss? ==>
                var late := now - old(T()).sessions[r.sid].data.lastSeenAt > 60;
                (r.NotSaved? ==> late) && (r.Authorized? && late ==> !HasPending(store.State().memory))
    {
      var index := if kind == ByToken then store.byToken else store.bySubscribe;
      if tokenHash !in index {
        return Miss;
      }
      var sid := index[tokenHash];
      assert HasToken(T(), kind, tokenHash);
      r := AuthorizeSession(sid, sessionInfo, deviceInfo, now);
    }

    /** The ids and hashes in the database come from the same source, whichever gateway wrote them. */
    ghost predicate Drawn()
      reads store, store.pg, ids
    {
      store.pg.devices.Keys + store.pg.sessions.Keys + store.pg.audits.Keys <= ids.issued &&
      forall s :: s in store.pg.sessions ==>
        store.pg.sessions[s].data.tokenHash in ids.issued + {""} &&
        store.pg.sessions[s].data.subscribeHash in ids.issued + {""}
    }

    ghost predicate CanRead(freshLog: seq<AuditLog>, k: nat)
      reads store, store.pg
    {
      k !in store.world.reloads && AuditTable(freshLog) == store.pg.audits && DistinctIds(freshLog) &&
      UniqueHashes(ByToken, store.pg.sessions) && UniqueHashes(BySubscribe, store.pg.sessions)
    }

    method Reload(loads: bool, freshLog: seq<AuditLog>, ghost k: nat) returns (reloaded: bool)
      requires Valid() && Drawn() && CanRead(freshLog, k)
      modifies this`issuedSessions, store
      ensures Valid()
      ensures reloaded <==> loads && !HasPending(old(store.State()).memory)
      ensures T() == if reloaded then ReadFrom(old(T()), store.pg.Rows()) else old(T())
      ensures reloaded && foreign == {} ==> T().sessions == old(T()).sessions
    {
      if foreign == {} && !HasPending(store.State().memory) {
        store.AloneReadsSame();
      }
      reloaded := store.ReloadOnMiss(loads, freshLog, k);
      if reloaded {
        issuedSessions := issuedSessions + store.pg.sessions.Keys;
      }
    }

    /** A session that is not found may have been created by another gateway: the tables are read again, unless
        changes are pending, and the session is looked up once more. */
    method AuthorizeWithReload(kind: Kind, tokenHash: string, sessionInfo: string, deviceInfo: string, now: int,
                               loads: bool, freshLog: seq<AuditLog>, ghost k: nat)
      returns (r: AuthResult, reloaded: bool)
      requires Valid() && Drawn() && CanRead(freshLog, k)
      modifies this`issuedSessions, store, store.pg
      ensures Valid()
      ensures reloaded <==>
                !HasToken(old(T()), kind, tokenHash) && loads && !HasPending(old(store.State()).memory)
      ensures var t := if reloaded then ReadFrom(old(T()), old(store.pg.Rows())) else old(T());
              (r.Miss? <==> !HasToken(t, kind, tokenHash)) && (r.Miss? ==> T() == t) &&
              (!r.Miss? ==>
                 r.sid in t.sessions && Hash(kind, t.sessions[r.sid].data) == tokenHash &&
                 (r.Refused? <==> !Authorizes(t, r.sid, now)) &&
                 (r.Refused? ==> r.error == RefusalReason(t, r.sid, now)) &&
                 T() == AfterAuthorize(t, r.sid, sessionInfo, deviceInfo, now))
      ensures foreign == {} && !HasToken(old(T()), kind, tokenHash) ==> r.Miss?
    {
      reloaded := false;
      r := Authorize(kind, tokenHash, sessionInfo, deviceInfo, now);
      if r.Miss? {
        reloaded := Reload(loads, freshLog, k);
        if reloaded {
          r := Authorize(kind, tokenHash, sessionInfo, deviceInfo, now);
        }
      }
    }

    /** Other gateways write rows of the database. */
    method OthersWrite(db: Database, ghost written: set<string>)
      requires Valid() && Enabled(store.world, ForeignWrite(db, written))
      modifies this`foreign, store, store.pg
      ensures Valid() && T() == old(T()) && store.pg.Rows() == db && foreign == old(foreign) + written
    {
      store.OthersWrite(db, written);
      foreign := foreign + written;
    }

    method RevokeIfOffline(d: string, now: int, ghost t: Tables, ghost gone: set<string>) returns (revoked: bool)
      requires Valid() && d in t.devices && d !in gone && T() == Revoke(t, gone, OFFLINE, now)
      modifies store, ids
      ensures Valid() && T() == Revoke(t, if revoked then gone + {d} else gone, OFFLINE, now)
      ensures revoked <==> d in Offline(t.devices, now)
      ensures revoked ==>
                Audited(AuditData(t.devices[d].data.userId, d, "device.revoked", "system:auto_offline"), now)
    {
      RevokeSpares(t, gone, [d], OFFLINE, now);
      assert d in [d];
      revoked := store.devices.rows[d].data.status == Active && store.devices.rows[d].data.lastSeenAt < now - 30 * DAY;
      if revoked {
        RevokeTwice(t, gone, d, OFFLINE, now);
        RevokeWithSessions(d, OFFLINE, now);
        AddAudit(AuditData(store.devices.rows[d].data.userId, d, "device.revoked", OFFLINE), now);
      }
    }

    method RevokeNext(d: string, now: int, before: nat, ghost t: Tables, ghost todo: set<string>,
                      ghost gone: set<string>)
      returns (revoked: nat, ghost gone': set<string>)
      requires Valid() && before == |gone| && T() == Revoke(t, gone, OFFLINE, now)
      requires d in todo && todo <= t.devices.Keys && Met(Offline(t.devices, now), todo, gone)
      modifies store, ids
      ensures Valid() && T() == Revoke(t, gone', OFFLINE, now)
      ensures Met(Offline(t.devices, now), todo - {d}, gone') && revoked == |gone'|
    {
      MetStep(Offline(t.devices, now), todo, gone, d);
      var r := RevokeIfOffline(d, now, t, gone);
      revoked := if r then before + 1 else before;
      gone' := if r then gone + {d} else gone;
    }

    /** A device that has not been seen for thirty days is revoked. */
    method RevokeOffline(now: int) returns (revoked: nat)
      requires Valid()
      modifies store, ids
      ensures Valid() && T() == Revoke(old(T()), Offline(old(T()).devices, now), OFFLINE, now)
      ensures revoked == |Offline(old(T()).devices, now)|
    {
      ghost var t := T();
      ghost var gone := {};
      RevokeNone(t, OFFLINE, now);
      revoked := 0;
      var todo := store.devices.rows.Keys;
      MetEnds(Offline(t.devices, now), todo, gone);
      while todo != {}
        invariant Valid() && T() == Revoke(t, gone, OFFLINE, now) && revoked == |gone|
        invariant todo <= t.devices.Keys && Met(Offline(t.devices, now), todo, gone)
        decreases todo
      {
        var d :| d in todo;
        revoked, gone := RevokeNext(d, now, revoked, t, todo, gone);
        todo := todo - {d};
      }
      MetEnds(Offline(t.devices, now), todo, gone);
    }

    method DeleteSessionOf(sid: string, id: string, ghost before: Table<SessionData>, ghost done: set<string>)
      requires Valid() && sid in before && sid !in done && store.sessions.rows == SessionsLeft(before, id, done)
      modifies store
      ensures Valid() && T() == old(T()).(sessions := SessionsLeft(before, id, done + {sid}))
    {
      SessionsLeftStep(before, id, done, sid);
      if store.sessions.rows[sid].data.deviceId == id {
        store.DeleteSession(sid);
        assert store.sessions == Remove(old(store.sessions), sid);
      }
    }

    method DeleteSessionsOf(id: string)
      requires Valid()
      modifies store
      ensures Valid() && T() == old(T()).(sessions := Delete(old(T()), {id}).sessions)
    {
      ghost var before, t := store.sessions.rows, T();
      SessionsLeftEnds(t, id);
      var todo := store.sessions.rows.Keys;
      ghost var done := {};
      while todo != {}
        invariant Valid() && Split(before.Keys, done, todo)
        invariant T() == t.(sessions := SessionsLeft(before, id, done))
        decreases |todo|
      {
        var sid :| sid in todo;
        DeleteSessionOf(sid, id, before, done);
        SplitStep(before.Keys, done, todo, sid);
        todo, done := todo - {sid}, done + {sid};
      }
      assert done == before.Keys;
    }

    method DeleteWithSessions(id: string)
      requires Valid()
      modifies store
      ensures Valid() && T() == Delete(old(T()), {id})
    {
      DeleteSessionsOf(id);
      store.DeleteDevice(id);
    }

    method DeleteIfStale(d: string, now: int, ghost t: Tables, ghost gone: set<string>) returns (removed: bool)
      requires Valid() && d in t.devices && d !in gone && T() == Delete(t, gone)
      modifies store
      ensures Valid() && T() == Delete(t, if removed then gone + {d} else gone)
      ensures removed <==> d in Stale(t.devices, now)
    {
      var device := store.devices.rows[d].data;
      removed := device.status == Revoked && device.revokedAt.Some? && device.revokedAt.value < now - 90 * DAY;
      if removed {
        DeleteTwice(t, gone, d);
        DeleteWithSessions(d);
      }
    }

    method DeleteNext(d: string, now: int, before: nat, ghost t: Tables, ghost todo: set<string>,
                      ghost gone: set<string>)
      returns (removed: nat, ghost gone': set<string>)
      requires Valid() && before == |gone| && T() == Delete(t, gone)
      requires d in todo && todo <= t.devices.Keys && Met(Stale(t.devices, now), todo, gone)
      modifies store
      ensures Valid() && T() == Delete(t, gone')
      ensures Met(Stale(t.devices, now), todo - {d}, gone') && removed == |gone'|
    {
      MetStep(Stale(t.devices, now), todo, gone, d);
      var r := DeleteIfStale(d, now, t, gone);
      removed := if r then before + 1 else before;
      gone' := if r then gone + {d} else gone;
    }

    /** A device revoked more than ninety days ago is deleted with all its sessions. */
    method DeleteStale(now: int) returns (removed: nat)
      requires Valid()
      modifies store
      ensures Valid() && T() == Delete(old(T()), Stale(old(T()).devices, now))
      ensures removed == |Stale(old(T()).devices, now)|
    {
      ghost var t := T();
      ghost var gone := {};
      DeleteNone(t);
      removed := 0;
      var todo := store.devices.rows.Keys;
      MetEnds(Stale(t.devices, now), todo, gone);
      while todo != {}
        invariant Valid() && T() == Delete(t, gone) && removed == |gone|
        invariant todo <= t.devices.Keys && Met(Stale(t.devices, now), todo, gone)
        decreases todo
      {
        var d :| d in todo;
        removed, gone := DeleteNext(d, now, removed, t, todo, gone);
        todo := todo - {d};
      }
      MetEnds(Stale(t.devices, now), todo, gone);
    }

    /** The hourly clean-up: revocations first, then deletions, and a save only if there was something to do. */
    method CleanupRevokedDevices(now: int) returns (changed: bool)
      requires Valid()
      modifies store, store.pg, ids
      ensures Valid()
      ensures var revoked := Revoke(old(T()), Offline(old(T()).devices, now), OFFLINE, now);
              T() == Delete(revoked, Stale(revoked.devices, now)) &&
              Allowed(revoked, DeleteRequest(Stale(revoked.devices, now)))
      ensures !changed ==> T() == old(T())
      ensures changed <==>
                exists d :: d in old(T()).devices &&
                            var device := old(T()).devices[d].data;
                            (device.status == Active && device.lastSeenAt < now - 30 * 24 * 60 * 60) ||
                            (device.status == Revoked && device.revokedAt.Some? &&
                             device.revokedAt.value < now - 90 * 24 * 60 * 60)
    {
      ghost var t := T();
      CleanupHasWork(t, now);
      var autoRevoked := RevokeOffline(now);
      ghost var revoked := T();
      var removed := DeleteStale(now);
      changed := autoRevoked > 0 || removed > 0;
      if changed {
        var _ := Save();
      } else {
        RevokeNone(t, OFFLINE, now);
        DeleteNone(t);
      }
    }

    /** Every request leaves the store in a state that the store protocol reaches, so without other gateways
        writing what is pending would make the tables the records in memory, but for the creation times of
        users whose record was replaced. */
    lemma StaysInStep()
      requires Valid()
      ensures Reached(store.world) && store.world.memory == store.State().memory && store.world.db == store.pg.Rows()
      ensures var db, records := FlushAll(store.pg.Rows(), store.State().memory), Records(store.State().memory);
              SameRecords(db, records, foreign, Astray(store.world)) &&
              (foreign == {} ==> SameButUserDates(db, records)) && (Astray(store.world) == {} ==> db == records)
    {
      WriteBackRefinement(store.world);
    }
  }
}
