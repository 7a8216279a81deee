/** Users, devices and sessions as the requests of the gateway change them, and what every run keeps. */
module SessionSafety {
  import opened Collections
  import opened WriteBack
  import opened StoreProtocol

  /** `issued` holds every session id ever given out; generated ids are new. */
  datatype Tables = Tables(
    users: Table<UserData>, devices: Table<DeviceData>, sessions: Table<SessionData>, issued: set<string>)

  predicate IsActiveDevice(t: Tables, id: string) {
    id in t.devices && t.devices[id].data.status == Active
  }

  predicate IsActiveSession(t: Tables, id: string) {
    id in t.sessions && t.sessions[id].data.status == Active
  }

  // ---------- what requests do to the tables ----------

  function RevokedDevice(d: Row<DeviceData>, actor: string, now: int): Row<DeviceData> {
    d.(data := d.data.(status := Revoked, revokedAt := Some(now), revokedBy := actor))
  }

  function RevokedSession(s: Row<SessionData>, now: int): Row<SessionData> {
    s.(data := s.data.(status := Revoked, expiresAt := now))
  }

  /** All devices in `ids` are revoked, and with them their active sessions. */
  function Revoke(t: Tables, ids: set<string>, actor: string, now: int): Tables {
    t.(devices := map d | d in t.devices :: if d in ids then RevokedDevice(t.devices[d], actor, now) else t.devices[d],
       sessions := RevokeSessions(t.sessions, ids, now))
  }

  function RevokeSessions(sessions: Table<SessionData>, ids: set<string>, now: int): Table<SessionData> {
    map s | s in sessions ::
      if sessions[s].data.deviceId in ids && sessions[s].data.status == Active then RevokedSession(sessions[s], now)
      else sessions[s]
  }

  /** The devices in `ids` and all their sessions are deleted. */
  function Delete(t: Tables, ids: set<string>): Tables {
    t.(devices := t.devices - ids,
       sessions := map s | s in t.sessions && t.sessions[s].data.deviceId !in ids :: t.sessions[s])
  }

  /** The device becomes active, its earlier sessions end, and one new session begins. */
  function Login(t: Tables, did: string, device: Row<DeviceData>, sid: string, session: Row<SessionData>,
                 now: int): Tables
  {
    t.(devices := t.devices[did := device],
       sessions := RevokeSessions(t.sessions, {did}, now)[sid := session],
       issued := t.issued + {sid})
  }

  datatype Request =
    | PutUserRequest(id: string, user: Row<UserData>)
    | RevokeRequest(ids: set<string>, actor: string, now: int)
    | LoginRequest(did: string, device: Row<DeviceData>, sid: string, session: Row<SessionData>, now: int)
    | ExpireRequest(sid: string)
    | HeartbeatRequest(sid: string, sessionInfo: string, deviceInfo: string, now: int)
    | SubscriptionRequest(sid: string, sessionInfo: string)
    | DeleteRequest(ids: set<string>)

  ghost predicate Allowed(t: Tables, r: Request) {
    match r
    case PutUserRequest(_, _) => true
    case RevokeRequest(_, _, _) => true
    case LoginRequest(did, device, sid, session, _) =>
      device.data.status == Active && device.data.userId in t.users &&
      (did in t.devices ==> t.devices[did].data.userId == device.data.userId) &&
      (forall d :: d in t.devices && d != did && t.devices[d].data.userId == device.data.userId ==>
         t.devices[d].data.deviceHash != device.data.deviceHash) &&
      sid !in t.issued && session.data.deviceId == did && session.data.userId == device.data.userId
    case ExpireRequest(sid) => IsActiveSession(t, sid)
    case SubscriptionRequest(sid, _) => sid in t.sessions
    case HeartbeatRequest(sid, _, _, _) => IsActiveSession(t, sid) && t.sessions[sid].data.deviceId in t.devices
    case DeleteRequest(ids) => forall d :: d in ids ==> !IsActiveDevice(t, d)
  }

  function Heartbeat(t: Tables, sid: string, sessionInfo: string, deviceInfo: string, now: int): Tables
    requires sid in t.sessions && t.sessions[sid].data.deviceId in t.devices
  {
    var s, did := t.sessions[sid], t.sessions[sid].data.deviceId;
    var d := t.devices[did];
    t.(sessions := t.sessions[sid := s.(data := s.data.(lastSeenAt := now, info := sessionInfo))],
       devices := t.devices[did := d.(data := d.data.(lastSeenAt := now, info := deviceInfo))])
  }

  ghost function Apply(t: Tables, r: Request): Tables
    requires Allowed(t, r)
  {
    match r
    case PutUserRequest(id, user) => t.(users := t.users[id := user])
    case RevokeRequest(ids, actor, now) => Revoke(t, ids, actor, now)
    case LoginRequest(did, device, sid, session, now) => Login(t, did, device, sid, session, now)
    case ExpireRequest(sid) =>
      t.(sessions := t.sessions[sid := t.sessions[sid].(data := t.sessions[sid].data.(status := Expired))])
    case SubscriptionRequest(sid, info) =>
      t.(sessions := t.sessions[sid := t.sessions[sid].(data := t.sessions[sid].data.(info := info))])
    case HeartbeatRequest(sid, sessionInfo, deviceInfo, now) => Heartbeat(t, sid, sessionInfo, deviceInfo, now)
    case DeleteRequest(ids) => Delete(t, ids)
  }

  // ---------- what every run keeps ----------

  /** An active session points to an existing active device of the same, existing user. */
  ghost predicate SessionBacked(t: Tables, sid: string) {
    IsActiveSession(t, sid) ==>
      var s := t.sessions[sid].data;
      s.userId in t.users && IsActiveDevice(t, s.deviceId) && t.devices[s.deviceId].data.userId == s.userId
  }

  ghost predicate SessionsBacked(t: Tables) {
    forall sid :: sid in t.sessions ==> SessionBacked(t, sid)
  }

  ghost predicate OneSessionPerDevice(t: Tables) {
    forall a, b :: a in t.sessions && b in t.sessions && a != b && IsActiveSession(t, a) && IsActiveSession(t, b) ==>
      t.sessions[a].data.deviceId != t.sessions[b].data.deviceId
  }

  ghost predicate OneDevicePerHash(t: Tables) {
    var ds := t.devices;
    forall a, b :: a in ds && b in ds && a != b && ds[a].data.userId == ds[b].data.userId ==>
      ds[a].data.deviceHash != ds[b].data.deviceHash
  }

  ghost predicate Safe(t: Tables) {
    SessionsBacked(t) && OneSessionPerDevice(t) && OneDevicePerHash(t) && t.sessions.Keys <= t.issued
  }

  lemma RevokeKeepsSafe(t: Tables, ids: set<string>, actor: string, now: int)
    requires Safe(t)
    ensures Safe(Revoke(t, ids, actor, now))
  {
    var t' := Revoke(t, ids, actor, now);
    forall sid | sid in t'.sessions
      ensures SessionBacked(t', sid)
    {
      assert SessionBacked(t, sid);
    }
  }

  lemma LoginKeepsBacked(t: Tables, r: Request, sid: string)
    requires Safe(t) && r.LoginRequest? && Allowed(t, r) && sid in Apply(t, r).sessions
    ensures SessionBacked(Apply(t, r), sid)
  {
    if sid != r.sid {
      assert SessionBacked(t, sid);
    }
  }

  lemma LoginKeepsOneSession(t: Tables, r: Request, a: string)
    requires Safe(t) && r.LoginRequest? && Allowed(t, r) && a != r.sid && IsActiveSession(Apply(t, r), a)
    ensures IsActiveSession(t, a) && Apply(t, r).sessions[a] == t.sessions[a] && t.sessions[a].data.deviceId != r.did
  {
  }

  lemma LoginKeepsOneDevice(t: Tables, r: Request)
    requires OneDevicePerHash(t) && r.LoginRequest? && Allowed(t, r)
    ensures OneDevicePerHash(Apply(t, r))
  {
  }

  lemma LoginKeepsSafe(t: Tables, r: Request)
    requires Safe(t) && r.LoginRequest? && Allowed(t, r)
    ensures Safe(Apply(t, r))
  {
    var t' := Apply(t, r);
    assert SessionsBacked(t') by {
      forall sid | sid in t'.sessions
        ensures SessionBacked(t', sid)
      {
        LoginKeepsBacked(t, r, sid);
      }
    }
    assert OneSessionPerDevice(t') by {
      forall a, b | a in t'.sessions && b in t'.sessions && a != b && IsActiveSession(t', a) && IsActiveSession(t', b)
        ensures t'.sessions[a].data.deviceId != t'.sessions[b].data.deviceId
      {
        if a != r.sid {
          LoginKeepsOneSession(t, r, a);
        }
        if b != r.sid {
          LoginKeepsOneSession(t, r, b);
        }
      }
    }
    LoginKeepsOneDevice(t, r);
  }

  lemma ApplyKeepsSafe(t: Tables, r: Request)
    requires Safe(t) && Allowed(t, r)
    ensures Safe(Apply(t, r))
  {
    if r.RevokeRequest? {
      RevokeKeepsSafe(t, r.ids, r.actor, r.now);
    } else if r.LoginRequest? {
      LoginKeepsSafe(t, r);
    } else {
      var t' := Apply(t, r);
      forall sid | sid in t'.sessions
        ensures SessionBacked(t', sid)
      {
        assert SessionBacked(t, sid);
      }
    }
  }

  /** A session that is known and not active. */
  ghost predicate Retired(t: Tables, sid: string) {
    sid in t.issued && !IsActiveSession(t, sid)
  }

  /** No request brings a known session back to life or prolongs it. */
  lemma ApplyNeverRevives(t: Tables, r: Request, sid: string)
    requires Safe(t) && Allowed(t, r) && sid in t.issued && IsActiveSession(Apply(t, r), sid)
    ensures IsActiveSession(t, sid) && Apply(t, r).sessions[sid].data.expiresAt == t.sessions[sid].data.expiresAt
  {
  }

  lemma IssuedGrows(t: Tables, r: Request)
    requires Allowed(t, r)
    ensures t.issued <= Apply(t, r).issued
  {
  }

  ghost predicate IsRequestRun(t: Tables, requests: seq<Request>)
    decreases |requests|
  {
    requests == [] || (Allowed(t, requests[0]) && IsRequestRun(Apply(t, requests[0]), requests[1..]))
  }

  ghost function AfterRequests(t: Tables, requests: seq<Request>): Tables
    requires IsRequestRun(t, requests)
    decreases |requests|
  {
    if requests == [] then t else AfterRequests(Apply(t, requests[0]), requests[1..])
  }

  lemma RunOfOne(t: Tables, r: Request)
    requires Allowed(t, r)
    ensures IsRequestRun(t, [r]) && AfterRequests(t, [r]) == Apply(t, r)
  {
    assert [r][1..] == [];
  }

  lemma RunPrepend(t: Tables, r: Request, rest: seq<Request>)
    requires Allowed(t, r) && IsRequestRun(Apply(t, r), rest)
    ensures IsRequestRun(t, [r] + rest) && AfterRequests(t, [r] + rest) == AfterRequests(Apply(t, r), rest)
  {
    assert ([r] + rest)[1..] == rest;
  }

  /** A gateway begins without users, devices and sessions. */
  lemma EmptyIsSafe()
    ensures Safe(Tables(map[], map[], map[], {}))
  {
  }

  /** The checks that a request with the token of session `sid` has to pass. */
  predicate Authorizes(t: Tables, sid: string, now: int) {
    IsActiveSession(t, sid) && now <= t.sessions[sid].data.expiresAt &&
    t.sessions[sid].data.userId in t.users && IsActiveDevice(t, t.sessions[sid].data.deviceId)
  }

  /** In a safe state the checks on the device and the user never refuse a live session. */
  lemma AuthorizesExactly(t: Tables, sid: string, now: int)
    requires Safe(t)
    ensures Authorizes(t, sid, now) <==> IsActiveSession(t, sid) && now <= t.sessions[sid].data.expiresAt
  {
    if sid in t.sessions {
      assert SessionBacked(t, sid);
    }
  }

  lemma {:induction false} RunKeepsSafe(t: Tables, requests: seq<Request>)
    requires Safe(t) && IsRequestRun(t, requests)
    ensures Safe(AfterRequests(t, requests))
    decreases |requests|
  {
    if requests != [] {
      ApplyKeepsSafe(t, requests[0]);
      RunKeepsSafe(Apply(t, requests[0]), requests[1..]);
    }
  }

  lemma {:induction false} RunNeverRevives(t: Tables, requests: seq<Request>, sid: string)
    requires Safe(t) && IsRequestRun(t, requests) && sid in t.issued && IsActiveSession(AfterRequests(t, requests), sid)
    ensures IsActiveSession(t, sid) && AfterRequests(t, requests).sessions[sid].data.expiresAt ==
            t.sessions[sid].data.expiresAt
    decreases |requests|
  {
    if requests != [] {
      ApplyKeepsSafe(t, requests[0]);
      IssuedGrows(t, requests[0]);
      RunNeverRevives(Apply(t, requests[0]), requests[1..], sid);
      ApplyNeverRevives(t, requests[0], sid);
    }
  }

  /** Once a session has left the active state it never authorizes again, whatever follows. */
  lemma RetiredNeverAuthorizes(t: Tables, requests: seq<Request>, sid: string, now: int)
    requires Safe(t) && IsRequestRun(t, requests) && Retired(t, sid)
    ensures !Authorizes(AfterRequests(t, requests), sid, now)
  {
    if Authorizes(AfterRequests(t, requests), sid, now) {
      RunNeverRevives(t, requests, sid);
    }
  }

  /** Nor does a session after its time is up, since no request moves that time back. */
  lemma ExpiredNeverAuthorizes(t: Tables, requests: seq<Request>, sid: string, now: int, later: int)
    requires Safe(t) && IsRequestRun(t, requests) && sid in t.sessions && t.sessions[sid].data.expiresAt < now <= later
    ensures !Authorizes(AfterRequests(t, requests), sid, later)
  {
    if Authorizes(AfterRequests(t, requests), sid, later) {
      RunNeverRevives(t, requests, sid);
    }
  }
}
