/** What an admission does to the tables: the limit, the devices that are kicked, and the new session. */
module Admissions {
  import opened Collections
  import opened WriteBack
  import opened StoreProtocol
  import opened SessionSafety
  import opened Devices
  import opened UserIdentity

  const KICK := "system:kick_oldest"

  datatype Policy = Strict | KickOldest

  datatype Admission =
    | Admitted(limit: int, activeCount: int)
    | LimitExceeded(limit: int, activeCount: int)
    | SaveFailed(limit: int, activeCount: int)

  /** A login that asks for admission; `user` is the record of the user as the login leaves it. */
  datatype Attempt = Attempt(
    policy: Policy, sessionTtl: int, userId: string, user: Row<UserData>, deviceHash: string, now: int)

  ghost function WithUser(t: Tables, userId: string, user: Row<UserData>): Tables {
    t.(users := t.users[userId := user])
  }

  function WithOverride(user: Row<UserData>, override: Option<int>): Row<UserData> {
    user.(data := user.data.(deviceLimitOverride := override))
  }

  // ---------- finding the device ----------

  ghost predicate HasHash(t: Tables, d: string, userId: string, deviceHash: string)
    requires d in t.devices
  {
    t.devices[d].data.userId == userId && t.devices[d].data.deviceHash == deviceHash
  }

  ghost predicate IsFound(t: Tables, userId: string, deviceHash: string, found: Option<string>) {
    (found.Some? ==> found.value in t.devices && HasHash(t, found.value, userId, deviceHash)) &&
    (found.None? ==> forall d :: d in t.devices ==> !HasHash(t, d, userId, deviceHash))
  }

  /** No active device of the user has the hash. */
  ghost predicate IsNewDevice(t: Tables, userId: string, deviceHash: string) {
    forall d :: d in ActiveDevices(t, userId) ==> t.devices[d].data.deviceHash != deviceHash
  }

  /** A device that is not active, or not there, means that no active device has the hash. */
  lemma NewMeansNew(t: Tables, userId: string, deviceHash: string, found: Option<string>)
    requires Safe(t)
    requires IsFound(t, userId, deviceHash, found)
    ensures (found.None? || t.devices[found.value].data.status != Active) <==> IsNewDevice(t, userId, deviceHash)
    ensures found.Some? ==> (found.value in ActiveDevices(t, userId) <==> !IsNewDevice(t, userId, deviceHash))
  {
  }

  lemma KickKeepsFinding(t: Tables, victims: set<string>, now: int, userId: string, deviceHash: string,
                         found: Option<string>)
    requires Safe(t) && userId in t.users
    requires IsFound(t, userId, deviceHash, found)
    ensures var t' := Revoke(t, victims, KICK, now);
            Safe(t') && userId in t'.users && IsFound(t', userId, deviceHash, found)
  {
    RevokeKeepsSafe(t, victims, KICK, now);
  }

  // ---------- making room ----------

  /** How many devices have to go before a new one fits. */
  function ToKick(active: int, isNew: bool, limit: int): int {
    if isNew && 0 < limit <= active then active - limit + 1 else 0
  }

  /** `n` of the active devices, none seen later than one that stays. */
  ghost predicate AreVictims(t: Tables, active: set<string>, victims: set<string>, n: int)
    requires active <= t.devices.Keys
  {
    victims <= active && |victims| == n &&
    forall v, d :: v in victims && d in active - victims ==>
      t.devices[v].data.lastSeenAt <= t.devices[d].data.lastSeenAt
  }

  /** Kicking ends with victims that were seen no later than the devices left. */
  lemma KickedAreVictims(t: Tables, active: set<string>, victims: set<string>, left: seq<string>)
    requires Kicking(t.devices, active, victims, left)
    ensures AreVictims(t, active, victims, |active| - |left|)
  {
    forall v, d | v in victims && d in active - victims
      ensures t.devices[v].data.lastSeenAt <= t.devices[d].data.lastSeenAt
    {
      assert d in left;
    }
  }

  ghost predicate RoomMade(policy: Policy, t: Tables, userId: string, deviceHash: string, limit: int, refused: bool,
                           activeCount: int, isNew: bool, found: Option<string>, victims: set<string>)
  {
    var active := ActiveDevices(t, userId);
    isNew == IsNewDevice(t, userId, deviceHash) &&
    (refused <==> isNew && 0 < limit <= |active| && policy != Policy.KickOldest) &&
    (found.Some? ==> (found.value in active <==> !isNew)) && (found.None? ==> isNew) &&
    if refused then activeCount == |active|
    else AreVictims(t, active, victims, ToKick(|active|, isNew, limit)) && activeCount == |active| - |victims|
  }

  lemma RevokeSpares(t: Tables, victims: set<string>, left: seq<string>, actor: string, now: int)
    requires forall d :: d in left ==> d in t.devices && d !in victims
    ensures forall d :: d in left ==> d in Revoke(t, victims, actor, now).devices
    ensures forall d :: d in left ==> Revoke(t, victims, actor, now).devices[d] == t.devices[d]
  {
  }

  lemma RevokeOne(t: Tables, id: string, actor: string, now: int)
    requires id in t.devices
    ensures Revoke(t, {id}, actor, now).devices == t.devices[id := RevokedDevice(t.devices[id], actor, now)]
  {
  }

  // ---------- the login ----------

  /** The device as a login leaves it: active and seen now, no longer revoked, and created when it was first
      stored. */
  predicate IsAdmittedDevice(t: Tables, login: Request, userId: string, deviceHash: string, now: int)
    requires login.LoginRequest?
  {
    var d := login.device.data;
    d.userId == userId && d.deviceHash == deviceHash && d.status == Active && d.lastSeenAt == now &&
    d.revokedAt == None && d.revokedBy == "" && login.now == now &&
    login.device.createdAt == if login.did in t.devices then t.devices[login.did].createdAt else now
  }

  ghost predicate IsLoginOf(t: Tables, login: Request, userId: string, deviceHash: string, found: Option<string>,
                            now: int)
    requires login.LoginRequest?
  {
    IsAdmittedDevice(t, login, userId, deviceHash, now) &&
    if found.Some? then login.did == found.value else login.did !in t.devices
  }

  /** The session begins now, active, and ends after its time to live. */
  predicate IsFreshSession(login: Request, sessionTtl: int, now: int)
    requires login.LoginRequest?
  {
    login.session.data.status == Active && login.session.data.expiresAt == now + sessionTtl &&
    login.session.createdAt == now && login.session.data.lastSeenAt == now
  }

  lemma LoginIsAllowed(t: Tables, login: Request, userId: string, deviceHash: string, found: Option<string>, now: int)
    requires Safe(t) && userId in t.users
    requires IsFound(t, userId, deviceHash, found)
    requires login.LoginRequest? && IsLoginOf(t, login, userId, deviceHash, found, now)
    requires login.sid !in t.issued
    requires login.session.data.deviceId == login.did && login.session.data.userId == userId
    ensures Allowed(t, login)
  {
  }

  // ---------- the outcome ----------

  /** What an admission may end with, `t` before and `t'` after it. */
  ghost predicate AdmissionOutcome(a: Attempt, t: Tables, r: Admission, victims: set<string>, login: Request,
                                   t': Tables)
  {
    var synced := WithUser(t, a.userId, a.user);
    var active := ActiveDevices(t, a.userId);
    var isNew := IsNewDevice(t, a.userId, a.deviceHash);
    var full := isNew && 0 < r.limit <= |active|;
    if r.LimitExceeded? then full && a.policy == Strict && r.activeCount == |active| && t' == synced
    else
      (full ==> a.policy == Policy.KickOldest) && AreVictims(t, active, victims, ToKick(|active|, isNew, r.limit)) &&
      login.LoginRequest? && Allowed(Revoke(synced, victims, KICK, a.now), login) &&
      IsFreshSession(login, a.sessionTtl, a.now) &&
      IsAdmittedDevice(t, login, a.userId, a.deviceHash, a.now) &&
      (login.did in t.devices ==> t.devices[login.did].data.deviceHash == a.deviceHash) &&
      t' == Apply(Revoke(synced, victims, KICK, a.now), login) &&
      r.activeCount == if r.Admitted? then |ActiveDevices(t', a.userId)| else |active| - |victims|
  }

  lemma RefusedOutcome(a: Attempt, t: Tables, r: Admission, isNew: bool, found: Option<string>, victims: set<string>,
                       login: Request)
    requires r.LimitExceeded?
    requires RoomMade(a.policy, WithUser(t, a.userId, a.user), a.userId, a.deviceHash, r.limit, true, r.activeCount,
                      isNew, found, victims)
    ensures AdmissionOutcome(a, t, r, victims, login, WithUser(t, a.userId, a.user))
  {
    assert ActiveDevices(WithUser(t, a.userId, a.user), a.userId) == ActiveDevices(t, a.userId);
  }

  lemma AdmittedOutcome(a: Attempt, t: Tables, r: Admission, activeCount: int, isNew: bool, found: Option<string>,
                        victims: set<string>, login: Request)
    requires RoomMade(a.policy, WithUser(t, a.userId, a.user), a.userId, a.deviceHash, r.limit, false, activeCount,
                      isNew, found, victims)
    requires login.LoginRequest? && Allowed(Revoke(WithUser(t, a.userId, a.user), victims, KICK, a.now), login)
    requires IsLoginOf(Revoke(WithUser(t, a.userId, a.user), victims, KICK, a.now), login, a.userId, a.deviceHash,
                       found, a.now)
    requires IsFreshSession(login, a.sessionTtl, a.now)
    requires found.Some? ==> found.value in t.devices && HasHash(t, found.value, a.userId, a.deviceHash)
    requires !r.LimitExceeded? && r.activeCount == activeCount + if r.Admitted? && isNew then 1 else 0
    ensures AdmissionOutcome(a, t, r, victims, login,
                             Apply(Revoke(WithUser(t, a.userId, a.user), victims, KICK, a.now), login))
  {
    assert ActiveDevices(WithUser(t, a.userId, a.user), a.userId) == ActiveDevices(t, a.userId);
    ActiveAfterLogin(WithUser(t, a.userId, a.user), victims, KICK, a.now, login);
  }

  /** The device that logs in is none of the victims, and it was active before unless it is new. */
  lemma AdmittedDevice(a: Attempt, t: Tables, r: Admission, victims: set<string>, login: Request, t': Tables)
    requires AdmissionOutcome(a, t, r, victims, login, t') && !r.LimitExceeded?
    ensures login.did !in victims
    ensures login.did in ActiveDevices(t, a.userId) <==> !IsNewDevice(t, a.userId, a.deviceHash)
  {
    var kicked := Revoke(WithUser(t, a.userId, a.user), victims, KICK, a.now);
    assert Allowed(kicked, login);
    if d :| d in ActiveDevices(t, a.userId) && t.devices[d].data.deviceHash == a.deviceHash {
      assert kicked.devices[d].data.deviceHash == a.deviceHash && d in kicked.devices;
      assert d == login.did;
    }
  }

  /** How many devices are active after an admission, saved or not. */
  lemma AdmittedCount(a: Attempt, t: Tables, r: Admission, victims: set<string>, login: Request, t': Tables)
    requires AdmissionOutcome(a, t, r, victims, login, t') && !r.LimitExceeded?
    ensures var active, isNew := |ActiveDevices(t, a.userId)|, IsNewDevice(t, a.userId, a.deviceHash);
            |ActiveDevices(t', a.userId)| == active - ToKick(active, isNew, r.limit) + if isNew then 1 else 0
  {
    var synced := WithUser(t, a.userId, a.user);
    assert ActiveDevices(synced, a.userId) == ActiveDevices(t, a.userId);
    AdmittedDevice(a, t, r, victims, login, t');
    ActiveAfterLogin(synced, victims, KICK, a.now, login);
  }

  /** After a successful admission the user is within the limit exactly when the device was new or the user
      was within the limit before: an active device that logs in again is never refused, and nothing is kicked
      for it, even when the limit has been lowered meanwhile. */
  lemma AdmissionKeepsLimit(a: Attempt, t: Tables, r: Admission, victims: set<string>, login: Request, t': Tables)
    requires AdmissionOutcome(a, t, r, victims, login, t') && r.Admitted? && r.limit > 0
    ensures r.activeCount == |ActiveDevices(t', a.userId)|
    ensures |ActiveDevices(t', a.userId)| <= r.limit <==>
            IsNewDevice(t, a.userId, a.deviceHash) || |ActiveDevices(t, a.userId)| <= r.limit
  {
    AdmittedCount(a, t, r, victims, login, t');
  }

  /** Who is refused and who is kicked: a device that is not among the active ones is refused under the strict policy
      when the user has a limit and has reached it; otherwise as many of the active devices go as leaves the user
      exactly at the limit, and nobody goes who was seen later than a device that stays. */
  lemma KickedExactly(a: Attempt, t: Tables, r: Admission, victims: set<string>, login: Request, t': Tables)
    requires AdmissionOutcome(a, t, r, victims, login, t')
    ensures var active := set d | d in t.devices && t.devices[d].data.userId == a.userId &&
                                  t.devices[d].data.status == Active;
            var full := r.limit > 0 && |active| >= r.limit &&
                        forall d :: d in active ==> t.devices[d].data.deviceHash != a.deviceHash;
            (r.LimitExceeded? <==> full && a.policy == Strict) &&
            (r.LimitExceeded? ==> r.activeCount == |active| && t'.devices == t.devices && t'.sessions == t.sessions) &&
            (!r.LimitExceeded? ==>
               victims <= active && (if full then |ActiveDevices(t', a.userId)| == r.limit else victims == {}) &&
               forall v, d :: v in victims && d in active && d !in victims ==>
                 t.devices[v].data.lastSeenAt <= t.devices[d].data.lastSeenAt)
  {
    var active := set d | d in t.devices && t.devices[d].data.userId == a.userId && t.devices[d].data.status == Active;
    assert active == ActiveDevices(t, a.userId);
    if !r.LimitExceeded? {
      AdmittedCount(a, t, r, victims, login, t');
    }
  }

  /** The device as an admission leaves it. */
  lemma AdmittedDeviceIsActive(a: Attempt, t: Tables, r: Admission, victims: set<string>, login: Request, t': Tables)
    requires AdmissionOutcome(a, t, r, victims, login, t') && !r.LimitExceeded?
    ensures login.did in t'.devices
    ensures var d := t'.devices[login.did];
            d.data.userId == a.userId && d.data.deviceHash == a.deviceHash && d.data.status == Active &&
            d.data.lastSeenAt == a.now && d.data.revokedAt == None && d.data.revokedBy == "" &&
            d.createdAt == if login.did in t.devices then t.devices[login.did].createdAt else a.now
  {
  }

  /** The session of an admission authorizes from then on until its time to live is over, and it is the only
      one of the device that does. */
  lemma AdmittedAuthorizes(a: Attempt, t: Tables, r: Admission, victims: set<string>, login: Request, t': Tables,
                           later: int)
    requires AdmissionOutcome(a, t, r, victims, login, t') && !r.LimitExceeded?
    ensures Authorizes(t', login.sid, later) <==> later <= a.now + a.sessionTtl
    ensures forall s :: s in t'.sessions && t'.sessions[s].data.deviceId == login.did && Authorizes(t', s, later) ==>
              s == login.sid
  {
  }

  /** So it authorizes at every time until then, and at none after it. */
  lemma AdmittedUntil(a: Attempt, t: Tables, r: Admission, victims: set<string>, login: Request, t': Tables)
    requires AdmissionOutcome(a, t, r, victims, login, t') && !r.LimitExceeded?
    ensures login.sid in t'.sessions && t'.sessions[login.sid] == login.session
    ensures forall later :: Authorizes(t', login.sid, later) <==> later <= a.now + a.sessionTtl
  {
    forall later
      ensures Authorizes(t', login.sid, later) <==> later <= a.now + a.sessionTtl
    {
      AdmittedAuthorizes(a, t, r, victims, login, t', later);
    }
  }

  /** The token is new, and the session carries its hash; the one for subscriptions is another. */
  predicate IsNewToken(issued: set<string>, token: string, session: Row<SessionData>) {
    token != "" && token !in issued && session.data.tokenHash == token &&
    session.data.subscribeHash != "" && session.data.subscribeHash !in issued + {token}
  }

  const TWO_DEVICES: Table<DeviceData> := map[
    "d1" := Row(0, DeviceData("usr_x", "h1", Active, 0, None, "", "")),
    "d2" := Row(0, DeviceData("usr_x", "h2", Active, 0, None, "", ""))]

  /** A user with two active devices and a limit of two. */
  function TwoDevices(override: Option<int>): Tables {
    Tables(map["usr_x" := Row(0, UserData(Some(2), override, "", "x", "a"))], TWO_DEVICES, map[], {})
  }

  function LoginOfFirst(sessionTtl: int, now: int): Request {
    LoginRequest("d1", Row(0, DeviceData("usr_x", "h1", Active, now, None, "", "")), "ses",
                 Row(now, SessionData("usr_x", "d1", "t1", "s1", Active, now + sessionTtl, now, "")), now)
  }

  lemma TwoDevicesAreActive(override: Option<int>, sessionTtl: int, now: int)
    ensures var t, login := TwoDevices(override), LoginOfFirst(sessionTtl, now);
            Safe(t) && ActiveDevices(t, "usr_x") == {"d1", "d2"} && !IsNewDevice(t, "usr_x", "h1") &&
            Allowed(t, login) && ActiveDevices(Apply(t, login), "usr_x") == {"d1", "d2"}
  {
    var t, login := TwoDevices(override), LoginOfFirst(sessionTtl, now);
    assert ActiveDevices(t, "usr_x") == {"d1", "d2"};
    assert "d1" in ActiveDevices(t, "usr_x");
    assert Allowed(t, login);
    ActiveAfterPut(t, "d1", login.device);
    var t' := t.(devices := t.devices["d1" := login.device]);
    assert ActiveDevices(Apply(t, login), "usr_x") == ActiveDevices(t', "usr_x");
  }

  lemma SecondLoginIsAdmitted(a: Attempt)
    requires a.userId == "usr_x" && a.user == TwoDevices(Some(1)).users["usr_x"] && a.deviceHash == "h1"
    ensures var t, login := TwoDevices(Some(1)), LoginOfFirst(a.sessionTtl, a.now);
            Allowed(t, login) && AdmissionOutcome(a, t, Admitted(1, 2), {}, login, Apply(t, login))
  {
    var t := TwoDevices(Some(1));
    TwoDevicesAreActive(Some(1), a.sessionTtl, a.now);
    assert WithUser(t, a.userId, a.user) == t;
    RevokeNone(t, KICK, a.now);
  }

  lemma SecondLoginKeepsRecord(now: int)
    ensures var users := TwoDevices(Some(1)).users;
            IsUpsert(users, Snapshot("a", "x", "", Absent), "", 0, now, Some("usr_x"), "usr_x", users["usr_x"])
  {
    var users, s := TwoDevices(Some(1)).users, Snapshot("a", "x", "", Absent);
    LowerWords();
    assert Trim("a") == "a" && |"a"| != |"usr_x"|;
    assert IsUserOf(users, BusinessIdOf(s, ""), Some("usr_x"));
  }

  /** An administrator lowers the limit from two to one, and one of two active devices logs in again: the login
      leaves the record of the user as it is, so the limit is one, but it is admitted, and the user stays over
      the limit. */
  lemma LoweredLimitIsExceeded(policy: Policy, sessionTtl: int, now: int)
    ensures var t0, t := TwoDevices(None), TwoDevices(Some(1));
            Safe(t0) && EffectiveLimit(t0.users["usr_x"].data, 0) == 2 &&
            t == WithUser(t0, "usr_x", WithOverride(t0.users["usr_x"], Some(1)))
    ensures var t, login := TwoDevices(Some(1)), LoginOfFirst(sessionTtl, now);
            var user := t.users["usr_x"];
            IsUpsert(t.users, Snapshot("a", "x", "", Absent), "", 0, now, Some("usr_x"), "usr_x", user) &&
            EffectiveLimit(user.data, 0) == 1 &&
            Allowed(t, login) && |ActiveDevices(Apply(t, login), "usr_x")| == 2 &&
            AdmissionOutcome(Attempt(policy, sessionTtl, "usr_x", user, "h1", now), t, Admitted(1, 2), {}, login,
                             Apply(t, login))
  {
    var t0, t := TwoDevices(None), TwoDevices(Some(1));
    TwoDevicesAreActive(None, sessionTtl, now);
    TwoDevicesAreActive(Some(1), sessionTtl, now);
    SecondLoginKeepsRecord(now);
    assert "d1"[1] != "d2"[1];
    assert t.users == t0.users["usr_x" := WithOverride(t0.users["usr_x"], Some(1))];
    SecondLoginIsAdmitted(Attempt(policy, sessionTtl, "usr_x", t.users["usr_x"], "h1", now));
  }

  /** An admission is a run of allowed requests, so what every run keeps holds across it. */
  lemma AdmissionIsRun(a: Attempt, t: Tables, r: Admission, victims: set<string>, login: Request, t': Tables)
    requires AdmissionOutcome(a, t, r, victims, login, t')
    ensures var requests := [PutUserRequest(a.userId, a.user)] +
                            if r.LimitExceeded? then [] else [RevokeRequest(victims, KICK, a.now), login];
            IsRequestRun(t, requests) && AfterRequests(t, requests) == t'
  {
    var t1 := WithUser(t, a.userId, a.user);
    if r.LimitExceeded? {
      RunOfOne(t, PutUserRequest(a.userId, a.user));
    } else {
      var t2 := Revoke(t1, victims, KICK, a.now);
      RunOfOne(t2, login);
      RunPrepend(t1, RevokeRequest(victims, KICK, a.now), [login]);
      RunPrepend(t, PutUserRequest(a.userId, a.user), [RevokeRequest(victims, KICK, a.now), login]);
      assert [PutUserRequest(a.userId, a.user)] + [RevokeRequest(victims, KICK, a.now), login] ==
             [PutUserRequest(a.userId, a.user)] + ([RevokeRequest(victims, KICK, a.now)] + [login]);
    }
  }

  // ---------- what becomes of the sessions there were ----------

  lemma RevokedAuthorizes(t: Tables, ids: set<string>, actor: string, now: int, sid: string, later: int)
    requires Safe(t) && sid in t.sessions
    ensures Authorizes(Revoke(t, ids, actor, now), sid, later) <==>
            Authorizes(t, sid, later) && t.sessions[sid].data.deviceId !in ids
  {
    assert SessionBacked(t, sid);
  }

  lemma LoginAuthorizes(t: Tables, login: Request, sid: string, later: int)
    requires Safe(t) && login.LoginRequest? && Allowed(t, login) && sid in t.sessions
    ensures Authorizes(Apply(t, login), sid, later) <==>
            Authorizes(t, sid, later) && t.sessions[sid].data.deviceId != login.did
  {
    assert SessionBacked(t, sid) && sid in t.issued;
  }

  /** An admission ends exactly the sessions of the devices that are kicked and of the device that logs in. */
  lemma OtherSessionsStay(a: Attempt, t: Tables, r: Admission, victims: set<string>, login: Request, t': Tables,
                          sid: string, later: int)
    requires Safe(t) && AdmissionOutcome(a, t, r, victims, login, t') && sid in t.sessions
    ensures var did := t.sessions[sid].data.deviceId;
            Authorizes(t', sid, later) <==>
            Authorizes(t, sid, later) && (r.LimitExceeded? || (did !in victims && did != login.did))
  {
    var synced := WithUser(t, a.userId, a.user);
    ApplyKeepsSafe(t, PutUserRequest(a.userId, a.user));
    assert SessionBacked(t, sid);
    assert Authorizes(synced, sid, later) <==> Authorizes(t, sid, later);
    if !r.LimitExceeded? {
      RevokedAuthorizes(synced, victims, KICK, a.now, sid, later);
      RevokeKeepsSafe(synced, victims, KICK, a.now);
      LoginAuthorizes(Revoke(synced, victims, KICK, a.now), login, sid, later);
    }
  }

  // ---------- when the record of another account is replaced ----------

  lemma AdmissionStoresUser(a: Attempt, t: Tables, r: Admission, victims: set<string>, login: Request, t': Tables)
    requires AdmissionOutcome(a, t, r, victims, login, t')
    ensures t'.users == t.users[a.userId := a.user]
  {
  }

  /** Where a login replaces the record of another account, everything of the former owner belongs to the new
      one: the devices count against its limit and can be kicked by it, and the sessions authorize exactly as
      before, unless their device is kicked or is the one that logs in. */
  lemma FormerOwnerIsTakenOver(a: Attempt, s: Snapshot, fallbackEmail: string, defaultLimit: int, t: Tables,
                               r: Admission, victims: set<string>, login: Request, t': Tables, sid: string,
                               later: int)
    requires Safe(t) && AdmissionOutcome(a, t, r, victims, login, t')
    requires IsUpsert(t.users, s, fallbackEmail, defaultLimit, a.now, None, a.userId, a.user) && a.userId in t.users
    requires IsActiveSession(t, sid) && t.sessions[sid].data.userId == a.userId
    ensures t'.users[a.userId] == a.user && a.user.data.businessId == BusinessIdOf(s, fallbackEmail)
    ensures Trim(BusinessIdOf(s, fallbackEmail)) != "" ==>
              t.users[a.userId].data.businessId != Trim(BusinessIdOf(s, fallbackEmail))
    ensures var did, active := t.sessions[sid].data.deviceId, ActiveDevices(t, a.userId);
            did in active &&
            (r.LimitExceeded? <==>
             IsNewDevice(t, a.userId, a.deviceHash) && 0 < r.limit <= |active| && a.policy == Strict) &&
            (Authorizes(t', sid, later) <==>
             Authorizes(t, sid, later) && (r.LimitExceeded? || (did !in victims && did != login.did)))
  {
    assert SessionBacked(t, sid);
    AdmissionStoresUser(a, t, r, victims, login, t');
    OtherSessionsStay(a, t, r, victims, login, t', sid, later);
  }

  /** The owner of "usr_x", whose e-mail is no longer "x", with one device and a live session. */
  function FormerOwner(expiresAt: int): Tables {
    Tables(map["usr_x" := Row(0, UserData(None, None, "", "y", "a"))],
           map["d1" := Row(0, DeviceData("usr_x", "h1", Active, 0, None, "", ""))],
           map["s1" := Row(0, SessionData("usr_x", "d1", "t1", "u1", Active, expiresAt, 0, ""))], {"s1"})
  }

  function LoginOfAnother(now: int, sessionTtl: int): Request {
    LoginRequest("d2", Row(now, DeviceData("usr_x", "h2", Active, now, None, "", "")), "s2",
                 Row(now, SessionData("usr_x", "d2", "t2", "u2", Active, now + sessionTtl, now, "")), now)
  }

  lemma FormerOwnerFacts(now: int, expiresAt: int, user: Row<UserData>)
    ensures var t := FormerOwner(expiresAt);
            Safe(t) && ActiveDevices(t, "usr_x") == {"d1"} && IsNewDevice(t, "usr_x", "h2") &&
            WithUser(t, "usr_x", user) == t.(users := map["usr_x" := user])
  {
    assert "h1"[1] != "h2"[1];
    assert ActiveDevices(FormerOwner(expiresAt), "usr_x") == {"d1"};
  }

  lemma AnotherFindsNobody(now: int, expiresAt: int)
    ensures var users, s := FormerOwner(expiresAt).users, Snapshot("c", "x", "", Absent);
            IsUpsert(users, s, "", 1, now, None, "usr_x", Row(now, SyncedUser(NOBODY, s, "", 1)))
  {
    var users, s := FormerOwner(expiresAt).users, Snapshot("c", "x", "", Absent);
    LowerWords();
    assert |"c"| != |"usr_x"| && "c"[0] != "a"[0] && "c"[0] != "y"[0] && "x"[0] != "a"[0] && "x"[0] != "y"[0];
    assert IsUserOf(users, "c", None) && IsUserOf(users, "x", None);
  }

  lemma AnotherIsAdmitted(a: Attempt, expiresAt: int)
    requires a.policy == KickOldest && a.userId == "usr_x" && a.deviceHash == "h2"
    ensures var t, login := FormerOwner(expiresAt), LoginOfAnother(a.now, a.sessionTtl);
            var revoked := Revoke(WithUser(t, "usr_x", a.user), {"d1"}, KICK, a.now);
            Allowed(revoked, login) && AdmissionOutcome(a, t, Admitted(1, 1), {"d1"}, login, Apply(revoked, login))
  {
    var t, login := FormerOwner(expiresAt), LoginOfAnother(a.now, a.sessionTtl);
    FormerOwnerFacts(a.now, expiresAt, a.user);
    var synced := WithUser(t, "usr_x", a.user);
    assert "h1"[1] != "h2"[1] && "d1"[1] != "d2"[1] && "s1"[1] != "s2"[1];
    assert Allowed(Revoke(synced, {"d1"}, KICK, a.now), login);
    assert ActiveDevices(synced, "usr_x") == ActiveDevices(t, "usr_x");
    ActiveAfterLogin(synced, {"d1"}, KICK, a.now, login);
    assert AreVictims(t, {"d1"}, {"d1"}, 1);
  }

  /** An instance: the new account, with a limit of one, kicks the device of the former owner, whose session was
      live until then. */
  lemma NewAccountKicksFormerOwner(now: int, sessionTtl: int, expiresAt: int)
    requires now <= expiresAt
    ensures var t, s := FormerOwner(expiresAt), Snapshot("c", "x", "", Absent);
            exists user, login, t' ::
              IsUpsert(t.users, s, "", 1, now, None, "usr_x", user) &&
              AdmissionOutcome(Attempt(KickOldest, sessionTtl, "usr_x", user, "h2", now), t, Admitted(1, 1), {"d1"},
                               login, t') &&
              Authorizes(t, "s1", now) && !Authorizes(t', "s1", now)
  {
    var t, login := FormerOwner(expiresAt), LoginOfAnother(now, sessionTtl);
    var user := Row(now, SyncedUser(NOBODY, Snapshot("c", "x", "", Absent), "", 1));
    var a := Attempt(KickOldest, sessionTtl, "usr_x", user, "h2", now);
    FormerOwnerFacts(now, expiresAt, user);
    AnotherFindsNobody(now, expiresAt);
    AnotherIsAdmitted(a, expiresAt);
    var t' := Apply(Revoke(WithUser(t, "usr_x", user), {"d1"}, KICK, now), login);
    OtherSessionsStay(a, t, Admitted(1, 1), {"d1"}, login, t', "s1", now);
  }
}
