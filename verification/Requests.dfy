/** Authorization, revocation and clean-up as changes of the tables, and what their runs keep. */
module Requests {
  import opened Collections
  import opened WriteBack
  import opened StoreProtocol
  import opened SessionIndex
  import opened SessionSafety
  import opened Devices
  import opened Admissions

  const MINUTE := 60
  const DAY := 24 * 60 * MINUTE
  const OFFLINE := "system:auto_offline"

  // ---------- authorization ----------

  datatype AuthError = KickedByNewLogin | DeviceRevoked | SessionExpired | SessionInvalid

  datatype AuthResult =
    | Miss
    | Refused(sid: string, error: AuthError)
    | Authorized(sid: string)
    | NotSaved(sid: string)

  ghost predicate HasToken(t: Tables, kind: Kind, tokenHash: string) {
    tokenHash != "" && exists sid :: sid in t.sessions && Hash(kind, t.sessions[sid].data) == tokenHash
  }

  /** The tables as a reload takes them from the database; session ids once known stay known. */
  function ReadFrom(t: Tables, db: Database): Tables {
    Tables(db.users, db.devices, db.sessions, t.issued + db.sessions.Keys)
  }

  function AuthorizationError(devices: Table<DeviceData>, session: SessionData, now: int): AuthError {
    var revokedBy :=
      if session.status == Revoked && session.deviceId in devices then devices[session.deviceId].data.revokedBy else "";
    if revokedBy == KICK then KickedByNewLogin
    else if revokedBy == "user" || revokedBy == "admin" then DeviceRevoked
    else if session.status == Expired || now > session.expiresAt then SessionExpired
    else SessionInvalid
  }

  ghost function RefusalReason(t: Tables, sid: string, now: int): AuthError
    requires sid in t.sessions
  {
    AuthorizationError(t.devices, t.sessions[sid].data, now)
  }

  /** What an authorization leaves behind: an overdue session expires, a live one is touched. */
  ghost function AfterAuthorize(t: Tables, sid: string, sessionInfo: string, deviceInfo: string, now: int): Tables
    requires sid in t.sessions
  {
    if Authorizes(t, sid, now) then
      if now - t.sessions[sid].data.lastSeenAt > MINUTE then Heartbeat(t, sid, sessionInfo, deviceInfo, now) else t
    else if IsActiveSession(t, sid) && now > t.sessions[sid].data.expiresAt then Apply(t, ExpireRequest(sid))
    else t
  }

  // ---------- what a refused client is told ----------

  /** Which refusal a session gets: a revoked one by who has revoked its device, otherwise by whether it is over. */
  lemma RefusalExactly(t: Tables, sid: string, now: int)
    requires sid in t.sessions
    ensures var s, error := t.sessions[sid].data, RefusalReason(t, sid, now);
            var who := if s.status == Revoked && s.deviceId in t.devices then t.devices[s.deviceId].data.revokedBy
                       else "";
            (error == KickedByNewLogin <==> who == "system:kick_oldest") &&
            (error == DeviceRevoked <==> who == "user" || who == "admin") &&
            (error == SessionExpired <==> who !in ["system:kick_oldest", "user", "admin"] &&
                                          (s.status == Expired || now > s.expiresAt)) &&
            (error == SessionInvalid <==> who !in ["system:kick_oldest", "user", "admin"] &&
                                          s.status != Expired && now <= s.expiresAt)
  {
  }

  /** The session of `sid` on the device `did` has been revoked at `at`, and `who` is noted with the device. */
  ghost predicate IsEnded(t: Tables, sid: string, did: string, who: string, at: int) {
    sid in t.sessions && t.sessions[sid].data.status == Revoked && t.sessions[sid].data.expiresAt == at &&
    t.sessions[sid].data.deviceId == did && did in t.devices && t.devices[did].data.revokedBy == who &&
    sid in t.issued
  }

  /** The device logs in, is revoked again, or is deleted. */
  predicate Concerns(r: Request, did: string) {
    match r
    case LoginRequest(d, _, _, _, _) => d == did
    case RevokeRequest(ids, _, _) => did in ids
    case DeleteRequest(ids) => did in ids
    case _ => false
  }

  lemma OthersLeaveEnded(t: Tables, r: Request, sid: string, did: string, who: string, at: int)
    requires Safe(t) && Allowed(t, r) && IsEnded(t, sid, did, who, at) && !Concerns(r, did)
    ensures IsEnded(Apply(t, r), sid, did, who, at)
  {
  }

  lemma {:induction false} RunLeavesEnded(t: Tables, requests: seq<Request>, sid: string, did: string, who: string,
                                          at: int)
    requires Safe(t) && IsRequestRun(t, requests) && IsEnded(t, sid, did, who, at)
    requires forall r :: r in requests ==> !Concerns(r, did)
    ensures IsEnded(AfterRequests(t, requests), sid, did, who, at)
    decreases |requests|
  {
    if requests != [] {
      assert requests[0] in requests;
      OthersLeaveEnded(t, requests[0], sid, did, who, at);
      ApplyKeepsSafe(t, requests[0]);
      RunLeavesEnded(Apply(t, requests[0]), requests[1..], sid, did, who, at);
    }
  }

  lemma EndedIsTold(t: Tables, requests: seq<Request>, sid: string, did: string, who: string, at: int, later: int)
    requires Safe(t) && IsRequestRun(t, requests) && IsEnded(t, sid, did, who, at)
    requires forall r :: r in requests ==> !Concerns(r, did)
    ensures var t' := AfterRequests(t, requests);
            sid in t'.sessions && !Authorizes(t', sid, later) &&
            RefusalReason(t', sid, later) ==
              if who == "system:kick_oldest" then KickedByNewLogin
              else if who == "user" || who == "admin" then DeviceRevoked
              else if later > at then SessionExpired
              else SessionInvalid
  {
    RunLeavesEnded(t, requests, sid, did, who, at);
  }

  /** Through every run in which the device neither logs in nor is revoked again nor is deleted, a client whose
      device has been revoked is told at whatever time it asks that it was kicked, or that it was removed by the
      user or an administrator. If the clean-up has revoked it, its session is over. */
  lemma RevokedIsTold(t: Tables, ids: set<string>, actor: string, sid: string, now: int, requests: seq<Request>,
                      later: int)
    requires Safe(t) && IsActiveSession(t, sid) && t.sessions[sid].data.deviceId in ids
    requires IsRequestRun(Revoke(t, ids, actor, now), requests)
    requires forall r :: r in requests ==> !Concerns(r, t.sessions[sid].data.deviceId)
    ensures var t' := AfterRequests(Revoke(t, ids, actor, now), requests);
            sid in t'.sessions && !Authorizes(t', sid, later) &&
            RefusalReason(t', sid, later) ==
              if actor == "system:kick_oldest" then KickedByNewLogin
              else if actor == "user" || actor == "admin" then DeviceRevoked
              else if later > now then SessionExpired
              else SessionInvalid
  {
    assert SessionBacked(t, sid);
    RevokeKeepsSafe(t, ids, actor, now);
    EndedIsTold(Revoke(t, ids, actor, now), requests, sid, t.sessions[sid].data.deviceId, actor, now, later);
  }

  /** The victims of an admission are told that they were kicked. */
  lemma KickedIsTold(t: Tables, victims: set<string>, sid: string, now: int, requests: seq<Request>, later: int)
    requires Safe(t) && IsActiveSession(t, sid) && t.sessions[sid].data.deviceId in victims
    requires IsRequestRun(Revoke(t, victims, KICK, now), requests)
    requires forall r :: r in requests ==> !Concerns(r, t.sessions[sid].data.deviceId)
    ensures var t' := AfterRequests(Revoke(t, victims, KICK, now), requests);
            sid in t'.sessions && !Authorizes(t', sid, later) && RefusalReason(t', sid, later) == KickedByNewLogin
  {
    RevokedIsTold(t, victims, KICK, sid, now, requests, later);
  }

  /** A client whose session another login of its device has ended is not told that it was kicked or removed, even
      if the device had been before, only that its session is over. */
  lemma SupersededIsTold(a: Attempt, t: Tables, r: Admission, victims: set<string>, login: Request, t': Tables,
                         sid: string, requests: seq<Request>, later: int)
    requires Safe(t) && AdmissionOutcome(a, t, r, victims, login, t') && !r.LimitExceeded?
    requires IsActiveSession(t, sid) && t.sessions[sid].data.deviceId == login.did
    requires IsRequestRun(t', requests) && forall e :: e in requests ==> !Concerns(e, login.did)
    ensures var t'' := AfterRequests(t', requests);
            sid in t''.sessions && !Authorizes(t'', sid, later) &&
            RefusalReason(t'', sid, later) == if later > a.now then SessionExpired else SessionInvalid
  {
    AdmissionEnds(a, t, r, victims, login, t', sid);
    AdmissionLeads(a, t, r, victims, login, t');
    LeadsSafely(t, t', sid, later);
    EndedIsTold(t', requests, sid, login.did, "", a.now, later);
  }

  lemma AdmissionEnds(a: Attempt, t: Tables, r: Admission, victims: set<string>, login: Request, t': Tables,
                      sid: string)
    requires Safe(t) && AdmissionOutcome(a, t, r, victims, login, t') && !r.LimitExceeded?
    requires IsActiveSession(t, sid) && t.sessions[sid].data.deviceId == login.did
    ensures IsEnded(t', sid, login.did, "", a.now)
  {
    var kicked := Revoke(WithUser(t, a.userId, a.user), victims, KICK, a.now);
    assert sid in t.issued && kicked.issued == t.issued && Allowed(kicked, login);
    AdmittedDeviceIsActive(a, t, r, victims, login, t');
  }

  /** An overdue session is told so when it asks, and from then on at whatever time and through every run, until it
      is deleted with its device. */
  lemma {:induction false} ExpiredIsTold(t: Tables, requests: seq<Request>, sid: string, later: int)
    requires Safe(t) && IsRequestRun(t, requests) && sid in t.sessions && t.sessions[sid].data.status == Expired
    ensures var t' := AfterRequests(t, requests);
            !Authorizes(t', sid, later) && (sid in t'.sessions ==> RefusalReason(t', sid, later) == SessionExpired)
    decreases |requests|
  {
    if requests != [] {
      ApplyKeepsSafe(t, requests[0]);
      StaysExpired(t, requests[0], sid);
      if sid in Apply(t, requests[0]).sessions {
        ExpiredIsTold(Apply(t, requests[0]), requests[1..], sid, later);
      } else {
        GoneIsGone(Apply(t, requests[0]), requests[1..], sid);
      }
    }
  }

  lemma StaysExpired(t: Tables, r: Request, sid: string)
    requires Safe(t) && Allowed(t, r) && sid in t.sessions && t.sessions[sid].data.status == Expired
    ensures sid in Apply(t, r).issued
    ensures sid in Apply(t, r).sessions ==> Apply(t, r).sessions[sid].data.status == Expired
  {
    assert sid in t.issued;
  }

  lemma {:induction false} GoneIsGone(t: Tables, requests: seq<Request>, sid: string)
    requires Safe(t) && IsRequestRun(t, requests) && sid in t.issued && sid !in t.sessions
    ensures sid !in AfterRequests(t, requests).sessions
    decreases |requests|
  {
    if requests != [] {
      ApplyKeepsSafe(t, requests[0]);
      GoneIsGone(Apply(t, requests[0]), requests[1..], sid);
    }
  }

  /** The authorization that finds the session overdue. */
  lemma OverdueExpires(t: Tables, sid: string, sessionInfo: string, deviceInfo: string, now: int)
    requires Safe(t) && IsActiveSession(t, sid) && now > t.sessions[sid].data.expiresAt
    ensures RefusalReason(t, sid, now) == SessionExpired
    ensures var t' := AfterAuthorize(t, sid, sessionInfo, deviceInfo, now);
            sid in t'.sessions && t'.sessions[sid].data.status == Expired && t'.devices == t.devices &&
            forall s :: s in t.sessions && s != sid ==> s in t'.sessions && t'.sessions[s] == t.sessions[s]
  {
  }

  // ---------- clean-up ----------

  /** Active devices that have not been seen for thirty days. */
  ghost function Offline(devices: Table<DeviceData>, now: int): set<string> {
    set d | d in devices && devices[d].data.status == Active && devices[d].data.lastSeenAt < now - 30 * DAY
  }

  /** Devices that were revoked more than ninety days ago. */
  ghost function Stale(devices: Table<DeviceData>, now: int): set<string> {
    set d | d in devices && devices[d].data.status == Revoked &&
            devices[d].data.revokedAt.Some? && devices[d].data.revokedAt.value < now - 90 * DAY
  }

  ghost function SessionsLeft(sessions: Table<SessionData>, id: string, done: set<string>): Table<SessionData> {
    map s | s in sessions && (s in done ==> sessions[s].data.deviceId != id) :: sessions[s]
  }

  lemma SessionsLeftEnds(t: Tables, id: string)
    ensures SessionsLeft(t.sessions, id, {}) == t.sessions
    ensures SessionsLeft(t.sessions, id, t.sessions.Keys) == Delete(t, {id}).sessions
  {
  }

  lemma SessionsLeftStep(sessions: Table<SessionData>, id: string, done: set<string>, sid: string)
    requires sid in sessions && sid !in done
    ensures sid in SessionsLeft(sessions, id, done) && SessionsLeft(sessions, id, done)[sid] == sessions[sid]
    ensures SessionsLeft(sessions, id, done + {sid}) ==
            if sessions[sid].data.deviceId == id then SessionsLeft(sessions, id, done) - {sid}
            else SessionsLeft(sessions, id, done)
  {
  }

  lemma DeleteTwice(t: Tables, ids: set<string>, id: string)
    ensures Delete(Delete(t, ids), {id}) == Delete(t, ids + {id})
  {
    assert Delete(Delete(t, ids), {id}).sessions == Delete(t, ids + {id}).sessions;
    assert Delete(Delete(t, ids), {id}).devices == Delete(t, ids + {id}).devices;
  }

  lemma DeleteNone(t: Tables)
    ensures Delete(t, {}) == t
  {
    assert Delete(t, {}).sessions == t.sessions;
    assert Delete(t, {}).devices == t.devices;
  }

  // ---------- the sessions of a revoked device ----------

  function RevokedAmong(sessions: Table<SessionData>, id: string, now: int, done: set<string>): Table<SessionData> {
    map s | s in sessions ::
      if s in done && sessions[s].data.deviceId == id && sessions[s].data.status == Active
      then RevokedSession(sessions[s], now) else sessions[s]
  }

  lemma RevokedAmongEnds(sessions: Table<SessionData>, id: string, now: int)
    ensures RevokedAmong(sessions, id, now, {}) == sessions
    ensures RevokedAmong(sessions, id, now, sessions.Keys) == RevokeSessions(sessions, {id}, now)
  {
  }

  lemma RevokedAmongStep(sessions: Table<SessionData>, id: string, now: int, done: set<string>, sid: string)
    requires sid in sessions && sid !in done
    ensures RevokedAmong(sessions, id, now, done)[sid] == sessions[sid]
    ensures RevokedAmong(sessions, id, now, done + {sid}) ==
            if sessions[sid].data.deviceId == id && sessions[sid].data.status == Active
            then RevokedAmong(sessions, id, now, done)[sid := RevokedSession(sessions[sid], now)]
            else RevokedAmong(sessions, id, now, done)
  {
  }

  // ---------- every request is a run of the transitions whose runs are safe ----------

  /** Allowed requests lead from `t` to `t'`. */
  ghost predicate Leads(t: Tables, t': Tables) {
    exists requests :: IsRequestRun(t, requests) && AfterRequests(t, requests) == t'
  }

  /** Whatever requests lead to is safe, and nothing that has left active authorizes there. */
  lemma LeadsSafely(t: Tables, t': Tables, sid: string, now: int)
    requires Safe(t) && Leads(t, t')
    ensures Safe(t') && (Retired(t, sid) ==> !Authorizes(t', sid, now))
  {
    var requests :| IsRequestRun(t, requests) && AfterRequests(t, requests) == t';
    RunKeepsSafe(t, requests);
    if Retired(t, sid) {
      RetiredNeverAuthorizes(t, requests, sid, now);
    }
  }

  lemma OneLeads(t: Tables, r: Request)
    requires Allowed(t, r)
    ensures Leads(t, Apply(t, r))
  {
    RunOfOne(t, r);
  }

  lemma NoneLeads(t: Tables)
    ensures Leads(t, t)
  {
    assert IsRequestRun(t, []) && AfterRequests(t, []) == t;
  }

  lemma AuthorizeLeads(t: Tables, sid: string, sessionInfo: string, deviceInfo: string, now: int)
    requires sid in t.sessions
    ensures Leads(t, AfterAuthorize(t, sid, sessionInfo, deviceInfo, now))
  {
    if Authorizes(t, sid, now) && now - t.sessions[sid].data.lastSeenAt > MINUTE {
      OneLeads(t, HeartbeatRequest(sid, sessionInfo, deviceInfo, now));
    } else if IsActiveSession(t, sid) && now > t.sessions[sid].data.expiresAt {
      OneLeads(t, ExpireRequest(sid));
    } else {
      NoneLeads(t);
    }
  }

  lemma RevokeLeads(t: Tables, ids: set<string>, actor: string, now: int)
    ensures Leads(t, Revoke(t, ids, actor, now))
  {
    OneLeads(t, RevokeRequest(ids, actor, now));
  }

  lemma PatchLeads(t: Tables, userId: string, override: Option<int>)
    requires userId in t.users
    ensures Leads(t, WithUser(t, userId, WithOverride(t.users[userId], override)))
  {
    OneLeads(t, PutUserRequest(userId, WithOverride(t.users[userId], override)));
  }

  lemma AdmissionLeads(a: Attempt, t: Tables, r: Admission, victims: set<string>, login: Request, t': Tables)
    requires AdmissionOutcome(a, t, r, victims, login, t')
    ensures Leads(t, t')
  {
    AdmissionIsRun(a, t, r, victims, login, t');
  }

  lemma CleanupLeads(t: Tables, now: int)
    ensures var revoked := Revoke(t, Offline(t.devices, now), OFFLINE, now);
            Leads(t, Delete(revoked, Stale(revoked.devices, now)))
  {
    var offline := RevokeRequest(Offline(t.devices, now), OFFLINE, now);
    var revoked := Apply(t, offline);
    var stale := DeleteRequest(Stale(revoked.devices, now));
    RunOfOne(revoked, stale);
    RunPrepend(t, offline, [stale]);
  }

  // ---------- whole histories of a gateway ----------

  const EMPTY := Tables(map[], map[], map[], {})

  /** A call of the gateway with what it came to. */
  datatype Call =
    | AdmitCall(a: Attempt, r: Admission, victims: set<string>, login: Request)
    | AuthorizeCall(sid: string, sessionInfo: string, deviceInfo: string, now: int)
    | SubscribeCall(sid: string, info: string)
    | RevokeCall(id: string, actor: string, now: int)
    | PatchCall(userId: string, override: Option<int>)
    | CleanupCall(now: int)

  ghost predicate Served(t: Tables, c: Call, t': Tables) {
    match c
    case AdmitCall(a, r, victims, login) => AdmissionOutcome(a, t, r, victims, login, t')
    case AuthorizeCall(sid, sessionInfo, deviceInfo, now) =>
      sid in t.sessions && t' == AfterAuthorize(t, sid, sessionInfo, deviceInfo, now)
    case SubscribeCall(sid, info) => sid in t.sessions && t' == Apply(t, SubscriptionRequest(sid, info))
    case RevokeCall(id, actor, now) => t' == Revoke(t, {id}, actor, now)
    case PatchCall(userId, override) =>
      userId in t.users && t' == WithUser(t, userId, WithOverride(t.users[userId], override))
    case CleanupCall(now) =>
      var revoked := Revoke(t, Offline(t.devices, now), OFFLINE, now);
      t' == Delete(revoked, Stale(revoked.devices, now))
  }

  /** A gateway begins without users, devices and sessions and serves one call after the other. */
  ghost predicate IsHistory(states: seq<Tables>, calls: seq<Call>) {
    |states| == |calls| + 1 && states[0] == EMPTY &&
    forall i, j :: 0 <= i && j == i + 1 < |states| ==> Served(states[i], calls[i], states[j])
  }

  /** A subscription address that has been looked up is kept with the session, and nothing else changes. */
  lemma SubscriptionIsKept(t: Tables, sid: string, info: string, t': Tables)
    requires Served(t, SubscribeCall(sid, info), t')
    ensures t'.sessions.Keys == t.sessions.Keys && t'.sessions[sid].data.info == info
    ensures t'.users == t.users && t'.devices == t.devices
    ensures forall s :: s in t.sessions && s != sid ==> t'.sessions[s] == t.sessions[s]
    ensures var s, s' := t.sessions[sid].data, t'.sessions[sid].data;
            s'.status == s.status && s'.deviceId == s.deviceId && s'.expiresAt == s.expiresAt &&
            s'.tokenHash == s.tokenHash && s'.subscribeHash == s.subscribeHash && s'.lastSeenAt == s.lastSeenAt
  {
  }

  lemma ServedLeads(t: Tables, c: Call, t': Tables)
    requires Served(t, c, t')
    ensures Leads(t, t')
  {
    match c
    case AdmitCall(a, r, victims, login) => AdmissionLeads(a, t, r, victims, login, t');
    case AuthorizeCall(sid, sessionInfo, deviceInfo, now) => AuthorizeLeads(t, sid, sessionInfo, deviceInfo, now);
    case SubscribeCall(sid, info) => OneLeads(t, SubscriptionRequest(sid, info));
    case RevokeCall(id, actor, now) => RevokeLeads(t, {id}, actor, now);
    case PatchCall(userId, override) => PatchLeads(t, userId, override);
    case CleanupCall(now) => CleanupLeads(t, now);
  }

  lemma {:induction false} RunsJoin(t: Tables, first: seq<Request>, second: seq<Request>)
    requires IsRequestRun(t, first) && IsRequestRun(AfterRequests(t, first), second)
    ensures IsRequestRun(t, first + second)
    ensures AfterRequests(t, first + second) == AfterRequests(AfterRequests(t, first), second)
    decreases |first|
  {
    if first == [] {
      assert first + second == second;
    } else {
      RunsJoin(Apply(t, first[0]), first[1..], second);
      assert (first + second)[1..] == first[1..] + second;
    }
  }

  lemma LeadsOn(t: Tables, t': Tables, t'': Tables)
    requires Leads(t, t') && Leads(t', t'')
    ensures Leads(t, t'')
  {
    var first :| IsRequestRun(t, first) && AfterRequests(t, first) == t';
    var second :| IsRequestRun(t', second) && AfterRequests(t', second) == t'';
    RunsJoin(t, first, second);
  }

  lemma {:induction false} HistoryLeads(states: seq<Tables>, calls: seq<Call>, i: nat, j: nat)
    requires IsHistory(states, calls) && i <= j < |states|
    ensures Leads(states[i], states[j])
    decreases j
  {
    if i == j {
      NoneLeads(states[i]);
    } else {
      HistoryLeads(states, calls, i, j - 1);
      ServedLeads(states[j - 1], calls[j - 1], states[j]);
      LeadsOn(states[i], states[j - 1], states[j]);
    }
  }

  /** Whatever calls a gateway serves from its beginning on, it is safe in every state, and a session that is
      known and not active in one state authorizes in no later one. */
  lemma HistoryIsSafe(states: seq<Tables>, calls: seq<Call>, i: nat, j: nat, sid: string, now: int)
    requires IsHistory(states, calls) && i <= j < |states|
    ensures Safe(states[i]) && (Retired(states[i], sid) ==> !Authorizes(states[j], sid, now))
  {
    EmptyIsSafe();
    HistoryLeads(states, calls, 0, i);
    LeadsSafely(EMPTY, states[i], sid, now);
    HistoryLeads(states, calls, i, j);
    LeadsSafely(states[i], states[j], sid, now);
  }

  /** An admission of one user leaves the active devices of the others as they are. */
  lemma OthersStayActive(a: Attempt, t: Tables, r: Admission, victims: set<string>, login: Request, t': Tables,
                         userId: string)
    requires AdmissionOutcome(a, t, r, victims, login, t') && userId != a.userId
    ensures ActiveDevices(t', userId) == ActiveDevices(t, userId)
  {
    if !r.LimitExceeded? {
      var kicked := Revoke(WithUser(t, a.userId, a.user), victims, KICK, a.now);
      assert Allowed(kicked, login);
    }
  }

  /** No call but an admission makes a device active. */
  lemma OnlyAdmissionsActivate(t: Tables, c: Call, t': Tables, userId: string)
    requires Served(t, c, t') && !c.AdmitCall?
    ensures ActiveDevices(t', userId) <= ActiveDevices(t, userId)
  {
  }

  lemma ServedKeepsLimit(t: Tables, c: Call, t': Tables, userId: string, highest: int)
    requires Served(t, c, t') && 0 <= highest && |ActiveDevices(t, userId)| <= highest
    requires c.AdmitCall? && c.a.userId == userId ==> 0 < c.r.limit <= highest
    ensures |ActiveDevices(t', userId)| <= highest
  {
    if !c.AdmitCall? {
      OnlyAdmissionsActivate(t, c, t', userId);
      SubsetSize(ActiveDevices(t', userId), ActiveDevices(t, userId));
    } else if c.a.userId != userId {
      OthersStayActive(c.a, t, c.r, c.victims, c.login, t', userId);
    } else if c.r.LimitExceeded? {
      assert ActiveDevices(t', userId) == ActiveDevices(t, userId);
    } else {
      AdmittedCount(c.a, t, c.r, c.victims, c.login, t');
    }
  }

  /** Through every history a user has no more active devices than the highest limit that was in force at one of
      its admissions, however limits are raised and lowered meanwhile. */
  lemma {:induction false} NeverAboveHighestLimit(states: seq<Tables>, calls: seq<Call>, i: nat, userId: string,
                                                  highest: int)
    requires IsHistory(states, calls) && i < |states| && 0 <= highest
    requires forall k :: 0 <= k < i && calls[k].AdmitCall? && calls[k].a.userId == userId ==>
               0 < calls[k].r.limit <= highest
    ensures |ActiveDevices(states[i], userId)| <= highest
    decreases i
  {
    if i == 0 {
      assert ActiveDevices(EMPTY, userId) == {};
    } else {
      NeverAboveHighestLimit(states, calls, i - 1, userId, highest);
      ServedKeepsLimit(states[i - 1], calls[i - 1], states[i], userId, highest);
    }
  }
}
