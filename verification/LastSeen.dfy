/** When sessions and devices were last seen: what heartbeats record, and what the clean-up makes of it. */
module LastSeen {
  import opened Collections
  import opened WriteBack
  import opened StoreProtocol
  import opened SessionSafety
  import opened Devices
  import opened Admissions
  import opened Requests

  /** The device of an active session was last seen when the session was. */
  ghost predicate SeenTogether(t: Tables) {
    forall sid :: IsActiveSession(t, sid) ==>
      t.sessions[sid].data.deviceId in t.devices &&
      t.devices[t.sessions[sid].data.deviceId].data.lastSeenAt == t.sessions[sid].data.lastSeenAt
  }

  // ---------- authorizations ----------

  /** The session and its device carry the time `now`, with the address and program of the request, where the
      session was last seen more than 60 seconds before, and what they had otherwise. */
  ghost predicate IsSeen(t: Tables, t': Tables, sid: string, sessionInfo: string, deviceInfo: string, now: int) {
    IsActiveSession(t, sid) && t.sessions[sid].data.deviceId in t.devices &&
    var s, did := t.sessions[sid].data, t.sessions[sid].data.deviceId;
    sid in t'.sessions && did in t'.devices &&
    if now - s.lastSeenAt > 60 then
      t'.sessions[sid].data.lastSeenAt == now && t'.sessions[sid].data.info == sessionInfo &&
      t'.devices[did].data.lastSeenAt == now && t'.devices[did].data.info == deviceInfo
    else t'.sessions[sid] == t.sessions[sid] && t'.devices[did] == t.devices[did]
  }

  /** An authorization that succeeds at `now` leaves the session seen within the last minute, and live. */
  lemma AuthorizedIsSeen(t: Tables, sid: string, sessionInfo: string, deviceInfo: string, now: int)
    requires Authorizes(t, sid, now)
    ensures var t' := AfterAuthorize(t, sid, sessionInfo, deviceInfo, now);
            IsSeen(t, t', sid, sessionInfo, deviceInfo, now) && t'.sessions[sid].data.lastSeenAt >= now - 60 &&
            Authorizes(t', sid, now) &&
            t'.sessions[sid].data.deviceId == t.sessions[sid].data.deviceId &&
            t'.sessions[sid].data.expiresAt == t.sessions[sid].data.expiresAt &&
            (SeenTogether(t) ==> t'.devices[t.sessions[sid].data.deviceId].data.lastSeenAt >= now - 60)
  {
  }

  /** Nor does an authorization, whatever it comes to, record anything elsewhere. */
  lemma OthersAreNotSeen(t: Tables, sid: string, sessionInfo: string, deviceInfo: string, now: int)
    requires sid in t.sessions
    ensures var t' := AfterAuthorize(t, sid, sessionInfo, deviceInfo, now);
            t'.sessions.Keys == t.sessions.Keys && t'.devices.Keys == t.devices.Keys && t'.users == t.users &&
            (forall s :: s in t.sessions && s != sid ==> t'.sessions[s] == t.sessions[s]) &&
            forall d :: d in t.devices && d != t.sessions[sid].data.deviceId ==> t'.devices[d] == t.devices[d]
  {
  }

  lemma AuthorizeKeepsSeen(t: Tables, sid: string, sessionInfo: string, deviceInfo: string, now: int)
    requires Safe(t) && SeenTogether(t) && sid in t.sessions
    ensures SeenTogether(AfterAuthorize(t, sid, sessionInfo, deviceInfo, now))
  {
  }

  lemma RevokeKeepsSeen(t: Tables, ids: set<string>, actor: string, now: int)
    requires SeenTogether(t)
    ensures SeenTogether(Revoke(t, ids, actor, now))
  {
  }

  lemma AdmissionKeepsSeen(a: Attempt, t: Tables, r: Admission, victims: set<string>, login: Request, t': Tables)
    requires SeenTogether(t) && AdmissionOutcome(a, t, r, victims, login, t')
    ensures SeenTogether(t')
  {
    if !r.LimitExceeded? {
      RevokeKeepsSeen(WithUser(t, a.userId, a.user), victims, KICK, a.now);
      var kicked := Revoke(WithUser(t, a.userId, a.user), victims, KICK, a.now);
      forall sid | IsActiveSession(t', sid)
        ensures t'.sessions[sid].data.deviceId in t'.devices
        ensures t'.devices[t'.sessions[sid].data.deviceId].data.lastSeenAt == t'.sessions[sid].data.lastSeenAt
      {
        if sid != login.sid {
          assert IsActiveSession(kicked, sid) && t'.sessions[sid].data.deviceId != login.did;
        }
      }
    }
  }

  lemma ServedKeepsSeen(t: Tables, c: Call, t': Tables)
    requires Safe(t) && SeenTogether(t) && Served(t, c, t')
    ensures SeenTogether(t')
  {
    match c
    case AdmitCall(a, r, victims, login) => AdmissionKeepsSeen(a, t, r, victims, login, t');
    case AuthorizeCall(sid, sessionInfo, deviceInfo, now) =>
      AuthorizeKeepsSeen(t, sid, sessionInfo, deviceInfo, now);
    case SubscribeCall(sid, info) =>
    case RevokeCall(id, actor, now) =>
    case PatchCall(userId, override) =>
    case CleanupCall(now) => RevokeKeepsSeen(t, Offline(t.devices, now), OFFLINE, now);
  }

  /** In every state of every history an active session and its device were last seen at the same time. */
  lemma {:induction false} HistoryKeepsSeen(states: seq<Tables>, calls: seq<Call>, i: nat)
    requires IsHistory(states, calls) && i < |states|
    ensures forall sid :: sid in states[i].sessions && states[i].sessions[sid].data.status == Active ==>
              var s := states[i].sessions[sid].data;
              s.deviceId in states[i].devices && states[i].devices[s.deviceId].data.status == Active &&
              states[i].devices[s.deviceId].data.lastSeenAt == s.lastSeenAt
    ensures SeenTogether(states[i])
    decreases i
  {
    if i > 0 {
      HistoryKeepsSeen(states, calls, i - 1);
      HistoryIsSafe(states, calls, i - 1, i, "", 0);
      ServedKeepsSeen(states[i - 1], calls[i - 1], states[i]);
    }
    HistoryIsSafe(states, calls, i, i, "", 0);
    forall sid | IsActiveSession(states[i], sid)
      ensures IsActiveDevice(states[i], states[i].sessions[sid].data.deviceId)
    {
      assert SessionBacked(states[i], sid);
    }
  }

  // ---------- times do not go back ----------

  /** The session is still active and was last seen no earlier. */
  ghost predicate SeenLater(t: Tables, t': Tables, sid: string) {
    IsActiveSession(t, sid) && IsActiveSession(t', sid) &&
    t'.sessions[sid].data.lastSeenAt >= t.sessions[sid].data.lastSeenAt
  }

  lemma AdmissionMovesOn(a: Attempt, t: Tables, r: Admission, victims: set<string>, login: Request, t': Tables,
                         sid: string)
    requires Safe(t) && AdmissionOutcome(a, t, r, victims, login, t')
    requires IsActiveSession(t, sid) && IsActiveSession(t', sid)
    ensures t'.sessions[sid] == t.sessions[sid]
  {
    if !r.LimitExceeded? {
      var kicked := Revoke(WithUser(t, a.userId, a.user), victims, KICK, a.now);
      assert kicked.issued == t.issued && Allowed(kicked, login);
    }
  }

  lemma ServedMovesOn(t: Tables, c: Call, t': Tables, sid: string)
    requires Safe(t) && Served(t, c, t') && IsActiveSession(t, sid) && IsActiveSession(t', sid)
    ensures SeenLater(t, t', sid)
  {
    if c.AdmitCall? {
      AdmissionMovesOn(c.a, t, c.r, c.victims, c.login, t', sid);
    }
  }

  lemma HistoryStep(states: seq<Tables>, calls: seq<Call>, i: nat)
    requires IsHistory(states, calls) && i < |calls|
    ensures Served(states[i], calls[i], states[i + 1]) && Safe(states[i])
  {
    HistoryIsSafe(states, calls, i, i, "", 0);
  }

  lemma StepMovesOn(states: seq<Tables>, calls: seq<Call>, i: nat, sid: string)
    requires IsHistory(states, calls) && i < |calls|
    requires IsActiveSession(states[i], sid) && IsActiveSession(states[i + 1], sid)
    ensures SeenLater(states[i], states[i + 1], sid)
  {
    HistoryStep(states, calls, i);
    ServedMovesOn(states[i], calls[i], states[i + 1], sid);
  }

  lemma {:induction false} StepsMoveOn(states: seq<Tables>, i: nat, j: nat, sid: string)
    requires i <= j < |states| && IsActiveSession(states[i], sid)
    requires forall k, l :: i <= k && l == k + 1 <= j ==> SeenLater(states[k], states[l], sid)
    ensures SeenLater(states[i], states[j], sid)
    decreases j
  {
    if i < j {
      StepsMoveOn(states, i, j - 1, sid);
      assert SeenLater(states[j - 1], states[j], sid);
    }
  }

  /** The time at which an active session was last seen does not go back in any history. */
  lemma HistoryMovesOn(states: seq<Tables>, calls: seq<Call>, i: nat, j: nat, sid: string)
    requires IsHistory(states, calls) && i <= j < |states|
    requires IsActiveSession(states[i], sid) && IsActiveSession(states[j], sid)
    ensures states[j].sessions[sid].data.lastSeenAt >= states[i].sessions[sid].data.lastSeenAt
  {
    forall k, l | i <= k && l == k + 1 <= j
      ensures SeenLater(states[k], states[l], sid)
    {
      ActiveInBetween(states, calls, i, k, j, sid);
      ActiveInBetween(states, calls, i, l, j, sid);
      StepMovesOn(states, calls, k, sid);
    }
    StepsMoveOn(states, i, j, sid);
  }

  lemma ActiveInBetween(states: seq<Tables>, calls: seq<Call>, i: nat, k: nat, j: nat, sid: string)
    requires IsHistory(states, calls) && i <= k <= j < |states|
    requires IsActiveSession(states[i], sid) && IsActiveSession(states[j], sid)
    ensures IsActiveSession(states[k], sid)
  {
    var later := states[j].sessions[sid].data.expiresAt;
    HistoryIsSafe(states, calls, i, k, sid, later);
    HistoryIsSafe(states, calls, k, j, sid, later);
    HistoryIsSafe(states, calls, j, j, sid, later);
    AuthorizesExactly(states[j], sid, later);
    HistoryKeepsIssued(states, calls, i, k, sid);
  }

  lemma {:induction false} HistoryKeepsIssued(states: seq<Tables>, calls: seq<Call>, i: nat, k: nat, sid: string)
    requires IsHistory(states, calls) && i <= k < |states| && sid in states[i].issued
    ensures sid in states[k].issued
    decreases k
  {
    if i < k {
      HistoryKeepsIssued(states, calls, i, k - 1, sid);
      HistoryStep(states, calls, k - 1);
    }
  }

  // ---------- the clean-up ----------

  /** What a clean-up leaves of the devices: those revoked more than ninety days ago are gone; those active and not
      seen for thirty days are revoked; every other one is as it was. */
  lemma CleanupLeavesDevices(t: Tables, t': Tables, now: int, d: string)
    requires Served(t, CleanupCall(now), t')
    ensures d in t'.devices <==>
            d in t.devices && !(t.devices[d].data.status == Revoked && t.devices[d].data.revokedAt.Some? &&
                                t.devices[d].data.revokedAt.value < now - 90 * 24 * 60 * 60)
    ensures d in t'.devices ==>
              if t.devices[d].data.status == Active && t.devices[d].data.lastSeenAt < now - 30 * 24 * 60 * 60 then
                t'.devices[d].data.status == Revoked && t'.devices[d].data.revokedAt == Some(now) &&
                t'.devices[d].data.revokedBy == "system:auto_offline"
              else t'.devices[d] == t.devices[d]
  {
  }

  lemma CleanupHasWork(t: Tables, now: int)
    ensures var offline := Offline(t.devices, now);
            |offline| > 0 || |Stale(Revoke(t, offline, OFFLINE, now).devices, now)| > 0 <==>
            exists d :: d in t.devices &&
                        var device := t.devices[d].data;
                        (device.status == Active && device.lastSeenAt < now - 30 * 24 * 60 * 60) ||
                        (device.status == Revoked && device.revokedAt.Some? &&
                         device.revokedAt.value < now - 90 * 24 * 60 * 60)
  {
    var offline := Offline(t.devices, now);
    var stale := Stale(Revoke(t, offline, OFFLINE, now).devices, now);
    if d :| d in offline {
      assert t.devices[d].data.status == Active;
    }
    if d :| d in stale {
      assert d !in offline && t.devices[d].data.status == Revoked;
    }
    if d :| d in t.devices && t.devices[d].data.status == Active &&
            t.devices[d].data.lastSeenAt < now - 30 * 24 * 60 * 60 {
      assert d in offline;
    }
    if d :| d in t.devices && t.devices[d].data.status == Revoked && t.devices[d].data.revokedAt.Some? &&
            t.devices[d].data.revokedAt.value < now - 90 * 24 * 60 * 60 {
      assert d in stale;
    }
  }

  /** And of the sessions: with an active device that was seen within thirty days, a session is as it was. */
  lemma CleanupLeavesSessions(t: Tables, t': Tables, now: int, sid: string)
    requires Safe(t) && Served(t, CleanupCall(now), t') && IsActiveSession(t, sid)
    ensures sid in t'.sessions
    ensures var s, d := t.sessions[sid].data, t.devices[t.sessions[sid].data.deviceId].data;
            if d.lastSeenAt < now - 30 * 24 * 60 * 60 then
              t'.sessions[sid].data.status == Revoked && t'.sessions[sid].data.expiresAt == now
            else t'.sessions[sid] == t.sessions[sid]
  {
    assert SessionBacked(t, sid);
  }

  /** The sessions of a device that is deleted are deleted with it, and no others. */
  lemma CleanupDeletesSessions(t: Tables, t': Tables, now: int, sid: string)
    requires Served(t, CleanupCall(now), t') && sid in t.sessions
    ensures var did := t.sessions[sid].data.deviceId; sid in t'.sessions <==> did !in t.devices || did in t'.devices
  {
  }

  /** A clean-up ends an active session exactly if it has not been seen for thirty days; then its device has not
      been seen either. */
  lemma CleanupEndsExactly(states: seq<Tables>, calls: seq<Call>, i: nat, sid: string, now: int, later: int)
    requires IsHistory(states, calls) && i < |calls| && calls[i] == CleanupCall(now)
    requires IsActiveSession(states[i], sid)
    ensures Authorizes(states[i + 1], sid, later) <==>
            later <= states[i].sessions[sid].data.expiresAt &&
            states[i].sessions[sid].data.lastSeenAt >= now - 30 * 24 * 60 * 60
  {
    HistoryKeepsSeen(states, calls, i);
    HistoryIsSafe(states, calls, i, i + 1, sid, later);
    HistoryIsSafe(states, calls, i + 1, i + 1, sid, later);
    assert Served(states[i], calls[i], states[i + 1]);
    CleanupLeavesSessions(states[i], states[i + 1], now, sid);
    AuthorizesExactly(states[i + 1], sid, later);
  }

  /** In every history, a session that has been authorized at `now` is not ended by any clean-up up to thirty days
      less a minute after that: it authorizes after the clean-up exactly when it did before. */
  lemma AuthorizedSurvivesCleanup(states: seq<Tables>, calls: seq<Call>, i: nat, j: nat, sid: string, now: int,
                                  cleanup: int, later: int)
    requires IsHistory(states, calls) && i < j < |calls|
    requires calls[i].AuthorizeCall? && calls[i].sid == sid && calls[i].now == now && Authorizes(states[i], sid, now)
    requires calls[j] == CleanupCall(cleanup) && cleanup <= now - 60 + 30 * 24 * 60 * 60
    ensures Authorizes(states[j + 1], sid, later) <==> Authorizes(states[j], sid, later)
  {
    assert Served(states[i], calls[i], states[i + 1]);
    AuthorizedIsSeen(states[i], sid, calls[i].sessionInfo, calls[i].deviceInfo, now);
    HistoryIsSafe(states, calls, j, j + 1, sid, later);
    if IsActiveSession(states[j], sid) {
      HistoryMovesOn(states, calls, i + 1, j, sid);
      CleanupEndsExactly(states, calls, j, sid, cleanup, later);
      AuthorizesExactly(states[j], sid, later);
    } else {
      HistoryIsSafe(states, calls, i, i, sid, later);
      HistoryKeepsIssued(states, calls, i, j, sid);
    }
  }
}
