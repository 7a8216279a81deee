/** The list of active devices that an admission works on: the oldest entry, and removal in place. */
module Devices {
  import opened Collections
  import opened WriteBack
  import opened StoreProtocol
  import opened SessionSafety

  ghost function ActiveDevices(t: Tables, userId: string): set<string> {
    set d | d in t.devices && t.devices[d].data.status == Active && t.devices[d].data.userId == userId
  }

  function Without(s: seq<string>, id: string): seq<string> {
    if s == [] then []
    else Without(s[..|s| - 1], id) + (if s[|s| - 1] == id then [] else [s[|s| - 1]])
  }

  lemma {:induction false} WithoutAbsent(s: seq<string>, id: string)
    requires id !in s
    ensures Without(s, id) == s
  {
    if s != [] {
      WithoutAbsent(s[..|s| - 1], id);
      assert s == s[..|s| - 1] + [s[|s| - 1]];
    }
  }

  /** Filtering a duplicate-free list takes exactly one entry away. */
  lemma {:induction false} WithoutIsRemoval(s: seq<string>, id: string)
    requires Distinct(s) && id in s
    ensures Distinct(Without(s, id)) && |Without(s, id)| == |s| - 1
    ensures forall x :: x in Without(s, id) <==> x in s && x != id
  {
    var rest, last := s[..|s| - 1], s[|s| - 1];
    assert s == rest + [last];
    assert last !in rest;
    if last == id {
      WithoutAbsent(rest, id);
    } else {
      WithoutIsRemoval(rest, id);
      assert last !in Without(rest, id);
      AppendDistinct(Without(rest, id), last);
    }
  }

  /** Filters into the array it reads from: the write position never overtakes the read position. */
  method RemoveDeviceByID(devices: array<string>, n: nat, deviceId: string) returns (m: nat)
    requires n <= devices.Length
    modifies devices
    ensures m <= n && devices[..m] == Without(old(devices[..n]), deviceId)
  {
    ghost var before := devices[..n];
    ghost var kept := [];
    m := 0;
    for i := 0 to n
      invariant kept == Without(before[..i], deviceId) && |kept| == m <= i
      invariant forall k :: 0 <= k < m ==> devices[k] == kept[k]
      invariant forall k :: i <= k < n ==> devices[k] == before[k]
    {
      assert before[..i + 1][..i] == before[..i];
      if devices[i] != deviceId {
        devices[m] := devices[i];
        kept := kept + [before[i]];
        m := m + 1;
      }
    }
    assert before[..n] == before;
    assert devices[..m] == kept;
  }

  method OldestDevice(devices: seq<string>, rows: Table<DeviceData>) returns (oldest: Option<string>)
    requires forall d :: d in devices ==> d in rows
    ensures oldest.None? <==> devices == []
    ensures oldest.Some? ==> oldest.value in devices
    ensures oldest.Some? ==> forall d :: d in devices ==> rows[oldest.value].data.lastSeenAt <= rows[d].data.lastSeenAt
  {
    if |devices| == 0 {
      return None;
    }
    var best := devices[0];
    for i := 1 to |devices|
      invariant best in devices
      invariant forall k :: 0 <= k < i ==> rows[best].data.lastSeenAt <= rows[devices[k]].data.lastSeenAt
    {
      if rows[devices[i]].data.lastSeenAt < rows[best].data.lastSeenAt {
        best := devices[i];
      }
    }
    oldest := Some(best);
  }

  /** `victims` have been kicked out of `active`, oldest first; `left` are the others. */
  ghost predicate Kicking(rows: Table<DeviceData>, active: set<string>, victims: set<string>, left: seq<string>) {
    Distinct(left) && victims <= active <= rows.Keys && |victims| + |left| == |active| &&
    (forall d :: d in left <==> d in active && d !in victims) &&
    forall v, d :: v in victims && d in left ==> rows[v].data.lastSeenAt <= rows[d].data.lastSeenAt
  }

  lemma KickNext(rows: Table<DeviceData>, active: set<string>, victims: set<string>, left: seq<string>, oldest: string)
    requires Kicking(rows, active, victims, left) && oldest in left
    requires forall d :: d in left ==> rows[oldest].data.lastSeenAt <= rows[d].data.lastSeenAt
    ensures Kicking(rows, active, victims + {oldest}, Without(left, oldest))
  {
    WithoutIsRemoval(left, oldest);
  }

  lemma RevokeTwice(t: Tables, ids: set<string>, id: string, actor: string, now: int)
    requires id !in ids
    ensures Revoke(Revoke(t, ids, actor, now), {id}, actor, now) == Revoke(t, ids + {id}, actor, now)
  {
    var once := Revoke(t, ids, actor, now);
    assert RevokeSessions(once.sessions, {id}, now) == RevokeSessions(t.sessions, ids + {id}, now);
    assert Revoke(once, {id}, actor, now).devices == Revoke(t, ids + {id}, actor, now).devices;
  }

  lemma RevokeNone(t: Tables, actor: string, now: int)
    ensures Revoke(t, {}, actor, now) == t
  {
    assert RevokeSessions(t.sessions, {}, now) == t.sessions;
    assert Revoke(t, {}, actor, now).devices == t.devices;
  }

  lemma SwapSize(before: set<string>, victims: set<string>, x: string)
    requires victims <= before && x !in victims
    ensures |before - victims + {x}| == |before| - |victims| + if x in before then 0 else 1
  {
    assert |before - victims| == |before| - |victims|;
    if x in before {
      assert before - victims + {x} == before - victims;
    }
  }

  lemma ActiveAfterRevoke(t: Tables, ids: set<string>, actor: string, now: int, userId: string)
    ensures ActiveDevices(Revoke(t, ids, actor, now), userId) == ActiveDevices(t, userId) - ids
  {
    var t' := Revoke(t, ids, actor, now);
    forall d
      ensures d in ActiveDevices(t', userId) <==> d in ActiveDevices(t, userId) - ids
    {
    }
  }

  lemma ActiveAfterPut(t: Tables, did: string, device: Row<DeviceData>)
    requires device.data.status == Active
    ensures ActiveDevices(t.(devices := t.devices[did := device]), device.data.userId) ==
            ActiveDevices(t, device.data.userId) + {did}
  {
    var t' := t.(devices := t.devices[did := device]);
    forall d
      ensures d in ActiveDevices(t', device.data.userId) <==> d in ActiveDevices(t, device.data.userId) + {did}
    {
    }
  }

  /** Who is active after the victims have been revoked and the device has logged in. */
  lemma ActiveAfterLogin(t: Tables, victims: set<string>, actor: string, now: int, login: Request)
    requires login.LoginRequest? && Allowed(Revoke(t, victims, actor, now), login)
    requires victims <= ActiveDevices(t, login.device.data.userId) && login.did !in victims
    ensures var userId, after := login.device.data.userId, Apply(Revoke(t, victims, actor, now), login);
            ActiveDevices(after, userId) == ActiveDevices(t, userId) - victims + {login.did} &&
            |ActiveDevices(after, userId)| ==
              |ActiveDevices(t, userId)| - |victims| + if login.did in ActiveDevices(t, userId) then 0 else 1
  {
    var revoked := Revoke(t, victims, actor, now);
    ActiveAfterRevoke(t, victims, actor, now, login.device.data.userId);
    ActiveAfterPut(revoked, login.did, login.device);
    assert Apply(revoked, login).devices == revoked.(devices := revoked.devices[login.did := login.device]).devices;
    SwapSize(ActiveDevices(t, login.device.data.userId), victims, login.did);
  }
}
