/** Which user a login belongs to: the lookup by business id and e-mail, and the record that results. */
module UserIdentity {
  import opened Collections
  import opened WriteBack
  import opened StoreProtocol

  /** What the business backend says about a limit: nothing, or a number or null for no limit. */
  datatype LimitInfo = Absent | Explicit(limit: Option<int>)

  /** What the business backend says about the user; `uuid` and `email` may be empty. */
  datatype Snapshot = Snapshot(uuid: string, email: string, profile: string, limit: LimitInfo)

  predicate IsSpace(c: char) {
    c == ' ' || c == '\t' || c == '\n' || c == '\r' || c == '\U{0B}' || c == '\U{0C}'
  }

  function TrimLeft(s: string): string {
    if s != "" && IsSpace(s[0]) then TrimLeft(s[1..]) else s
  }

  function TrimRight(s: string): string {
    if s != "" && IsSpace(s[|s| - 1]) then TrimRight(s[..|s| - 1]) else s
  }

  function Trim(s: string): string {
    TrimRight(TrimLeft(s))
  }

  function LowerChar(c: char): char {
    if 'A' <= c <= 'Z' then (c as int + 32) as char else c
  }

  function Lower(s: string): string {
    if s == "" then "" else [LowerChar(s[0])] + Lower(s[1..])
  }

  /** The id of a new user; the lower-case e-mail stands for its keyed hash. */
  function UserIdOf(email: string): string {
    "usr_" + Lower(email)
  }

  function EmailOf(s: Snapshot, fallbackEmail: string): string {
    if s.email == "" then fallbackEmail else s.email
  }

  function BusinessIdOf(s: Snapshot, fallbackEmail: string): string {
    if s.uuid == "" then EmailOf(s, fallbackEmail) else s.uuid
  }

  /** Trimming takes away white space, and all that there is at the two ends. */
  lemma TrimTakesSpace(s: string) returns (before: string, after: string)
    ensures s == before + Trim(s) + after
    ensures forall c :: c in before + after ==> c in " \t\n\r\U{0B}\U{0C}"
    ensures var t := Trim(s);
            t != "" ==> t[0] !in " \t\n\r\U{0B}\U{0C}" && t[|t| - 1] !in " \t\n\r\U{0B}\U{0C}"
  {
    before := TrimLeftTakes(s);
    after := TrimRightTakes(TrimLeft(s));
  }

  lemma {:induction false} TrimLeftTakes(s: string) returns (before: string)
    ensures s == before + TrimLeft(s) && forall c :: c in before ==> c in " \t\n\r\U{0B}\U{0C}"
    ensures TrimLeft(s) != "" ==> TrimLeft(s)[0] !in " \t\n\r\U{0B}\U{0C}"
  {
    before := "";
    if s != "" && IsSpace(s[0]) {
      var rest := TrimLeftTakes(s[1..]);
      before := [s[0]] + rest;
    }
  }

  lemma {:induction false} TrimRightTakes(s: string) returns (after: string)
    ensures s == TrimRight(s) + after && forall c :: c in after ==> c in " \t\n\r\U{0B}\U{0C}"
    ensures TrimRight(s) != "" ==>
              TrimRight(s)[0] == s[0] && TrimRight(s)[|TrimRight(s)| - 1] !in " \t\n\r\U{0B}\U{0C}"
  {
    after := "";
    if s != "" && IsSpace(s[|s| - 1]) {
      var rest := TrimRightTakes(s[..|s| - 1]);
      after := rest + [s[|s| - 1]];
    }
  }

  /** Each capital becomes its small letter and nothing else changes. */
  lemma {:induction false} LowerLetters(s: string, i: nat)
    requires i < |s|
    ensures |Lower(s)| == |s|
    ensures 'A' <= s[i] <= 'Z' ==>
              'a' <= Lower(s)[i] <= 'z' && Lower(s)[i] as int - 'a' as int == s[i] as int - 'A' as int
    ensures !('A' <= s[i] <= 'Z') ==> Lower(s)[i] == s[i]
  {
    if i > 0 {
      LowerLetters(s[1..], i - 1);
    } else if |s| > 1 {
      LowerLetters(s[1..], 0);
    }
  }

  // ---------- the lookup ----------

  predicate Answers(user: UserData, key: string) {
    Lower(user.email) == Lower(key) || user.businessId == key
  }

  /** A user id is found as such; otherwise any user with that e-mail or business id is. */
  ghost predicate IsUserOf(users: Table<UserData>, rawKey: string, found: Option<string>) {
    var key := Trim(rawKey);
    match found
    case None => key == "" || (key !in users && forall u :: u in users ==> !Answers(users[u].data, key))
    case Some(u) => key != "" && u in users && if key in users then u == key else Answers(users[u].data, key)
  }

  ghost predicate IsKnownAs(users: Table<UserData>, s: Snapshot, fallbackEmail: string, found: Option<string>) {
    exists first :: IsUserOf(users, BusinessIdOf(s, fallbackEmail), first) &&
      if first.Some? || EmailOf(s, fallbackEmail) == "" then found == first
      else IsUserOf(users, EmailOf(s, fallbackEmail), found)
  }

  /** Somebody is found exactly when the key, without the white space around it, is the id of a user, the business id
      of one, or the e-mail of one in whatever letters; and who is found is such a user. */
  lemma FoundExactly(users: Table<UserData>, rawKey: string, found: Option<string>)
    requires IsUserOf(users, rawKey, found)
    ensures var key := Trim(rawKey);
            (found.Some? <==>
             key != "" &&
             exists u :: u in users &&
                         (u == key || users[u].data.businessId == key || Lower(users[u].data.email) == Lower(key))) &&
            (found.Some? ==>
               found.value in users &&
               (found.value == key || users[found.value].data.businessId == key ||
                Lower(users[found.value].data.email) == Lower(key)))
  {
  }

  /** E-mails that differ in the case of letters only make the same id, and no others do. */
  lemma UserIdIgnoresCase(a: string, b: string)
    ensures UserIdOf(a) == UserIdOf(b) <==> Lower(a) == Lower(b)
    ensures |UserIdOf(a)| == 4 + |Lower(a)| && UserIdOf(a)[..4] == "usr_"
  {
    assert UserIdOf(a)[4..] == Lower(a) && UserIdOf(b)[4..] == Lower(b);
  }

  /** Whoever answers to the business id of a login alone is found by it, so a login that is repeated does not store
      its user anew. */
  lemma LoginIsFoundAgain(users: Table<UserData>, s: Snapshot, fallbackEmail: string, found: Option<string>,
                          userId: string, key: string)
    requires IsKnownAs(users, s, fallbackEmail, found)
    requires key == Trim(if s.uuid != "" then s.uuid else if s.email != "" then s.email else fallbackEmail)
    requires key != "" && key !in users && userId in users && users[userId].data.businessId == key
    requires forall u :: u in users && u != userId ==>
               users[u].data.businessId != key && Lower(users[u].data.email) != Lower(key)
    ensures found == Some(userId)
  {
  }

  // ---------- the record ----------

  function NormalizedLimit(limit: Option<int>): int {
    if limit.None? || limit.value <= 0 then 0 else limit.value
  }

  function EffectiveLimit(user: UserData, defaultLimit: int): int {
    if user.deviceLimitOverride.Some? then user.deviceLimitOverride.value
    else if user.deviceLimit.Some? then user.deviceLimit.value
    else defaultLimit
  }

  function SyncedUser(user: UserData, s: Snapshot, fallbackEmail: string, defaultLimit: int): UserData {
    user.(profile := s.profile, email := EmailOf(s, fallbackEmail), businessId := BusinessIdOf(s, fallbackEmail),
          deviceLimit := if s.limit.Explicit? then Some(NormalizedLimit(s.limit.limit))
                         else if user.deviceLimit.Some? then user.deviceLimit else Some(defaultLimit))
  }

  const NOBODY := UserData(None, None, "", "", "")

  /** The record stored for a login: that of the user found, brought up to date, or a new one. */
  ghost predicate IsUpsert(users: Table<UserData>, s: Snapshot, fallbackEmail: string, defaultLimit: int, now: int,
                           found: Option<string>, userId: string, user: Row<UserData>)
  {
    IsKnownAs(users, s, fallbackEmail, found) &&
    match found
    case Some(u) =>
      u in users && userId == u &&
      user == Row(users[u].createdAt, SyncedUser(users[u].data, s, fallbackEmail, defaultLimit))
    case None =>
      userId == UserIdOf(EmailOf(s, fallbackEmail)) &&
      user == Row(now, SyncedUser(NOBODY, s, fallbackEmail, defaultLimit))
  }

  // ---------- logins one after the other ----------

  /** A login of any user: what is known about the user, whom the lookup finds, and the record stored. */
  datatype UserLogin = UserLogin(
    snapshot: Snapshot, fallbackEmail: string, now: int, found: Option<string>, userId: string, user: Row<UserData>)

  ghost predicate IsLoginRun(users: Table<UserData>, defaultLimit: int, logins: seq<UserLogin>)
    decreases |logins|
  {
    logins == [] ||
    (IsUpsert(users, logins[0].snapshot, logins[0].fallbackEmail, defaultLimit, logins[0].now, logins[0].found,
              logins[0].userId, logins[0].user) &&
     IsLoginRun(users[logins[0].userId := logins[0].user], defaultLimit, logins[1..]))
  }

  function AfterLogins(users: Table<UserData>, logins: seq<UserLogin>): Table<UserData>
    decreases |logins|
  {
    if logins == [] then users else AfterLogins(users[logins[0].userId := logins[0].user], logins[1..])
  }

  /** The login stores a new record under the id `userId`. */
  predicate StoresAnew(l: UserLogin, userId: string) {
    l.found.None? && l.userId == userId
  }

  lemma {:induction false} NoLoginSetsOverride(users: Table<UserData>, defaultLimit: int, logins: seq<UserLogin>,
                                               userId: string)
    requires IsLoginRun(users, defaultLimit, logins)
    requires userId in users && users[userId].data.deviceLimitOverride.None?
    ensures userId in AfterLogins(users, logins) && AfterLogins(users, logins)[userId].data.deviceLimitOverride.None?
    decreases |logins|
  {
    if logins != [] {
      NoLoginSetsOverride(users[logins[0].userId := logins[0].user], defaultLimit, logins[1..], userId);
    }
  }

  /** Through any run of logins, of this user and others, an administrator's override stays as it is, and is the
      limit in force, if and only if no login stores the user anew. */
  lemma {:induction false} OverrideStaysInForce(users: Table<UserData>, defaultLimit: int, logins: seq<UserLogin>,
                                                userId: string)
    requires IsLoginRun(users, defaultLimit, logins)
    requires userId in users && users[userId].data.deviceLimitOverride.Some?
    ensures userId in AfterLogins(users, logins)
    ensures AfterLogins(users, logins)[userId].data.deviceLimitOverride == users[userId].data.deviceLimitOverride <==>
            forall l :: l in logins ==> !StoresAnew(l, userId)
    ensures (forall l :: l in logins ==> !StoresAnew(l, userId)) ==>
              EffectiveLimit(AfterLogins(users, logins)[userId].data, defaultLimit) ==
              users[userId].data.deviceLimitOverride.value
    decreases |logins|
  {
    if logins != [] {
      var l, rest := logins[0], logins[1..];
      var users' := users[l.userId := l.user];
      assert logins == [l] + rest;
      if StoresAnew(l, userId) {
        assert l in logins;
        NoLoginSetsOverride(users', defaultLimit, rest, userId);
      } else {
        OverrideStaysInForce(users', defaultLimit, rest, userId);
        assert forall k :: k in logins <==> k == l || k in rest;
      }
    }
  }

  // ---------- the limit in force ----------

  /** What was known of the user last time counts as long as no login says otherwise. */
  lemma {:induction false} UnsaidLimitStays(users: Table<UserData>, defaultLimit: int, logins: seq<UserLogin>,
                                            userId: string)
    requires IsLoginRun(users, defaultLimit, logins) && userId in users
    requires forall l :: l in logins && l.userId == userId ==> l.found.Some? && !l.snapshot.limit.Explicit?
    ensures userId in AfterLogins(users, logins)
    ensures var before, after := users[userId].data, AfterLogins(users, logins)[userId].data;
            after.deviceLimitOverride == before.deviceLimitOverride &&
            (if after.deviceLimit.Some? then after.deviceLimit.value else defaultLimit) ==
            (if before.deviceLimit.Some? then before.deviceLimit.value else defaultLimit)
    decreases |logins|
  {
    if logins != [] {
      assert logins[0] in logins && forall l :: l in logins[1..] ==> l in logins;
      UnsaidLimitStays(users[logins[0].userId := logins[0].user], defaultLimit, logins[1..], userId);
    }
  }

  /** After any run of logins of all users, the limit of a user without override is the last one that a login of
      the user named, null and all that is not positive meaning none (0). */
  lemma {:induction false} LastNamedLimitIsInForce(users: Table<UserData>, defaultLimit: int, logins: seq<UserLogin>,
                                                   userId: string, k: nat)
    requires IsLoginRun(users, defaultLimit, logins) && k < |logins|
    requires logins[k].userId == userId && logins[k].snapshot.limit.Explicit?
    requires forall j :: k < j < |logins| && logins[j].userId == userId ==>
               logins[j].found.Some? && logins[j].snapshot.limit.Absent?
    ensures userId in AfterLogins(users, logins)
    ensures var user, named := AfterLogins(users, logins)[userId].data, logins[k].snapshot.limit.limit;
            user.deviceLimitOverride.None? ==>
              EffectiveLimit(user, defaultLimit) == if named.Some? && named.value > 0 then named.value else 0
    decreases |logins|
  {
    var users', rest := users[logins[0].userId := logins[0].user], logins[1..];
    if k > 0 {
      assert forall j :: 0 <= j < |rest| ==> rest[j] == logins[j + 1];
      LastNamedLimitIsInForce(users', defaultLimit, rest, userId, k - 1);
    } else {
      forall l | l in rest && l.userId == userId
        ensures l.found.Some? && !l.snapshot.limit.Explicit?
      {
        var j :| 0 <= j < |rest| && rest[j] == l;
        assert logins[j + 1] == l;
      }
      UnsaidLimitStays(users', defaultLimit, rest, userId);
    }
  }

  /** When no login has named a limit since the user was stored anew, the default limit is in force. */
  lemma {:induction false} NewUserHasDefaultLimit(users: Table<UserData>, defaultLimit: int, logins: seq<UserLogin>,
                                                  userId: string, k: nat)
    requires IsLoginRun(users, defaultLimit, logins) && k < |logins|
    requires logins[k].userId == userId && logins[k].found.None? && logins[k].snapshot.limit.Absent?
    requires forall j :: k < j < |logins| && logins[j].userId == userId ==>
               logins[j].found.Some? && logins[j].snapshot.limit.Absent?
    ensures userId in AfterLogins(users, logins)
    ensures EffectiveLimit(AfterLogins(users, logins)[userId].data, defaultLimit) == defaultLimit
    decreases |logins|
  {
    var users', rest := users[logins[0].userId := logins[0].user], logins[1..];
    if k > 0 {
      assert forall j :: 0 <= j < |rest| ==> rest[j] == logins[j + 1];
      NewUserHasDefaultLimit(users', defaultLimit, rest, userId, k - 1);
    } else {
      forall l | l in rest && l.userId == userId
        ensures l.found.Some? && !l.snapshot.limit.Explicit?
      {
        var j :| 0 <= j < |rest| && rest[j] == l;
        assert logins[j + 1] == l;
      }
      UnsaidLimitStays(users', defaultLimit, rest, userId);
    }
  }

  /** A user whom no login has stored anew or named a limit for keeps the stored limit, or has the default one
      where none is stored. */
  lemma StoredLimitIsInForce(users: Table<UserData>, defaultLimit: int, logins: seq<UserLogin>, userId: string)
    requires IsLoginRun(users, defaultLimit, logins) && userId in users && users[userId].data.deviceLimitOverride.None?
    requires forall l :: l in logins && l.userId == userId ==> l.found.Some? && l.snapshot.limit.Absent?
    ensures userId in AfterLogins(users, logins)
    ensures EffectiveLimit(AfterLogins(users, logins)[userId].data, defaultLimit) ==
            if users[userId].data.deviceLimit.Some? then users[userId].data.deviceLimit.value else defaultLimit
  {
    UnsaidLimitStays(users, defaultLimit, logins, userId);
  }

  /** The last login of a run finds the user as the run leaves it, so the limit of its admission is the one in
      force. */
  lemma {:induction false} LastLoginIsStored(users: Table<UserData>, defaultLimit: int, logins: seq<UserLogin>)
    requires IsLoginRun(users, defaultLimit, logins) && logins != []
    ensures var l := logins[|logins| - 1];
            l.userId in AfterLogins(users, logins) && AfterLogins(users, logins)[l.userId] == l.user
    decreases |logins|
  {
    if |logins| > 1 {
      LastLoginIsStored(users[logins[0].userId := logins[0].user], defaultLimit, logins[1..]);
    }
  }

  /** A login replaces the record of another user, with its override and its creation time, exactly when its
      lookup finds nobody although the id made from its e-mail is taken. */
  lemma RecordIsReplacedExactly(users: Table<UserData>, s: Snapshot, fallbackEmail: string, defaultLimit: int, now: int,
                                found: Option<string>, userId: string, user: Row<UserData>)
    requires IsUpsert(users, s, fallbackEmail, defaultLimit, now, found, userId, user)
    requires forall u :: u in users ==> users[u].createdAt < now
    ensures RestampedBy(Memory(Clean(users), Clean(map[]), Clean(map[]), Clean(map[]), 0), PutUser(userId, user)) != {}
            <==> found.None? && UserIdOf(EmailOf(s, fallbackEmail)) in users
    ensures userId in users && users[userId].data.deviceLimitOverride.Some? ==>
              (user.data.deviceLimitOverride == users[userId].data.deviceLimitOverride <==> found.Some?)
  {
  }

  /** How that comes about: a user changes the e-mail, and another account logs in with the old one. */
  lemma ReusedEmailReplacesRecord()
    ensures var a, b := Snapshot("a", "x", "", Absent), Snapshot("a", "y", "", Absent);
            var c := Snapshot("c", "x", "", Absent);
            exists first, second, third ::
              IsUpsert(map[], a, "", 2, 1, None, "usr_x", first) &&
              IsUpsert(map["usr_x" := first], b, "", 2, 2, Some("usr_x"), "usr_x", second) &&
              IsUpsert(map["usr_x" := second], c, "", 2, 3, None, "usr_x", third) &&
              third.createdAt != second.createdAt && third.data.businessId != second.data.businessId
  {
    var a, b, c := Snapshot("a", "x", "", Absent), Snapshot("a", "y", "", Absent), Snapshot("c", "x", "", Absent);
    LowerWords();
    var first := Row(1, SyncedUser(NOBODY, a, "", 2));
    var second := Row(1, SyncedUser(first.data, b, "", 2));
    var third := Row(3, SyncedUser(NOBODY, c, "", 2));
    assert IsUserOf(map[], "a", None) && IsUserOf(map[], "x", None);
    assert IsUserOf(map["usr_x" := first], "a", Some("usr_x"));
    assert IsUserOf(map["usr_x" := second], "c", None) && IsUserOf(map["usr_x" := second], "x", None);
    assert IsUpsert(map[], a, "", 2, 1, None, "usr_x", first);
    assert IsUpsert(map["usr_x" := first], b, "", 2, 2, Some("usr_x"), "usr_x", second);
    assert IsUpsert(map["usr_x" := second], c, "", 2, 3, None, "usr_x", third);
  }

  lemma LowerWords()
    ensures forall s | s in ["a", "c", "x", "y"] :: Lower(s) == s && Trim(s) == s
  {
    forall s | s in ["a", "c", "x", "y"]
      ensures Lower(s) == s && Trim(s) == s
    {
      assert s[1..] == "";
    }
  }
}
