/** The QR login challenge: a target creates it and polls, a signed-in phone claims it, and between claim
    and finish the admission runs while other requests go on. */
module QrLogin {
  import opened Collections

  const LIFETIME := 120

  datatype Status = Pending | Authorizing | Approved | Failed | Consumed

  /** The login payload that an admission yields. */
  datatype Payload = Payload(token: string)

  datatype Challenge = Challenge(pollToken: string, status: Status, expiresAt: int, response: Option<Payload>)

  /** An approval between its claim and its finish. */
  datatype Flight = Admitting | AdmitSucceeded(payload: Payload) | AdmitFailed

  datatype Entry =
    | Created(id: string, pollToken: string, expiresAt: int)
    | Cancelled(id: string)
    | Claimed(id: string, now: int)
    | Admitted(id: string, payload: Payload)
    | Delivered(id: string, pollToken: string, payload: Payload, now: int)

  /** `flights` are the approvals under way; `issued` and `log` record what has happened. */
  datatype State = State(
    challenges: map<string, Challenge>, flights: map<string, Flight>, issued: set<string>, log: seq<Entry>, clock: int)

  datatype Event =
    | Create(id: string, pollToken: string, now: int)
    | Poll(id: string, pollToken: string, now: int)
    | Cancel(id: string, pollToken: string)
    | Claim(id: string, now: int)
    | Admit(id: string, outcome: Option<Payload>)
    | Finish(id: string)

  datatype Answer =
    | Done
    | NotFound
    | Gone
    | Used
    | CancelledOk
    | Expired
    | CurrentStatus(status: Status)
    | Login(payload: Payload)

  const START := State(map[], map[], {}, [], 0)

  predicate Enabled(s: State, e: Event) {
    match e
    case Create(id, _, now) => id !in s.issued && s.clock <= now
    case Poll(_, _, now) => s.clock <= now
    case Cancel(_, _) => true
    case Claim(_, now) => s.clock <= now
    case Admit(id, _) => id in s.flights && s.flights[id] == Admitting
    case Finish(id) => id in s.flights && s.flights[id] != Admitting
  }

  function Sweep(challenges: map<string, Challenge>, now: int): map<string, Challenge> {
    map id | id in challenges && now <= challenges[id].expiresAt :: challenges[id]
  }

  predicate Knows(s: State, id: string, pollToken: string) {
    id in s.challenges && pollToken != "" && s.challenges[id].pollToken == pollToken
  }

  function PollAnswer(s: State, id: string, pollToken: string, now: int): Answer {
    if !Knows(s, id, pollToken) then NotFound
    else if now > s.challenges[id].expiresAt then Expired
    else if s.challenges[id].status == Approved && s.challenges[id].response.Some? then
      Login(s.challenges[id].response.value)
    else CurrentStatus(s.challenges[id].status)
  }

  function CancelAnswer(s: State, id: string, pollToken: string): Answer {
    if id !in s.challenges then CancelledOk
    else if !Knows(s, id, pollToken) then NotFound
    else if s.challenges[id].status != Pending then Used
    else CancelledOk
  }

  function ClaimAnswer(s: State, id: string, now: int): Answer {
    if id !in s.challenges || now > s.challenges[id].expiresAt then Gone
    else if s.challenges[id].status != Pending then Used
    else Done
  }

  function AnswerTo(s: State, e: Event): Answer {
    match e
    case Poll(id, t, now) => PollAnswer(s, id, t, now)
    case Cancel(id, t) => CancelAnswer(s, id, t)
    case Claim(id, now) => ClaimAnswer(s, id, now)
    case _ => Done
  }

  function Finished(challenges: map<string, Challenge>, id: string, flight: Flight): map<string, Challenge> {
    if id !in challenges then challenges
    else if flight.AdmitSucceeded? then
      challenges[id := challenges[id].(status := Approved, response := Some(flight.payload))]
    else challenges[id := challenges[id].(status := Failed, response := None)]
  }

  function Next(s: State, e: Event): State
    requires Enabled(s, e)
  {
    match e
    case Create(id, pollToken, now) =>
      s.(challenges := Sweep(s.challenges, now)[id := Challenge(pollToken, Pending, now + LIFETIME, None)],
         issued := s.issued + {id}, log := s.log + [Created(id, pollToken, now + LIFETIME)], clock := now)
    case Poll(id, pollToken, now) =>
      (match PollAnswer(s, id, pollToken, now)
       case Expired => s.(challenges := s.challenges - {id}, clock := now)
       case Login(payload) => s.(challenges := s.challenges[id := s.challenges[id].(status := Consumed)],
                                 log := s.log + [Delivered(id, pollToken, payload, now)], clock := now)
       case _ => s.(clock := now))
    case Cancel(id, pollToken) =>
      if id in s.challenges && CancelAnswer(s, id, pollToken) == CancelledOk
      then s.(challenges := s.challenges - {id}, log := s.log + [Cancelled(id)]) else s
    case Claim(id, now) =>
      if ClaimAnswer(s, id, now) == Done
      then s.(challenges := s.challenges[id := s.challenges[id].(status := Authorizing)],
              flights := s.flights[id := Admitting], log := s.log + [Claimed(id, now)], clock := now)
      else s.(clock := now)
    case Admit(id, outcome) =>
      (match outcome
       case Some(payload) =>
         s.(flights := s.flights[id := AdmitSucceeded(payload)], log := s.log + [Admitted(id, payload)])
       case None => s.(flights := s.flights[id := AdmitFailed]))
    case Finish(id) =>
      s.(challenges := Finished(s.challenges, id, s.flights[id]), flights := s.flights - {id})
  }

  // ---------- how often things happen to a challenge ----------

  datatype Counts = Counts(claims: nat, admissions: nat, deliveries: nat, cancellations: nat)

  function Bump(k: Counts, entry: Entry): Counts {
    match entry
    case Created(_, _, _) => k
    case Cancelled(_) => k.(cancellations := k.cancellations + 1)
    case Claimed(_, _) => k.(claims := k.claims + 1)
    case Admitted(_, _) => k.(admissions := k.admissions + 1)
    case Delivered(_, _, _, _) => k.(deliveries := k.deliveries + 1)
  }

  ghost function Count(log: seq<Entry>, id: string): Counts {
    if log == [] then Counts(0, 0, 0, 0)
    else
      var k := Count(log[..|log| - 1], id);
      if log[|log| - 1].id == id then Bump(k, log[|log| - 1]) else k
  }

  lemma CountAppend(log: seq<Entry>, entry: Entry, id: string)
    ensures Count(log + [entry], id) == if entry.id == id then Bump(Count(log, id), entry) else Count(log, id)
  {
    assert (log + [entry])[..|log|] == log;
  }

  function Lookup<T>(m: map<string, T>, id: string): Option<T> {
    if id in m then Some(m[id]) else None
  }

  /** How far a challenge has come, against what has happened to it. */
  ghost predicate Phase(k: Counts, issued: bool, c: Option<Challenge>, f: Option<Flight>) {
    k.deliveries <= k.admissions <= k.claims <= 1 &&
    (k.cancellations > 0 || !issued ==> k.claims == 0 && c.None? && f.None?) &&
    (k.cancellations > 0 ==> issued) &&
    (f.Some? ==> k.claims == 1 && k.deliveries == 0 && (k.admissions == 1 <==> f.value.AdmitSucceeded?)) &&
    (f.Some? && c.Some? ==> c.value.status == Authorizing) &&
    (f.None? && c.Some? ==>
       match c.value.status
       case Pending => k.claims == 0
       case Authorizing => false
       case Approved => k.admissions == 1 && k.deliveries == 0 && c.value.response.Some?
       case Failed => k.admissions == 0 && k.claims == 1
       case Consumed => k.deliveries == 1)
  }

  ghost predicate PhaseOk(s: State, id: string) {
    Phase(Count(s.log, id), id in s.issued, Lookup(s.challenges, id), Lookup(s.flights, id))
  }

  /** A log entry has its cause before it. */
  ghost predicate Justified(before: seq<Entry>, entry: Entry) {
    match entry
    case Created(_, _, _) => true
    case Cancelled(_) => true
    case Claimed(id, now) => exists t, x :: Created(id, t, x) in before && now <= x
    case Admitted(id, _) => exists now :: Claimed(id, now) in before
    case Delivered(id, t, payload, now) =>
      Admitted(id, payload) in before && exists x :: Created(id, t, x) in before && now <= x
  }

  ghost predicate LogJustified(log: seq<Entry>) {
    forall i :: 0 <= i < |log| ==> Justified(log[..i], log[i])
  }

  ghost predicate ChallengeTraced(log: seq<Entry>, id: string, c: Challenge) {
    Created(id, c.pollToken, c.expiresAt) in log && (c.response.Some? ==> Admitted(id, c.response.value) in log)
  }

  ghost predicate FlightTraced(log: seq<Entry>, id: string, f: Flight) {
    (exists now :: Claimed(id, now) in log) && (f.AdmitSucceeded? ==> Admitted(id, f.payload) in log)
  }

  ghost predicate Traced(s: State) {
    LogJustified(s.log) &&
    (forall id :: id in s.challenges ==> ChallengeTraced(s.log, id, s.challenges[id])) &&
    (forall id :: id in s.flights ==> FlightTraced(s.log, id, s.flights[id]))
  }

  ghost predicate Inv(s: State) {
    Traced(s) && forall id :: PhaseOk(s, id)
  }

  /** What the event writes into the log. */
  ghost function EntryOf(s: State, e: Event): Option<Entry>
    requires Enabled(s, e)
  {
    match e
    case Create(id, pollToken, now) => Some(Created(id, pollToken, now + LIFETIME))
    case Poll(id, pollToken, now) =>
      if AnswerTo(s, e).Login? then Some(Delivered(id, pollToken, AnswerTo(s, e).payload, now)) else None
    case Cancel(id, _) => if id in s.challenges && AnswerTo(s, e) == CancelledOk then Some(Cancelled(id)) else None
    case Claim(id, now) => if AnswerTo(s, e) == Done then Some(Claimed(id, now)) else None
    case Admit(id, outcome) => if outcome.Some? then Some(Admitted(id, outcome.value)) else None
    case Finish(_) => None
  }

  lemma LogAfter(s: State, e: Event)
    requires Enabled(s, e)
    ensures Next(s, e).log == if EntryOf(s, e).Some? then s.log + [EntryOf(s, e).value] else s.log
    ensures EntryOf(s, e).Some? ==> EntryOf(s, e).value.id == e.id
  {
  }

  lemma CountAfter(s: State, e: Event, id: string)
    requires Enabled(s, e)
    ensures Count(Next(s, e).log, id) ==
      if EntryOf(s, e).Some? && id == e.id then Bump(Count(s.log, id), EntryOf(s, e).value) else Count(s.log, id)
  {
    LogAfter(s, e);
    if EntryOf(s, e).Some? {
      CountAppend(s.log, EntryOf(s, e).value, id);
    }
  }

  lemma OthersKeepPhase(s: State, e: Event, id: string)
    requires PhaseOk(s, id) && Enabled(s, e) && id != e.id
    ensures PhaseOk(Next(s, e), id)
  {
    CountAfter(s, e, id);
  }

  lemma CreateKeepsPhase(s: State, e: Event)
    requires PhaseOk(s, e.id) && Enabled(s, e) && e.Create?
    ensures PhaseOk(Next(s, e), e.id)
  {
    CountAfter(s, e, e.id);
  }

  lemma PollKeepsPhase(s: State, e: Event)
    requires PhaseOk(s, e.id) && Enabled(s, e) && e.Poll?
    ensures PhaseOk(Next(s, e), e.id)
  {
    CountAfter(s, e, e.id);
  }

  lemma CancelKeepsPhase(s: State, e: Event)
    requires PhaseOk(s, e.id) && Enabled(s, e) && e.Cancel?
    ensures PhaseOk(Next(s, e), e.id)
  {
    CountAfter(s, e, e.id);
  }

  lemma ApprovalKeepsPhase(s: State, e: Event)
    requires PhaseOk(s, e.id) && Enabled(s, e) && (e.Claim? || e.Admit? || e.Finish?)
    ensures PhaseOk(Next(s, e), e.id)
  {
    CountAfter(s, e, e.id);
    match e
    case Claim(_, _) =>
    case Admit(_, _) =>
    case Finish(_) =>
  }

  lemma StepKeepsPhase(s: State, e: Event)
    requires PhaseOk(s, e.id) && Enabled(s, e)
    ensures PhaseOk(Next(s, e), e.id)
  {
    match e
    case Create(_, _, _) => CreateKeepsPhase(s, e);
    case Poll(_, _, _) => PollKeepsPhase(s, e);
    case Cancel(_, _) => CancelKeepsPhase(s, e);
    case _ => ApprovalKeepsPhase(s, e);
  }

  lemma AppendJustified(log: seq<Entry>, entry: Entry)
    requires LogJustified(log) && Justified(log, entry)
    ensures LogJustified(log + [entry])
  {
    forall i | 0 <= i < |log + [entry]|
      ensures Justified((log + [entry])[..i], (log + [entry])[i])
    {
      assert (log + [entry])[..i] == log[..i];
    }
  }

  lemma StepKeepsLog(s: State, e: Event)
    requires Traced(s) && Enabled(s, e)
    ensures LogJustified(Next(s, e).log) && s.log <= Next(s, e).log
  {
    var s' := Next(s, e);
    if s'.log != s.log {
      var entry := s'.log[|s.log|];
      assert s'.log == s.log + [entry];
      assert Justified(s.log, entry) by {
        assert e.id in s.challenges ==> ChallengeTraced(s.log, e.id, s.challenges[e.id]);
        assert e.id in s.flights ==> FlightTraced(s.log, e.id, s.flights[e.id]);
      }
      AppendJustified(s.log, entry);
    }
  }

  lemma LogGrows(s: State, e: Event)
    requires Enabled(s, e)
    ensures s.log <= Next(s, e).log
  {
  }

  lemma ChallengeTracedGrows(log: seq<Entry>, log': seq<Entry>, id: string, c: Challenge, c': Challenge)
    requires log <= log' && ChallengeTraced(log, id, c)
    requires c'.pollToken == c.pollToken && c'.expiresAt == c.expiresAt
    requires c'.response.Some? ==> c'.response == c.response || Admitted(id, c'.response.value) in log'
    ensures ChallengeTraced(log', id, c')
  {
  }

  lemma FlightTracedGrows(log: seq<Entry>, log': seq<Entry>, id: string, f: Flight, f': Flight)
    requires log <= log' && FlightTraced(log, id, f)
    requires f'.AdmitSucceeded? ==> f' == f || Admitted(id, f'.payload) in log'
    ensures FlightTraced(log', id, f')
  {
    var now :| Claimed(id, now) in log;
    assert Claimed(id, now) in log';
  }

  lemma StepKeepsChallenge(s: State, e: Event, id: string)
    requires Traced(s) && Enabled(s, e) && id in Next(s, e).challenges
    ensures ChallengeTraced(Next(s, e).log, id, Next(s, e).challenges[id])
  {
    if e.Create? && e.id == id {
      assert Next(s, e).log[|s.log|] == Created(id, e.pollToken, e.now + LIFETIME);
    } else {
      LogGrows(s, e);
      ChallengeAfter(s, e, id);
      if e.Finish? && e.id == id {
        assert FlightTraced(s.log, id, s.flights[id]);
      }
      ChallengeTracedGrows(s.log, Next(s, e).log, id, s.challenges[id], Next(s, e).challenges[id]);
    }
  }

  /** A challenge keeps its token, its expiry and its response, until an approval finishes. */
  lemma ChallengeAfter(s: State, e: Event, id: string)
    requires Enabled(s, e) && id in Next(s, e).challenges && !(e.Create? && e.id == id)
    ensures id in s.challenges
    ensures Next(s, e).challenges[id].pollToken == s.challenges[id].pollToken
    ensures Next(s, e).challenges[id].expiresAt == s.challenges[id].expiresAt
    ensures Next(s, e).challenges[id].response.Some? ==>
      Next(s, e).challenges[id].response == s.challenges[id].response ||
      (e.Finish? && e.id == id && s.flights[id] == AdmitSucceeded(Next(s, e).challenges[id].response.value))
  {
  }

  lemma StepKeepsFlight(s: State, e: Event, id: string)
    requires Traced(s) && Enabled(s, e) && id in Next(s, e).flights
    ensures FlightTraced(Next(s, e).log, id, Next(s, e).flights[id])
  {
    var log, f := Next(s, e).log, Next(s, e).flights[id];
    LogGrows(s, e);
    if e.Claim? && id == e.id && ClaimAnswer(s, id, e.now) == Done {
      assert log[|s.log|] == Claimed(id, e.now);
    } else {
      if e.Admit? && e.id == id && e.outcome.Some? {
        assert log[|s.log|] == Admitted(id, e.outcome.value);
      }
      FlightTracedGrows(s.log, log, id, s.flights[id], f);
    }
  }

  lemma StepKeepsTraced(s: State, e: Event)
    requires Traced(s) && Enabled(s, e)
    ensures Traced(Next(s, e))
  {
    StepKeepsLog(s, e);
    forall id | id in Next(s, e).challenges
      ensures ChallengeTraced(Next(s, e).log, id, Next(s, e).challenges[id])
    {
      StepKeepsChallenge(s, e, id);
    }
    forall id | id in Next(s, e).flights
      ensures FlightTraced(Next(s, e).log, id, Next(s, e).flights[id])
    {
      StepKeepsFlight(s, e, id);
    }
  }

  lemma StepKeepsInv(s: State, e: Event)
    requires Inv(s) && Enabled(s, e)
    ensures Inv(Next(s, e))
  {
    StepKeepsTraced(s, e);
    forall id
      ensures PhaseOk(Next(s, e), id)
    {
      if id == e.id {
        StepKeepsPhase(s, e);
      } else {
        OthersKeepPhase(s, e, id);
      }
    }
  }

  // ---------- whole runs ----------

  ghost predicate IsRun(s: State, events: seq<Event>)
    decreases |events|
  {
    events == [] || (Enabled(s, events[0]) && IsRun(Next(s, events[0]), events[1..]))
  }

  ghost function After(s: State, events: seq<Event>): State
    requires IsRun(s, events)
    decreases |events|
  {
    if events == [] then s else After(Next(s, events[0]), events[1..])
  }

  lemma StartInv()
    ensures Inv(START)
  {
  }

  lemma {:induction false} RunKeepsInv(s: State, events: seq<Event>)
    requires Inv(s) && IsRun(s, events)
    ensures Inv(After(s, events))
    decreases |events|
  {
    if events != [] {
      StepKeepsInv(s, events[0]);
      RunKeepsInv(Next(s, events[0]), events[1..]);
    }
  }

  /** Through every interleaving, a challenge is claimed, admitted and delivered at most once each, in
      this order, and a cancelled one is never admitted. */
  lemma AtMostOnce(events: seq<Event>, id: string)
    requires IsRun(START, events)
    ensures var k := Count(After(START, events).log, id);
            k.deliveries <= k.admissions <= k.claims <= 1 && (k.cancellations > 0 ==> k.claims == 0)
  {
    StartInv();
    RunKeepsInv(START, events);
    assert PhaseOk(After(START, events), id);
  }

  /** A claim made while the challenge was still valid. */
  ghost predicate ClaimedAt(log: seq<Entry>, c: int, id: string) {
    0 <= c < |log| && log[c].Claimed? && log[c].id == id &&
    exists t, x :: Created(id, t, x) in log[..c] && log[c].now <= x
  }

  lemma AdmittedAfterClaim(log: seq<Entry>, a: nat) returns (c: nat)
    requires LogJustified(log) && a < |log| && log[a].Admitted?
    ensures c < a && ClaimedAt(log, c, log[a].id)
  {
    assert Justified(log[..a], log[a]);
    var now :| Claimed(log[a].id, now) in log[..a];
    c :| 0 <= c < a && log[c] == Claimed(log[a].id, now);
    assert Justified(log[..c], log[c]);
  }

  lemma DeliveredAfterAdmission(log: seq<Entry>, i: nat) returns (a: nat)
    requires LogJustified(log) && i < |log| && log[i].Delivered?
    ensures a < i && log[a] == Admitted(log[i].id, log[i].payload)
    ensures exists x :: Created(log[i].id, log[i].pollToken, x) in log[..i] && log[i].now <= x
  {
    assert Justified(log[..i], log[i]);
    a :| 0 <= a < i && log[a] == Admitted(log[i].id, log[i].payload);
  }

  /** A login is handed out only after the admission that produced it, to a poll with the token given
      at creation, before the challenge expires; and that admission follows a claim in time. */
  lemma DeliveryIsJustified(events: seq<Event>, i: nat) returns (a: nat, c: nat)
    requires IsRun(START, events)
    requires i < |After(START, events).log| && After(START, events).log[i].Delivered?
    ensures var log := After(START, events).log;
            c < a < i && log[a] == Admitted(log[i].id, log[i].payload) && ClaimedAt(log, c, log[i].id) &&
            exists x :: Created(log[i].id, log[i].pollToken, x) in log[..i] && log[i].now <= x
  {
    StartInv();
    RunKeepsInv(START, events);
    a := DeliveredAfterAdmission(After(START, events).log, i);
    c := AdmittedAfterClaim(After(START, events).log, a);
  }

  /** Expired without having been claimed. */
  ghost predicate Overdue(s: State, id: string) {
    id in s.issued && Count(s.log, id).claims == 0 && (id in s.challenges ==> s.challenges[id].expiresAt < s.clock)
  }

  lemma StepKeepsOverdue(s: State, e: Event, id: string)
    requires PhaseOk(s, id) && Enabled(s, e) && Overdue(s, id)
    ensures Overdue(Next(s, e), id)
  {
    CountAfter(s, e, id);
    OverdueIsNotClaimed(s, e, id);
    if id in Next(s, e).challenges {
      ChallengeAfter(s, e, id);
    }
  }

  /** A step does not claim an overdue challenge, nor create it again, nor turn the clock back. */
  lemma OverdueIsNotClaimed(s: State, e: Event, id: string)
    requires Enabled(s, e) && Overdue(s, id)
    ensures EntryOf(s, e).Some? && e.id == id ==> !EntryOf(s, e).value.Claimed?
    ensures s.clock <= Next(s, e).clock && id in Next(s, e).issued && !(e.Create? && e.id == id)
  {
  }

  /** A challenge that has expired unclaimed is never admitted. */
  lemma {:induction false} OverdueNeverAdmitted(s: State, events: seq<Event>, id: string)
    requires Inv(s) && IsRun(s, events) && Overdue(s, id)
    ensures Count(After(s, events).log, id).admissions == 0
    decreases |events|
  {
    assert PhaseOk(s, id);
    if events != [] {
      StepKeepsInv(s, events[0]);
      StepKeepsOverdue(s, events[0], id);
      OverdueNeverAdmitted(Next(s, events[0]), events[1..], id);
    }
  }

  lemma StepKeepsGone(s: State, e: Event, id: string)
    requires Enabled(s, e) && id in s.issued && id !in s.challenges
    ensures id in Next(s, e).issued && id !in Next(s, e).challenges
    ensures Count(Next(s, e).log, id).deliveries == Count(s.log, id).deliveries
  {
    CountAfter(s, e, id);
  }

  /** A challenge that is gone stays gone, so an admission that outlives its challenge is never
      delivered: the device is admitted although nobody can fetch the login. */
  lemma {:induction false} GoneNeverDelivered(s: State, events: seq<Event>, id: string)
    requires IsRun(s, events) && id in s.issued && id !in s.challenges
    ensures id !in After(s, events).challenges
    ensures Count(After(s, events).log, id).deliveries == Count(s.log, id).deliveries
    decreases |events|
  {
    if events != [] {
      StepKeepsGone(s, events[0], id);
      GoneNeverDelivered(Next(s, events[0]), events[1..], id);
    }
  }

  /** A challenge that was handed out stays there, with its token and expiry, until its time is over or it is
      cancelled. */
  ghost predicate Stays(s: State, id: string, pollToken: string, expiresAt: int) {
    Created(id, pollToken, expiresAt) in s.log ==>
      id in s.issued && (s.clock <= expiresAt && Count(s.log, id).cancellations == 0 ==> id in s.challenges) &&
      (id in s.challenges ==> s.challenges[id].pollToken == pollToken && s.challenges[id].expiresAt == expiresAt)
  }

  lemma StepKeepsStays(s: State, e: Event, id: string, pollToken: string, expiresAt: int)
    requires Enabled(s, e) && Stays(s, id, pollToken, expiresAt)
    ensures Stays(Next(s, e), id, pollToken, expiresAt)
  {
    LogAfter(s, e);
    CountAfter(s, e, id);
    if e.id != id {
      OthersLeaveChallenge(s, e, id);
    } else if Created(id, pollToken, expiresAt) in s.log {
      OwnStepsKeepChallenge(s, e, id);
    }
  }

  /** Steps for other challenges leave one alone, unless it is swept away after its expiry. */
  lemma OthersLeaveChallenge(s: State, e: Event, id: string)
    requires Enabled(s, e) && e.id != id
    ensures id in Next(s, e).challenges ==> id in s.challenges && Next(s, e).challenges[id] == s.challenges[id]
    ensures id in s.challenges && Next(s, e).clock <= s.challenges[id].expiresAt ==> id in Next(s, e).challenges
  {
  }

  /** Its own steps after its creation change neither token nor expiry, and take it away only when it is
      cancelled or its time is over. */
  lemma OwnStepsKeepChallenge(s: State, e: Event, id: string)
    requires Enabled(s, e) && e.id == id && !e.Create?
    ensures id in Next(s, e).challenges ==>
              id in s.challenges && Next(s, e).challenges[id].pollToken == s.challenges[id].pollToken &&
              Next(s, e).challenges[id].expiresAt == s.challenges[id].expiresAt
    ensures id in s.challenges && Next(s, e).clock <= s.challenges[id].expiresAt &&
            EntryOf(s, e) != Some(Cancelled(id)) ==>
              id in Next(s, e).challenges
  {
  }

  lemma {:induction false} RunKeepsStays(s: State, events: seq<Event>, id: string, pollToken: string, expiresAt: int)
    requires IsRun(s, events) && Stays(s, id, pollToken, expiresAt)
    ensures Stays(After(s, events), id, pollToken, expiresAt)
    decreases |events|
  {
    if events != [] {
      StepKeepsStays(s, events[0], id, pollToken, expiresAt);
      RunKeepsStays(Next(s, events[0]), events[1..], id, pollToken, expiresAt);
    }
  }

  /** Once an admission has finished, its login is handed out to the first poll that comes in time with the
      token handed out at creation, and to no other; both are known to the target that polls. */
  lemma FinishedIsDeliveredExactlyInTime(events: seq<Event>, id: string, issuedToken: string, expiresAt: int,
                                         pollToken: string, now: int)
    requires IsRun(START, events) && Enabled(After(START, events), Poll(id, pollToken, now))
    requires var s := After(START, events);
             Created(id, issuedToken, expiresAt) in s.log &&
             id !in s.flights && Count(s.log, id).admissions == 1 && Count(s.log, id).deliveries == 0
    ensures AnswerTo(After(START, events), Poll(id, pollToken, now)).Login? <==>
            pollToken == issuedToken && pollToken != "" && now <= expiresAt
  {
    var s := After(START, events);
    AtMostOnce(events, id);
    RunKeepsStays(START, events, id, issuedToken, expiresAt);
    StartInv();
    RunKeepsInv(START, events);
    assert PhaseOk(s, id);
  }

  // ---------- what each request is answered ----------

  /** A challenge that was handed out, in terms of what has happened to it since. */
  lemma InTimeMeansThere(events: seq<Event>, id: string, issuedToken: string, expiresAt: int)
    requires IsRun(START, events) && Created(id, issuedToken, expiresAt) in After(START, events).log
    ensures var s := After(START, events);
            id in s.issued &&
            (Count(s.log, id).cancellations > 0 ==> id !in s.challenges) &&
            (s.clock <= expiresAt && Count(s.log, id).cancellations == 0 ==> id in s.challenges) &&
            (id in s.challenges ==>
               s.challenges[id].pollToken == issuedToken && s.challenges[id].expiresAt == expiresAt &&
               (s.challenges[id].status == Pending <==> Count(s.log, id).claims == 0))
  {
    RunKeepsStays(START, events, id, issuedToken, expiresAt);
    StartInv();
    RunKeepsInv(START, events);
    assert PhaseOk(After(START, events), id);
  }

  /** As long as the challenge is in time and has not been cancelled, a cancellation with the token that was handed
      out succeeds if and only if it has not been claimed, and comes too late otherwise; with any other token nothing
      is found. Afterwards a cancellation succeeds without doing anything. */
  lemma CancelAnswersExactly(events: seq<Event>, id: string, issuedToken: string, expiresAt: int, pollToken: string)
    requires IsRun(START, events) && Created(id, issuedToken, expiresAt) in After(START, events).log
    requires After(START, events).clock <= expiresAt
    ensures var s := After(START, events);
            AnswerTo(s, Cancel(id, pollToken)) ==
              if Count(s.log, id).cancellations > 0 then CancelledOk
              else if pollToken == "" || pollToken != issuedToken then NotFound
              else if Count(s.log, id).claims > 0 then Used
              else CancelledOk
  {
    InTimeMeansThere(events, id, issuedToken, expiresAt);
  }

  /** A claim succeeds if and only if the challenge is in time and has been neither cancelled nor claimed. */
  lemma ClaimAnswersExactly(events: seq<Event>, id: string, issuedToken: string, expiresAt: int, now: int)
    requires IsRun(START, events) && Created(id, issuedToken, expiresAt) in After(START, events).log
    requires After(START, events).clock <= now
    ensures var s := After(START, events);
            AnswerTo(s, Claim(id, now)) ==
              if now > expiresAt || Count(s.log, id).cancellations > 0 then Gone
              else if Count(s.log, id).claims > 0 then Used
              else Done
  {
    InTimeMeansThere(events, id, issuedToken, expiresAt);
  }

  /** A poll in time with the token that was handed out learns how far the challenge has come: unclaimed, being
      admitted, refused, admitted, in which case it receives the login, or handed out before. */
  lemma PollAnswersExactly(events: seq<Event>, id: string, issuedToken: string, expiresAt: int, pollToken: string,
                           now: int)
    requires IsRun(START, events) && Created(id, issuedToken, expiresAt) in After(START, events).log
    requires After(START, events).clock <= now
    ensures var s := After(START, events);
            var answer, k := AnswerTo(s, Poll(id, pollToken, now)), Count(s.log, id);
            if pollToken == "" || pollToken != issuedToken || k.cancellations > 0 then answer == NotFound
            else if now > expiresAt then answer == if id in s.challenges then Expired else NotFound
            else if k.claims == 0 then answer == CurrentStatus(Pending)
            else if id in s.flights then answer == CurrentStatus(Authorizing)
            else if k.admissions == 0 then answer == CurrentStatus(Failed)
            else if k.deliveries > 0 then answer == CurrentStatus(Consumed)
            else answer.Login? && Entry.Admitted(id, answer.payload) in s.log
  {
    var s := After(START, events);
    InTimeMeansThere(events, id, issuedToken, expiresAt);
    StartInv();
    RunKeepsInv(START, events);
    assert PhaseOk(s, id);
    assert id in s.challenges ==> ChallengeTraced(s.log, id, s.challenges[id]);
  }

  lemma {:induction false} GoneStaysGone(s: State, events: seq<Event>, id: string)
    requires IsRun(s, events) && id in s.issued && id !in s.challenges
    ensures id in After(s, events).issued && id !in After(s, events).challenges
    decreases |events|
  {
    if events != [] {
      StepKeepsGone(s, events[0], id);
      GoneStaysGone(Next(s, events[0]), events[1..], id);
    }
  }

  /** Cancelling a pending challenge with its token is final: it succeeds, and after whatever else happens, every
      claim finds the challenge gone, and every poll finds nothing. */
  lemma CancelledIsFinal(events: seq<Event>, id: string, pollToken: string, expiresAt: int, more: seq<Event>,
                         anyToken: string, now: int)
    requires IsRun(START, events) && Created(id, pollToken, expiresAt) in After(START, events).log && pollToken != ""
    requires After(START, events).clock <= expiresAt && Count(After(START, events).log, id).claims == 0
    requires IsRun(Next(After(START, events), Cancel(id, pollToken)), more)
    requires After(Next(After(START, events), Cancel(id, pollToken)), more).clock <= now
    ensures AnswerTo(After(START, events), Cancel(id, pollToken)) == CancelledOk
    ensures var t := After(Next(After(START, events), Cancel(id, pollToken)), more);
            AnswerTo(t, Claim(id, now)) == Gone && AnswerTo(t, Poll(id, anyToken, now)) == NotFound
  {
    CancelAnswersExactly(events, id, pollToken, expiresAt, pollToken);
    InTimeMeansThere(events, id, pollToken, expiresAt);
    GoneStaysGone(Next(After(START, events), Cancel(id, pollToken)), more, id);
  }

  /** Claimed in time, expired while the admission runs, then admitted: one admission, no delivery. */
  lemma AdmittedButNeverDelivered()
    ensures var events := [Create("qrl", "qpt", 0), Claim("qrl", 100), Poll("qrl", "qpt", 121),
                           Admit("qrl", Some(Payload("dg"))), Finish("qrl"), Poll("qrl", "qpt", 122)];
            IsRun(START, events) &&
            Count(After(START, events).log, "qrl").admissions == 1 &&
            Count(After(START, events).log, "qrl").deliveries == 0
  {
    var e0, e1, e2 := Create("qrl", "qpt", 0), Claim("qrl", 100), Poll("qrl", "qpt", 121);
    var e3, e4, e5 := Admit("qrl", Some(Payload("dg"))), Finish("qrl"), Poll("qrl", "qpt", 122);
    var s1 := Next(START, e0);
    assert s1.challenges["qrl"] == Challenge("qpt", Pending, 120, None);
    var s2 := Next(s1, e1);
    var s3 := Next(s2, e2);
    var s4 := Next(s3, e3);
    var s5 := Next(s4, e4);
    var s6 := Next(s5, e5);
    RunStep(s5, e5, []);
    RunStep(s4, e4, [e5]);
    RunStep(s3, e3, [e4, e5]);
    RunStep(s2, e2, [e3, e4, e5]);
    RunStep(s1, e1, [e2, e3, e4, e5]);
    RunStep(START, e0, [e1, e2, e3, e4, e5]);
    var created, claimed := Created("qrl", "qpt", 120), Claimed("qrl", 100);
    CountAppend([], created, "qrl");
    CountAppend([created], claimed, "qrl");
    CountAppend([created, claimed], Admitted("qrl", Payload("dg")), "qrl");
    assert s6.log == [created, claimed] + [Admitted("qrl", Payload("dg"))];
  }

  lemma RunStep(s: State, e: Event, rest: seq<Event>)
    requires Enabled(s, e) && IsRun(Next(s, e), rest)
    ensures IsRun(s, [e] + rest) && After(s, [e] + rest) == After(Next(s, e), rest)
  {
    assert ([e] + rest)[1..] == rest;
  }

  lemma {:induction false} RunsJoin(s: State, first: seq<Event>, second: seq<Event>)
    requires IsRun(s, first) && IsRun(After(s, first), second)
    ensures IsRun(s, first + second) && After(s, first + second) == After(After(s, first), second)
    decreases |first|
  {
    if first == [] {
      assert first + second == second;
    } else {
      RunsJoin(Next(s, first[0]), first[1..], second);
      assert (first + second)[1..] == first[1..] + second;
    }
  }

  // ---------- what goes on during an approval ----------

  /** Anything but the admission and the finish of this challenge. */
  predicate IsOther(e: Event, id: string) {
    e.id == id ==> !e.Admit? && !e.Finish?
  }

  lemma FlightIsClaimed(s: State, id: string)
    requires PhaseOk(s, id) && id in s.flights && id in s.challenges
    ensures s.challenges[id].status == Authorizing
  {
  }

  lemma OthersLeaveFlight(s: State, e: Event, id: string)
    requires Inv(s) && Enabled(s, e) && IsOther(e, id) && id in s.flights
    ensures id in Next(s, e).flights && Next(s, e).flights[id] == s.flights[id]
  {
    if e.Claim? && e.id == id && id in s.challenges {
      assert PhaseOk(s, id);
      FlightIsClaimed(s, id);
    }
  }

  lemma {:induction false} RunLeavesFlight(s: State, events: seq<Event>, id: string)
    requires Inv(s) && IsRun(s, events) && id in s.flights && AreOthers(events, id)
    ensures Inv(After(s, events)) && id in After(s, events).flights && After(s, events).flights[id] == s.flights[id]
    decreases |events|
  {
    if events != [] {
      assert events[0] in events;
      OthersLeaveFlight(s, events[0], id);
      StepKeepsInv(s, events[0]);
      RunLeavesFlight(Next(s, events[0]), events[1..], id);
    }
  }

  /** The admission and the finish of an approval, with the requests `after` in between. */
  function Settlement(id: string, outcome: Option<Payload>, after: seq<Event>): seq<Event> {
    [Admit(id, outcome)] + (after + [Finish(id)])
  }

  /** An approval from its claim on, with the requests `before` that precede the admission. */
  function Approval(id: string, now: int, before: seq<Event>, outcome: Option<Payload>, after: seq<Event>): seq<Event> {
    [Claim(id, now)] + (before + Settlement(id, outcome, after))
  }

  predicate AreOthers(events: seq<Event>, id: string) {
    forall e :: e in events ==> IsOther(e, id)
  }

  /** The requests before and after the admission of `id` can be served. */
  ghost predicate CanServe(s: State, id: string, before: seq<Event>, outcome: Option<Payload>, after: seq<Event>) {
    AreOthers(before, id) && AreOthers(after, id) && IsRun(s, before) &&
    CanServeAfter(After(s, before), id, outcome, after)
  }

  ghost predicate CanServeAfter(s: State, id: string, outcome: Option<Payload>, after: seq<Event>) {
    Enabled(s, Admit(id, outcome)) ==> IsRun(Next(s, Admit(id, outcome)), after)
  }

  lemma AdmitKeepsInv(s: State, id: string, outcome: Option<Payload>)
    requires Inv(s) && id in s.flights && s.flights[id] == Admitting
    ensures Enabled(s, Admit(id, outcome)) && Inv(Next(s, Admit(id, outcome)))
    ensures var s' := Next(s, Admit(id, outcome));
            id in s'.flights &&
            s'.flights[id] == if outcome.Some? then AdmitSucceeded(outcome.value) else AdmitFailed
  {
    StepKeepsInv(s, Admit(id, outcome));
  }

  lemma FinishIsRun(s: State, id: string, after: seq<Event>)
    requires Inv(s) && id in s.flights && s.flights[id] != Admitting && AreOthers(after, id) && IsRun(s, after)
    ensures id in After(s, after).flights && After(s, after).flights[id] == s.flights[id]
    ensures IsRun(s, after + [Finish(id)]) && After(s, after + [Finish(id)]) == Next(After(s, after), Finish(id))
  {
    RunLeavesFlight(s, after, id);
    RunStep(After(s, after), Finish(id), []);
    RunsJoin(s, after, [Finish(id)]);
  }

  lemma SettlementIsRun(s: State, id: string, outcome: Option<Payload>, after: seq<Event>)
    requires Inv(s) && id in s.flights && s.flights[id] == Admitting
    requires CanServeAfter(s, id, outcome, after) && AreOthers(after, id)
    ensures Enabled(s, Admit(id, outcome)) && IsRun(Next(s, Admit(id, outcome)), after)
    ensures var finished := After(Next(s, Admit(id, outcome)), after);
            Enabled(finished, Finish(id)) &&
            finished.flights[id] == (if outcome.Some? then AdmitSucceeded(outcome.value) else AdmitFailed) &&
            IsRun(s, Settlement(id, outcome, after)) &&
            After(s, Settlement(id, outcome, after)) == Next(finished, Finish(id))
  {
    AdmitKeepsInv(s, id, outcome);
    var admitted := Next(s, Admit(id, outcome));
    FinishIsRun(admitted, id, after);
    RunStep(s, Admit(id, outcome), after + [Finish(id)]);
  }

  lemma ClaimBeginsFlight(s: State, id: string, now: int)
    requires Inv(s) && Enabled(s, Claim(id, now)) && ClaimAnswer(s, id, now) == Done
    ensures var s' := Next(s, Claim(id, now)); Inv(s') && id in s'.flights && s'.flights[id] == Admitting
  {
    StepKeepsInv(s, Claim(id, now));
  }

  /** Whatever other requests come meanwhile, a claimed challenge can be admitted and finished. */
  lemma ApprovalIsRun(s: State, id: string, now: int, before: seq<Event>, outcome: Option<Payload>, after: seq<Event>)
    requires Inv(s) && Enabled(s, Claim(id, now)) && ClaimAnswer(s, id, now) == Done
    requires CanServe(Next(s, Claim(id, now)), id, before, outcome, after)
    ensures var claimed := After(Next(s, Claim(id, now)), before);
            Inv(claimed) && id in claimed.flights && claimed.flights[id] == Admitting &&
            IsRun(s, Approval(id, now, before, outcome, after)) && IsRun(claimed, Settlement(id, outcome, after)) &&
            After(s, Approval(id, now, before, outcome, after)) == After(claimed, Settlement(id, outcome, after))
  {
    var begun := Next(s, Claim(id, now));
    ClaimBeginsFlight(s, id, now);
    RunLeavesFlight(begun, before, id);
    SettlementIsRun(After(begun, before), id, outcome, after);
    RunsJoin(begun, before, Settlement(id, outcome, after));
    RunStep(s, Claim(id, now), before + Settlement(id, outcome, after));
  }

  // ---------- the server ----------

  method SweepExpired(challenges: map<string, Challenge>, now: int) returns (left: map<string, Challenge>)
    ensures left == Sweep(challenges, now)
  {
    left := challenges;
    var todo := challenges.Keys;
    while todo != {}
      invariant todo <= challenges.Keys
      invariant left == map k | k in challenges && (k in todo || now <= challenges[k].expiresAt) :: challenges[k]
      decreases |todo|
    {
      var k :| k in todo;
      todo := todo - {k};
      if now > challenges[k].expiresAt {
        left := left - {k};
      }
    }
  }

  class Server {
    var challenges: map<string, Challenge>
    /** How far each approval under way has come. */
    var flights: map<string, Flight>
    ghost var issued: set<string>
    ghost var log: seq<Entry>
    ghost var clock: int

    ghost function S(): State
      reads this
    {
      State(challenges, flights, issued, log, clock)
    }

    constructor ()
      ensures S() == START
    {
      challenges, flights, issued, log, clock := map[], map[], {}, [], 0;
    }

    ghost method Record(s: State)
      modifies this`issued, this`log, this`clock
      ensures issued == s.issued && log == s.log && clock == s.clock
    {
      issued, log, clock := s.issued, s.log, s.clock;
    }

    /** Expired challenges are swept out before the new one joins; ids are random and never repeat. */
    method HandleSession(id: string, pollToken: string, now: int)
      requires Enabled(S(), Create(id, pollToken, now))
      modifies this
      ensures S() == Next(old(S()), Create(id, pollToken, now))
      ensures id in challenges && challenges[id] == Challenge(pollToken, Pending, now + 120, None)
      ensures forall k :: k in challenges && k != id ==>
                k in old(challenges) && challenges[k] == old(challenges)[k] && now <= challenges[k].expiresAt
      ensures forall k :: k in old(challenges) && now <= old(challenges)[k].expiresAt ==> k in challenges
    {
      ghost var s := S();
      challenges := SweepExpired(challenges, now);
      challenges := challenges[id := Challenge(pollToken, Pending, now + LIFETIME, None)];
      Record(Next(s, Create(id, pollToken, now)));
    }

    method HandlePoll(id: string, pollToken: string, now: int) returns (answer: Answer)
      requires Enabled(S(), Poll(id, pollToken, now))
      modifies this
      ensures answer == AnswerTo(old(S()), Poll(id, pollToken, now))
      ensures S() == Next(old(S()), Poll(id, pollToken, now))
    {
      ghost var s := S();
      if id !in challenges || pollToken == "" || challenges[id].pollToken != pollToken {
        answer := NotFound;
      } else if now > challenges[id].expiresAt {
        challenges := challenges - {id};
        answer := Expired;
      } else if challenges[id].status == Approved && challenges[id].response.Some? {
        answer := Login(challenges[id].response.value);
        challenges := challenges[id := challenges[id].(status := Consumed)];
      } else {
        answer := CurrentStatus(challenges[id].status);
      }
      Record(Next(s, Poll(id, pollToken, now)));
    }

    method HandleCancel(id: string, pollToken: string) returns (answer: Answer)
      modifies this
      ensures answer == AnswerTo(old(S()), Cancel(id, pollToken))
      ensures S() == Next(old(S()), Cancel(id, pollToken))
    {
      ghost var s := S();
      if id !in challenges {
        answer := CancelledOk;
      } else if pollToken == "" || challenges[id].pollToken != pollToken {
        answer := NotFound;
      } else if challenges[id].status != Pending {
        answer := Used;
      } else {
        challenges := challenges - {id};
        answer := CancelledOk;
      }
      Record(Next(s, Cancel(id, pollToken)));
    }

    /** The first critical section of an approval. */
    method ClaimChallenge(id: string, now: int) returns (answer: Answer)
      requires Enabled(S(), Claim(id, now))
      modifies this
      ensures answer == AnswerTo(old(S()), Claim(id, now))
      ensures S() == Next(old(S()), Claim(id, now))
    {
      ghost var s := S();
      if id !in challenges || now > challenges[id].expiresAt {
        answer := Gone;
      } else if challenges[id].status != Pending {
        answer := Used;
      } else {
        challenges := challenges[id := challenges[id].(status := Authorizing)];
        flights := flights[id := Admitting];
        answer := Done;
      }
      Record(Next(s, Claim(id, now)));
    }

    /** The last critical section of an approval: `payload` is what the admission yielded, if it did. */
    method FinishSession(id: string, payload: Option<Payload>)
      requires id in flights && flights[id] == (if payload.Some? then AdmitSucceeded(payload.value) else AdmitFailed)
      modifies this
      ensures S() == Next(old(S()), Finish(id))
    {
      ghost var s := S();
      if id in challenges {
        var status := if payload.Some? then Approved else Failed;
        challenges := challenges[id := challenges[id].(status := status, response := payload)];
      }
      flights := flights - {id};
      Record(Next(s, Finish(id)));
    }

    /** The admission between the two: the device has been admitted with this payload, or refused. */
    method AdmitClaimed(id: string, outcome: Option<Payload>)
      requires Enabled(S(), Admit(id, outcome))
      modifies this
      ensures S() == Next(old(S()), Admit(id, outcome))
    {
      ghost var s := S();
      flights := flights[id := if outcome.Some? then AdmitSucceeded(outcome.value) else AdmitFailed];
      Record(Next(s, Admit(id, outcome)));
    }

    /** Any step of the protocol. */
    method Serve(e: Event)
      requires Enabled(S(), e)
      modifies this
      ensures S() == Next(old(S()), e)
    {
      match e
      case Create(id, pollToken, now) => HandleSession(id, pollToken, now);
      case Poll(id, pollToken, now) => var _ := HandlePoll(id, pollToken, now);
      case Cancel(id, pollToken) => var _ := HandleCancel(id, pollToken);
      case Claim(id, now) => var _ := ClaimChallenge(id, now);
      case Admit(id, outcome) => AdmitClaimed(id, outcome);
      case Finish(id) =>
        FinishSession(id, if flights[id].AdmitSucceeded? then Some(flights[id].payload) else None);
    }

    method ServeAll(events: seq<Event>)
      requires IsRun(S(), events)
      modifies this
      ensures S() == After(old(S()), events)
      decreases |events|
    {
      if events != [] {
        Serve(events[0]);
        ServeAll(events[1..]);
      }
    }

    method Settle(id: string, outcome: Option<Payload>, after: seq<Event>)
      requires Inv(S()) && id in flights && flights[id] == Admitting
      requires CanServeAfter(S(), id, outcome, after) && AreOthers(after, id)
      modifies this
      ensures IsRun(old(S()), Settlement(id, outcome, after))
      ensures S() == After(old(S()), Settlement(id, outcome, after))
    {
      SettlementIsRun(S(), id, outcome, after);
      AdmitClaimed(id, outcome);
      ServeAll(after);
      FinishSession(id, outcome);
    }

    /** The approval by a signed-in phone. Its claim may be refused; otherwise the other requests `before` come
        before the admission, which ends with `outcome`, and `after` before the finish; steps of other approvals
        may be among them. */
    method HandleApprove(id: string, now: int, before: seq<Event>, outcome: Option<Payload>, after: seq<Event>)
      returns (answer: Answer)
      requires Inv(S()) && Enabled(S(), Claim(id, now))
      requires ClaimAnswer(S(), id, now) == Done ==>
                 CanServe(Next(S(), Claim(id, now)), id, before, outcome, after)
      modifies this
      ensures Inv(S()) && answer == AnswerTo(old(S()), Claim(id, now))
      ensures answer != Done ==> S() == Next(old(S()), Claim(id, now))
      ensures answer == Done ==>
                IsRun(old(S()), Approval(id, now, before, outcome, after)) &&
                S() == After(old(S()), Approval(id, now, before, outcome, after))
    {
      ghost var s := S();
      answer := ClaimChallenge(id, now);
      StepKeepsInv(s, Claim(id, now));
      if answer == Done {
        ApprovalIsRun(s, id, now, before, outcome, after);
        RunKeepsInv(s, Approval(id, now, before, outcome, after));
        ServeAll(before);
        Settle(id, outcome, after);
      }
    }
  }
}
