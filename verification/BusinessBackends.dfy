/** The circuit breaker over the business backends: which backends a request tries, what its outcome
    does to them, and when a recovered backend of higher priority takes over again. */
module BusinessBackends {
  import opened Collections
  import opened BackendHistory
  import opened BusinessRetry

  datatype Config = Config(failureThreshold: int, circuitBreak: int, recoverySuccess: int, backupMinHold: int)
  {
    function Threshold(): int { if failureThreshold < 1 then 2 else failureThreshold }

    function Cooldown(): int { if circuitBreak <= 0 then 90 else circuitBreak }

    function Required(): int { if recoverySuccess < 1 then 3 else recoverySuccess }
  }

  predicate Cooling(states: map<string, Backend>, url: string, now: int) {
    url in states && states[url].disabledUntil.Some? && states[url].disabledUntil.value > now
  }

  function IndexOf(urls: seq<string>, url: string): int
    ensures -1 <= IndexOf(urls, url) < |urls|
    ensures IndexOf(urls, url) >= 0 ==> urls[IndexOf(urls, url)] == url && url !in urls[..IndexOf(urls, url)]
    ensures IndexOf(urls, url) < 0 <==> url !in urls
  {
    if urls == [] then -1
    else if urls[0] == url then 0
    else
      var rest := IndexOf(urls[1..], url);
      if rest < 0 then -1 else rest + 1
  }

  /** No repetitions, exactly the configured backends that are not cooling down, the active one first
      and the others as configured. */
  ghost predicate IsUsableOrder(urls: seq<string>, configured: seq<string>, states: map<string, Backend>,
                                active: string, now: int)
  {
    Distinct(urls) && (forall u :: u in urls <==> u in configured && !Cooling(states, u, now)) &&
    (active != "" && active in urls ==> urls[0] == active) &&
    forall i, j :: 0 <= i < j < |urls| && (urls[i] != active || active == "") ==>
      IndexOf(configured, urls[i]) < IndexOf(configured, urls[j])
  }

  /** The usable backends in order or, when all are cooling down, the first configured one alone. */
  ghost predicate IsRequestOrder(urls: seq<string>, configured: seq<string>, states: map<string, Backend>,
                                 active: string, now: int)
  {
    if exists u :: u in configured && !Cooling(states, u, now) then IsUsableOrder(urls, configured, states, active, now)
    else urls == if configured == [] then [] else [configured[0]]
  }

  /** What others do to the pool while a request is under way: the mark of another request, a refresh of the
      configuration, or a tick of the recovery checker. */
  datatype Other =
    | OtherMark(url: string, ok: bool, now: int)
    | OtherRefresh(urls: seq<string>)
    | OtherTick(clock: seq<int>, probeOk: seq<bool>)

  ghost function OwnMarks(baseURL: string, attempt: Attempt): seq<Entry> {
    if attempt.BuildFailed? then [] else [if Good(attempt) then Succeeded(baseURL) else FailedSend(baseURL)]
  }

  lemma MarksOfOne(url: string, now: int)
    ensures HealthMarks([Succeeded(url)] + []) == [Succeeded(url)]
    ensures HealthMarks([Succeeded(url)] + [Promoted(url, now)]) == [Succeeded(url)]
    ensures HealthMarks([FailedSend(url)]) == [FailedSend(url)]
  {
    Append([], FailedSend(url));
    Append([], Succeeded(url));
    Append([Succeeded(url)], Promoted(url, now));
    assert [] + [Succeeded(url)] == [Succeeded(url)] + [] == [Succeeded(url)];
    assert [] + [FailedSend(url)] == [FailedSend(url)];
  }

  /** The log has gained `parts`, and the own entries among them hold exactly one health mark for each send. */
  ghost predicate Gained(before: seq<Entry>, log: seq<Entry>, parts: seq<Part>, sent: seq<string>, outcome: Outcome) {
    log == before + Woven(parts) && HealthMarks(Owned(parts)) == Marks(sent, outcome)
  }

  lemma GainOne(before: seq<Entry>, log: seq<Entry>, parts: seq<Part>, sent: seq<string>, outcome: Outcome,
                baseURL: string, part: Part)
    requires Gained(before, log, parts, sent, outcome)
    requires HealthMarks(part.own) == OwnMarks(baseURL, outcome(baseURL))
    ensures Gained(before, log + part.others + part.own, parts + [part], SentAfter(sent, baseURL, outcome), outcome)
  {
    PartAppend(before, parts, part);
    MarksAppend(sent, baseURL, outcome);
  }

  /** Where nobody does anything before an attempt, the log gains nothing from others. */
  ghost predicate Quiet(parts: seq<Part>, between: nat -> seq<Other>) {
    forall k :: 0 <= k < |parts| && between(k) == [] ==> parts[k].others == []
  }

  lemma QuietGrows(parts: seq<Part>, part: Part, between: nat -> seq<Other>)
    requires Quiet(parts, between) && (between(|parts|) == [] ==> part.others == [])
    ensures Quiet(parts + [part], between)
  {
  }

  /** The active backend is the one promoted last, and the time of the last promotion is the one kept. */
  ghost predicate PromotedLast(last: Option<(string, int)>, active: string, activeSince: Option<int>) {
    match last
    case None => active == "" && activeSince.None?
    case Some((url, at)) => active in ["", url] && activeSince == Some(at)
  }

  class Pool {
    const cfg: Config
    var configured: seq<string>
    var states: map<string, Backend>
    var active: string
    var activeSince: Option<int>
    ghost var log: seq<Entry>

    /** An active backend is healthy and is the one promoted last, the time of the last promotion is known, and
        every count is what the history says. */
    ghost predicate Valid()
      reads this
    {
      Consistent(states, log, cfg.Threshold()) &&
      (active != "" ==>
         active in states && states[active].failureCount < cfg.Threshold() && states[active].disabledUntil.None?) &&
      PromotedLast(LastPromotion(log), active, activeSince)
    }

    constructor (cfg: Config, urls: seq<string>)
      ensures Valid() && configured == urls && this.cfg == cfg && active == "" && log == []
    {
      this.cfg := cfg;
      configured, states, active, activeSince, log := urls, map[], "", None, [];
    }

    /** The order in which a request tries the backends. */
    method BusinessURLs(now: int) returns (urls: seq<string>)
      ensures IsRequestOrder(urls, configured, states, active, now)
    {
      urls := UsableBackends(configured, states, active, now);
      if |urls| == 0 {
        assert forall u :: u in configured ==> u !in urls;
        if |configured| > 0 {
          urls := [configured[0]];
        }
      } else {
        assert urls[0] in urls;
      }
    }

    method MarkSuccess(baseURL: string, now: int)
      requires Valid()
      modifies this`states, this`active, this`activeSince, this`log
      ensures Valid() && active == baseURL
      ensures activeSince == if old(active) == baseURL then old(activeSince) else Some(now)
      ensures states == old(states)[baseURL := FRESH]
      ensures log == old(log) + [Succeeded(baseURL)] + if old(active) == baseURL then [] else [Promoted(baseURL, now)]
    {
      SuccessKeepsConsistent(states, log, cfg.Threshold(), baseURL, now);
      Append(log, Succeeded(baseURL));
      Append(log + [Succeeded(baseURL)], Promoted(baseURL, now));
      states := states[baseURL := FRESH];
      log := log + [Succeeded(baseURL)];
      if active != baseURL {
        active, activeSince := baseURL, Some(now);
        log := log + [Promoted(baseURL, now)];
      }
    }

    method MarkFailure(baseURL: string, now: int)
      requires Valid()
      modifies this`states, this`active, this`log
      ensures Valid() && log == old(log) + [FailedSend(baseURL)]
      ensures forall url :: url != baseURL ==> StateOf(states, url) == StateOf(old(states), url)
      ensures StateOf(states, baseURL).failureCount == StateOf(old(states), baseURL).failureCount + 1
      ensures StateOf(states, baseURL).recoverySuccessCount == 0
      ensures var opens := StateOf(states, baseURL).failureCount >=
                           if cfg.failureThreshold < 1 then 2 else cfg.failureThreshold;
              StateOf(states, baseURL).disabledUntil ==
                (if opens then Some(now + if cfg.circuitBreak <= 0 then 90 else cfg.circuitBreak)
                 else StateOf(old(states), baseURL).disabledUntil) &&
              active == if opens && old(active) == baseURL then "" else old(active)
    {
      var state := if baseURL in states then states[baseURL] else FRESH;
      state := state.(failureCount := state.failureCount + 1, recoverySuccessCount := 0);
      assert state == StateOf(states, baseURL).(failureCount := state.failureCount, recoverySuccessCount := 0);
      assert Agrees(StateOf(states, baseURL), log, baseURL);
      Append(log, FailedSend(baseURL));
      if state.failureCount >= cfg.Threshold() {
        state := state.(disabledUntil := Some(now + cfg.Cooldown()));
        if active == baseURL {
          active := "";
        }
      }
      EntryKeepsConsistent(states, log, cfg.Threshold(), FailedSend(baseURL), states[baseURL := state]);
      states := states[baseURL := state];
      log := log + [FailedSend(baseURL)];
    }

    /** A refresh of the configuration replaces the list first; the states follow in a second step. */
    method SetConfigured(urls: seq<string>)
      requires Valid()
      modifies this`configured
      ensures Valid() && configured == urls
    {
      configured := urls;
    }

    method RemoveBackend(url: string)
      requires Valid() && (url == active ==> active == "")
      modifies this`states, this`log
      ensures Valid() && states == old(states) - {url} && log == old(log) + [Removed(url)]
    {
      Append(log, Removed(url));
      EntryKeepsConsistent(states, log, cfg.Threshold(), Removed(url), states - {url});
      states := states - {url};
      log := log + [Removed(url)];
    }

    /** Drops the states of all backends that are not in the list, in any order. */
    method RemoveOthers(urls: seq<string>)
      requires Valid() && (active != "" ==> active in urls)
      modifies this`states, this`log
      ensures Valid() && states == map url | url in old(states) && url in urls :: old(states)[url]
      ensures old(log) <= log && HealthMarks(log) == HealthMarks(old(log))
    {
      var todo := states.Keys;
      while todo != {}
        invariant Valid() && todo <= old(states.Keys)
        invariant states == map url | url in old(states) && (url in todo || url in urls) :: old(states)[url]
        invariant old(log) <= log && HealthMarks(log) == HealthMarks(old(log))
        decreases |todo|
      {
        var url :| url in todo;
        todo := todo - {url};
        if url !in urls {
          Append(log, Removed(url));
          RemoveBackend(url);
        }
      }
    }

    method SyncBackends(urls: seq<string>)
      requires Valid()
      modifies this`states, this`active, this`log
      ensures Valid() && states.Keys == Elements(urls)
      ensures forall url :: url in urls ==> states[url] == StateOf(old(states), url)
      ensures active == if old(active) in urls then old(active) else ""
      ensures old(log) <= log && HealthMarks(log) == HealthMarks(old(log))
    {
      if active !in urls {
        active := "";
      }
      var all := WithBackends(states, urls);
      SameStatesConsistent(states, all, log, cfg.Threshold());
      assert StateOf(all, active) == StateOf(states, active);
      states := all;
      RemoveOthers(urls);
    }

    method NoteProbe(candidate: string, ok: bool)
      requires Valid()
      modifies this`states, this`log
      ensures Valid() && log == old(log) + [ProbeEntry(candidate, ok)]
      ensures SameCooling(old(states), states)
      ensures StateOf(states, candidate).recoverySuccessCount == ProbeRun(log, candidate)
    {
      ProbeKeepsConsistent(states, log, cfg.Threshold(), candidate, ok);
      Append(log, ProbeEntry(candidate, ok));
      states := RecordProbe(states, candidate, ok);
      log := log + [ProbeEntry(candidate, ok)];
    }

    /** Probes one candidate, unless it is cooling down. */
    method ProbeOne(candidate: string, now: int, ok: bool) returns (answers: bool)
      requires Valid()
      modifies this`states, this`log
      ensures Valid() && SameCooling(old(states), states)
      ensures answers <==> ok && !Cooling(old(states), candidate, now)
      ensures log == old(log) + if Cooling(old(states), candidate, now) then [] else [ProbeEntry(candidate, ok)]
      ensures answers ==> StateOf(states, candidate).recoverySuccessCount == ProbeRun(log, candidate)
    {
      answers := false;
      if !Cooling(states, candidate, now) {
        NoteProbe(candidate, ok);
        answers := ok;
      }
    }

    /** Probes the candidates in order until one answers; those in their cooling period are skipped. */
    method ProbeInOrder(n: nat, clock: seq<int>, probeOk: seq<bool>) returns (reached: Option<nat>)
      requires Valid() && n <= |configured| == |clock| == |probeOk|
      modifies this`states, this`log
      ensures Valid() && SameCooling(old(states), states)
      ensures reached.Some? ==> reached.value < n && Answers(configured, old(states), clock, probeOk, reached.value)
      ensures reached.Some? ==> log == old(log) + Probes(configured, old(states), clock, probeOk, reached.value + 1)
      ensures reached.Some? ==>
                StateOf(states, configured[reached.value]).recoverySuccessCount ==
                  ProbeRun(log, configured[reached.value])
      ensures reached.None? ==> NoneReachable(configured, old(states), clock, probeOk, n)
      ensures reached.None? ==> log == old(log) + Probes(configured, old(states), clock, probeOk, n)
    {
      var i := 0;
      while i < n
        invariant 0 <= i <= n && Valid() && SameCooling(old(states), states)
        invariant log == old(log) + Probes(configured, old(states), clock, probeOk, i)
        invariant NoneReachable(configured, old(states), clock, probeOk, i)
      {
        var candidate := configured[i];
        ProbesGrow(configured, old(states), clock, probeOk, i);
        assert Cooling(states, candidate, clock[i]) <==> Cooling(old(states), candidate, clock[i]);
        ghost var before := states;
        var answers := ProbeOne(candidate, clock[i], probeOk[i]);
        SameCoolingOn(old(states), before, states);
        if answers {
          return Some(i);
        }
        i := i + 1;
      }
      reached := None;
    }

    /** One tick of the recovery checker. It probes the backends of higher priority than the active one;
        `clock` and `probeOk` say when, and whether a probe succeeds. Only the first to answer may take over. */
    method CheckRecovery(clock: seq<int>, probeOk: seq<bool>) returns (promoted: Option<nat>)
      requires Valid() && |clock| == |probeOk| == |configured|
      modifies this`states, this`active, this`activeSince, this`log
      ensures Valid()
      ensures promoted.Some? ==> promoted.value < IndexOf(configured, old(active))
      ensures promoted.Some? ==> active == configured[promoted.value] && activeSince == Some(clock[promoted.value])
      ensures promoted.Some? ==>
                Promotable(cfg, configured, old(states), old(activeSince), old(log), clock, probeOk, promoted.value)
      ensures promoted.Some? ==>
                log == old(log) + Probes(configured, old(states), clock, probeOk, promoted.value + 1) +
                       [Succeeded(active), Promoted(active, clock[promoted.value])]
      ensures promoted.Some? && LastPromotion(old(log)).Some? ==>
                clock[promoted.value] - LastPromotion(old(log)).value.1 >= cfg.backupMinHold
      ensures promoted.None? ==> active == old(active) && activeSince == old(activeSince)
      ensures promoted.None? ==>
                exists n :: 0 <= n <= |configured| &&
                  log == old(log) + Probes(configured, old(states), clock, probeOk, n)
      ensures promoted.None? ==> NonePromotable(cfg, configured, old(states), old(activeSince), old(log), clock,
              probeOk,
                                                IndexOf(configured, old(active)))
    {
      promoted := None;
      var activeIndex := IndexOf(configured, active);
      if |configured| < 2 || activeIndex <= 0 {
        assert log == old(log) + Probes(configured, old(states), clock, probeOk, 0);
        return;
      }
      var reached := ProbeInOrder(activeIndex, clock, probeOk);
      FirstAnswerDecides(cfg, configured, old(states), activeSince, old(log), clock, probeOk, reached, activeIndex);
      if reached.Some? {
        var candidate := configured[reached.value];
        var votes := if candidate in states then states[candidate].recoverySuccessCount else 0;
        if votes >= cfg.Required() && Held(cfg, activeSince, clock[reached.value]) {
          MarkSuccess(candidate, clock[reached.value]);
          promoted := reached;
        }
      }
    }

    method Tick(clock: string -> int, probeOk: string -> bool) returns (ghost entries: seq<Entry>)
      requires Valid()
      modifies this`states, this`active, this`activeSince, this`log
      ensures Valid() && log == old(log) + entries && HeldFor(old(log), entries, cfg.backupMinHold)
    {
      var urls := configured;
      var times := seq(|urls|, i requires 0 <= i < |urls| => clock(urls[i]));
      var oks := seq(|urls|, i requires 0 <= i < |urls| => probeOk(urls[i]));
      ghost var before, found := log, states;
      var promoted := CheckRecovery(times, oks);
      if promoted.Some? {
        ProbesAreNoPromotions(urls, found, times, oks, promoted.value + 1);
        entries := Probes(urls, found, times, oks, promoted.value + 1) +
                   [Succeeded(active), Promoted(active, times[promoted.value])];
      } else {
        ghost var n :| 0 <= n <= |urls| && log == before + Probes(urls, found, times, oks, n);
        ProbesAreNoPromotions(urls, found, times, oks, n);
        entries := Probes(urls, found, times, oks, n);
      }
    }

    /** The recovery checker over any number of ticks, each of them after whatever `between` says that others do:
        no tick makes a backend active within the minimum hold of the last change of the active backend, whoever
        made it. */
    method RunRecoveryChecker(ticks: seq<(string -> int, string -> bool)>, between: nat -> seq<Other>)
      returns (ghost parts: seq<Part>)
      requires Valid()
      modifies this
      ensures Valid() && log == old(log) + Woven(parts) && |parts| == |ticks|
      ensures forall k :: 0 <= k < |parts| && LastPromotion(old(log) + Woven(parts[..k]) + parts[k].others).Some? ==>
                forall e :: e in parts[k].own && e.Promoted? ==>
                  e.at - LastPromotion(old(log) + Woven(parts[..k]) + parts[k].others).value.1 >= cfg.backupMinHold
    {
      parts := [];
      for i := 0 to |ticks|
        invariant Valid() && log == old(log) + Woven(parts) && |parts| == i
        invariant forall k :: 0 <= k < i ==>
                    HeldFor(old(log) + Woven(parts[..k]) + parts[k].others, parts[k].own, cfg.backupMinHold)
      {
        ghost var entries := DisturbAll(between(i));
        ghost var own := Tick(ticks[i].0, ticks[i].1);
        PartAppend(old(log), parts, Part(entries, own));
        assert forall k :: 0 <= k < i ==> (parts + [Part(entries, own)])[..k] == parts[..k];
        assert (parts + [Part(entries, own)])[..i] == parts;
        parts := parts + [Part(entries, own)];
      }
    }

    /** The health mark of one send: exactly one entry, and a promotion if the backend was not the active one. */
    method Note(baseURL: string, ok: bool, now: int) returns (ghost own: seq<Entry>)
      requires Valid()
      modifies this`states, this`active, this`activeSince, this`log
      ensures Valid() && log == old(log) + own
      ensures HealthMarks(own) == [if ok then Succeeded(baseURL) else FailedSend(baseURL)]
    {
      MarksOfOne(baseURL, now);
      if ok {
        own := [Succeeded(baseURL)] + if active == baseURL then [] else [Promoted(baseURL, now)];
        MarkSuccess(baseURL, now);
      } else {
        own := [FailedSend(baseURL)];
        MarkFailure(baseURL, now);
      }
    }

    method Disturb(other: Other)
      requires Valid()
      modifies this
      ensures Valid() && old(log) <= log
    {
      match other
      case OtherMark(url, ok, now) => var _ := Note(url, ok, now);
      case OtherRefresh(urls) =>
        SetConfigured(urls);
        SyncBackends(urls);
      case OtherTick(clock, probeOk) =>
        if |clock| == |configured| && |probeOk| == |configured| {
          var _ := CheckRecovery(clock, probeOk);
        }
    }

    method DisturbAll(others: seq<Other>) returns (ghost entries: seq<Entry>)
      requires Valid()
      modifies this
      ensures Valid() && log == old(log) + entries && (others == [] ==> entries == [])
    {
      for i := 0 to |others|
        invariant Valid() && old(log) <= log && (i == 0 ==> log == old(log))
      {
        Disturb(others[i]);
      }
      entries := log[|old(log)|..];
    }

    /** One attempt after what others have done: `part` is what the log gains. */
    method Attempt(baseURL: string, attempt: Attempt, now: int, others: seq<Other>) returns (ghost part: Part)
      requires Valid()
      modifies this
      ensures Valid() && log == old(log) + part.others + part.own && (others == [] ==> part.others == [])
      ensures HealthMarks(part.own) == OwnMarks(baseURL, attempt)
    {
      ghost var entries := DisturbAll(others);
      ghost var own: seq<Entry> := [];
      if !attempt.BuildFailed? {
        own := Note(baseURL, Good(attempt), now);
      }
      part := Part(entries, own);
    }

    method TryInOrder(order: seq<string>, retry: bool, outcome: Outcome, clock: string -> int,
                      between: nat -> seq<Other>)
      returns (reply: Reply, ghost sent: seq<string>, ghost parts: seq<Part>)
      requires Valid()
      modifies this
      ensures Valid()
      ensures sent == Sends(order, retry, outcome) && reply == ReplyOf(order, retry, outcome)
      ensures Gained(old(log), log, parts, sent, outcome) && Quiet(parts, between)
    {
      reply, sent, parts := NoBackends, [], [];
      var i := 0;
      var moves := true;
      while i < |order| && moves
        invariant 0 <= i <= |order| && |parts| == i
        invariant Valid() && Gained(old(log), log, parts, sent, outcome) && Quiet(parts, between)
        invariant Trying(moves, sent, order, i, retry, outcome, reply)
      {
        var baseURL := order[i];
        var attempt := outcome(baseURL);
        TryOn(sent, order, i, retry, outcome, reply);
        ghost var before := log;
        ghost var part := Attempt(baseURL, attempt, clock(baseURL), between(i));
        GainOne(old(log), before, parts, sent, outcome, baseURL, part);
        QuietGrows(parts, part, between);
        parts := parts + [part];
        sent := SentAfter(sent, baseURL, outcome);
        moves := MovesOn(attempt, retry, i + 1 == |order|);
        reply := ReplyFrom(baseURL, attempt, moves);
        i := i + 1;
      }
      TryEnds(moves, sent, order, i, retry, outcome, reply);
    }

    /** Sends the request to the backends in order until one gives an answer that counts. `outcome` says
        what becomes of the request at each backend, `clock` when, and `between` what others do to the pool before
        each attempt; `sent` are the backends it was sent to. Whatever others do, the order is that of the
        beginning, and each send leaves exactly one health mark. */
    method TryBusinessURLs(now: int, verb: string, path: string, outcome: Outcome, clock: string -> int,
                           between: nat -> seq<Other>)
      returns (reply: Reply, ghost urls: seq<string>, ghost sent: seq<string>, ghost parts: seq<Part>)
      requires Valid()
      modifies this
      ensures Valid() && IsRequestOrder(urls, old(configured), old(states), old(active), now)
      ensures sent == Sends(urls, SafeBusinessRetry(verb, path), outcome)
      ensures reply == ReplyOf(urls, SafeBusinessRetry(verb, path), outcome)
      ensures Gained(old(log), log, parts, sent, outcome)
      ensures verb != "GET" && verb != "HEAD" && verb != "OPTIONS" &&
              !(verb == "POST" && exists prefix: string :: path == prefix + "/passport/auth/login") ==>
                |sent| <= 1 &&
                forall k :: 0 <= k < |urls| && !outcome(urls[k]).BuildFailed? &&
                            (forall i :: 0 <= i < k ==> outcome(urls[i]).BuildFailed?) ==>
                  sent == [urls[k]] &&
                  reply == if outcome(urls[k]).Answered? then Response(urls[k], outcome(urls[k]).status)
                           else LastError(urls[k])
      ensures verb == "GET" || verb == "HEAD" || verb == "OPTIONS" ||
              (verb == "POST" && exists prefix: string :: path == prefix + "/passport/auth/login") ==>
                (forall k :: 0 <= k < |urls| && outcome(urls[k]).Answered? && outcome(urls[k]).status < 500 &&
                             (forall i :: 0 <= i < k && outcome(urls[i]).Answered? ==>
                                outcome(urls[i]).status >= 500) ==>
                   sent == Buildable(urls[..k + 1], outcome) && reply == Response(urls[k], outcome(urls[k]).status)) &&
                ((forall u :: u in urls && outcome(u).Answered? ==> outcome(u).status >= 500) ==>
                   sent == Buildable(urls, outcome) &&
                   reply == if urls == [] then NoBackends
                            else if outcome(urls[|urls| - 1]).Answered? then
                              Response(urls[|urls| - 1], outcome(urls[|urls| - 1]).status)
                            else LastError(urls[|urls| - 1]))
      ensures forall i :: 0 <= i < |sent| ==>
                Marks(sent, outcome)[i] == if outcome(sent[i]).Answered? && outcome(sent[i]).status < 500
                                           then Succeeded(sent[i]) else FailedSend(sent[i])
      ensures (forall k :: between(k) == []) ==> HealthMarks(log) == HealthMarks(old(log)) + Marks(sent, outcome)
    {
      var order := BusinessURLs(now);
      urls := order;
      reply, sent, parts := TryInOrder(order, SafeBusinessRetry(verb, path), outcome, clock, between);
      RepeatableRequests(verb, path);
      if SafeBusinessRetry(verb, path) {
        SafeTries(urls, outcome);
      } else {
        UnsafeTries(urls, outcome);
      }
      if forall k :: between(k) == [] {
        UndisturbedMarks(old(log), parts);
      }
    }
  }

  /** A promotion rests on enough successful probes of the candidate with nothing in between that breaks
      the row: no failed probe, failed or successful request, promotion, or removal of it. */
  lemma PromotionNeedsUnbrokenRow(cfg: Config, configured: seq<string>, states: map<string, Backend>,
                                  activeSince: Option<int>,
                                  log: seq<Entry>, clock: seq<int>, probeOk: seq<bool>, k: nat)
    returns (i: nat, n: nat)
    requires k < |configured| == |clock| == |probeOk|
    requires Promotable(cfg, configured, states, activeSince, log, clock, probeOk, k)
    ensures n >= if cfg.recoverySuccess < 1 then 3 else cfg.recoverySuccess
    ensures UnbrokenRow(log + Probes(configured, states, clock, probeOk, k + 1), i, configured[k], n)
  {
    i := ProbeRunIsUnbroken(log + Probes(configured, states, clock, probeOk, k + 1), configured[k]);
    n := ProbeRun(log + Probes(configured, states, clock, probeOk, k + 1), configured[k]);
  }

  /** The promotions among the entries come no earlier than the hold after the last one before them. */
  ghost predicate HeldFor(before: seq<Entry>, entries: seq<Entry>, hold: int) {
    LastPromotion(before).Some? ==>
      forall e :: e in entries && e.Promoted? ==> e.at - LastPromotion(before).value.1 >= hold
  }

  lemma {:induction false} ProbesAreNoPromotions(configured: seq<string>, states: map<string, Backend>,
                                                 clock: seq<int>, probeOk: seq<bool>, n: nat)
    requires n <= |configured| == |clock| == |probeOk|
    ensures forall e :: e in Probes(configured, states, clock, probeOk, n) ==> e.ProbeSucceeded? || e.ProbeFailed?
  {
    if n > 0 {
      ProbesAreNoPromotions(configured, states, clock, probeOk, n - 1);
    }
  }

  lemma {:induction false} ProbesOfOthers(configured: seq<string>, states: map<string, Backend>, log: seq<Entry>,
                                          clock: seq<int>, probeOk: seq<bool>, n: nat, url: string)
    requires n <= |configured| == |clock| == |probeOk| && url !in configured[..n]
    ensures ProbeRun(log + Probes(configured, states, clock, probeOk, n), url) == ProbeRun(log, url)
  {
    if n == 0 {
      assert log + [] == log;
    } else {
      assert configured[n - 1] == configured[..n][n - 1];
      assert url !in configured[..n - 1];
      ProbesOfOthers(configured, states, log, clock, probeOk, n - 1, url);
      var rest := Probes(configured, states, clock, probeOk, n - 1);
      var e := ProbeEntry(configured[n - 1], probeOk[n - 1]);
      Append(log + rest, e);
      assert log + (rest + [e]) == log + rest + [e] && log + (rest + []) == log + rest;
    }
  }

  /** A candidate takes over exactly when no candidate before it can be reached, it answers its probe outside of its
      cooling period, that probe is the last of as many in a row as are required (3 by default), and the minimum
      hold is over. */
  lemma PromotableExactly(cfg: Config, configured: seq<string>, states: map<string, Backend>, activeSince: Option<int>,
                          log: seq<Entry>, clock: seq<int>, probeOk: seq<bool>, k: nat)
    requires k < |configured| == |clock| == |probeOk| && configured[k] !in configured[..k]
    ensures Promotable(cfg, configured, states, activeSince, log, clock, probeOk, k) <==>
            && (forall i :: 0 <= i < k && probeOk[i] ==>
                  configured[i] in states && states[configured[i]].disabledUntil.Some? &&
                  clock[i] < states[configured[i]].disabledUntil.value)
            && probeOk[k]
            && (configured[k] in states && states[configured[k]].disabledUntil.Some? ==>
                  clock[k] >= states[configured[k]].disabledUntil.value)
            && ProbeRun(log, configured[k]) + 1 >= (if cfg.recoverySuccess < 1 then 3 else cfg.recoverySuccess)
            && (activeSince.Some? ==> clock[k] - activeSince.value >= cfg.backupMinHold)
  {
    if Answers(configured, states, clock, probeOk, k) {
      var rest := Probes(configured, states, clock, probeOk, k);
      ProbesOfOthers(configured, states, log, clock, probeOk, k, configured[k]);
      Append(log + rest, ProbeEntry(configured[k], true));
      assert log + (rest + [ProbeEntry(configured[k], true)]) == log + rest + [ProbeEntry(configured[k], true)];
    }
  }

  /** Candidate `k` is the first one that is probed with success. */
  ghost predicate Answers(configured: seq<string>, states: map<string, Backend>, clock: seq<int>, probeOk: seq<bool>,
                          k: nat)
    requires k < |configured| == |clock| == |probeOk|
  {
    NoneReachable(configured, states, clock, probeOk, k) && !Cooling(states, configured[k], clock[k]) && probeOk[k]
  }

  ghost predicate NonePromotable(cfg: Config, configured: seq<string>, states: map<string, Backend>,
                                 activeSince: Option<int>,
                                 log: seq<Entry>, clock: seq<int>, probeOk: seq<bool>, n: int)
    requires n <= |configured| == |clock| == |probeOk|
  {
    forall k: nat :: k < n ==> !Promotable(cfg, configured, states, activeSince, log, clock, probeOk, k)
  }

  /** Only the first candidate that answers can be promoted. */
  lemma FirstAnswerDecides(cfg: Config, configured: seq<string>, states: map<string, Backend>, activeSince: Option<int>,
                           log: seq<Entry>, clock: seq<int>, probeOk: seq<bool>, reached: Option<nat>, n: nat)
    requires n <= |configured| == |clock| == |probeOk|
    requires if reached.Some? then reached.value < n && Answers(configured, states, clock, probeOk, reached.value)
             else NoneReachable(configured, states, clock, probeOk, n)
    ensures forall k: nat :: k < n && Promotable(cfg, configured, states, activeSince, log, clock, probeOk, k) ==>
              reached == Some(k)
  {
    forall k: nat | k < n && Answers(configured, states, clock, probeOk, k)
      ensures reached == Some(k)
    {
    }
  }

  predicate Held(cfg: Config, activeSince: Option<int>, now: int) {
    activeSince.None? || now - activeSince.value >= cfg.backupMinHold
  }

  function ProbeEntry(url: string, ok: bool): Entry {
    if ok then ProbeSucceeded(url) else ProbeFailed(url)
  }

  ghost function Probed(states: map<string, Backend>, candidate: string, ok: bool): map<string, Backend> {
    var state := StateOf(states, candidate);
    if ok then states[candidate := state.(recoverySuccessCount := state.recoverySuccessCount + 1)]
    else if candidate in states then states[candidate := state.(recoverySuccessCount := 0)]
    else states
  }

  method RecordProbe(states: map<string, Backend>, candidate: string, ok: bool) returns (next: map<string, Backend>)
    ensures next == Probed(states, candidate, ok)
  {
    next := states;
    if ok {
      var state := if candidate in states then states[candidate] else FRESH;
      next := states[candidate := state.(recoverySuccessCount := state.recoverySuccessCount + 1)];
    } else if candidate in states {
      next := states[candidate := states[candidate].(recoverySuccessCount := 0)];
    }
  }

  lemma ProbeKeepsConsistent(states: map<string, Backend>, log: seq<Entry>, threshold: int, candidate: string, ok: bool)
    requires Consistent(states, log, threshold)
    ensures Consistent(Probed(states, candidate, ok), log + [ProbeEntry(candidate, ok)], threshold)
    ensures SameCooling(states, Probed(states, candidate, ok))
    ensures StateOf(Probed(states, candidate, ok), candidate).recoverySuccessCount ==
            ProbeRun(log + [ProbeEntry(candidate, ok)], candidate)
  {
    var e := ProbeEntry(candidate, ok);
    assert Agrees(StateOf(states, candidate), log, candidate);
    Append(log, e);
    EntryKeepsConsistent(states, log, threshold, e, Probed(states, candidate, ok));
  }

  ghost predicate SameCooling(states: map<string, Backend>, states': map<string, Backend>) {
    forall url, now :: Cooling(states', url, now) <==> Cooling(states, url, now)
  }

  /** The probes of the first `n` candidates: those in their cooling period are skipped. */
  ghost function Probes(configured: seq<string>, states: map<string, Backend>, clock: seq<int>, probeOk: seq<bool>,
                        n: nat): seq<Entry>
    requires n <= |configured| == |clock| == |probeOk|
  {
    if n == 0 then []
    else Probes(configured, states, clock, probeOk, n - 1) +
         (if Cooling(states, configured[n - 1], clock[n - 1]) then []
           else [ProbeEntry(configured[n - 1], probeOk[n - 1])])
  }

  lemma ProbesGrow(configured: seq<string>, states: map<string, Backend>, clock: seq<int>, probeOk: seq<bool>, i: nat)
    requires i < |configured| == |clock| == |probeOk|
    ensures Probes(configured, states, clock, probeOk, i + 1) ==
            Probes(configured, states, clock, probeOk, i) +
            (if Cooling(states, configured[i], clock[i]) then [] else [ProbeEntry(configured[i], probeOk[i])])
    ensures NoneReachable(configured, states, clock, probeOk, i + 1) <==>
            NoneReachable(configured, states, clock, probeOk, i) &&
            (Cooling(states, configured[i], clock[i]) || !probeOk[i])
  {
  }

  lemma SameCoolingOn(a: map<string, Backend>, b: map<string, Backend>, c: map<string, Backend>)
    requires SameCooling(a, b) && SameCooling(b, c)
    ensures SameCooling(a, c)
  {
  }

  ghost predicate NoneReachable(configured: seq<string>, states: map<string, Backend>, clock: seq<int>,
                                probeOk: seq<bool>, n: nat)
    requires n <= |configured| == |clock| == |probeOk|
  {
    forall k :: 0 <= k < n ==> Cooling(states, configured[k], clock[k]) || !probeOk[k]
  }

  /** What it takes for candidate `k` to become active: every candidate before it is cooling down or fails
      its probe, its own probe succeeds as one of enough in a row, and the backup has been held long enough. */
  ghost predicate Promotable(cfg: Config, configured: seq<string>, states: map<string, Backend>,
                             activeSince: Option<int>,
                             log: seq<Entry>, clock: seq<int>, probeOk: seq<bool>, k: nat)
    requires k < |configured| == |clock| == |probeOk|
  {
    Answers(configured, states, clock, probeOk, k) &&
    ProbeRun(log + Probes(configured, states, clock, probeOk, k + 1), configured[k]) >= cfg.Required() &&
    Held(cfg, activeSince, clock[k])
  }

  method WithBackends(states: map<string, Backend>, urls: seq<string>) returns (states': map<string, Backend>)
    ensures states'.Keys == states.Keys + Elements(urls)
    ensures forall url :: StateOf(states', url) == StateOf(states, url)
  {
    states' := states;
    for i := 0 to |urls|
      invariant states'.Keys == states.Keys + Elements(urls[..i])
      invariant forall url :: StateOf(states', url) == StateOf(states, url)
    {
      assert urls[..i + 1] == urls[..i] + [urls[i]];
      AppendElements(urls[..i], urls[i]);
      if urls[i] !in states' {
        states' := states'[urls[i] := FRESH];
      }
    }
    assert urls[..|urls|] == urls;
  }

  lemma SameStatesConsistent(states: map<string, Backend>, states': map<string, Backend>, log: seq<Entry>,
                             threshold: int)
    requires Consistent(states, log, threshold) && forall url :: StateOf(states', url) == StateOf(states, url)
    ensures Consistent(states', log, threshold)
  {
    forall url
      ensures Agrees(StateOf(states', url), log, url)
      ensures StateOf(states', url).disabledUntil.Some? <==> StateOf(states', url).failureCount >= threshold
    {
      assert Agrees(StateOf(states, url), log, url);
    }
  }

  lemma SuccessKeepsConsistent(states: map<string, Backend>, log: seq<Entry>, threshold: int, url: string, now: int)
    requires Consistent(states, log, threshold) && threshold > 0
    ensures Consistent(states[url := FRESH], log + [Succeeded(url)], threshold)
    ensures Consistent(states[url := FRESH], log + [Succeeded(url)] + [Promoted(url, now)], threshold)
  {
    Append(log, Succeeded(url));
    EntryKeepsConsistent(states, log, threshold, Succeeded(url), states[url := FRESH]);
    Append(log + [Succeeded(url)], Promoted(url, now));
    var fresh' := states[url := FRESH];
    EntryKeepsConsistent(fresh', log + [Succeeded(url)], threshold, Promoted(url, now), fresh');
  }

  /** The entries from `n` on stand in configured order, all before position `i`. */
  ghost predicate Ordered(urls: seq<string>, n: nat, configured: seq<string>, i: int) {
    (forall a :: n <= a < |urls| ==> IndexOf(configured, urls[a]) < i) &&
    forall a, b :: n <= a < b < |urls| ==> IndexOf(configured, urls[a]) < IndexOf(configured, urls[b])
  }

  lemma OrderedGrows(urls: seq<string>, n: nat, configured: seq<string>, i: nat)
    requires Ordered(urls, n, configured, i) && i < |configured| && IndexOf(configured, configured[i]) == i
    ensures Ordered(urls + [configured[i]], n, configured, i + 1)
  {
  }

  method UsableBackends(configured: seq<string>, states: map<string, Backend>, active: string, now: int)
    returns (urls: seq<string>)
    ensures IsUsableOrder(urls, configured, states, active, now)
  {
    urls := [];
    if active != "" && active in configured && !Cooling(states, active, now) {
      urls := [active];
    }
    ghost var first := urls;
    for i := 0 to |configured|
      invariant first <= urls && Distinct(urls) && Ordered(urls, |first|, configured, i)
      invariant forall u :: u in urls <==> u in first || (u in configured[..i] && !Cooling(states, u, now))
    {
      var baseURL := configured[i];
      assert configured[..i + 1] == configured[..i] + [baseURL];
      if baseURL !in urls && !Cooling(states, baseURL, now) {
        FirstOccurrence(configured, i);
        OrderedGrows(urls, |first|, configured, i);
        AppendDistinct(urls, baseURL);
        urls := urls + [baseURL];
      }
    }
    assert configured[..|configured|] == configured;
  }

  lemma FirstOccurrence(configured: seq<string>, i: nat)
    requires i < |configured|
    ensures configured[i] !in configured[..i] ==> IndexOf(configured, configured[i]) == i
    ensures IndexOf(configured, configured[i]) <= i
  {
    var k := IndexOf(configured, configured[i]);
    assert forall j :: 0 <= j < k ==> configured[j] in configured[..k];
  }
}
