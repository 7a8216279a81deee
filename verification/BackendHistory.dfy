/** What has happened to the business backends, and the counts that their states must agree with. */
module BackendHistory {
  import opened Collections

  datatype Entry =
    | Succeeded(url: string)
    | FailedSend(url: string)
    | ProbeSucceeded(url: string)
    | ProbeFailed(url: string)
    | Removed(url: string)
    | Promoted(url: string, at: int)

  datatype Backend = Backend(failureCount: int, disabledUntil: Option<int>, recoverySuccessCount: int)

  const FRESH := Backend(0, None, 0)

  /** Failures since the last success or removal. */
  ghost function FailureRun(log: seq<Entry>, url: string): nat {
    if log == [] then 0
    else
      var run, last := FailureRun(log[..|log| - 1], url), log[|log| - 1];
      if last.url != url then run
      else match last
        case FailedSend(_) => run + 1
        case Succeeded(_) => 0
        case Removed(_) => 0
        case _ => run
  }

  /** Successful probes since the last failed probe, failed request, success, promotion or removal. */
  ghost function ProbeRun(log: seq<Entry>, url: string): nat {
    if log == [] then 0
    else
      var run, last := ProbeRun(log[..|log| - 1], url), log[|log| - 1];
      if last.url != url then run
      else if last.ProbeSucceeded? then run + 1
      else 0
  }

  ghost function LastPromotion(log: seq<Entry>): Option<(string, int)> {
    if log == [] then None
    else if log[|log| - 1].Promoted? then Some((log[|log| - 1].url, log[|log| - 1].at))
    else LastPromotion(log[..|log| - 1])
  }

  /** The successes and failures of requests, one for each request that was sent. */
  ghost function HealthMarks(log: seq<Entry>): seq<Entry> {
    if log == [] then []
    else HealthMarks(log[..|log| - 1]) +
         (if log[|log| - 1].Succeeded? || log[|log| - 1].FailedSend? then [log[|log| - 1]] else [])
  }

  lemma Append(log: seq<Entry>, e: Entry)
    ensures forall url :: url != e.url ==> FailureRun(log + [e], url) == FailureRun(log, url)
    ensures forall url :: url != e.url ==> ProbeRun(log + [e], url) == ProbeRun(log, url)
    ensures FailureRun(log + [e], e.url) ==
            match e
            case FailedSend(_) => FailureRun(log, e.url) + 1
            case Succeeded(_) => 0
            case Removed(_) => 0
            case _ => FailureRun(log, e.url)
    ensures ProbeRun(log + [e], e.url) ==
            match e
            case ProbeSucceeded(_) => ProbeRun(log, e.url) + 1
            case _ => 0
    ensures LastPromotion(log + [e]) == if e.Promoted? then Some((e.url, e.at)) else LastPromotion(log)
    ensures HealthMarks(log + [e]) == HealthMarks(log) + if e.Succeeded? || e.FailedSend? then [e] else []
  {
    assert (log + [e])[..|log|] == log;
  }

  lemma {:induction false} HealthMarksJoin(a: seq<Entry>, b: seq<Entry>)
    ensures HealthMarks(a + b) == HealthMarks(a) + HealthMarks(b)
  {
    if b == [] {
      assert a + b == a;
    } else {
      HealthMarksJoin(a, b[..|b| - 1]);
      assert (a + b)[..|a + b| - 1] == a + b[..|b| - 1];
    }
  }

  /** What the log gains during one attempt of a request: first what others bring about, then its own entries. */
  datatype Part = Part(others: seq<Entry>, own: seq<Entry>)

  ghost function Woven(parts: seq<Part>): seq<Entry> {
    if parts == [] then []
    else Woven(parts[..|parts| - 1]) + parts[|parts| - 1].others + parts[|parts| - 1].own
  }

  ghost function Owned(parts: seq<Part>): seq<Entry> {
    if parts == [] then [] else Owned(parts[..|parts| - 1]) + parts[|parts| - 1].own
  }

  lemma PartAppend(log: seq<Entry>, parts: seq<Part>, part: Part)
    ensures log + Woven(parts + [part]) == log + Woven(parts) + part.others + part.own
    ensures HealthMarks(Owned(parts + [part])) == HealthMarks(Owned(parts)) + HealthMarks(part.own)
  {
    assert (parts + [part])[..|parts|] == parts;
    HealthMarksJoin(Owned(parts), part.own);
  }

  lemma {:induction false} AloneMeansOwned(parts: seq<Part>)
    requires forall p :: p in parts ==> p.others == []
    ensures Woven(parts) == Owned(parts)
  {
    if parts != [] {
      var rest, last := parts[..|parts| - 1], parts[|parts| - 1];
      assert last in parts && forall p :: p in rest ==> p in parts;
      AloneMeansOwned(rest);
    }
  }

  /** Where nobody else does anything, the marks of the request are all there are. */
  lemma UndisturbedMarks(log: seq<Entry>, parts: seq<Part>)
    requires forall p :: p in parts ==> p.others == []
    ensures HealthMarks(log + Woven(parts)) == HealthMarks(log) + HealthMarks(Owned(parts))
  {
    AloneMeansOwned(parts);
    HealthMarksJoin(log, Woven(parts));
  }

  /** The entries of the log from `i` on hold `n` successful probes of `url` and nothing that breaks the row. */
  ghost predicate UnbrokenRow(log: seq<Entry>, i: nat, url: string, n: nat) {
    i <= |log| &&
    (forall k :: i <= k < |log| && log[k].url == url ==> log[k].ProbeSucceeded?) &&
    ProbesFrom(log, i, url) == n
  }

  ghost function ProbesFrom(log: seq<Entry>, i: nat, url: string): nat
    requires i <= |log|
    decreases |log|
  {
    if i == |log| then 0
    else ProbesFrom(log[..|log| - 1], i, url) + if log[|log| - 1] == ProbeSucceeded(url) then 1 else 0
  }

  /** The recovery count of a backend is a row of successful probes that nothing interrupted. */
  lemma {:induction false} ProbeRunIsUnbroken(log: seq<Entry>, url: string) returns (i: nat)
    ensures UnbrokenRow(log, i, url, ProbeRun(log, url))
  {
    if log == [] {
      i := 0;
    } else {
      var rest, last := log[..|log| - 1], log[|log| - 1];
      if last.url == url && !last.ProbeSucceeded? {
        i := |log|;
      } else {
        i := ProbeRunIsUnbroken(rest, url);
        forall k | i <= k < |log| && log[k].url == url
          ensures log[k].ProbeSucceeded?
        {
          if k < |rest| {
            assert log[k] == rest[k];
          }
        }
      }
    }
  }

  // ---------- states against history ----------

  ghost predicate Agrees(b: Backend, log: seq<Entry>, url: string) {
    b.failureCount == FailureRun(log, url) && b.recoverySuccessCount == ProbeRun(log, url)
  }

  ghost function StateOf(states: map<string, Backend>, url: string): Backend {
    if url in states then states[url] else FRESH
  }

  /** Every state agrees with the history, and a circuit has been opened exactly when the failures in a
      row have reached the threshold. */
  ghost predicate Consistent(states: map<string, Backend>, log: seq<Entry>, threshold: int) {
    forall url :: Agrees(StateOf(states, url), log, url) &&
                  (StateOf(states, url).disabledUntil.Some? <==> StateOf(states, url).failureCount >= threshold)
  }

  /** One entry changes the state of its backend only. */
  lemma EntryKeepsConsistent(states: map<string, Backend>, log: seq<Entry>, threshold: int, e: Entry,
                             states': map<string, Backend>)
    requires Consistent(states, log, threshold)
    requires forall url :: url != e.url ==> StateOf(states', url) == StateOf(states, url)
    requires Agrees(StateOf(states', e.url), log + [e], e.url)
    requires StateOf(states', e.url).disabledUntil.Some? <==> StateOf(states', e.url).failureCount >= threshold
    ensures Consistent(states', log + [e], threshold)
  {
    Append(log, e);
  }
}
