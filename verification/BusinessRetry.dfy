/** How one request is tried on a list of business backends. */
module BusinessRetry {
  import opened Collections
  import opened BackendHistory

  /** What becomes of the request at one backend. */
  datatype Attempt = BuildFailed | SendFailed | Answered(status: int)

  datatype Reply = NoBackends | LastError(url: string) | Response(url: string, status: int)

  type Outcome = string -> Attempt

  predicate HasSuffix(s: string, suffix: string) {
    |suffix| <= |s| && s[|s| - |suffix|..] == suffix
  }

  /** Reads and logins may be repeated elsewhere. */
  predicate SafeBusinessRetry(verb: string, path: string) {
    verb in ["GET", "HEAD", "OPTIONS"] || (verb == "POST" && HasSuffix(path, "/passport/auth/login"))
  }

  /** The request goes on to the next backend. */
  predicate MovesOn(attempt: Attempt, retry: bool, isLast: bool) {
    match attempt
    case BuildFailed => true
    case SendFailed => retry && !isLast
    case Answered(status) => status >= 500 && retry && !isLast
  }

  /** The backends that the request is sent to. */
  ghost function Sends(urls: seq<string>, retry: bool, outcome: Outcome): seq<string> {
    if urls == [] then []
    else
      (if outcome(urls[0]).BuildFailed? then [] else [urls[0]]) +
      (if MovesOn(outcome(urls[0]), retry, |urls| == 1) then Sends(urls[1..], retry, outcome) else [])
  }

  ghost function ReplyAfter(last: Reply, urls: seq<string>, retry: bool, outcome: Outcome): Reply
    decreases |urls|
  {
    if urls == [] then last
    else if MovesOn(outcome(urls[0]), retry, |urls| == 1) then ReplyAfter(LastError(urls[0]), urls[1..], retry, outcome)
    else if outcome(urls[0]).Answered? then Response(urls[0], outcome(urls[0]).status)
    else LastError(urls[0])
  }

  ghost function ReplyOf(urls: seq<string>, retry: bool, outcome: Outcome): Reply {
    ReplyAfter(NoBackends, urls, retry, outcome)
  }

  predicate Good(attempt: Attempt) {
    attempt.Answered? && attempt.status < 500
  }

  /** The health mark of one send. */
  ghost function Mark(url: string, outcome: Outcome): Entry {
    if Good(outcome(url)) then Succeeded(url) else FailedSend(url)
  }

  ghost function Marks(sent: seq<string>, outcome: Outcome): seq<Entry> {
    seq(|sent|, i requires 0 <= i < |sent| => Mark(sent[i], outcome))
  }

  lemma MarksAppend(sent: seq<string>, url: string, outcome: Outcome)
    ensures Marks(sent + [url], outcome) == Marks(sent, outcome) + [Mark(url, outcome)]
  {
  }

  /** What has been sent, and what is still to come, make up what is sent in all. */
  ghost predicate SendsAre(all: seq<string>, sent: seq<string>, urls: seq<string>, i: nat, retry: bool,
                           outcome: Outcome)
    requires i <= |urls|
  {
    all == sent + Sends(urls[i..], retry, outcome)
  }

  /** One round of the loop over the backends. */
  lemma TryStep(all: seq<string>, sent: seq<string>, urls: seq<string>, i: nat, retry: bool, outcome: Outcome,
                last: Reply)
    requires i < |urls| && SendsAre(all, sent, urls, i, retry, outcome)
    ensures var attempt, moves := outcome(urls[i]), MovesOn(outcome(urls[i]), retry, i + 1 == |urls|);
            var sent' := if attempt.BuildFailed? then sent else sent + [urls[i]];
            (moves ==> SendsAre(all, sent', urls, i + 1, retry, outcome)) && (!moves ==> all == sent') &&
            ReplyAfter(last, urls[i..], retry, outcome) ==
              if moves then ReplyAfter(LastError(urls[i]), urls[i + 1..], retry, outcome)
              else if attempt.Answered? then Response(urls[i], attempt.status) else LastError(urls[i])
  {
    assert urls[i..][1..] == urls[i + 1..];
    var rest := Sends(urls[i + 1..], retry, outcome);
    assert sent + ([urls[i]] + rest) == sent + [urls[i]] + rest;
    assert sent + ([urls[i]] + []) == sent + [urls[i]];
    assert sent + ([] + rest) == sent + rest;
  }

  ghost function SentAfter(sent: seq<string>, url: string, outcome: Outcome): seq<string> {
    if outcome(url).BuildFailed? then sent else sent + [url]
  }

  /** What the request has come to after an attempt, should it be the last one. */
  function ReplyFrom(url: string, attempt: Attempt, moves: bool): Reply {
    if !moves && attempt.Answered? then Response(url, attempt.status) else LastError(url)
  }

  /** The loop over the backends before attempt `i`, or after it has stopped. */
  ghost predicate Trying(moves: bool, sent: seq<string>, urls: seq<string>, i: nat, retry: bool, outcome: Outcome,
                         reply: Reply)
    requires i <= |urls|
  {
    if moves then
      SendsAre(Sends(urls, retry, outcome), sent, urls, i, retry, outcome) &&
      ReplyOf(urls, retry, outcome) == ReplyAfter(reply, urls[i..], retry, outcome)
    else sent == Sends(urls, retry, outcome) && reply == ReplyOf(urls, retry, outcome)
  }

  lemma TryOn(sent: seq<string>, urls: seq<string>, i: nat, retry: bool, outcome: Outcome, reply: Reply)
    requires i < |urls| && Trying(true, sent, urls, i, retry, outcome, reply)
    ensures var moves := MovesOn(outcome(urls[i]), retry, i + 1 == |urls|);
            Trying(moves, SentAfter(sent, urls[i], outcome), urls, i + 1, retry, outcome,
                   ReplyFrom(urls[i], outcome(urls[i]), moves))
  {
    TryStep(Sends(urls, retry, outcome), sent, urls, i, retry, outcome, reply);
  }

  lemma TryEnds(moves: bool, sent: seq<string>, urls: seq<string>, i: nat, retry: bool, outcome: Outcome, reply: Reply)
    requires i <= |urls| && Trying(moves, sent, urls, i, retry, outcome, reply) && (moves ==> i == |urls|)
    ensures sent == Sends(urls, retry, outcome) && reply == ReplyOf(urls, retry, outcome)
  {
  }

  /** Which requests may be repeated: reads by their verb, and a login by the end of its path. */
  lemma RepeatableRequests(verb: string, path: string)
    ensures SafeBusinessRetry(verb, path) <==>
              verb == "GET" || verb == "HEAD" || verb == "OPTIONS" ||
              (verb == "POST" && exists prefix: string :: path == prefix + "/passport/auth/login")
  {
    var login := "/passport/auth/login";
    if HasSuffix(path, login) {
      assert path == path[..|path| - |login|] + login;
    }
    if prefix: string :| path == prefix + login {
      assert HasSuffix(path, login);
    }
  }

  /** A request that must not be repeated is sent to the first backend for which it can be built, and to no other;
      whatever comes of it there is the reply, an answer of 500 or more included. */
  lemma {:induction false} UnsafeIsSentOnce(last: Reply, urls: seq<string>, outcome: Outcome, k: nat)
    requires k < |urls| && !outcome(urls[k]).BuildFailed? && forall i :: 0 <= i < k ==> outcome(urls[i]).BuildFailed?
    ensures Sends(urls, false, outcome) == [urls[k]]
    ensures ReplyAfter(last, urls, false, outcome) ==
            if outcome(urls[k]).Answered? then Response(urls[k], outcome(urls[k]).status) else LastError(urls[k])
    decreases |urls|
  {
    if k > 0 {
      var rest := urls[1..];
      assert forall i :: 0 <= i < |rest| ==> rest[i] == urls[i + 1];
      UnsafeIsSentOnce(LastError(urls[0]), rest, outcome, k - 1);
    }
  }

  /** Where the request cannot be built for any backend nothing is sent. */
  lemma {:induction false} UnbuildableIsNotSent(last: Reply, urls: seq<string>, retry: bool, outcome: Outcome)
    requires forall u :: u in urls ==> outcome(u).BuildFailed?
    ensures Sends(urls, retry, outcome) == []
    ensures ReplyAfter(last, urls, retry, outcome) == if urls == [] then last else LastError(urls[|urls| - 1])
    decreases |urls|
  {
    if urls != [] {
      UnbuildableIsNotSent(LastError(urls[0]), urls[1..], retry, outcome);
    }
  }

  lemma {:induction false} SendsAreListed(urls: seq<string>, retry: bool, outcome: Outcome)
    ensures forall u :: u in Sends(urls, retry, outcome) ==> u in urls && !outcome(u).BuildFailed?
  {
    if urls != [] {
      SendsAreListed(urls[1..], retry, outcome);
    }
  }

  /** No backend receives the request twice. */
  lemma {:induction false} SendsAreDistinct(urls: seq<string>, retry: bool, outcome: Outcome)
    requires Distinct(urls)
    ensures Distinct(Sends(urls, retry, outcome))
  {
    if urls != [] {
      SendsAreDistinct(urls[1..], retry, outcome);
      SendsAreListed(urls[1..], retry, outcome);
      assert urls[0] !in urls[1..];
    }
  }

  /** The backends for which the request could be built, in order. */
  ghost function Buildable(urls: seq<string>, outcome: Outcome): seq<string> {
    if urls == [] then []
    else (if outcome(urls[0]).BuildFailed? then [] else [urls[0]]) + Buildable(urls[1..], outcome)
  }

  /** The backends for which the request can be built are exactly those that are listed. */
  lemma {:induction false} BuildableMembers(urls: seq<string>, outcome: Outcome)
    ensures forall u :: u in Buildable(urls, outcome) <==> u in urls && !outcome(u).BuildFailed?
  {
    if urls != [] {
      BuildableMembers(urls[1..], outcome);
    }
  }

  /** They are listed in the order of the backends. */
  lemma {:induction false} BuildableGrows(urls: seq<string>, outcome: Outcome, k: nat)
    requires k < |urls|
    ensures Buildable(urls[..k + 1], outcome) ==
            Buildable(urls[..k], outcome) + if outcome(urls[k]).BuildFailed? then [] else [urls[k]]
    decreases |urls|
  {
    if k == 0 {
      assert urls[..1] == [urls[0]] && urls[..1][1..] == [];
    } else {
      BuildableGrows(urls[1..], outcome, k - 1);
      assert urls[..k + 1][1..] == urls[1..][..k] && urls[..k][1..] == urls[1..][..k - 1];
    }
  }

  /** A repeatable request gets the first good answer in the order of the list. The backends up to that one,
      as far as a request could be built, are exactly those that it is sent to, in order. */
  lemma {:induction false} FirstGoodAnswerWins(last: Reply, urls: seq<string>, outcome: Outcome, k: nat)
    requires k < |urls| && outcome(urls[k]).Answered? && outcome(urls[k]).status < 500
    requires forall i :: 0 <= i < k ==> outcome(urls[i]).Answered? ==> outcome(urls[i]).status >= 500
    ensures ReplyAfter(last, urls, true, outcome) == Response(urls[k], outcome(urls[k]).status)
    ensures Sends(urls, true, outcome) == Buildable(urls[..k + 1], outcome)
    ensures forall u :: u in Sends(urls, true, outcome) ==> u in urls[..k + 1]
    decreases |urls|
  {
    if k == 0 {
      assert urls[..1] == [urls[0]] && urls[..1][1..] == [];
    } else {
      var rest := urls[1..];
      assert forall i :: 0 <= i < |rest| ==> rest[i] == urls[i + 1];
      FirstGoodAnswerWins(LastError(urls[0]), rest, outcome, k - 1);
      assert urls[..k + 1][1..] == rest[..k];
    }
  }

  /** Without a good answer the reply is the failure of the last backend, with every backend tried. */
  lemma {:induction false} NoGoodAnswer(last: Reply, urls: seq<string>, outcome: Outcome)
    requires urls != [] && forall u :: u in urls && outcome(u).Answered? ==> outcome(u).status >= 500
    ensures var end := urls[|urls| - 1];
            ReplyAfter(last, urls, true, outcome) ==
            if outcome(end).Answered? then Response(end, outcome(end).status) else LastError(end)
    ensures Sends(urls, true, outcome) == Buildable(urls, outcome)
    decreases |urls|
  {
    if |urls| > 1 {
      NoGoodAnswer(LastError(urls[0]), urls[1..], outcome);
    }
  }

  /** A request that changes something is sent at most once: to the first backend for which it can be built. */
  lemma UnsafeTries(urls: seq<string>, outcome: Outcome)
    ensures |Sends(urls, false, outcome)| <= 1
    ensures forall k :: 0 <= k < |urls| && !outcome(urls[k]).BuildFailed? &&
                        (forall i :: 0 <= i < k ==> outcome(urls[i]).BuildFailed?) ==>
              Sends(urls, false, outcome) == [urls[k]] &&
              ReplyOf(urls, false, outcome) ==
                if outcome(urls[k]).Answered? then Response(urls[k], outcome(urls[k]).status) else LastError(urls[k])
  {
    forall k: nat | k < |urls| && !outcome(urls[k]).BuildFailed? &&
                    forall i :: 0 <= i < k ==> outcome(urls[i]).BuildFailed?
      ensures Sends(urls, false, outcome) == [urls[k]]
      ensures ReplyOf(urls, false, outcome) ==
              if outcome(urls[k]).Answered? then Response(urls[k], outcome(urls[k]).status) else LastError(urls[k])
    {
      UnsafeIsSentOnce(NoBackends, urls, outcome, k);
    }
    if i: nat :| i < |urls| && !outcome(urls[i]).BuildFailed? {
      var k := FirstBuildable(urls, outcome, i);
    } else {
      UnbuildableIsNotSent(NoBackends, urls, false, outcome);
    }
  }

  lemma {:induction false} FirstBuildable(urls: seq<string>, outcome: Outcome, n: nat) returns (k: nat)
    requires n < |urls| && !outcome(urls[n]).BuildFailed?
    ensures k <= n && !outcome(urls[k]).BuildFailed? && forall i :: 0 <= i < k ==> outcome(urls[i]).BuildFailed?
    decreases n
  {
    k := n;
    if i: nat :| i < n && !outcome(urls[i]).BuildFailed? {
      k := FirstBuildable(urls, outcome, i);
    }
  }

  /** A repeatable request is sent to every backend for which it can be built up to the first answer below 500,
      which is the reply, or to all of them. */
  lemma SafeTries(urls: seq<string>, outcome: Outcome)
    ensures forall k :: 0 <= k < |urls| && outcome(urls[k]).Answered? && outcome(urls[k]).status < 500 &&
                        (forall i :: 0 <= i < k && outcome(urls[i]).Answered? ==> outcome(urls[i]).status >= 500) ==>
              Sends(urls, true, outcome) == Buildable(urls[..k + 1], outcome) &&
              ReplyOf(urls, true, outcome) == Response(urls[k], outcome(urls[k]).status)
    ensures (forall u :: u in urls && outcome(u).Answered? ==> outcome(u).status >= 500) ==>
              Sends(urls, true, outcome) == Buildable(urls, outcome) &&
              ReplyOf(urls, true, outcome) ==
                if urls == [] then NoBackends
                else if outcome(urls[|urls| - 1]).Answered? then
                  Response(urls[|urls| - 1], outcome(urls[|urls| - 1]).status)
                else LastError(urls[|urls| - 1])
  {
    forall k: nat | k < |urls| && outcome(urls[k]).Answered? && outcome(urls[k]).status < 500 &&
                    forall i :: 0 <= i < k && outcome(urls[i]).Answered? ==> outcome(urls[i]).status >= 500
      ensures Sends(urls, true, outcome) == Buildable(urls[..k + 1], outcome)
      ensures ReplyOf(urls, true, outcome) == Response(urls[k], outcome(urls[k]).status)
    {
      FirstGoodAnswerWins(NoBackends, urls, outcome, k);
    }
    if urls != [] && forall u :: u in urls && outcome(u).Answered? ==> outcome(u).status >= 500 {
      NoGoodAnswer(NoBackends, urls, outcome);
    }
  }
}
