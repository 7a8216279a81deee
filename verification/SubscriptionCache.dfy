/** The three generations of cached subscription envelopes, rotated by file operations any of which may
    fail or be the last one before the program stops. One token's directory is modelled. */
module SubscriptionCache {
  import opened Collections

  datatype Slot = Current | Previous | Older | Staging

  /** What a file holds: an envelope that decodes to its plaintext, or anything that does not decode. */
  datatype Content = Sealed(plaintext: string) | Damaged

  type Files = map<Slot, Content>

  datatype Answer = Plaintext(text: string) | NoCache | Unreadable

  // ---------- what is recovered ----------

  predicate Readable(f: Files, slot: Slot) {
    slot in f && f[slot].Sealed?
  }

  function Generations(): seq<Slot> {
    [Current, Previous, Older]
  }

  /** How many generations have to be passed over to find one that decodes. */
  function Depth(f: Files): nat {
    if Readable(f, Current) then 0 else if Readable(f, Previous) then 1 else if Readable(f, Older) then 2 else 3
  }

  function Recovered(f: Files): Option<string> {
    if Depth(f) == 3 then None else Some(f[Generations()[Depth(f)]].plaintext)
  }

  function AnswerOf(f: Files): Answer {
    if Recovered(f).Some? then Plaintext(Recovered(f).value)
    else if Current in f || Previous in f || Older in f then Unreadable
    else NoCache
  }

  // ---------- the states that a write and a read pass through ----------

  function Moved(f: Files, from: Slot, to: Slot): Files {
    if from in f then (f - {from})[to := f[from]] else f
  }

  /** The files after each step of a write. */
  function Stages(f: Files, envelope: Content): (stages: seq<Files>)
    ensures |stages| == 6
  {
    var s0 := f - {Staging};
    var s1 := s0[Staging := envelope];
    var s2 := s1 - {Older};
    var s3 := Moved(s2, Previous, Older);
    var s4 := Moved(s3, Current, Previous);
    [s0, s1, s2, s3, s4, Moved(s4, Staging, Current)]
  }

  /** How each of the files after a step comes from the ones before it. */
  ghost predicate Chain(f: Files, envelope: Content, stages: seq<Files>) {
    |stages| == 6 &&
    stages[0] == f - {Staging} &&
    stages[1] == stages[0][Staging := envelope] &&
    stages[2] == stages[1] - {Older} &&
    stages[3] == Moved(stages[2], Previous, Older) &&
    stages[4] == Moved(stages[3], Current, Previous) &&
    stages[5] == Moved(stages[4], Staging, Current)
  }

  lemma PrefixGrows(stages: seq<Files>, done: nat)
    requires done < |stages|
    ensures stages[..done + 1] == stages[..done] + [stages[done]]
  {
  }

  /** What the error handler can leave: its copy may not begin, break off, or be made. */
  ghost function Handled(f: Files): set<Files> {
    if Current !in f && Previous in f then {f, f[Current := Damaged], f[Current := f[Previous]]} else {f}
  }

  function LastOf(f: Files, trace: seq<Files>): Files {
    if trace == [] then f else trace[|trace| - 1]
  }

  /** The write completed `done` steps and then stopped, or failed and went through the error handler, which
      stands guard from the moment the staging file is written. */
  ghost predicate StopsAlong(stages: seq<Files>, done: nat, trace: seq<Files>) {
    |stages| == 6 && done <= 6 && done <= |trace| && trace[..done] == stages[..done] &&
    (done < |trace| ==> 2 <= done < 6) &&
    forall i :: 2 <= done <= i < |trace| ==> trace[i] in Handled(stages[done - 1])
  }

  ghost predicate StopsAfter(f: Files, envelope: Content, done: nat, trace: seq<Files>) {
    StopsAlong(Stages(f, envelope), done, trace)
  }

  ghost predicate IsWriteTrace(f: Files, envelope: Content, trace: seq<Files>) {
    exists done: nat :: StopsAfter(f, envelope, done, trace)
  }

  /** The states of a restore of the first generation that decodes. */
  ghost predicate IsReadTrace(f: Files, trace: seq<Files>) {
    forall i :: 0 <= i < |trace| ==> trace[i] in Restoring(f)
  }

  ghost function Restoring(f: Files): set<Files> {
    if Depth(f) == 0 || Depth(f) == 3 then {f}
    else {f, f - {Current}, f[Current := Damaged], Healed(f)}
  }

  /** The files once a read has restored what it found. */
  function Healed(f: Files): Files {
    if Recovered(f).Some? then f[Current := Sealed(Recovered(f).value)] else f
  }

  // ---------- one write ----------

  ghost predicate Kept(f: Files, envelope: Content, g: Files) {
    Recovered(g) == Recovered(f) || (envelope.Sealed? && Recovered(g) == Some(envelope.plaintext))
  }

  /** The one generation that a write may destroy before a newer one has taken its place is the oldest. */
  predicate Sheltered(f: Files) {
    Depth(f) != 2
  }

  lemma StageIsKept(f: Files, envelope: Content, k: nat)
    requires k < 6 && Sheltered(f)
    ensures Kept(f, envelope, Stages(f, envelope)[k])
  {
  }

  lemma HandledIsKept(f: Files, g: Files)
    requires g in Handled(f)
    ensures Recovered(g) == Recovered(f)
  {
  }

  lemma TraceIsKept(f: Files, envelope: Content, trace: seq<Files>, i: nat)
    requires IsWriteTrace(f, envelope, trace) && i < |trace| && Sheltered(f)
    ensures Kept(f, envelope, trace[i])
  {
    var done: nat :| StopsAfter(f, envelope, done, trace);
    if i < done {
      assert trace[i] == trace[..done][i] == Stages(f, envelope)[i];
      StageIsKept(f, envelope, i);
    } else {
      assert 2 <= done;
      StageIsKept(f, envelope, done - 1);
      HandledIsKept(Stages(f, envelope)[done - 1], trace[i]);
    }
  }

  /** Wherever a write stops, with or without its error handler, what can be read is what could be read
      before or the new envelope. This holds exactly unless the oldest generation is the only one that
      decodes. */
  lemma WriteNeverLoses(f: Files, envelope: Content)
    ensures Sheltered(f) <==>
            forall trace, i | IsWriteTrace(f, envelope, trace) && 0 <= i < |trace| :: Kept(f, envelope, trace[i])
  {
    if Sheltered(f) {
      forall trace, i | IsWriteTrace(f, envelope, trace) && 0 <= i < |trace|
        ensures Kept(f, envelope, trace[i])
      {
        TraceIsKept(f, envelope, trace, i);
      }
    } else {
      var trace := Stages(f, envelope)[..3];
      assert StopsAfter(f, envelope, 3, trace);
      assert Recovered(trace[2]).None?;
      assert !Kept(f, envelope, trace[2]);
    }
  }

  // ---------- completed writes ----------

  function NewerThan(slot: Slot): Slot {
    match slot case Older => Previous case _ => Current
  }

  /** Every generation takes the place of the one behind it. */
  function Rotated(f: Files, envelope: Content): Files {
    map slot | slot in {Current, Previous, Older} && (slot == Current || NewerThan(slot) in f) ::
      if slot == Current then envelope else f[NewerThan(slot)]
  }

  lemma CompletedIsRotated(f: Files, envelope: Content)
    ensures Stages(f, envelope)[5] == Rotated(f, envelope)
  {
    var last := Stages(f, envelope)[5];
    assert Staging !in last;
    forall slot: Slot
      ensures slot in last <==> slot in Rotated(f, envelope)
      ensures slot in last ==> last[slot] == Rotated(f, envelope)[slot]
    {
      match slot case Current => case Previous => case Older => case Staging =>
    }
  }

  function AllRotated(f: Files, envelopes: seq<Content>): Files {
    if envelopes == [] then f else Rotated(AllRotated(f, envelopes[..|envelopes| - 1]), envelopes[|envelopes| - 1])
  }

  /** After completed writes the cache holds the last three envelopes, the newest first. */
  lemma {:induction false} HoldsLastThree(f: Files, envelopes: seq<Content>, k: nat)
    requires k < 3 && k < |envelopes|
    ensures Generations()[k] in AllRotated(f, envelopes)
    ensures AllRotated(f, envelopes)[Generations()[k]] == envelopes[|envelopes| - 1 - k]
  {
    if k > 0 {
      HoldsLastThree(f, envelopes[..|envelopes| - 1], k - 1);
    }
  }

  // ---------- reads ----------

  /** Nothing that a read does, wherever it stops, changes what the next read returns. */
  lemma ReadChangesNoAnswer(f: Files, trace: seq<Files>, i: nat)
    requires IsReadTrace(f, trace) && i < |trace|
    ensures AnswerOf(trace[i]) == AnswerOf(f)
  {
    assert trace[i] in Restoring(f);
  }

  lemma HealedIsSheltered(f: Files)
    ensures Recovered(Healed(f)) == Recovered(f) && Sheltered(Healed(f)) && Depth(Healed(f)) in {0, 3}
  {
  }

  // ---------- runs of interrupted writes ----------

  /** A write that stops somewhere: the files it passes through. */
  datatype Attempt = Attempt(envelope: Content, trace: seq<Files>)

  /** Attempts one after the other; after each, if `reading`, a read restores what it finds. */
  ghost predicate IsAttemptRun(f: Files, attempts: seq<Attempt>, reading: bool)
    decreases |attempts|
  {
    attempts == [] ||
    (IsWriteTrace(f, attempts[0].envelope, attempts[0].trace) &&
     IsAttemptRun(AfterAttempt(f, attempts[0], reading), attempts[1..], reading))
  }

  function AfterAttempt(f: Files, attempt: Attempt, reading: bool): Files {
    if reading then Healed(LastOf(f, attempt.trace)) else LastOf(f, attempt.trace)
  }

  function AfterAttempts(f: Files, attempts: seq<Attempt>, reading: bool): Files
    decreases |attempts|
  {
    if attempts == [] then f else AfterAttempts(AfterAttempt(f, attempts[0], reading), attempts[1..], reading)
  }

  /** What is recovered comes from the start or from one of the attempts, and is not lost. */
  ghost predicate NothingLost(f: Files, attempts: seq<Attempt>, g: Files) {
    (Recovered(f).Some? ==> Recovered(g).Some?) &&
    (Recovered(g) == Recovered(f) ||
     exists i :: 0 <= i < |attempts| && attempts[i].envelope.Sealed? &&
       Recovered(g) == Some(attempts[i].envelope.plaintext))
  }

  lemma AttemptKeeps(f: Files, attempt: Attempt)
    requires IsWriteTrace(f, attempt.envelope, attempt.trace) && Sheltered(f)
    ensures Kept(f, attempt.envelope, LastOf(f, attempt.trace))
  {
    if attempt.trace != [] {
      TraceIsKept(f, attempt.envelope, attempt.trace, |attempt.trace| - 1);
    }
  }

  lemma NothingLostAfterOne(f: Files, attempts: seq<Attempt>, next: Files, g: Files)
    requires attempts != [] && Kept(f, attempts[0].envelope, next) && NothingLost(next, attempts[1..], g)
    ensures NothingLost(f, attempts, g)
  {
    if Recovered(g) != Recovered(next) {
      var i :| 0 <= i < |attempts[1..]| && attempts[1..][i].envelope.Sealed? &&
        Recovered(g) == Some(attempts[1..][i].envelope.plaintext);
      assert attempts[i + 1] == attempts[1..][i];
    }
  }

  /** Any number of interrupted writes loses nothing when every one of them is followed by a read. */
  lemma {:induction false} ReadingBetweenWritesLosesNothing(f: Files, attempts: seq<Attempt>)
    requires IsAttemptRun(f, attempts, true) && Sheltered(f)
    ensures NothingLost(f, attempts, AfterAttempts(f, attempts, true))
    decreases |attempts|
  {
    if attempts != [] {
      var next := AfterAttempt(f, attempts[0], true);
      AttemptKeeps(f, attempts[0]);
      HealedIsSheltered(LastOf(f, attempts[0].trace));
      ReadingBetweenWritesLosesNothing(next, attempts[1..]);
      NothingLostAfterOne(f, attempts, next, AfterAttempts(f, attempts, true));
    }
  }

  /** An interrupted write buries what can be read by one generation at most. */
  lemma StageDepth(f: Files, envelope: Content, k: nat)
    requires k < 6
    ensures Depth(Stages(f, envelope)[k]) <= Depth(f) + 1
  {
  }

  lemma HandledDepth(f: Files, g: Files)
    requires g in Handled(f)
    ensures Depth(g) <= Depth(f)
  {
  }

  lemma AttemptDepth(f: Files, attempt: Attempt)
    requires IsWriteTrace(f, attempt.envelope, attempt.trace)
    ensures Depth(LastOf(f, attempt.trace)) <= Depth(f) + 1
  {
    var trace := attempt.trace;
    var done: nat :| StopsAfter(f, attempt.envelope, done, trace);
    if trace != [] && |trace| == done {
      assert LastOf(f, trace) == trace[..done][done - 1];
      StageDepth(f, attempt.envelope, done - 1);
    } else if trace != [] {
      var i := |trace| - 1;
      assert 2 <= done && trace[i] in Handled(Stages(f, attempt.envelope)[done - 1]);
      StageDepth(f, attempt.envelope, done - 1);
      HandledDepth(Stages(f, attempt.envelope)[done - 1], LastOf(f, trace));
    }
  }

  /** Without a read between them, interrupted writes lose nothing as long as there are fewer of them than
      generations behind the newest that decodes. */
  lemma {:induction false} FewInterruptedWritesLoseNothing(f: Files, attempts: seq<Attempt>)
    requires IsAttemptRun(f, attempts, false) && Depth(f) + |attempts| <= 2
    ensures NothingLost(f, attempts, AfterAttempts(f, attempts, false))
    decreases |attempts|
  {
    if attempts != [] {
      var next := AfterAttempt(f, attempts[0], false);
      AttemptKeeps(f, attempts[0]);
      AttemptDepth(f, attempts[0]);
      FewInterruptedWritesLoseNothing(next, attempts[1..]);
      NothingLostAfterOne(f, attempts, next, AfterAttempts(f, attempts, false));
    }
  }

  /** A write that stops where it buries what can be read one generation deeper. */
  function BuryingAttempt(f: Files, envelope: Content): Attempt {
    Attempt(envelope, if Depth(f) == 3 then [] else Stages(f, envelope)[..5 - Depth(f)])
  }

  function Burying(f: Files, envelope: Content, n: nat): seq<Attempt>
    decreases n
  {
    if n == 0 then []
    else
      var attempt := BuryingAttempt(f, envelope);
      [attempt] + Burying(LastOf(f, attempt.trace), envelope, n - 1)
  }

  lemma OneBuries(f: Files, envelope: Content)
    ensures var attempt := BuryingAttempt(f, envelope);
            IsWriteTrace(f, attempt.envelope, attempt.trace) &&
            Depth(LastOf(f, attempt.trace)) == if Depth(f) == 3 then 3 else Depth(f) + 1
  {
    var attempt := BuryingAttempt(f, envelope);
    assert StopsAfter(f, envelope, if Depth(f) == 3 then 0 else 5 - Depth(f), attempt.trace);
  }

  lemma RunPrepends(f: Files, attempt: Attempt, rest: seq<Attempt>)
    requires IsWriteTrace(f, attempt.envelope, attempt.trace) && IsAttemptRun(LastOf(f, attempt.trace), rest, false)
    ensures IsAttemptRun(f, [attempt] + rest, false)
    ensures AfterAttempts(f, [attempt] + rest, false) == AfterAttempts(LastOf(f, attempt.trace), rest, false)
  {
    assert ([attempt] + rest)[1..] == rest;
  }

  lemma {:induction false} BuryingLosesAll(f: Files, envelope: Content, n: nat)
    requires Depth(f) + n >= 3
    ensures var attempts := Burying(f, envelope, n);
            |attempts| == n && IsAttemptRun(f, attempts, false) && Recovered(AfterAttempts(f, attempts, false)).None?
    decreases n
  {
    if n > 0 {
      var attempt := BuryingAttempt(f, envelope);
      OneBuries(f, envelope);
      BuryingLosesAll(LastOf(f, attempt.trace), envelope, n - 1);
      RunPrepends(f, attempt, Burying(LastOf(f, attempt.trace), envelope, n - 1));
    }
  }

  /** Without reads, interrupted writes can empty the cache exactly when there are as many of them as
      generations that can still be buried. */
  lemma EnoughInterruptedWritesLoseAll(f: Files, n: nat)
    ensures (exists attempts :: |attempts| == n && IsAttemptRun(f, attempts, false) &&
               Recovered(AfterAttempts(f, attempts, false)).None?)
            <==> Depth(f) + n >= 3
  {
    if Depth(f) + n >= 3 {
      BuryingLosesAll(f, Damaged, n);
    } else {
      forall attempts | |attempts| == n && IsAttemptRun(f, attempts, false)
        ensures Recovered(AfterAttempts(f, attempts, false)).Some?
      {
        FewInterruptedWritesLoseNothing(f, attempts);
      }
    }
  }

  // ---------- the cache ----------

  /** The directory and the operations on it. A move or a removal either happens or fails without effect;
      a copy that fails may leave a damaged file. Each requires what the file manager demands, so a move or
      a copy never meets an existing file. */
  class Cache {
    var files: Files
    /** The files after every step so far. */
    ghost var visited: seq<Files>

    constructor ()
      ensures files == map[] && visited == []
    {
      files, visited := map[], [];
    }

    method RemoveItem(slot: Slot) returns (ok: bool)
      requires slot in files
      modifies this`files
      ensures files == if ok then old(files) - {slot} else old(files)
    {
      ok := *;
      if ok { files := files - {slot}; }
    }

    method WriteAtomically(envelope: Content) returns (ok: bool)
      requires Staging !in files
      modifies this`files
      ensures files == if ok then old(files)[Staging := envelope] else old(files)
    {
      ok := *;
      if ok { files := files[Staging := envelope]; }
    }

    method MoveItem(from: Slot, to: Slot) returns (ok: bool)
      requires from in files && to !in files
      modifies this`files
      ensures files == if ok then (old(files) - {from})[to := old(files)[from]] else old(files)
    {
      ok := *;
      if ok { files := (files - {from})[to := files[from]]; }
    }

    method CopyItem(from: Slot, to: Slot) returns (ok: bool)
      requires from in files && to !in files
      modifies this
      ensures files in {old(files), old(files)[to := Damaged], old(files)[to := old(files)[from]]}
      ensures ok ==> files == old(files)[to := old(files)[from]]
      ensures old(visited) <= visited
      ensures forall i :: |old(visited)| <= i < |visited| ==> visited[i] == old(files)[to := Damaged]
    {
      ok := false;
      var begun: bool := *;
      if begun {
        var content := files[from];
        files := files[to := Damaged];
        visited := visited + [files];
        ok := *;
        if ok { files := files[to := content]; }
        assert ok ==> files == old(files)[to := old(files)[from]];
      }
    }

    /** Puts the new envelope into the staging file. */
    method Stage(envelope: Content, ghost stages: seq<Files>) returns (ok: bool, ghost done: nat)
      requires Chain(files, envelope, stages)
      modifies this
      ensures done <= 2 && (ok <==> done == 2)
      ensures visited == old(visited) + stages[..done]
      ensures files == LastOf(old(files), stages[..done])
    {
      ok, done := true, 0;
      PrefixGrows(stages, 0);
      PrefixGrows(stages, 1);
      if Staging in files {
        ok := RemoveItem(Staging);
        if !ok { return; }
      }
      assert files == stages[0];
      Mark();
      done := 1;
      ok := WriteAtomically(envelope);
      if ok {
        Mark();
        done := 2;
      }
    }

    method Mark()
      modifies this`visited
      ensures visited == old(visited) + [files]
    {
      visited := visited + [files];
    }

    /** The files are those after `done` steps, and so is the record of them. */
    ghost predicate At(start: seq<Files>, stages: seq<Files>, done: nat)
      reads this
    {
      1 <= done <= |stages| && files == stages[done - 1] && visited == start + stages[..done]
    }

    method RemoveIfPresent(slot: Slot, ghost start: seq<Files>, ghost stages: seq<Files>, ghost done: nat)
      returns (ok: bool)
      requires At(start, stages, done) && done < |stages| && stages[done] == files - {slot}
      modifies this
      ensures At(start, stages, if ok then done + 1 else done)
    {
      ok := true;
      if slot in files {
        ok := RemoveItem(slot);
      }
      if ok {
        PrefixGrows(stages, done);
        Mark();
      }
    }

    method MoveIfPresent(from: Slot, to: Slot, ghost start: seq<Files>, ghost stages: seq<Files>, ghost done: nat)
      returns (ok: bool)
      requires At(start, stages, done) && done < |stages| && stages[done] == Moved(files, from, to)
      requires from in files ==> to !in files
      modifies this
      ensures At(start, stages, if ok then done + 1 else done)
    {
      ok := true;
      if from in files {
        ok := MoveItem(from, to);
      }
      if ok {
        PrefixGrows(stages, done);
        Mark();
      }
    }

    /** Makes room for the staged envelope, oldest generation first, and moves it into place. */
    method Rotate(envelope: Content, ghost f: Files, ghost start: seq<Files>, ghost stages: seq<Files>)
      returns (ok: bool, ghost done: nat)
      requires Chain(f, envelope, stages) && At(start, stages, 2)
      modifies this
      ensures 2 <= done <= 6 && (ok <==> done == 6) && At(start, stages, done)
    {
      done := 2;
      ok := RemoveIfPresent(Older, start, stages, 2);
      if !ok { return; }
      done := 3;
      ok := MoveIfPresent(Previous, Older, start, stages, 3);
      if !ok { return; }
      done := 4;
      ok := MoveIfPresent(Current, Previous, start, stages, 4);
      if !ok { return; }
      done := 5;
      ok := MoveIfPresent(Staging, Current, start, stages, 5);
      if !ok { return; }
      done := 6;
    }

    /** The error handler of a write: puts the previous generation back if there is no current one. */
    method PutBack() returns (ghost trace: seq<Files>)
      modifies this
      ensures visited == old(visited) + trace && trace != [] && files == trace[|trace| - 1]
      ensures forall i :: 0 <= i < |trace| ==> trace[i] in Handled(old(files))
    {
      if Current !in files && Previous in files {
        var _ := CopyItem(Previous, Current);
      }
      Mark();
      trace := visited[|old(visited)|..];
    }

    method WriteAlong(envelope: Content, ghost stages: seq<Files>)
      returns (ok: bool, ghost done: nat, ghost trace: seq<Files>)
      requires Chain(files, envelope, stages)
      modifies this
      ensures StopsAlong(stages, done, trace) && visited == old(visited) + trace
      ensures files == LastOf(old(files), trace)
      ensures ok ==> files == stages[5]
    {
      ghost var start := files;
      ok, done := Stage(envelope, stages);
      trace := stages[..done];
      if ok {
        ok, done := Rotate(envelope, start, old(visited), stages);
        trace := stages[..done];
        if !ok {
          ghost var more := PutBack();
          trace := trace + more;
        }
      }
    }

    /** Stores the envelope as the current generation. What the files are on the way is a trace of a write. */
    method Write(envelope: Content) returns (ok: bool, ghost trace: seq<Files>)
      modifies this
      ensures IsWriteTrace(old(files), envelope, trace) && visited == old(visited) + trace
      ensures files == LastOf(old(files), trace)
      ensures ok ==> files == Rotated(old(files), envelope)
    {
      ghost var done: nat;
      CompletedIsRotated(files, envelope);
      ok, done, trace := WriteAlong(envelope, Stages(files, envelope));
      assert StopsAfter(old(files), envelope, done, trace);
    }

    /** Puts a copy of an older generation in the place of the current one. */
    method RestoreFallback(slot: Slot) returns (ok: bool)
      requires slot in {Previous, Older} && Readable(files, slot) && Depth(files) != 0 &&
               Recovered(files) == Some(files[slot].plaintext)
      modifies this
      ensures old(visited) <= visited && files == LastOf(old(files), visited[|old(visited)|..])
      ensures ok ==> files == Healed(old(files))
      ensures IsReadTrace(old(files), visited[|old(visited)|..])
    {
      ghost var start := files;
      if Current in files {
        ok := RemoveItem(Current);
        if !ok { return; }
        Mark();
      }
      ok := CopyItem(slot, Current);
      assert start[Current := Damaged] == (start - {Current})[Current := Damaged];
      assert start[Current := start[slot]] == (start - {Current})[Current := start[slot]];
      Mark();
    }

    /** The first generation that decodes, which is then restored as far as the operations allow. */
    method Read() returns (answer: Answer, ghost restored: bool, ghost trace: seq<Files>)
      modifies this
      ensures files == LastOf(old(files), trace) && (restored ==> files == Healed(old(files)))
      ensures answer == AnswerOf(old(files))
      ensures answer == NoCache <==> Current !in old(files) && Previous !in old(files) && Older !in old(files)
      ensures answer.Plaintext? ==>
                var f, sealed := old(files), Sealed(answer.text);
                || (Current in f && f[Current] == sealed)
                || (Previous in f && f[Previous] == sealed && (Current in f ==> f[Current] == Damaged))
                || (Older in f && f[Older] == sealed && (Current in f ==> f[Current] == Damaged) &&
                    (Previous in f ==> f[Previous] == Damaged))
      ensures answer == Unreadable ==>
                forall slot :: slot in old(files) && slot != Staging ==> old(files)[slot] == Damaged
      ensures IsReadTrace(old(files), trace) && visited == old(visited) + trace
    {
      var slots := [Current, Previous, Older];
      var failed := false;
      var i := 0;
      while i < 3
        invariant i <= 3 && files == old(files) && visited == old(visited)
        invariant slots == [Current, Previous, Older]
        invariant (i > 0 ==> !Readable(files, Current)) && (i > 1 ==> !Readable(files, Previous)) &&
          (i > 2 ==> !Readable(files, Older))
        invariant failed <==> (i > 0 && Current in files) || (i > 1 && Previous in files) || (i > 2 && Older in files)
      {
        if slots[i] in files {
          if files[slots[i]].Sealed? {
            answer := Plaintext(files[slots[i]].plaintext);
            assert i == Depth(files);
            assert i == 0 ==> files == Healed(files);
            restored := true;
            if slots[i] != Current {
              restored := RestoreFallback(slots[i]);
            }
            trace := visited[|old(visited)|..];
            return;
          }
          failed := true;
        }
        i := i + 1;
      }
      restored, trace := true, [];
      answer := if failed then Unreadable else NoCache;
    }
  }
}
