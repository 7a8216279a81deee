/** The audit log of the gateway: an ordered list capped at 5000 records, seen as a table by id. */
module AuditTrail {
  import opened WriteBack
  import opened StoreProtocol

  datatype AuditLog = AuditLog(id: string, row: Row<AuditData>)

  const MAX_AUDITS := 5000

  ghost function Ids(log: seq<AuditLog>): set<string> {
    set a | a in log :: a.id
  }

  ghost predicate DistinctIds(log: seq<AuditLog>) {
    forall i, j :: 0 <= i < j < |log| ==> log[i].id != log[j].id
  }

  ghost function AuditTable(log: seq<AuditLog>): Table<AuditData> {
    if log == [] then map[]
    else AuditTable(log[..|log| - 1])[log[|log| - 1].id := log[|log| - 1].row]
  }

  lemma {:induction false} TableKeys(log: seq<AuditLog>)
    ensures AuditTable(log).Keys == Ids(log)
  {
    if log != [] {
      var rest := log[..|log| - 1];
      TableKeys(rest);
      assert log == rest + [log[|log| - 1]];
      assert Ids(log) == Ids(rest) + {log[|log| - 1].id};
    }
  }

  lemma TableAppend(log: seq<AuditLog>, audit: AuditLog)
    ensures AuditTable(log + [audit]) == AuditTable(log)[audit.id := audit.row]
  {
    assert (log + [audit])[..|log|] == log;
  }

  /** Dropping the oldest records of the list drops exactly their rows. */
  lemma {:induction false} TableDrop(log: seq<AuditLog>, n: nat)
    requires n <= |log| && DistinctIds(log)
    ensures AuditTable(log[n..]) == AuditTable(log) - Ids(log[..n])
  {
    TableKeys(log);
    if n == |log| {
      assert log[..n] == log;
    } else {
      var rest, last := log[..|log| - 1], log[|log| - 1];
      TableDrop(rest, n);
      DropCommutes(log, n);
      TableAppend(rest[n..], last);
      MinusPut(AuditTable(rest), Ids(log[..n]), last.id, last.row);
    }
  }

  lemma DropCommutes(log: seq<AuditLog>, n: nat)
    requires n < |log| && DistinctIds(log)
    ensures log[n..] == log[..|log| - 1][n..] + [log[|log| - 1]]
    ensures log[..|log| - 1][..n] == log[..n]
    ensures log[|log| - 1].id !in Ids(log[..n])
  {
  }

  lemma MinusPut<T>(table: Table<T>, ids: set<string>, id: string, row: Row<T>)
    requires id !in ids
    ensures table[id := row] - ids == (table - ids)[id := row]
  {
  }

  /** The oldest records beyond the cap. */
  ghost function Excess(log: seq<AuditLog>): seq<AuditLog> {
    if |log| > MAX_AUDITS then log[..|log| - MAX_AUDITS] else []
  }

  ghost function Kept(log: seq<AuditLog>): seq<AuditLog> {
    log[|Excess(log)|..]
  }

  /** The record appended last is not among those cut from the front. */
  lemma NewestStays(log: seq<AuditLog>, audit: AuditLog)
    requires audit.id !in AuditTable(log)
    ensures audit.id !in Ids(Excess(log + [audit]))
  {
    TableKeys(log);
    var all := log + [audit];
    if |all| > MAX_AUDITS {
      assert forall a :: a in all[..|all| - MAX_AUDITS] ==> a in log;
    }
  }

  predicate EndsWith(log: seq<AuditLog>, audit: AuditLog) {
    log != [] && log[|log| - 1] == audit
  }

  /** What is kept is the end of the list with the new record, 5000 records of it at most. */
  lemma KeptIsTheEnd(log: seq<AuditLog>, audit: AuditLog)
    ensures var kept := Kept(log + [audit]);
            |kept| == (if |log| < 5000 then |log| + 1 else 5000) && EndsWith(kept, audit) &&
            kept[..|kept| - 1] == log[|log| + 1 - |kept|..]
  {
  }

  lemma KeptIds(log: seq<AuditLog>, audit: AuditLog)
    ensures AuditTable(Kept(log + [audit])).Keys <= AuditTable(log).Keys + {audit.id}
  {
    TableKeys(log);
    TableKeys(Kept(log + [audit]));
    assert forall a :: a in Kept(log + [audit]) ==> a in log + [audit];
  }

  lemma IdsGrow(log: seq<AuditLog>, i: nat)
    requires i < |log|
    ensures Ids(log[..i + 1]) == Ids(log[..i]) + {log[i].id}
  {
    assert log[..i + 1] == log[..i] + [log[i]];
  }

  /** The log with the records to be written and the ids to be deleted. */
  datatype Trail = Trail(log: seq<AuditLog>, dirty: Table<AuditData>, deleted: set<string>)

  ghost function Cache(t: Trail): Cached<AuditData> {
    Cached(AuditTable(t.log), t.dirty.Keys, t.deleted)
  }

  ghost predicate TrailValid(t: Trail) {
    DistinctIds(t.log) && t.deleted !! AuditTable(t.log).Keys &&
    forall id :: id in t.dirty ==> id in AuditTable(t.log) && AuditTable(t.log)[id] == t.dirty[id]
  }

  /** A log that has just been read has nothing to be written. */
  lemma LoadedTrail(log: seq<AuditLog>, table: Table<AuditData>)
    requires DistinctIds(log) && AuditTable(log) == table
    ensures TrailValid(Trail(log, map[], {})) && Cache(Trail(log, map[], {})) == Clean(table)
  {
  }

  function Append(t: Trail, audit: AuditLog): Trail {
    Trail(t.log + [audit], t.dirty[audit.id := audit.row], t.deleted - {audit.id})
  }

  lemma AppendKeepsTrail(t: Trail, audit: AuditLog)
    requires TrailValid(t) && audit.id !in AuditTable(t.log)
    ensures TrailValid(Append(t, audit))
    ensures Cache(Append(t, audit)) == Put(Cache(t), audit.id, audit.row)
  {
    TableAppend(t.log, audit);
    AppendKeepsDistinct(t.log, audit);
  }

  lemma AppendKeepsDistinct(log: seq<AuditLog>, audit: AuditLog)
    requires DistinctIds(log) && audit.id !in AuditTable(log)
    ensures DistinctIds(log + [audit])
  {
    TableKeys(log);
    assert forall i :: 0 <= i < |log| ==> log[i].id in Ids(log);
  }

  /** The trail without its first records, which are no longer to be written but to be deleted. */
  ghost function Cut(t: Trail, n: nat): Trail
    requires n <= |t.log|
  {
    Trail(t.log[n..], t.dirty - Ids(t.log[..n]), t.deleted + Ids(t.log[..n]))
  }

  lemma CutKeepsTrail(t: Trail, n: nat)
    requires TrailValid(t) && n <= |t.log|
    ensures TrailValid(Cut(t, n)) && Cache(Cut(t, n)) == RemoveAll(Cache(t), Ids(t.log[..n]))
  {
    var t' := Cut(t, n);
    TableDrop(t.log, n);
    assert forall i, j :: 0 <= i < j < |t'.log| ==> t'.log[i] == t.log[n + i] && t'.log[j] == t.log[n + j];
    assert t'.dirty.Keys == t.dirty.Keys - Ids(t.log[..n]);
    forall id | id in t'.dirty
      ensures id in AuditTable(t'.log) && AuditTable(t'.log)[id] == t'.dirty[id]
    {
      assert id in AuditTable(t.log) && id !in Ids(t.log[..n]);
    }
  }

  /** Each record removed from the front is no longer to be written but to be deleted. */
  method ForgetAudits(t: Trail, n: nat) returns (t': Trail)
    requires TrailValid(t) && n <= |t.log|
    ensures t' == Cut(t, n)
    ensures TrailValid(t') && Cache(t') == RemoveAll(Cache(t), Ids(t.log[..n]))
  {
    var dirty, deleted := t.dirty, t.deleted;
    for i := 0 to n
      invariant dirty == t.dirty - Ids(t.log[..i])
      invariant deleted == t.deleted + Ids(t.log[..i])
    {
      IdsGrow(t.log, i);
      dirty := dirty - {t.log[i].id};
      deleted := deleted + {t.log[i].id};
    }
    CutKeepsTrail(t, n);
    t' := Trail(t.log[n..], dirty, deleted);
  }

  lemma RemoveNothing<T>(c: Cached<T>)
    ensures RemoveAll(c, {}) == c
  {
    assert c.rows - {} == c.rows;
  }

  /** Drops the oldest records beyond the cap. */
  method DropExcess(t: Trail) returns (t': Trail)
    requires TrailValid(t)
    ensures TrailValid(t') && t'.log == Kept(t.log) && |t'.log| <= MAX_AUDITS
    ensures Cache(t') == RemoveAll(Cache(t), Ids(Excess(t.log)))
  {
    if |t.log| > MAX_AUDITS {
      t' := ForgetAudits(t, |t.log| - MAX_AUDITS);
    } else {
      assert Ids([]) == {};
      RemoveNothing(Cache(t));
      t' := t;
    }
  }

  /** Appends a record and trims the oldest ones. */
  method AppendAndTrim(t: Trail, audit: AuditLog) returns (t': Trail)
    requires TrailValid(t) && audit.id !in AuditTable(t.log)
    ensures TrailValid(t') && t'.log == Kept(t.log + [audit]) && |t'.log| <= 5000 && EndsWith(t'.log, audit)
    ensures Cache(t') == RemoveAll(Put(Cache(t), audit.id, audit.row), Ids(Excess(t.log + [audit])))
  {
    AppendKeepsTrail(t, audit);
    t' := DropExcess(Append(t, audit));
    KeptIsTheEnd(t.log, audit);
  }
}
