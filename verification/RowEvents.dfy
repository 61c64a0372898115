/** The resources table told from the events: which rows an event changes, into what, and which rows it
    adds, with every column. */
module RowEvents {
  import opened Wrappers
  import opened Values
  import opened ResourceNames
  import opened Lifecycle
  import opened RunLaws
  import opened ResourceLaws

  function KeyOf(schema: string, name: string, env: string): string {
    env + "/" + schema + "/" + name + "/terraform.tfstate"
  }

  ghost predicate HasLive(rows: seq<Row>, key: string) {
    exists i :: 0 <= i < |rows| && rows[i].life != Destroyed && rows[i].key == key
  }

  /** What the fallback scan of the HTTP handler looks for. */
  predicate LooksLike(r: Row, req: Request, now: string) {
    && r.life != Destroyed && r.schema == req.schema && r.env == req.env
    && var wanted := ResourceName(req.schema, req.inputs, now);
       wanted == ResourceName(r.schema, r.inputs, now) || wanted == r.name
  }

  ghost predicate FirstThatLooks(rows: seq<Row>, order: seq<nat>, req: Request, now: string, i: nat)
    requires i < |rows|
  {
    exists k :: 0 <= k < |order| && order[k] == i && LooksLike(rows[i], req, now)
      && forall j :: 0 <= j < k && order[j] < |rows| ==> !LooksLike(rows[order[j]], req, now)
  }

  /** The row a successful destroy is for: the one with the id, if the request has one; else the live
      one of the key; else, over HTTP, the first that looks like it. */
  ghost predicate IsFor(rows: seq<Row>, job: Job, now: string, order: seq<nat>, i: nat)
    requires i < |rows|
  {
    var key := KeyOf(job.req.schema, job.name, job.req.env);
    if job.req.resourceId.Some? then rows[i].id == job.req.resourceId.value
    else if HasLive(rows, key) then rows[i].life != Destroyed && rows[i].key == key
    else !job.ws && FirstThatLooks(rows, order, job.req, now, i)
  }

  /** What an event makes of a row that is there. */
  ghost predicate Becomes(s: State, e: Event, i: nat, after: Row)
    requires i < |s.rows|
  {
    var r := s.rows[i];
    if e.Finish? && e.ok && e.run in s.jobs then
      var job := s.jobs[e.run];
      match job.action
      case Plan => after == r
      case Apply =>
        if r.life != Destroyed && r.key == KeyOf(job.req.schema, job.name, job.req.env)
        then after == r.(inputs := job.req.inputs, life := Active, lastApply := e.run)
        else after == r
      case Destroy =>
        if IsFor(s.rows, job, e.now, e.order, i) then after == r.(life := Destroyed) else after == r
    else after == r
  }

  /** The row that the end of an apply adds. */
  ghost predicate ArrivesWithApply(s: State, e: Event, row: Row) {
    && e.Finish? && e.run in s.jobs && s.jobs[e.run].action == Apply
    && var job := s.jobs[e.run];
       var key := KeyOf(job.req.schema, job.name, job.req.env);
       && !HasLive(s.rows, key)
       && row == Row(s.nextId, job.name, job.req.schema, job.req.env, job.req.region, job.req.inputs, key,
                     if e.ok then Active else Failed, e.run)
  }

  /** A row that a restart adds for an interrupted apply. */
  ghost predicate Recovered(r: Record, clock: Id -> string, row: Row) {
    && r.status == Interrupted && r.action == Apply
    && var name := ResourceName(r.schema, r.inputs, clock(r.id));
       row == Row(row.id, name, r.schema, r.env, r.region, r.inputs, KeyOf(r.schema, name, r.env), Unknown, r.id)
  }

  ghost predicate ArrivesWithRestart(records: seq<Record>, clock: Id -> string, row: Row) {
    exists i :: 0 <= i < |records| && Recovered(records[i], clock, row)
  }

  /** Every row stays where it is and becomes what the event says; the end of an apply adds one row if
      its key has none, a restart adds rows for interrupted applies, and nothing else adds any. */
  ghost predicate RowsAfter(s: State, e: Event, t: State) {
    && |s.rows| <= |t.rows|
    && (forall i :: 0 <= i < |s.rows| ==> Becomes(s, e, i, t.rows[i]))
    && (forall i :: |s.rows| <= i < |t.rows| ==>
          if e.Restart? then ArrivesWithRestart(t.records, e.clock, t.rows[i])
          else ArrivesWithApply(s, e, t.rows[i]) && |t.rows| == |s.rows| + 1)
    && (e.Finish? && e.run in s.jobs && s.jobs[e.run].action == Apply
        && !HasLive(s.rows, KeyOf(s.jobs[e.run].req.schema, s.jobs[e.run].name, s.jobs[e.run].req.env)) ==>
          |t.rows| == |s.rows| + 1)
  }

  lemma LiveFound(rows: seq<Row>, key: string)
    ensures HasLive(rows, key) <==> FindLive(rows, key).Some?
  {
    if FindLive(rows, key).Some? {
      assert Live(rows[FindLive(rows, key).value]);
    }
  }

  lemma {:induction false} ScanFinds(rows: seq<Row>, order: seq<nat>, job: Job, now: string)
    ensures Scan(rows, order, job, now).Some? ==>
              FirstThatLooks(rows, order, job.req, now, Scan(rows, order, job, now).value)
    ensures Scan(rows, order, job, now).None? ==>
              forall k :: 0 <= k < |order| && order[k] < |rows| ==> !LooksLike(rows[order[k]], job.req, now)
  {
    if order == [] {
    } else if order[0] < |rows| && ScanMatches(rows[order[0]], job, now) {
      assert LooksLike(rows[order[0]], job.req, now);
    } else {
      var rest := order[1..];
      ScanFinds(rows, rest, job, now);
      assert order[0] < |rows| ==> !LooksLike(rows[order[0]], job.req, now);
      assert forall k :: 0 <= k < |rest| ==> rest[k] == order[k + 1];
      var found := Scan(rows, rest, job, now);
      if found.Some? {
        var k :| 0 <= k < |rest| && rest[k] == found.value && LooksLike(rows[found.value], job.req, now)
          && forall j :: 0 <= j < k && rest[j] < |rows| ==> !LooksLike(rows[rest[j]], job.req, now);
        assert order[k + 1] == found.value;
        forall j | 0 <= j < k + 1 && order[j] < |rows| ensures !LooksLike(rows[order[j]], job.req, now) {
          if j > 0 {
            assert rest[j - 1] == order[j];
          }
        }
      } else {
        forall k | 0 <= k < |order| && order[k] < |rows| ensures !LooksLike(rows[order[k]], job.req, now) {
          if k > 0 {
            assert rest[k - 1] == order[k];
          }
        }
      }
    }
  }

  lemma FirstIsOne(rows: seq<Row>, order: seq<nat>, req: Request, now: string, i: nat, j: nat)
    requires i < |rows| && j < |rows|
    requires FirstThatLooks(rows, order, req, now, i) && FirstThatLooks(rows, order, req, now, j)
    ensures i == j
  {
    var k :| 0 <= k < |order| && order[k] == i && LooksLike(rows[i], req, now)
      && forall m :: 0 <= m < k && order[m] < |rows| ==> !LooksLike(rows[order[m]], req, now);
    var l :| 0 <= l < |order| && order[l] == j && LooksLike(rows[j], req, now)
      && forall m :: 0 <= m < l && order[m] < |rows| ==> !LooksLike(rows[order[m]], req, now);
    assert !(k < l) && !(l < k);
  }

  /** Marking a row by its id marks that row alone. */
  lemma OneIsMarked(rows: seq<Row>, nextId: Id, i: nat, k: nat)
    requires RowIdsFresh(rows, nextId) && i < |rows| && k < |rows|
    ensures SetLife(rows, rows[k].id, Destroyed)[i] == if i == k then rows[i].(life := Destroyed) else rows[i]
  {
  }

  lemma DestroyedRows(rows: seq<Row>, nextId: Id, job: Job, now: string, order: seq<nat>, i: nat)
    requires RowsOk(rows, nextId) && job.action == Destroy && (job.ws ==> job.req.resourceId.None?) && i < |rows|
    ensures var after := Track(rows, job, true, 0, nextId, now, order);
            |after| == |rows|
            && after[i] == if IsFor(rows, job, now, order, i) then rows[i].(life := Destroyed) else rows[i]
  {
    if job.req.resourceId.None? {
      var found := FindLive(rows, JobKey(job));
      LiveFound(rows, JobKey(job));
      if found.Some? {
        OneIsMarked(rows, nextId, i, found.value);
      } else if !job.ws {
        var first := Scan(rows, order, job, now);
        ScanFinds(rows, order, job, now);
        if first.Some? {
          OneIsMarked(rows, nextId, i, first.value);
          if FirstThatLooks(rows, order, job.req, now, i) {
            FirstIsOne(rows, order, job.req, now, i, first.value);
          }
        }
      }
    }
  }

  lemma AppliedRows(rows: seq<Row>, nextId: Id, job: Job, ok: bool, run: Id, i: nat)
    requires RowsOk(rows, nextId) && i < |rows|
    ensures var after := TrackApply(rows, job, ok, run, nextId);
            var key := KeyOf(job.req.schema, job.name, job.req.env);
            && |after| == |rows| + (if HasLive(rows, key) then 0 else 1)
            && after[i] == if ok && rows[i].life != Destroyed && rows[i].key == key
                           then rows[i].(inputs := job.req.inputs, life := Active, lastApply := run) else rows[i]
  {
    LiveFound(rows, JobKey(job));
    var found := FindLive(rows, JobKey(job));
    if found.Some? && i != found.value {
      assert rows[i].id != rows[found.value].id;
    }
  }

  lemma AppliedRowArrives(rows: seq<Row>, nextId: Id, job: Job, ok: bool, run: Id)
    requires !HasLive(rows, KeyOf(job.req.schema, job.name, job.req.env))
    ensures TrackApply(rows, job, ok, run, nextId)
         == rows + [Row(nextId, job.name, job.req.schema, job.req.env, job.req.region, job.req.inputs,
                        KeyOf(job.req.schema, job.name, job.req.env), if ok then Active else Failed, run)]
  {
    LiveFound(rows, JobKey(job));
  }

  lemma {:induction false} RecoveredArrive(rows: seq<Row>, records: seq<Record>, clock: Id -> string,
                                           nextId: Id, i: nat)
    requires |rows| <= i < |Recover(rows, records, clock, nextId).0|
    ensures ArrivesWithRestart(records, clock, Recover(rows, records, clock, nextId).0[i])
    decreases |records|
  {
    var r := records[0];
    var job := RecoveredJob(r, clock(r.id));
    assert forall k :: 0 <= k < |records| - 1 ==> records[1..][k] == records[k + 1];
    if r.status == Interrupted && r.action == Apply && FindLive(rows, JobKey(job)).None? {
      var row := NewRow(nextId, job, Unknown, r.id);
      if i == |rows| {
        RecoverKeepsRow(rows + [row], records[1..], clock, nextId + 1, i);
        assert Recovered(r, clock, row);
      } else {
        RecoveredArrive(rows + [row], records[1..], clock, nextId + 1, i);
        ArrivesFromRest(records, clock, Recover(rows, records, clock, nextId).0[i]);
      }
    } else {
      RecoveredArrive(rows, records[1..], clock, nextId, i);
      ArrivesFromRest(records, clock, Recover(rows, records, clock, nextId).0[i]);
    }
  }

  lemma ArrivesFromRest(records: seq<Record>, clock: Id -> string, row: Row)
    requires records != [] && ArrivesWithRestart(records[1..], clock, row)
    ensures ArrivesWithRestart(records, clock, row)
  {
    var k :| 0 <= k < |records[1..]| && Recovered(records[1..][k], clock, row);
    assert records[k + 1] == records[1..][k];
  }

  lemma RowsAfterRestart(s: State, e: Event)
    requires e.Restart?
    ensures RowsAfter(s, e, RestartStep(s, e.clock))
  {
    var t := RestartStep(s, e.clock);
    if SomeRunning(s.records) {
      RowsOnlyGrow(s.rows, t.records, e.clock, s.nextId);
      forall i | 0 <= i < |s.rows| ensures t.rows[i] == s.rows[i] {
        RecoverKeepsRow(s.rows, t.records, e.clock, s.nextId, i);
      }
      forall i | |s.rows| <= i < |t.rows| ensures ArrivesWithRestart(t.records, e.clock, t.rows[i]) {
        RecoveredArrive(s.rows, t.records, e.clock, s.nextId, i);
      }
    }
  }

  lemma {:induction false} RowsOnlyGrow(rows: seq<Row>, records: seq<Record>, clock: Id -> string, nextId: Id)
    ensures |rows| <= |Recover(rows, records, clock, nextId).0|
  {
    if rows == [] {
    } else {
      RecoverKeepsRow(rows, records, clock, nextId, |rows| - 1);
    }
  }

  lemma RowsAfterFinish(s: State, e: Event)
    requires RowsOk(s.rows, s.nextId) && Enabled(s, e) && e.Finish? && GoodJob(s.jobs[e.run])
    ensures RowsAfter(s, e, Step(s, e))
  {
    var t := Step(s, e);
    var job := s.jobs[e.run];
    var key := KeyOf(job.req.schema, job.name, job.req.env);
    match job.action
    case Plan =>
    case Apply =>
      forall i | 0 <= i < |s.rows| ensures Becomes(s, e, i, t.rows[i]) {
        AppliedRows(s.rows, s.nextId, job, e.ok, e.run, i);
      }
      LiveFound(s.rows, key);
      if !HasLive(s.rows, key) {
        AppliedRowArrives(s.rows, s.nextId, job, e.ok, e.run);
      }
    case Destroy =>
      if e.ok {
        forall i | 0 <= i < |s.rows| ensures Becomes(s, e, i, t.rows[i]) {
          DestroyedRows(s.rows, s.nextId, job, e.now, e.order, i);
        }
      }
  }

  /** The table after any event in any reachable state. */
  lemma {:induction false} RowsAsTheEventSays(gate: bool, es: seq<Event>, e: Event)
    requires ValidRun(gate, es) && Enabled(After(gate, es), e)
    ensures RowsAfter(After(gate, es), e, Step(After(gate, es), e))
  {
    var s := After(gate, es);
    OneLiveRowAlways(gate, es);
    RecordsOkAlways(gate, es);
    match e
    case Finish(run, _, _, _, _) =>
      JobIsGood(s, run);
      RowsAfterFinish(s, e);
    case Restart(_) => RowsAfterRestart(s, e);
    case Submit(_, _, _, _) =>
    case Decide(_, _) =>
    case Launch(_, _) =>
    case StartFails(_, _) =>
    case SetGate(_) =>
  }
}
