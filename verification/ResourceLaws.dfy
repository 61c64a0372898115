/** What holds of tracked resources over every run of the system: one live row per state key, no row
    coming back to life, and the two destroy handlers compared. */
module ResourceLaws {
  import opened Wrappers
  import opened Values
  import opened ResourceNames
  import opened Lifecycle
  import opened RunLaws

  ghost predicate OneLivePerKey(rows: seq<Row>) {
    forall i, j :: 0 <= i < j < |rows| && Live(rows[i]) && Live(rows[j]) ==> rows[i].key != rows[j].key
  }

  ghost predicate RowIdsFresh(rows: seq<Row>, nextId: Id) {
    && (forall i, j :: 0 <= i < j < |rows| ==> rows[i].id < rows[j].id)
    && (forall i :: 0 <= i < |rows| ==> rows[i].id < nextId)
  }

  /** The row's key is the key of its name, and its name is the one its inputs carry, if any. */
  ghost predicate WellNamed(r: Row) {
    && NoSlash(r.schema) && NoSlash(r.env)
    && r.key == StateKey(r.schema, r.name, r.env)
    && (CarriedName(r.inputs).Some? ==> r.name == CarriedName(r.inputs).value)
  }

  ghost predicate AllWellNamed(rows: seq<Row>) {
    forall i :: 0 <= i < |rows| ==> WellNamed(rows[i])
  }

  ghost predicate RowsOk(rows: seq<Row>, nextId: Id) {
    OneLivePerKey(rows) && RowIdsFresh(rows, nextId) && AllWellNamed(rows)
  }

  ghost predicate GoodJob(job: Job) {
    && NoSlash(job.req.schema) && NoSlash(job.req.env)
    && (CarriedName(job.req.inputs).Some? ==> job.name == CarriedName(job.req.inputs).value)
    && (job.ws ==> job.req.resourceId.None?)
  }

  // ----- single table changes

  lemma AddRowKeeps(rows: seq<Row>, nextId: Id, job: Job, life: Life, run: Id)
    requires RowsOk(rows, nextId) && GoodJob(job)
    requires FindLive(rows, JobKey(job)).None?
    ensures RowsOk(rows + [NewRow(nextId, job, life, run)], nextId + 1)
  {
    var r := NewRow(nextId, job, life, run);
    var more := rows + [r];
    assert more[|rows|] == r && forall i :: 0 <= i < |rows| ==> more[i] == rows[i];
    assert WellNamed(r);
  }

  lemma SetLifeKeeps(rows: seq<Row>, nextId: Id, id: Id)
    requires RowsOk(rows, nextId)
    ensures RowsOk(SetLife(rows, id, Destroyed), nextId)
  {
    var after := SetLife(rows, id, Destroyed);
    forall i | 0 <= i < |after| ensures WellNamed(after[i]) {
      assert WellNamed(rows[i]);
    }
  }

  lemma RefreshKeeps(rows: seq<Row>, nextId: Id, i: nat, job: Job, run: Id)
    requires RowsOk(rows, nextId) && GoodJob(job)
    requires i < |rows| && Live(rows[i]) && rows[i].key == JobKey(job)
    ensures RowsOk(Refresh(rows, rows[i].id, job.req.inputs, run), nextId)
  {
    var after := Refresh(rows, rows[i].id, job.req.inputs, run);
    assert WellNamed(rows[i]);
    StateKeyInjective(rows[i].schema, rows[i].name, rows[i].env, job.req.schema, job.name, job.req.env);
    forall k | 0 <= k < |after| ensures WellNamed(after[k]) {
      assert WellNamed(rows[k]);
    }
    assert forall k :: 0 <= k < |rows| && k != i ==> after[k] == rows[k];
  }

  lemma RowsOkLater(rows: seq<Row>, nextId: Id, later: Id)
    requires RowsOk(rows, nextId) && nextId <= later
    ensures RowsOk(rows, later)
  {
  }

  lemma TrackApplyKeeps(rows: seq<Row>, job: Job, ok: bool, run: Id, nextId: Id)
    requires RowsOk(rows, nextId) && GoodJob(job)
    ensures RowsOk(TrackApply(rows, job, ok, run, nextId), nextId + 1)
  {
    RowsOkLater(rows, nextId, nextId + 1);
    match FindLive(rows, JobKey(job))
    case Some(i) => RefreshKeeps(rows, nextId + 1, i, job, run);
    case None => AddRowKeeps(rows, nextId, job, if ok then Active else Failed, run);
  }

  lemma {:induction false} TrackKeeps(rows: seq<Row>, job: Job, ok: bool, run: Id, nextId: Id,
                                      now: string, order: seq<nat>)
    requires RowsOk(rows, nextId) && GoodJob(job)
    ensures RowsOk(Track(rows, job, ok, run, nextId, now, order), nextId + 1)
  {
    match job.action
    case Plan => RowsOkLater(rows, nextId, nextId + 1);
    case Apply => TrackApplyKeeps(rows, job, ok, run, nextId);
    case Destroy =>
      RowsOkLater(rows, nextId, nextId + 1);
      forall id { SetLifeKeeps(rows, nextId + 1, id); }
  }

  lemma {:induction false} RecoverKeeps(rows: seq<Row>, records: seq<Record>, clock: Id -> string, nextId: Id)
    requires RowsOk(rows, nextId)
    requires forall i :: 0 <= i < |records| ==> NoSlash(records[i].schema) && NoSlash(records[i].env)
    ensures var (after, next) := Recover(rows, records, clock, nextId); RowsOk(after, next)
    decreases |records|
  {
    if records == [] {
    } else {
      var r := records[0];
      var job := RecoveredJob(r, clock(r.id));
      if r.status == Interrupted && r.action == Apply && FindLive(rows, JobKey(job)).None? {
        AddRowKeeps(rows, nextId, job, Unknown, r.id);
        RecoverKeeps(rows + [NewRow(nextId, job, Unknown, r.id)], records[1..], clock, nextId + 1);
      } else {
        RecoverKeeps(rows, records[1..], clock, nextId);
      }
    }
  }

  // ----- over whole runs

  ghost predicate RecordsSlashFree(records: seq<Record>) {
    forall i :: 0 <= i < |records| ==> NoSlash(records[i].schema) && NoSlash(records[i].env)
  }

  lemma StepKeepsSlashFree(s: State, e: Event)
    requires RecordsSlashFree(s.records) && ApprovalsSlashFree(s) && Enabled(s, e)
    ensures RecordsSlashFree(Step(s, e).records)
  {
  }

  lemma JobIsGood(s: State, run: Id)
    requires RecordsOk(s) && run in s.jobs
    ensures GoodJob(s.jobs[run])
  {
    assert Has(s.records, run);
    var i :| 0 <= i < |s.records| && s.records[i].id == run;
    assert RunsRecord(s.jobs[s.records[i].id], s.records[i]);
  }

  lemma RestartKeepsRows(s: State, clock: Id -> string)
    requires RowsOk(s.rows, s.nextId) && RecordsSlashFree(s.records)
    ensures RowsOk(RestartStep(s, clock).rows, RestartStep(s, clock).nextId)
  {
    assert RecordsSlashFree(InterruptAll(s.records));
    RecoverKeeps(s.rows, InterruptAll(s.records), clock, s.nextId);
  }

  lemma {:induction false} StepKeepsRows(s: State, e: Event)
    requires RowsOk(s.rows, s.nextId) && RecordsOk(s) && RecordsSlashFree(s.records) && Enabled(s, e)
    ensures RowsOk(Step(s, e).rows, Step(s, e).nextId)
  {
    RowsOkLater(s.rows, s.nextId, s.nextId + 1);
    match e
    case Finish(run, ok, logs, now, order) =>
      JobIsGood(s, run);
      TrackKeeps(s.rows, s.jobs[run], ok, run, s.nextId, now, order);
    case Restart(clock) =>
      RestartKeepsRows(s, clock);
    case Submit(_, _, _, _) =>
    case Decide(_, _) =>
    case Launch(_, _) =>
    case StartFails(_, _) =>
    case SetGate(_) =>
  }

  /** Over every run of applies, destroys, crashes and recoveries from the empty database: at most
      one live row per state key, rows named after their inputs and keyed by their names. */
  lemma {:induction false} OneLiveRowAlways(gate: bool, es: seq<Event>)
    requires ValidRun(gate, es)
    ensures RowsOk(After(gate, es).rows, After(gate, es).nextId)
    ensures RecordsSlashFree(After(gate, es).records)
    decreases |es|
  {
    if es == [] {
    } else {
      var before := es[..|es| - 1];
      OneLiveRowAlways(gate, before);
      RecordsOkAlways(gate, before);
      StepKeepsSlashFree(After(gate, before), es[|es| - 1]);
      StepKeepsRows(After(gate, before), es[|es| - 1]);
    }
  }

  /** A row keeps its place and its identity for good, and once destroyed it is never touched again. */
  ghost predicate RowPersists(before: Row, after: Row) {
    && after == before.(inputs := after.inputs, life := after.life, lastApply := after.lastApply)
    && (before.life == Destroyed ==> after == before)
  }

  lemma {:induction false} RecoverKeepsRow(rows: seq<Row>, records: seq<Record>, clock: Id -> string,
                                           nextId: Id, i: nat)
    requires i < |rows|
    ensures i < |Recover(rows, records, clock, nextId).0| && Recover(rows, records, clock, nextId).0[i] == rows[i]
    decreases |records|
  {
    if records == [] {
    } else {
      var r := records[0];
      var job := RecoveredJob(r, clock(r.id));
      RecoverKeepsRow(rows, records[1..], clock, nextId, i);
      RecoverKeepsRow(rows + [NewRow(nextId, job, Unknown, r.id)], records[1..], clock, nextId + 1, i);
    }
  }

  lemma TrackKeepsRow(rows: seq<Row>, job: Job, ok: bool, run: Id, nextId: Id, now: string, order: seq<nat>, i: nat)
    requires RowIdsFresh(rows, nextId) && i < |rows|
    ensures i < |Track(rows, job, ok, run, nextId, now, order)|
    ensures RowPersists(rows[i], Track(rows, job, ok, run, nextId, now, order)[i])
  {
  }

  /** Through any continuation of a run no destroyed row is revived. */
  lemma {:induction false} DestroyedStaysDestroyed(gate: bool, es: seq<Event>, k: nat, i: nat)
    requires ValidRun(gate, es) && k <= |es| && ValidRun(gate, es[..k])
    requires i < |After(gate, es[..k]).rows|
    ensures i < |After(gate, es).rows|
    ensures RowPersists(After(gate, es[..k]).rows[i], After(gate, es).rows[i])
    decreases |es|
  {
    if k == |es| {
      assert es[..k] == es;
    } else {
      var n := |es| - 1;
      assert es[..n][..k] == es[..k];
      DestroyedStaysDestroyed(gate, es[..n], k, i);
      OneLiveRowAlways(gate, es[..n]);
      StepKeepsRow(After(gate, es[..n]), es[n], i);
    }
  }

  lemma StepKeepsRow(s: State, e: Event, i: nat)
    requires RowIdsFresh(s.rows, s.nextId) && Enabled(s, e) && i < |s.rows|
    ensures i < |Step(s, e).rows| && RowPersists(s.rows[i], Step(s, e).rows[i])
  {
    match e
    case Finish(run, ok, logs, now, order) =>
      TrackKeepsRow(s.rows, s.jobs[run], ok, run, s.nextId, now, order, i);
    case Restart(clock) =>
      RecoverKeepsRow(s.rows, InterruptAll(s.records), clock, s.nextId, i);
    case Submit(_, _, _, _) =>
    case Decide(_, _) =>
    case Launch(_, _) =>
    case StartFails(_, _) =>
    case SetGate(_) =>
  }

  // ----- what ends of runs achieve

  /** There is a live row under the key, and it is the only one. */
  ghost predicate TheLiveRow(rows: seq<Row>, key: string, i: nat) {
    && i < |rows| && Live(rows[i]) && rows[i].key == key
    && forall j :: 0 <= j < |rows| && Live(rows[j]) && rows[j].key == key ==> j == i
  }

  /** After a successful apply the one live row under the key is active and holds the request's inputs. */
  lemma ApplyLeavesActiveRow(gate: bool, es: seq<Event>, run: Id, logs: string, now: string, order: seq<nat>)
    requires ValidRun(gate, es) && Enabled(After(gate, es), Finish(run, true, logs, now, order))
    requires After(gate, es).jobs[run].action == Apply
    ensures var job := After(gate, es).jobs[run];
            var t := Step(After(gate, es), Finish(run, true, logs, now, order));
            exists i: nat :: TheLiveRow(t.rows, JobKey(job), i) && t.rows[i].life == Active
                        && t.rows[i].inputs == job.req.inputs && t.rows[i].lastApply == run
  {
    var s := After(gate, es);
    var job := s.jobs[run];
    var t := Step(s, Finish(run, true, logs, now, order));
    OneLiveRowAlways(gate, es);
    RecordsOkAlways(gate, es);
    StepKeepsRows(s, Finish(run, true, logs, now, order));
    match FindLive(s.rows, JobKey(job))
    case Some(i) =>
      assert TheLiveRow(t.rows, JobKey(job), i);
    case None =>
      assert t.rows[|s.rows|] == NewRow(s.nextId, job, Active, run);
      assert TheLiveRow(t.rows, JobKey(job), |s.rows|);
  }

  /** A failed apply leaves some live row under the key, and touches none that was there. */
  lemma FailedApplyLeavesRow(s: State, run: Id, logs: string, now: string, order: seq<nat>)
    requires Enabled(s, Finish(run, false, logs, now, order)) && s.jobs[run].action == Apply
    ensures var t := Step(s, Finish(run, false, logs, now, order));
            && s.rows <= t.rows
            && FindLive(t.rows, JobKey(s.jobs[run])).Some?
  {
    var t := Step(s, Finish(run, false, logs, now, order));
    match FindLive(s.rows, JobKey(s.jobs[run]))
    case Some(i) =>
    case None =>
      assert t.rows[|s.rows|] == NewRow(s.nextId, s.jobs[run], Failed, run);
  }

  /** After a successful destroy that goes by key no live row has the key. */
  lemma {:induction false} DestroyLeavesNoLiveRow(gate: bool, es: seq<Event>, run: Id, logs: string,
                                                  now: string, order: seq<nat>)
    requires ValidRun(gate, es) && Enabled(After(gate, es), Finish(run, true, logs, now, order))
    requires After(gate, es).jobs[run].action == Destroy && After(gate, es).jobs[run].req.resourceId.None?
    ensures var t := Step(After(gate, es), Finish(run, true, logs, now, order));
            FindLive(t.rows, JobKey(After(gate, es).jobs[run])).None?
  {
    OneLiveRowAlways(gate, es);
    RecordsOkAlways(gate, es);
    JobIsGood(After(gate, es), run);
    DestroyClearsKey(After(gate, es).rows, After(gate, es).nextId, After(gate, es).jobs[run], run, now, order);
  }

  lemma DestroyClearsKey(rows: seq<Row>, nextId: Id, job: Job, run: Id, now: string, order: seq<nat>)
    requires RowsOk(rows, nextId) && job.action == Destroy && job.req.resourceId.None?
    ensures FindLive(Track(rows, job, true, run, nextId, now, order), JobKey(job)).None?
  {
    var after := Track(rows, job, true, run, nextId, now, order);
    var found := FindLive(rows, JobKey(job));
    forall i | 0 <= i < |after| && Live(after[i]) ensures after[i].key != JobKey(job) {
      assert after[i] == rows[i];
      if found.Some? {
        assert i != found.value;
      }
    }
  }

  /** Any successful destroy clears its key exactly if it names no resource id, or the key had no
      live row, or that row is the one with the id: a destroy by id does not look at the key. */
  lemma {:induction false} DestroyClearsKeyExactly(gate: bool, es: seq<Event>, run: Id, logs: string,
                                                   now: string, order: seq<nat>)
    requires ValidRun(gate, es) && Enabled(After(gate, es), Finish(run, true, logs, now, order))
    requires After(gate, es).jobs[run].action == Destroy
    ensures var s := After(gate, es);
            var t := Step(s, Finish(run, true, logs, now, order));
            var job := s.jobs[run];
            var found := FindLive(s.rows, JobKey(job));
            FindLive(t.rows, JobKey(job)).None?
            <==> || job.req.resourceId.None? || found.None?
                 || s.rows[found.value].id == job.req.resourceId.value
  {
    var s := After(gate, es);
    var job := s.jobs[run];
    OneLiveRowAlways(gate, es);
    RecordsOkAlways(gate, es);
    JobIsGood(s, run);
    if job.req.resourceId.None? {
      DestroyClearsKey(s.rows, s.nextId, job, run, now, order);
    } else {
      DestroyedById(s.rows, JobKey(job), job.req.resourceId.value);
    }
  }

  lemma DestroyedById(rows: seq<Row>, key: string, id: Id)
    requires OneLivePerKey(rows)
    ensures FindLive(SetLife(rows, id, Destroyed), key).None?
       <==> FindLive(rows, key).None? || rows[FindLive(rows, key).value].id == id
  {
    var after := SetLife(rows, id, Destroyed);
    var found := FindLive(rows, key);
    if found.Some? && rows[found.value].id != id {
      assert after[found.value] == rows[found.value];
    }
    forall i | 0 <= i < |after| && Live(after[i]) && after[i].key == key
      ensures found.Some? && i == found.value && rows[i].id != id
    {
      assert after[i] == rows[i];
    }
  }

  /** Recovery would add a row under the key for this record if the key had no live row. */
  predicate Recoverable(r: Record, clock: Id -> string, key: string) {
    r.status == Interrupted && r.action == Apply && JobKey(RecoveredJob(r, clock(r.id))) == key
  }

  lemma {:induction false} LiveAfterOneMore(rows: seq<Row>, r: Row, key: string)
    requires Live(r)
    ensures FindLive(rows + [r], key).Some? <==> FindLive(rows, key).Some? || r.key == key
  {
    var more := rows + [r];
    assert more[|rows|] == r && forall i :: 0 <= i < |rows| ==> more[i] == rows[i];
  }

  /** After recovery a key has a live row exactly if it had one or some record is recoverable to it. */
  lemma {:induction false} RecoverExact(rows: seq<Row>, records: seq<Record>, clock: Id -> string,
                                        nextId: Id, key: string)
    ensures FindLive(Recover(rows, records, clock, nextId).0, key).Some?
       <==> || FindLive(rows, key).Some?
            || exists i :: 0 <= i < |records| && Recoverable(records[i], clock, key)
    decreases |records|
  {
    if records == [] {
    } else {
      var r := records[0];
      var job := RecoveredJob(r, clock(r.id));
      assert forall i :: 0 <= i < |records| - 1 ==> records[1..][i] == records[i + 1];
      if r.status == Interrupted && r.action == Apply && FindLive(rows, JobKey(job)).None? {
        RecoverExact(rows + [NewRow(nextId, job, Unknown, r.id)], records[1..], clock, nextId + 1, key);
        LiveAfterOneMore(rows, NewRow(nextId, job, Unknown, r.id), key);
      } else {
        RecoverExact(rows, records[1..], clock, nextId, key);
      }
      RecoverableSplits(records, clock, key);
    }
  }

  lemma RecoverableSplits(records: seq<Record>, clock: Id -> string, key: string)
    requires records != []
    ensures (exists i :: 0 <= i < |records| && Recoverable(records[i], clock, key))
       <==> || Recoverable(records[0], clock, key)
            || exists i :: 0 <= i < |records[1..]| && Recoverable(records[1..][i], clock, key)
  {
    if i :| 0 <= i < |records| && Recoverable(records[i], clock, key) {
      if i > 0 {
        assert records[1..][i - 1] == records[i];
      }
    }
    if i :| 0 <= i < |records[1..]| && Recoverable(records[1..][i], clock, key) {
      assert records[i + 1] == records[1..][i];
    }
  }

  /** In every reachable state, a key without a live row, destroyed ones included, gets one at a
      restart exactly if some run is in progress and some apply for the key never ended, be it in
      this session or an earlier one. */
  lemma {:induction false} RestartRevivesKeyExactly(gate: bool, es: seq<Event>, clock: Id -> string, key: string)
    requires ValidRun(gate, es) && FindLive(After(gate, es).rows, key).None?
    ensures var s := After(gate, es);
            FindLive(Step(s, Restart(clock)).rows, key).Some?
            <==> SomeRunning(s.records)
                 && exists i :: 0 <= i < |s.records| && Unended(s.records[i]) && s.records[i].action == Apply
                                && JobKey(RecoveredJob(s.records[i], clock(s.records[i].id))) == key
  {
    var s := After(gate, es);
    var records := InterruptAll(s.records);
    RecoverExact(s.rows, records, clock, s.nextId, key);
    forall i | 0 <= i < |s.records|
      ensures Recoverable(records[i], clock, key)
         <==> && Unended(s.records[i]) && s.records[i].action == Apply
              && JobKey(RecoveredJob(s.records[i], clock(s.records[i].id))) == key
    {
      assert records[i].id == s.records[i].id && records[i].action == s.records[i].action;
      assert RecoveredJob(records[i], clock(records[i].id)) == RecoveredJob(s.records[i], clock(s.records[i].id));
    }
  }

  predicate Unended(r: Record) {
    r.status == Running || r.status == Interrupted
  }

  /** A restart that interrupts anything leaves a live row for every interrupted named apply in the
      table, those of earlier sessions included. */
  lemma {:induction false} RestartRecoversApplies(s: State, clock: Id -> string, i: nat)
    requires SomeRunning(s.records) && i < |s.records|
    requires InterruptAll(s.records)[i].status == Interrupted && s.records[i].action == Apply
    requires CarriedName(s.records[i].inputs).Some?
    ensures FindLive(RestartStep(s, clock).rows,
                     StateKey(s.records[i].schema, CarriedName(s.records[i].inputs).value, s.records[i].env)).Some?
  {
    RecoverExact(s.rows, InterruptAll(s.records), clock, s.nextId,
                 StateKey(s.records[i].schema, CarriedName(s.records[i].inputs).value, s.records[i].env));
    assert Recoverable(InterruptAll(s.records)[i], clock,
                       StateKey(s.records[i].schema, CarriedName(s.records[i].inputs).value, s.records[i].env));
  }

  // ----- HTTP and WebSocket compared

  /** The same run ended by either handler: everything but a destroy without a resource id is
      tracked alike by construction; there the handlers part exactly when the key lookup finds
      nothing and the scan finds something. */
  lemma {:induction false} HandlersAgreeExactly(rows: seq<Row>, job: Job, now: string, order: seq<nat>)
    requires job.action == Destroy && job.req.resourceId.None?
    requires forall i: nat :: i in order <==> i < |rows| && Live(rows[i])
    ensures DestroyHttp(rows, job, now, order) == DestroyWs(rows, job)
       <==> FindLive(rows, JobKey(job)).Some? || forall i :: 0 <= i < |rows| ==> !ScanMatches(rows[i], job, now)
  {
    if FindLive(rows, JobKey(job)).None? {
      match Scan(rows, order, job, now)
      case Some(i) =>
        assert SetLife(rows, rows[i].id, Destroyed)[i].life == Destroyed;
      case None =>
        forall i: nat | i < |rows| ensures !ScanMatches(rows[i], job, now) {
          assert Live(rows[i]) ==> i in order;
        }
    }
  }

  /** A named request whose key lookup misses is matched by the scan only at rows whose own inputs
      carry no name and get the wanted one from the clock. */
  lemma ScanFindsOnlyUnnamed(rows: seq<Row>, job: Job, now: string, i: nat)
    requires AllWellNamed(rows) && GoodJob(job) && CarriedName(job.req.inputs).Some?
    requires FindLive(rows, JobKey(job)).None? && i < |rows|
    ensures ScanMatches(rows[i], job, now)
       <==> && Live(rows[i]) && rows[i].schema == job.req.schema && rows[i].env == job.req.env
            && CarriedName(rows[i].inputs).None? && job.name == rows[i].schema + "-" + now
  {
    assert WellNamed(rows[i]);
  }

  /** A live row of the request's schema and environment that carries no name itself. */
  predicate UnnamedLive(r: Row, job: Job) {
    Live(r) && r.schema == job.req.schema && r.env == job.req.env && CarriedName(r.inputs).None?
  }

  /** Hence in every reachable state the two handlers change the table alike for a named request
      without a resource id exactly when its key has a live row, or no unnamed live row of its
      schema and environment exists, or the request's name is not the made-up one of this second.
      In particular no named row is ever marked that the key lookup missed. */
  lemma HandlersAgreeOnNamedRequests(gate: bool, es: seq<Event>, run: Id, now: string, order: seq<nat>)
    requires ValidRun(gate, es) && run in After(gate, es).jobs
    requires var s := After(gate, es);
             && s.jobs[run].action == Destroy && s.jobs[run].req.resourceId.None?
             && CarriedName(s.jobs[run].req.inputs).Some?
             && (forall i: nat :: i in order <==> i < |s.rows| && Live(s.rows[i]))
    ensures var s := After(gate, es);
            var job := s.jobs[run];
            DestroyHttp(s.rows, job, now, order) == DestroyWs(s.rows, job)
            <==> || FindLive(s.rows, JobKey(job)).Some?
                 || job.name != job.req.schema + "-" + now
                 || forall i :: 0 <= i < |s.rows| ==> !UnnamedLive(s.rows[i], job)
  {
    var s := After(gate, es);
    OneLiveRowAlways(gate, es);
    RecordsOkAlways(gate, es);
    JobIsGood(s, run);
    HandlersAgreeExactly(s.rows, s.jobs[run], now, order);
    if FindLive(s.rows, JobKey(s.jobs[run])).None? {
      forall i | 0 <= i < |s.rows|
        ensures ScanMatches(s.rows[i], s.jobs[run], now)
           <==> UnnamedLive(s.rows[i], s.jobs[run]) && s.jobs[run].name == s.jobs[run].req.schema + "-" + now
      {
        ScanFindsOnlyUnnamed(s.rows, s.jobs[run], now, i);
      }
    }
  }
}
