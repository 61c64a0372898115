/** What holds of execution records over every run of the system, crashes included. */
module RunLaws {
  import opened Wrappers
  import opened Values
  import opened ResourceNames
  import opened Lifecycle

  /** A job in memory is the run of its record. */
  ghost predicate RunsRecord(job: Job, r: Record) {
    && job.action == r.action && job.req.schema == r.schema && job.req.env == r.env
    && job.req.region == r.region && job.req.inputs == r.inputs
    && NoSlash(r.schema) && NoSlash(r.env)
    && (CarriedName(r.inputs).Some? ==> job.name == CarriedName(r.inputs).value)
    && (job.ws ==> job.req.resourceId.None?)
  }

  ghost predicate Has(records: seq<Record>, id: Id) {
    exists i :: 0 <= i < |records| && records[i].id == id
  }

  ghost predicate JobsAreRunning(records: seq<Record>, jobs: map<Id, Job>) {
    && (forall i :: 0 <= i < |records| ==> (records[i].status == Running <==> records[i].id in jobs))
    && (forall id :: id in jobs ==> Has(records, id))
  }

  ghost predicate JobsMatch(records: seq<Record>, jobs: map<Id, Job>) {
    forall i :: 0 <= i < |records| && records[i].id in jobs ==> RunsRecord(jobs[records[i].id], records[i])
  }

  /** The in-memory history is this session's part of the table, newest first. */
  ghost predicate HistoryIsSession(records: seq<Record>, history: seq<Record>, session: nat) {
    && session <= |records|
    && |history| == |records| - session
    && (forall k :: 0 <= k < |history| ==> history[k] == records[|records| - 1 - k])
    && (forall i :: 0 <= i < session ==> records[i].status != Running)
  }

  ghost predicate RecordIdsFresh(records: seq<Record>, nextId: Id) {
    && (forall i, j :: 0 <= i < j < |records| ==> records[i].id < records[j].id)
    && (forall i :: 0 <= i < |records| ==> records[i].id < nextId)
  }

  ghost predicate RecordsOk(s: State) {
    && RecordIdsFresh(s.records, s.nextId)
    && JobsAreRunning(s.records, s.jobs)
    && JobsMatch(s.records, s.jobs)
    && HistoryIsSession(s.records, s.history, s.session)
  }

  ghost predicate ApprovalsSlashFree(s: State) {
    forall i :: 0 <= i < |s.approvals| ==> NoSlash(s.approvals[i].schema) && NoSlash(s.approvals[i].env)
  }

  lemma AddRunning(records: seq<Record>, jobs: map<Id, Job>, r: Record, job: Job)
    requires RecordIdsFresh(records, r.id) && JobsAreRunning(records, jobs) && JobsMatch(records, jobs)
    requires r.status == Running && RunsRecord(job, r)
    ensures RecordIdsFresh(records + [r], r.id + 1)
    ensures JobsAreRunning(records + [r], jobs[r.id := job]) && JobsMatch(records + [r], jobs[r.id := job])
  {
    var more := records + [r];
    assert more[|records|] == r && forall i :: 0 <= i < |records| ==> more[i] == records[i];
    forall id | id in jobs[r.id := job] ensures Has(more, id) {
      if id != r.id {
        var i :| 0 <= i < |records| && records[i].id == id;
        assert more[i].id == id;
      }
    }
    forall i | 0 <= i < |more| && more[i].id in jobs[r.id := job]
      ensures RunsRecord(jobs[r.id := job][more[i].id], more[i])
    {
    }
  }

  lemma AddToHistory(records: seq<Record>, history: seq<Record>, session: nat, r: Record)
    requires HistoryIsSession(records, history, session)
    ensures HistoryIsSession(records + [r], [r] + history, session)
  {
    var table, memory := records + [r], [r] + history;
    forall k | 0 <= k < |memory| ensures memory[k] == table[|table| - 1 - k] {
      if k > 0 {
        assert memory[k] == history[k - 1] && table[|table| - 1 - k] == records[|records| - k];
      }
    }
  }

  lemma StartKeepsRecords(s: State, action: Action, req: Request, ws: bool, now: string, origin: Origin)
    requires RecordsOk(s) && NoSlash(req.schema) && NoSlash(req.env) && (ws ==> req.resourceId.None?)
    ensures RecordsOk(StartRun(s, action, req, ws, now, origin))
  {
    var r := Record(s.nextId, action, req.schema, req.env, req.region, req.inputs, Running, "");
    AddRunning(s.records, s.jobs, r, Job(action, req, ResourceName(req.schema, req.inputs, now), ws));
    AddToHistory(s.records, s.history, s.session, r);
  }

  lemma EndRunning(records: seq<Record>, jobs: map<Id, Job>, run: Id, status: RunStatus, logs: string)
    requires JobsAreRunning(records, jobs) && JobsMatch(records, jobs) && status != Running
    ensures JobsAreRunning(SetStatus(records, run, status, logs), jobs - {run})
    ensures JobsMatch(SetStatus(records, run, status, logs), jobs - {run})
  {
    var after := SetStatus(records, run, status, logs);
    forall id | id in jobs - {run} ensures Has(after, id) {
      var i :| 0 <= i < |records| && records[i].id == id;
      assert after[i].id == id;
    }
    forall i | 0 <= i < |after| && after[i].id in jobs - {run}
      ensures RunsRecord((jobs - {run})[after[i].id], after[i])
    {
      assert after[i] == records[i] && RunsRecord(jobs[records[i].id], records[i]);
    }
  }

  lemma {:induction false} EndKeepsRecords(s: State, run: Id, status: RunStatus, logs: string)
    requires RecordsOk(s) && status != Running
    ensures RecordsOk(EndRun(s, run, status, logs))
  {
    EndRunning(s.records, s.jobs, run, status, logs);
    EndKeepsHistory(s.records, s.history, s.session, run, status, logs);
  }

  lemma EndKeepsHistory(records: seq<Record>, history: seq<Record>, session: nat,
                        run: Id, status: RunStatus, logs: string)
    requires HistoryIsSession(records, history, session) && status != Running
    ensures HistoryIsSession(SetStatus(records, run, status, logs), SetStatus(history, run, status, logs), session)
  {
    var table, memory := SetStatus(records, run, status, logs), SetStatus(history, run, status, logs);
    forall k | 0 <= k < |memory| ensures memory[k] == table[|table| - 1 - k] {
      assert history[k] == records[|records| - 1 - k];
    }
    forall i | 0 <= i < session ensures table[i].status != Running {
      assert records[i].status != Running;
    }
  }

  lemma {:induction false} RecoverGrowsId(rows: seq<Row>, records: seq<Record>, clock: Id -> string, nextId: Id)
    ensures Recover(rows, records, clock, nextId).1 >= nextId
    decreases |records|
  {
    if records == [] {
    } else {
      var r := records[0];
      var job := RecoveredJob(r, clock(r.id));
      RecoverGrowsId(rows, records[1..], clock, nextId);
      RecoverGrowsId(rows + [NewRow(nextId, job, Unknown, r.id)], records[1..], clock, nextId + 1);
    }
  }

  lemma {:induction false} RestartKeepsRecords(s: State, clock: Id -> string)
    requires RecordsOk(s)
    ensures RecordsOk(RestartStep(s, clock))
  {
    RecoverGrowsId(s.rows, InterruptAll(s.records), clock, s.nextId);
  }

  lemma StepKeepsRecords(s: State, e: Event)
    requires RecordsOk(s) && ApprovalsSlashFree(s) && Enabled(s, e)
    ensures RecordsOk(Step(s, e))
  {
    match e
    case Submit(action, req, ws, now) =>
      if action == Plan || !s.gate {
        StartKeepsRecords(s.(submissions := s.submissions + [Submission(action, req, s.gate)]),
                          action, req, ws, now, Direct(|s.submissions|));
      }
    case Decide(approval, approve) =>
    case Launch(approval, now) =>
      var found := FindApproval(s.approvals, approval);
      if found.Some? {
        StartKeepsRecords(s.(launching := Remove(s.launching, approval)), s.approvals[found.value].action,
                          ApprovedRequest(s.approvals[found.value]), false, now, FromApproval(approval));
      }
    case Finish(run, ok, logs, now, order) =>
      EndKeepsRecords(s, run, if ok then Succeeded else Errored, logs);
    case StartFails(run, logs) =>
      EndKeepsRecords(s, run, Errored, logs);
    case SetGate(on) =>
    case Restart(clock) =>
      RestartKeepsRecords(s, clock);
  }

  lemma StepKeepsApprovalsSlashFree(s: State, e: Event)
    requires ApprovalsSlashFree(s) && Enabled(s, e)
    ensures ApprovalsSlashFree(Step(s, e))
  {
  }

  lemma {:induction false} RecordsOkAlways(gate: bool, es: seq<Event>)
    requires ValidRun(gate, es)
    ensures RecordsOk(After(gate, es)) && ApprovalsSlashFree(After(gate, es))
    decreases |es|
  {
    if es == [] {
    } else {
      RecordsOkAlways(gate, es[..|es| - 1]);
      StepKeepsRecords(After(gate, es[..|es| - 1]), es[|es| - 1]);
      StepKeepsApprovalsSlashFree(After(gate, es[..|es| - 1]), es[|es| - 1]);
    }
  }

  /** A record keeps its place, its identity and its request for good, and once it has left running
      it never changes again. */
  ghost predicate RecordPersists(before: Record, after: Record) {
    && after == before.(status := after.status, logs := after.logs)
    && (before.status != Running ==> after == before)
  }

  lemma StepKeepsRecord(s: State, e: Event, i: nat)
    requires RecordsOk(s) && Enabled(s, e) && i < |s.records|
    ensures i < |Step(s, e).records| && RecordPersists(s.records[i], Step(s, e).records[i])
  {
  }

  /** The whole life of a record: through any continuation of a run, it leaves running at most once. */
  lemma {:induction false} RecordsLeaveRunningOnce(gate: bool, es: seq<Event>, k: nat, i: nat)
    requires ValidRun(gate, es) && k <= |es| && ValidRun(gate, es[..k])
    requires i < |After(gate, es[..k]).records|
    ensures i < |After(gate, es).records|
    ensures RecordPersists(After(gate, es[..k]).records[i], After(gate, es).records[i])
    decreases |es|
  {
    if k == |es| {
      assert es[..k] == es;
    } else {
      var n := |es| - 1;
      assert es[..n][..k] == es[..k];
      RecordsLeaveRunningOnce(gate, es[..n], k, i);
      RecordsOkAlways(gate, es[..n]);
      StepKeepsRecord(After(gate, es[..n]), es[n], i);
    }
  }

  /** Just after a restart nothing runs and the history is empty; whatever ran is interrupted. */
  lemma RestartStopsEverything(gate: bool, es: seq<Event>, clock: Id -> string)
    requires ValidRun(gate, es)
    ensures var s, t := After(gate, es), Step(After(gate, es), Restart(clock));
            && t.history == [] && t.jobs == map[]
            && (forall i :: 0 <= i < |t.records| ==> t.records[i].status != Running)
            && (forall i :: 0 <= i < |s.records| && s.records[i].status == Running ==>
                  t.records[i].status == Interrupted)
  {
    RecordsOkAlways(gate, es);
  }

  /** Within a session memory and table agree on every run of the session, newest first, and no run
      of an earlier session is shown as running. */
  lemma {:induction false} HistoryAgreesWithTable(gate: bool, es: seq<Event>)
    requires ValidRun(gate, es)
    ensures HistoryIsSession(After(gate, es).records, After(gate, es).history, After(gate, es).session)
  {
    RecordsOkAlways(gate, es);
  }

  /** No two entries of the history share an id, so editing the first entry with a run's id edits
      the run's only entry; and every run in progress has one. */
  lemma HistoryIdsDistinct(gate: bool, es: seq<Event>)
    requires ValidRun(gate, es)
    ensures var s := After(gate, es);
            && (forall i, j :: 0 <= i < j < |s.history| ==> s.history[i].id != s.history[j].id)
            && (forall run :: run in s.jobs ==> Has(s.history, run))
  {
    RecordsOkAlways(gate, es);
    var s := After(gate, es);
    forall run | run in s.jobs ensures Has(s.history, run) {
      var i :| 0 <= i < |s.records| && s.records[i].id == run;
      assert s.records[i].status == Running;
      assert s.history[|s.records| - 1 - i] == s.records[i];
    }
  }
}
