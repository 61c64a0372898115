/** The server process: its tables and memory as fields, its handlers as methods that change them
    step by step, each proved to take the step of the state machine. */
module Server {
  import opened Wrappers
  import opened Values
  import opened ResourceNames
  import opened Lifecycle

  datatype Response = ApprovalRequired(approval: Id) | Started(run: Id)

  datatype ReviewError = NotFound | NotPending

  class WolkvormServer {
    var records: seq<Record>
    var rows: seq<Row>
    var approvals: seq<Approval>
    var gate: bool
    var history: seq<Record>
    var jobs: map<Id, Job>
    var launching: seq<Id>
    var nextId: Id
    ghost var session: nat
    ghost var submissions: seq<Submission>
    ghost var origins: map<Id, Origin>

    ghost function State(): State
      reads this
    {
      Lifecycle.State.State(records, rows, approvals, gate, history, session, jobs, launching, nextId,
                            submissions, origins)
    }

    constructor (gate: bool)
      ensures State() == Init(gate)
    {
      this.gate := gate;
      records, rows, approvals, history, jobs, launching, nextId := [], [], [], [], map[], [], 0;
      session, submissions, origins := 0, [], map[];
    }

    /** The start of `runTerragrunt` and of the WebSocket run: record the run in memory and table. */
    method StartRecord(action: Action, req: Request, ws: bool, now: string, ghost origin: Origin) returns (run: Id)
      modifies this
      ensures run == old(nextId)
      ensures State() == StartRun(old(State()), action, req, ws, now, origin)
    {
      run := nextId;
      var name := GetResourceName(req.schema, req.inputs, now);
      var record := Record(run, action, req.schema, req.env, req.region, req.inputs, Running, "");
      history := [record] + history;
      records := records + [record];
      jobs := jobs[run := Job(action, req, name, ws)];
      nextId := nextId + 1;
      if action != Plan {
        origins := origins[run := origin];
      }
    }

    /** `terragruntHandler` and the first half of `wsRunHandler`: the approval gate. */
    method Submit(action: Action, req: Request, ws: bool, now: string) returns (response: Response)
      modifies this
      ensures State() == SubmitStep(old(State()), action, req, ws, now)
      ensures response == if action != Plan && old(gate) then ApprovalRequired(old(nextId)) else Started(old(nextId))
    {
      ghost var submission := |submissions|;
      submissions := submissions + [Submission(action, req, gate)];
      if action != Plan && gate {
        var id := nextId;
        nextId := nextId + 1;
        approvals := approvals + [Approval(id, action, req.schema, req.env, req.region, req.inputs, Pending)];
        return ApprovalRequired(id);
      }
      var run := StartRecord(action, req, ws, now, Direct(submission));
      return Started(run);
    }

    /** `approvalActionHandler`. */
    method Decide(id: Id, approve: bool) returns (r: Result<Review, ReviewError>)
      modifies this
      ensures State() == DecideStep(old(State()), id, approve)
      ensures r == match FindApproval(old(approvals), id)
                   case None => Failure(NotFound)
                   case Some(i) => if old(approvals)[i].status != Pending then Failure(NotPending)
                                   else Success(if approve then Approved else Rejected)
    {
      var found := FindApproval(approvals, id);
      if found.None? {
        return Failure(NotFound);
      }
      if approvals[found.value].status != Pending {
        return Failure(NotPending);
      }
      var status := if approve then Approved else Rejected;
      approvals := SetReview(approvals, id, status);
      if status == Approved {
        launching := launching + [id];
      }
      return Success(status);
    }

    /** The background run of an approved approval begins. */
    method LaunchApproved(id: Id, now: string)
      modifies this
      ensures State() == LaunchStep(old(State()), id, now)
    {
      var found := FindApproval(approvals, id);
      if found.Some? {
        var a := approvals[found.value];
        launching := Remove(launching, id);
        var run := StartRecord(a.action, ApprovedRequest(a), false, now, FromApproval(id));
      }
    }

    /** The end of a run: the first history entry with its id is edited in place, then the table. */
    method FinishRecord(run: Id, status: RunStatus, logs: string)
      requires forall i, j :: 0 <= i < j < |history| ==> history[i].id != history[j].id
      modifies this
      ensures State() == EndRun(old(State()), run, status, logs)
    {
      var i := 0;
      while i < |history|
        invariant i <= |history|
        invariant history == old(history)
        invariant forall j :: 0 <= j < i ==> history[j].id != run
        invariant State() == old(State())
      {
        if history[i].id == run {
          history := history[i := history[i].(status := status, logs := logs)];
          break;
        }
        i := i + 1;
      }
      assert history == SetStatus(old(history), run, status, logs);
      records := SetStatus(records, run, status, logs);
      jobs := jobs - {run};
    }

    /** The apply part of resource tracking, the same code in both handlers. */
    method TrackAppliedResource(job: Job, ok: bool, run: Id)
      modifies this
      ensures State() == old(State()).(rows := TrackApply(old(rows), job, ok, run, old(nextId)),
                                       nextId := old(nextId) + 1)
    {
      var existing := FindLive(rows, JobKey(job));
      var newId := nextId;
      nextId := nextId + 1;
      if ok {
        if existing.Some? {
          rows := Refresh(rows, rows[existing.value].id, job.req.inputs, run);
        } else {
          rows := rows + [NewRow(newId, job, Active, run)];
        }
      } else if existing.None? {
        rows := rows + [NewRow(newId, job, Failed, run)];
      }
    }

    /** The end of `runTerragrunt`; `order` is how the database lists the live rows. */
    method FinishHttp(run: Id, ok: bool, logs: string, now: string, order: seq<nat>)
      requires run in jobs && !jobs[run].ws
      requires forall i, j :: 0 <= i < j < |history| ==> history[i].id != history[j].id
      requires forall i: nat :: i in order ==> i < |rows|
      modifies this
      ensures State() == FinishStep(old(State()), run, ok, logs, now, order)
    {
      var job := jobs[run];
      FinishRecord(run, if ok then Succeeded else Errored, logs);
      if job.action == Apply {
        TrackAppliedResource(job, ok, run);
      } else {
        nextId := nextId + 1;
        if ok && job.action == Destroy {
          if job.req.resourceId.Some? {
            rows := SetLife(rows, job.req.resourceId.value, Destroyed);
          } else {
            var existing := FindLive(rows, JobKey(job));
            if existing.Some? {
              rows := SetLife(rows, rows[existing.value].id, Destroyed);
            } else {
              DestroyByScan(job, now, order);
            }
          }
        }
      }
    }

    method DestroyByScan(job: Job, now: string, order: seq<nat>)
      requires forall i: nat :: i in order ==> i < |rows|
      modifies this
      ensures State() == old(State()).(rows :=
                match Scan(old(rows), order, job, now)
                case Some(i) => SetLife(old(rows), old(rows)[i].id, Destroyed)
                case None => old(rows))
    {
      for k := 0 to |order|
        invariant State() == old(State())
        invariant Scan(rows, order, job, now) == Scan(rows, order[k..], job, now)
      {
        assert order[k] in order;
        var r := rows[order[k]];
        if r.schema == job.req.schema && r.env == job.req.env && Live(r) {
          var formName := GetResourceName(job.req.schema, job.req.inputs, now);
          var storedName := GetResourceName(r.schema, r.inputs, now);
          if formName == storedName || r.name == formName {
            rows := SetLife(rows, r.id, Destroyed);
            return;
          }
        }
      }
    }

    /** The end of `wsRunHandler`. */
    method FinishWs(run: Id, ok: bool, logs: string, ghost now: string, ghost order: seq<nat>)
      requires run in jobs && jobs[run].ws
      requires forall i, j :: 0 <= i < j < |history| ==> history[i].id != history[j].id
      modifies this
      ensures State() == FinishStep(old(State()), run, ok, logs, now, order)
    {
      var job := jobs[run];
      FinishRecord(run, if ok then Succeeded else Errored, logs);
      if job.action == Apply {
        TrackAppliedResource(job, ok, run);
      } else {
        nextId := nextId + 1;
        if ok && job.action == Destroy {
          var existing := FindLive(rows, JobKey(job));
          if existing.Some? {
            rows := SetLife(rows, rows[existing.value].id, Destroyed);
          }
        }
      }
    }

    /** `cleanupStaleRecords` in a fresh process. */
    method Restart(clock: Id -> string)
      modifies this
      ensures State() == RestartStep(old(State()), clock)
    {
      history, jobs, launching := [], map[], [];
      var affected := SomeRunning(records);
      records := InterruptAll(records);
      session := |records|;
      if affected {
        RecoverResources(clock);
      }
    }

    method RecoverResources(clock: Id -> string)
      modifies this`rows, this`nextId
      ensures (rows, nextId) == Recover(old(rows), records, clock, old(nextId))
    {
      ghost var recovered := Recover(rows, records, clock, nextId);
      for i := 0 to |records|
        invariant recovered == Recover(rows, records[i..], clock, nextId)
      {
        var r := records[i];
        assert records[i..][0] == r && records[i..][1..] == records[i + 1..];
        if r.status == Interrupted && r.action == Apply {
          var name := GetResourceName(r.schema, r.inputs, clock(r.id));
          var existing := FindLive(rows, StateKey(r.schema, name, r.env));
          if existing.None? {
            rows := rows + [NewRow(nextId, RecoveredJob(r, clock(r.id)), Unknown, r.id)];
            nextId := nextId + 1;
          }
        }
      }
    }

    method SetApprovalRequired(on: bool)
      modifies this
      ensures State() == old(State()).(gate := on)
    {
      gate := on;
    }
  }
}
