/** Executions, resources and approvals as a state machine: what backend/handler_plan.go,
    handler_ws.go, handler_approvals.go and database.go do to the tables and to the memory of the
    server process. Every handler's table update is one atomic step, ids are fresh numbers. */
module Lifecycle {
  import opened Wrappers
  import opened Values
  import opened ResourceNames

  type Id = nat

  datatype Action = Plan | Apply | Destroy

  datatype Request = Request(schema: string, env: string, region: string, inputs: Inputs, resourceId: Option<Id>)

  datatype RunStatus = Running | Succeeded | Errored | Interrupted

  /** A row of the executions table, and an entry of the in-memory history. */
  datatype Record = Record(id: Id, action: Action, schema: string, env: string, region: string,
                           inputs: Inputs, status: RunStatus, logs: string)

  datatype Life = Active | Unknown | Failed | Destroyed

  /** A row of the resources table. */
  datatype Row = Row(id: Id, name: string, schema: string, env: string, region: string,
                     inputs: Inputs, key: string, life: Life, lastApply: Id)

  datatype Review = Pending | Approved | Rejected

  /** A row of the approvals table. */
  datatype Approval = Approval(id: Id, action: Action, schema: string, env: string, region: string,
                               inputs: Inputs, status: Review)

  /** A run in progress: what its handler holds in memory, the name computed at its start included. */
  datatype Job = Job(action: Action, req: Request, name: string, ws: bool)

  /** Bookkeeping of the proof: where a run came from, and what was submitted. */
  datatype Origin = Direct(submission: nat) | FromApproval(approval: Id)
  datatype Submission = Submission(action: Action, req: Request, gated: bool)

  datatype State = State(
    records: seq<Record>,          // executions table, oldest first
    rows: seq<Row>,                // resources table, oldest first
    approvals: seq<Approval>,      // approvals table, oldest first
    gate: bool,                    // whether apply and destroy need approval
    history: seq<Record>,          // this session's runs in memory, newest first
    session: nat,                  // records that were there when this session began
    jobs: map<Id, Job>,            // runs in progress, by record id
    launching: seq<Id>,            // approved, background run not begun yet
    nextId: Id,
    submissions: seq<Submission>,
    origins: map<Id, Origin>)      // of the apply and destroy runs

  function Init(gate: bool): State {
    State([], [], [], gate, [], 0, map[], [], 0, [], map[])
  }

  datatype Event =
    | Submit(action: Action, req: Request, ws: bool, now: string)
    | Decide(approval: Id, approve: bool)
    | Launch(approval: Id, now: string)
    | Finish(run: Id, ok: bool, logs: string, now: string, order: seq<nat>)
    | StartFails(run: Id, logs: string)
    | SetGate(on: bool)
    | Restart(clock: Id -> string)

  // ----- tables

  predicate Live(r: Row) {
    r.life != Destroyed
  }

  /** The first live row under a key. */
  function FindLive(rows: seq<Row>, key: string): (r: Option<nat>)
    ensures r.Some? ==> r.value < |rows| && Live(rows[r.value]) && rows[r.value].key == key
    ensures r.None? ==> forall i :: 0 <= i < |rows| && Live(rows[i]) ==> rows[i].key != key
  {
    if rows == [] then None
    else if Live(rows[0]) && rows[0].key == key then Some(0)
    else
      match FindLive(rows[1..], key)
      case None => None
      case Some(i) => Some(i + 1)
  }

  /** UPDATE resources SET status WHERE id. */
  function SetLife(rows: seq<Row>, id: Id, life: Life): seq<Row> {
    seq(|rows|, i requires 0 <= i < |rows| =>
      if rows[i].id == id then rows[i].(life := life) else rows[i])
  }

  /** UPDATE resources SET inputs, status 'active', last apply WHERE id. */
  function Refresh(rows: seq<Row>, id: Id, inputs: Inputs, run: Id): seq<Row> {
    seq(|rows|, i requires 0 <= i < |rows| =>
      if rows[i].id == id then rows[i].(inputs := inputs, life := Active, lastApply := run) else rows[i])
  }

  /** UPDATE executions SET status, logs WHERE id. */
  function SetStatus(records: seq<Record>, id: Id, status: RunStatus, logs: string): seq<Record> {
    seq(|records|, i requires 0 <= i < |records| =>
      if records[i].id == id then records[i].(status := status, logs := logs) else records[i])
  }

  const RESTART_NOTE := "\\n--- Server restarted before operation completed ---"

  /** UPDATE executions SET status 'interrupted' WHERE status 'running'. */
  function InterruptAll(records: seq<Record>): seq<Record> {
    seq(|records|, i requires 0 <= i < |records| =>
      if records[i].status == Running
      then records[i].(status := Interrupted, logs := records[i].logs + RESTART_NOTE) else records[i])
  }

  /** UPDATE approvals SET status WHERE id. */
  function SetReview(approvals: seq<Approval>, id: Id, status: Review): seq<Approval> {
    seq(|approvals|, i requires 0 <= i < |approvals| =>
      if approvals[i].id == id then approvals[i].(status := status) else approvals[i])
  }

  function FindApproval(approvals: seq<Approval>, id: Id): (r: Option<nat>)
    ensures r.Some? ==> r.value < |approvals| && approvals[r.value].id == id
    ensures r.None? ==> forall i :: 0 <= i < |approvals| ==> approvals[i].id != id
  {
    if approvals == [] then None
    else if approvals[0].id == id then Some(0)
    else
      match FindApproval(approvals[1..], id)
      case None => None
      case Some(i) => Some(i + 1)
  }

  // ----- resource tracking

  function JobKey(job: Job): string {
    StateKey(job.req.schema, job.name, job.req.env)
  }

  function NewRow(id: Id, job: Job, life: Life, run: Id): Row {
    Row(id, job.name, job.req.schema, job.req.env, job.req.region, job.req.inputs, JobKey(job), life, run)
  }

  /** After an apply: a success refreshes the live row under the key or adds an active one; a failure
      adds a failed one only if there is none. */
  function TrackApply(rows: seq<Row>, job: Job, ok: bool, run: Id, newId: Id): seq<Row> {
    match FindLive(rows, JobKey(job))
    case Some(i) => if ok then Refresh(rows, rows[i].id, job.req.inputs, run) else rows
    case None => rows + [NewRow(newId, job, if ok then Active else Failed, run)]
  }

  /** Whether the fallback scan of the HTTP handler takes a row for the one to be destroyed. */
  predicate ScanMatches(r: Row, job: Job, now: string) {
    && r.schema == job.req.schema && r.env == job.req.env && Live(r)
    && var wanted := ResourceName(job.req.schema, job.req.inputs, now);
       wanted == ResourceName(r.schema, r.inputs, now) || r.name == wanted
  }

  /** The first match in the order in which the database lists the live rows. */
  function Scan(rows: seq<Row>, order: seq<nat>, job: Job, now: string): (r: Option<nat>)
    ensures r.Some? ==> r.value in order && r.value < |rows| && ScanMatches(rows[r.value], job, now)
    ensures r.None? ==> forall i :: i in order && i < |rows| ==> !ScanMatches(rows[i], job, now)
  {
    if order == [] then None
    else if order[0] < |rows| && ScanMatches(rows[order[0]], job, now) then Some(order[0])
    else Scan(rows, order[1..], job, now)
  }

  /** After a successful destroy over HTTP: by resource id if the request has one, else by key, else
      by the scan. */
  function DestroyHttp(rows: seq<Row>, job: Job, now: string, order: seq<nat>): seq<Row> {
    if job.req.resourceId.Some? then SetLife(rows, job.req.resourceId.value, Destroyed)
    else
      match FindLive(rows, JobKey(job))
      case Some(i) => SetLife(rows, rows[i].id, Destroyed)
      case None =>
        match Scan(rows, order, job, now)
        case Some(i) => SetLife(rows, rows[i].id, Destroyed)
        case None => rows
  }

  /** After a successful destroy over WebSocket: by key only. */
  function DestroyWs(rows: seq<Row>, job: Job): seq<Row> {
    match FindLive(rows, JobKey(job))
    case Some(i) => SetLife(rows, rows[i].id, Destroyed)
    case None => rows
  }

  function Track(rows: seq<Row>, job: Job, ok: bool, run: Id, newId: Id, now: string, order: seq<nat>): seq<Row> {
    match job.action
    case Plan => rows
    case Apply => TrackApply(rows, job, ok, run, newId)
    case Destroy =>
      if !ok then rows
      else if job.ws then DestroyWs(rows, job)
      else DestroyHttp(rows, job, now, order)
  }

  // ----- steps

  function StartRun(s: State, action: Action, req: Request, ws: bool, now: string, origin: Origin): State {
    var id := s.nextId;
    var record := Record(id, action, req.schema, req.env, req.region, req.inputs, Running, "");
    s.(records := s.records + [record],
       history := [record] + s.history,
       jobs := s.jobs[id := Job(action, req, ResourceName(req.schema, req.inputs, now), ws)],
       nextId := id + 1,
       origins := if action == Plan then s.origins else s.origins[id := origin])
  }

  function SubmitStep(s: State, action: Action, req: Request, ws: bool, now: string): State {
    var logged := s.(submissions := s.submissions + [Submission(action, req, s.gate)]);
    if action != Plan && s.gate then
      var asked := Approval(s.nextId, action, req.schema, req.env, req.region, req.inputs, Pending);
      logged.(approvals := s.approvals + [asked],
              nextId := s.nextId + 1)
    else StartRun(logged, action, req, ws, now, Direct(|s.submissions|))
  }

  /** Only a pending approval can be decided; approving it begins a run in the background. */
  function DecideStep(s: State, id: Id, approve: bool): State {
    match FindApproval(s.approvals, id)
    case None => s
    case Some(i) =>
      if s.approvals[i].status != Pending then s
      else
        s.(approvals := SetReview(s.approvals, id, if approve then Approved else Rejected),
           launching := if approve then s.launching + [id] else s.launching)
  }

  function Remove(ids: seq<Id>, id: Id): seq<Id> {
    if ids == [] then [] else (if ids[0] == id then [] else [ids[0]]) + Remove(ids[1..], id)
  }

  function ApprovedRequest(a: Approval): Request {
    Request(a.schema, a.env, a.region, a.inputs, None)
  }

  function LaunchStep(s: State, id: Id, now: string): State {
    match FindApproval(s.approvals, id)
    case None => s
    case Some(i) =>
      var a := s.approvals[i];
      StartRun(s.(launching := Remove(s.launching, id)), a.action, ApprovedRequest(a), false, now, FromApproval(id))
  }

  function EndRun(s: State, run: Id, status: RunStatus, logs: string): State {
    s.(records := SetStatus(s.records, run, status, logs),
       history := SetStatus(s.history, run, status, logs),
       jobs := s.jobs - {run})
  }

  function FinishStep(s: State, run: Id, ok: bool, logs: string, now: string, order: seq<nat>): State
    requires run in s.jobs
  {
    EndRun(s, run, if ok then Succeeded else Errored, logs)
    .(rows := Track(s.rows, s.jobs[run], ok, run, s.nextId, now, order),
      nextId := s.nextId + 1)
  }

  predicate SomeRunning(records: seq<Record>) {
    exists i :: 0 <= i < |records| && records[i].status == Running
  }

  function RecoveredJob(r: Record, now: string): Job {
    Job(Apply, Request(r.schema, r.env, r.region, r.inputs, None), ResourceName(r.schema, r.inputs, now), false)
  }

  /** Recovery looks at every interrupted apply in the table, not only at the ones just interrupted,
      and adds an unknown row where no live row has the key. */
  function Recover(rows: seq<Row>, records: seq<Record>, clock: Id -> string, nextId: Id): (seq<Row>, Id)
    decreases |records|
  {
    if records == [] then (rows, nextId)
    else
      var r := records[0];
      var job := RecoveredJob(r, clock(r.id));
      if r.status == Interrupted && r.action == Apply && FindLive(rows, JobKey(job)).None? then
        Recover(rows + [NewRow(nextId, job, Unknown, r.id)], records[1..], clock, nextId + 1)
      else Recover(rows, records[1..], clock, nextId)
  }

  /** A crash loses the memory; the new process cleans up before it serves. */
  function RestartStep(s: State, clock: Id -> string): State {
    var records := InterruptAll(s.records);
    var (rows, nextId) :=
      if SomeRunning(s.records) then Recover(s.rows, records, clock, s.nextId) else (s.rows, s.nextId);
    s.(records := records, rows := rows, nextId := nextId,
       history := [], session := |records|, jobs := map[], launching := [])
  }

  /** What can happen: only runs in progress end, only WebSocket runs fail to start, only approved runs
      are launched. The scan order lists the live rows; requests name schemas and environments
      without slashes, and only HTTP requests carry a resource id. */
  ghost predicate Enabled(s: State, e: Event) {
    match e
    case Submit(action, req, ws, now) =>
      NoSlash(req.schema) && NoSlash(req.env) && (ws ==> req.resourceId.None?)
    case Decide(approval, approve) => true
    case Launch(approval, now) => approval in s.launching
    case Finish(run, ok, logs, now, order) =>
      run in s.jobs && forall i: nat :: i in order <==> i < |s.rows| && Live(s.rows[i])
    case StartFails(run, logs) => run in s.jobs && s.jobs[run].ws
    case SetGate(on) => true
    case Restart(clock) => true
  }

  ghost function Step(s: State, e: Event): State
    requires Enabled(s, e)
  {
    match e
    case Submit(action, req, ws, now) => SubmitStep(s, action, req, ws, now)
    case Decide(approval, approve) => DecideStep(s, approval, approve)
    case Launch(approval, now) => LaunchStep(s, approval, now)
    case Finish(run, ok, logs, now, order) => FinishStep(s, run, ok, logs, now, order)
    case StartFails(run, logs) => EndRun(s, run, Errored, logs)
    case SetGate(on) => s.(gate := on)
    case Restart(clock) => RestartStep(s, clock)
  }

  /** A run of the whole system: every event is enabled where it happens. */
  ghost predicate ValidRun(gate: bool, es: seq<Event>)
    decreases |es|, 0
  {
    es == [] || (ValidRun(gate, es[..|es| - 1]) && Enabled(After(gate, es[..|es| - 1]), es[|es| - 1]))
  }

  /** The state after a run from the empty database. */
  ghost function After(gate: bool, es: seq<Event>): State
    requires ValidRun(gate, es)
    decreases |es|, 1
  {
    if es == [] then Init(gate) else Step(After(gate, es[..|es| - 1]), es[|es| - 1])
  }
}
