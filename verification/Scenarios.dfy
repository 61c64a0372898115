/** Runs of the system, from the empty database, in which the limits of its promises show. */
module Scenarios {
  import opened Wrappers
  import opened Values
  import opened ResourceNames
  import opened Lifecycle
  import opened RunLaws
  import opened ResourceLaws

  lemma Continue(gate: bool, es: seq<Event>, e: Event)
    requires ValidRun(gate, es) && Enabled(After(gate, es), e)
    ensures ValidRun(gate, es + [e]) && After(gate, es + [e]) == Step(After(gate, es), e)
  {
    assert (es + [e])[..|es + [e]| - 1] == es;
  }

  predicate NamedRequest(req: Request) {
    NoSlash(req.schema) && NoSlash(req.env) && req.resourceId.None? && CarriedName(req.inputs).Some?
  }

  function NamedKey(req: Request): string
    requires NamedRequest(req)
  {
    StateKey(req.schema, CarriedName(req.inputs).value, req.env)
  }

  /** Submitting a request with the gate off. */
  lemma Begin(es: seq<Event>, action: Action, req: Request, now: string)
    requires ValidRun(false, es) && !After(false, es).gate && NoSlash(req.schema) && NoSlash(req.env)
    ensures var more := es + [Submit(action, req, false, now)];
            var s := After(false, es);
            && ValidRun(false, more)
            && var t := After(false, more);
            && !t.gate && t.rows == s.rows && s.nextId in t.jobs
            && t.jobs[s.nextId] == Job(action, req, ResourceName(req.schema, req.inputs, now), false)
            && t.records == s.records
                            + [Record(s.nextId, action, req.schema, req.env, req.region, req.inputs, Running, "")]
            && t.nextId == s.nextId + 1
  {
    Continue(false, es, Submit(action, req, false, now));
  }

  // ----- a destroyed key that comes back

  /** One row, of the request's key; one finished or interrupted record before all others. */
  ghost predicate OneRow(s: State, req: Request, life: Life)
    requires NamedRequest(req)
  {
    && !s.gate && |s.rows| == 1 && s.rows[0].key == NamedKey(req) && s.rows[0].life == life
    && |s.records| >= 1 && s.records[0].id < s.nextId
    && s.records[0].action == Apply && s.records[0].status == Interrupted
    && s.records[0].schema == req.schema && s.records[0].env == req.env && s.records[0].inputs == req.inputs
  }

  lemma CrashDuringApply(req: Request, clock: Id -> string) returns (es: seq<Event>)
    requires NamedRequest(req)
    ensures ValidRun(false, es) && OneRow(After(false, es), req, Unknown)
  {
    var submit := Submit(Apply, req, false, "");
    Begin([], Apply, req, "");
    assert [] + [submit] == [submit];
    es := [submit] + [Restart(clock)];
    Continue(false, [submit], Restart(clock));
    RestartInterruptsOne(After(false, [submit]), clock);
  }

  lemma RestartInterruptsOne(s: State, clock: Id -> string)
    requires s.rows == [] && |s.records| == 1 && s.records[0].status == Running && s.records[0].action == Apply
    ensures var t := RestartStep(s, clock);
            && t.gate == s.gate && |t.records| == 1 && t.nextId == s.nextId + 1
            && t.records[0] == s.records[0].(status := Interrupted, logs := t.records[0].logs)
            && var r := t.records[0];
               t.rows == [NewRow(s.nextId, RecoveredJob(r, clock(r.id)), Unknown, r.id)]
  {
    var records := InterruptAll(s.records);
    assert records == [records[0]];
    RecoverOne(records[0], clock, s.nextId);
  }

  lemma RecoverOne(r: Record, clock: Id -> string, nextId: Id)
    requires r.status == Interrupted && r.action == Apply
    ensures Recover([], [r], clock, nextId)
         == ([NewRow(nextId, RecoveredJob(r, clock(r.id)), Unknown, r.id)], nextId + 1)
  {
    var row := NewRow(nextId, RecoveredJob(r, clock(r.id)), Unknown, r.id);
    assert [r][1..] == [] && [] + [row] == [row];
  }

  lemma DestroyTheRow(es0: seq<Event>, req: Request) returns (es: seq<Event>)
    requires NamedRequest(req) && ValidRun(false, es0) && OneRow(After(false, es0), req, Unknown)
    ensures ValidRun(false, es) && OneRow(After(false, es), req, Destroyed)
  {
    var s := After(false, es0);
    Begin(es0, Destroy, req, "");
    var es1 := es0 + [Submit(Destroy, req, false, "")];
    var t := After(false, es1);
    var finish := Finish(s.nextId, true, "", "", [0]);
    assert JobKey(t.jobs[s.nextId]) == NamedKey(req);
    es := es1 + [finish];
    Continue(false, es1, finish);
    assert FindLive(t.rows, NamedKey(req)) == Some(0);
  }

  /** For every named request there is a run, apply, crash, destroy, any further run, crash, after
      which the key has a destroyed row and a live one beside it. */
  lemma {:induction false} DestroyedKeyReturns(req: Request, clock: Id -> string) returns (es: seq<Event>, i: nat)
    requires NamedRequest(req)
    ensures ValidRun(false, es)
    ensures var rows := After(false, es).rows;
            && i < |rows| && rows[0].key == rows[i].key == NamedKey(req)
            && rows[0].life == Destroyed && Live(rows[i])
  {
    var es1 := CrashDuringApply(req, clock);
    var es2 := DestroyTheRow(es1, req);
    var s := After(false, es2);
    Begin(es2, Plan, req, "");
    var es3 := es2 + [Submit(Plan, req, false, "")];
    var t := After(false, es3);
    assert t.records[|s.records|].status == Running && t.records[0] == s.records[0];
    es, i := CrashRevivesKey(es3, req, clock);
  }

  lemma CrashRevivesKey(es0: seq<Event>, req: Request, clock: Id -> string) returns (es: seq<Event>, i: nat)
    requires NamedRequest(req) && ValidRun(false, es0) && OneRow(After(false, es0), req, Destroyed)
    requires SomeRunning(After(false, es0).records)
    ensures ValidRun(false, es)
    ensures var rows := After(false, es).rows;
            && i < |rows| && rows[0].key == rows[i].key == NamedKey(req)
            && rows[0].life == Destroyed && Live(rows[i])
  {
    var s := After(false, es0);
    es := es0 + [Restart(clock)];
    Continue(false, es0, Restart(clock));
    assert JobKey(RecoveredJob(s.records[0], clock(s.records[0].id))) == NamedKey(req);
    RestartRevivesKeyExactly(false, es0, clock, NamedKey(req));
    RecoverKeepsRow(s.rows, InterruptAll(s.records), clock, s.nextId, 0);
    i := FindLive(After(false, es).rows, NamedKey(req)).value;
  }

  // ----- a destroy by id that leaves its key alive

  /** After a successful apply with the gate off, from the empty database. */
  lemma AppliedOnce(req: Request, now: string) returns (es: seq<Event>)
    requires NoSlash(req.schema) && NoSlash(req.env)
    ensures ValidRun(false, es) && !After(false, es).gate
    ensures After(false, es).rows
         == [NewRow(1, Job(Apply, req, ResourceName(req.schema, req.inputs, now), false), Active, 0)]
  {
    var submit := Submit(Apply, req, false, now);
    Begin([], Apply, req, now);
    assert [] + [submit] == [submit];
    var finish := Finish(0, true, "", now, []);
    es := [submit] + [finish];
    Continue(false, [submit], finish);
    assert [] + [NewRow(1, After(false, [submit]).jobs[0], Active, 0)] == After(false, es).rows;
  }

  /** After a successful apply of one request, in the midst of a destroy of another. */
  lemma DestroyInProgress(first: Request, before: string, second: Request, now: string)
    returns (es: seq<Event>, run: Id)
    requires NoSlash(first.schema) && NoSlash(first.env) && NoSlash(second.schema) && NoSlash(second.env)
    ensures ValidRun(false, es) && Enabled(After(false, es), Finish(run, true, "", now, [0]))
    ensures After(false, es).jobs[run]
         == Job(Destroy, second, ResourceName(second.schema, second.inputs, now), false)
    ensures After(false, es).rows
         == [NewRow(1, Job(Apply, first, ResourceName(first.schema, first.inputs, before), false), Active, 0)]
  {
    var es1 := AppliedOnce(first, before);
    run := After(false, es1).nextId;
    Begin(es1, Destroy, second, now);
    es := es1 + [Submit(Destroy, second, false, now)];
  }

  /** For every named request and every id but its row's there is a run that ends with a successful
      destroy of that request by that id, after which the row of its key is still live. */
  lemma {:induction false} DestroyByIdMissesKey(req: Request, id: Id) returns (es: seq<Event>, run: Id)
    requires NamedRequest(req) && id != 1
    ensures ValidRun(false, es) && Enabled(After(false, es), Finish(run, true, "", "", [0]))
    ensures After(false, es).jobs[run].action == Destroy && After(false, es).jobs[run].req.resourceId == Some(id)
    ensures JobKey(After(false, es).jobs[run]) == NamedKey(req)
    ensures FindLive(Step(After(false, es), Finish(run, true, "", "", [0])).rows, NamedKey(req)).Some?
  {
    es, run := DestroyInProgress(req, "", req.(resourceId := Some(id)), "");
    assert FindLive(After(false, es).rows, NamedKey(req)) == Some(0);
    DestroyClearsKeyExactly(false, es, run, "", "", [0]);
  }

  // ----- a row that only one of the handlers marks

  lemma NoneCarried(fields: seq<string>)
    ensures FirstName(map[], fields).None?
  {
  }

  lemma MadeUpNamesDiffer(schema: string, before: string, now: string)
    requires before != now
    ensures schema + "-" + before != schema + "-" + now
  {
    assert (schema + "-" + before)[|schema| + 1..] == before && (schema + "-" + now)[|schema| + 1..] == now;
  }

  lemma MadeUpKeysDiffer(schema: string, env: string, before: string, now: string)
    requires NoSlash(schema) && NoSlash(env) && before != now
    ensures StateKey(schema, schema + "-" + before, env) != StateKey(schema, schema + "-" + now, env)
  {
    MadeUpNamesDiffer(schema, before, now);
    if StateKey(schema, schema + "-" + before, env) == StateKey(schema, schema + "-" + now, env) {
      StateKeyInjective(schema, schema + "-" + before, env, schema, schema + "-" + now, env);
    }
  }

  /** The one row is unnamed and got its name at another time than the request's name speaks of. */
  lemma HandlersDisagree(r: Row, job: Job, now: string)
    requires Live(r) && r.schema == job.req.schema && r.env == job.req.env && CarriedName(r.inputs).None?
    requires job.req.resourceId.None? && CarriedName(job.req.inputs) == Some(r.schema + "-" + now)
    requires r.key != JobKey(job)
    ensures DestroyHttp([r], job, now, [0]) == [r.(life := Destroyed)] && DestroyWs([r], job) == [r]
  {
    assert FindLive([r], JobKey(job)).None?;
    assert ScanMatches(r, job, now);
    assert Scan([r], [0], job, now) == Some(0);
    assert SetLife([r], r.id, Destroyed) == [r.(life := Destroyed)];
  }

  /** For any two different times there is a run to a destroy of a request named as the other time
      would name an unnamed one, which over HTTP marks an unnamed row and over WebSocket none. */
  lemma HandlersCanDisagree(schema: string, env: string, before: string, now: string)
    returns (es: seq<Event>, run: Id)
    requires NoSlash(schema) && NoSlash(env) && before != now
    ensures ValidRun(false, es) && Enabled(After(false, es), Finish(run, true, "", now, [0]))
    ensures var s := After(false, es);
            var job := s.jobs[run];
            && job.action == Destroy && job.req.resourceId.None? && CarriedName(job.req.inputs).Some?
            && |s.rows| == 1 && Live(s.rows[0])
            && DestroyHttp(s.rows, job, now, [0]) == [s.rows[0].(life := Destroyed)]
            && DestroyWs(s.rows, job) == s.rows
  {
    var name := schema + "-" + now;
    var unnamed := Request(schema, env, "", map[], None);
    var named := Request(schema, env, "", map["name" := Str(name)], None);
    NoneCarried(NAME_FIELDS);
    NameFirst(named.inputs, name);
    es, run := DestroyInProgress(unnamed, before, named, now);
    MadeUpKeysDiffer(schema, env, before, now);
    HandlersDisagree(After(false, es).rows[0], After(false, es).jobs[run], now);
  }

  lemma NameFirst(inputs: Inputs, name: string)
    requires "name" in inputs && inputs["name"] == Str(name) && name != ""
    ensures CarriedName(inputs) == Some(name)
  {
    assert NAME_FIELDS[0] == "name";
  }
}
