/** The executions table told from the events of a run alone: which record an event begins, with which
    status and logs a record ends, and that nothing else touches it. */
module RecordEvents {
  import opened Wrappers
  import opened Values
  import opened ResourceNames
  import opened Lifecycle
  import opened RunLaws

  // ----- prefixes of a run

  lemma {:induction false} ValidPrefix(gate: bool, es: seq<Event>, k: nat)
    requires ValidRun(gate, es) && k <= |es|
    ensures ValidRun(gate, es[..k])
    decreases |es|
  {
    if k == |es| {
      assert es[..k] == es;
    } else {
      var n := |es| - 1;
      ValidPrefix(gate, es[..n], k);
      assert es[..n][..k] == es[..k];
    }
  }

  lemma NextIdGrows(s: State, e: Event)
    requires Enabled(s, e)
    ensures s.nextId <= Step(s, e).nextId
  {
    if e.Restart? {
      RecoverGrowsId(s.rows, InterruptAll(s.records), e.clock, s.nextId);
    }
  }

  /** The event speaks of a run that has begun. */
  ghost predicate Mentions(s: State, e: Event, run: Id) {
    || (e.Finish? && e.run == run)
    || (e.StartFails? && e.run == run)
    || (e.Restart? && Has(s.records, run))
  }

  lemma {:induction false} MentionedIsOld(gate: bool, es: seq<Event>, k: nat, run: Id)
    requires ValidRun(gate, es) && k < |es| && ValidRun(gate, es[..k]) && Mentions(After(gate, es[..k]), es[k], run)
    ensures run < After(gate, es).nextId
    decreases |es|
  {
    var n := |es| - 1;
    var s := After(gate, es[..n]);
    NextIdGrows(s, es[n]);
    if k == n {
      RecordsOkAlways(gate, es[..n]);
      if es[n].Finish? || es[n].StartFails? {
        assert Has(s.records, run);
      }
      var i :| 0 <= i < |s.records| && s.records[i].id == run;
    } else {
      assert es[..n][..k] == es[..k] && es[..n][k] == es[k];
      MentionedIsOld(gate, es[..n], k, run);
    }
  }

  // ----- one event

  /** The record an event begins, if it begins one. */
  ghost predicate Begins(s: State, e: Event, r: Record) {
    && r.id == s.nextId && r.status == Running && r.logs == ""
    && match e
       case Submit(action, req, _, _) =>
         && (action == Plan || !s.gate)
         && r.action == action && r.schema == req.schema && r.env == req.env
         && r.region == req.region && r.inputs == req.inputs
       case Launch(approval, _) =>
         exists i :: 0 <= i < |s.approvals| && s.approvals[i].id == approval
           && r.action == s.approvals[i].action && r.schema == s.approvals[i].schema && r.env == s.approvals[i].env
           && r.region == s.approvals[i].region && r.inputs == s.approvals[i].inputs
       case _ => false
  }

  /** What an event makes of a record that is there. */
  function Updated(r: Record, e: Event): Record {
    match e
    case Finish(run, ok, logs, _, _) =>
      if r.id == run then r.(status := if ok then Succeeded else Errored, logs := logs) else r
    case StartFails(run, logs) => if r.id == run then r.(status := Errored, logs := logs) else r
    case Restart(_) =>
      if r.status == Running
      then r.(status := Interrupted, logs := r.logs + "\\n--- Server restarted before operation completed ---")
      else r
    case _ => r
  }

  lemma RecordsAfter(s: State, e: Event)
    requires Enabled(s, e)
    ensures var t := Step(s, e);
            && |s.records| <= |t.records| <= |s.records| + 1
            && (forall i :: 0 <= i < |s.records| ==> t.records[i] == Updated(s.records[i], e))
            && (|t.records| > |s.records| ==> Begins(s, e, t.records[|s.records|]))
  {
  }

  /** A new record appears whenever something is asked that may begin. */
  lemma RecordsGrow(s: State, e: Event)
    requires Enabled(s, e)
    ensures |Step(s, e).records| > |s.records|
       <==> || (e.Submit? && (e.action == Plan || !s.gate))
            || (e.Launch? && exists i :: 0 <= i < |s.approvals| && s.approvals[i].id == e.approval)
  {
  }

  /** The new run's handler holds the request, and the name made from it when it began. */
  lemma JobAfter(s: State, e: Event)
    requires Enabled(s, e) && |Step(s, e).records| > |s.records|
    ensures var t := Step(s, e);
            && s.nextId in t.jobs
            && var job := t.jobs[s.nextId];
            && (e.Submit? ==>
                  job == Job(e.action, e.req, ResourceName(e.req.schema, e.req.inputs, e.now), e.ws))
            && (e.Launch? ==>
                  exists i :: 0 <= i < |s.approvals| && s.approvals[i].id == e.approval
                    && var a := s.approvals[i];
                       job == Job(a.action, Request(a.schema, a.env, a.region, a.inputs, None),
                                  ResourceName(a.schema, a.inputs, e.now), false))
  {
    if e.Launch? {
      var k := FindApproval(s.approvals, e.approval).value;
      assert s.approvals[k].id == e.approval;
    }
  }

  /** The run's record and its history entry are successes if it went well and errors if not, with its
      logs; no other record has changed. */
  ghost predicate RecordedAs(s: State, t: State, run: Id, ok: bool, logs: string) {
    && (exists i :: 0 <= i < |t.records| && t.records[i].id == run && EndedAs(t.records[i], ok, logs))
    && (exists k :: 0 <= k < |t.history| && t.history[k].id == run && EndedAs(t.history[k], ok, logs))
    && |t.records| == |s.records|
    && forall i :: 0 <= i < |s.records| && s.records[i].id != run ==> t.records[i] == s.records[i]
  }

  /** The end of a run is recorded as it was, in every reachable state. */
  lemma FinishIsRecorded(gate: bool, es: seq<Event>, run: Id, ok: bool, logs: string, now: string, order: seq<nat>)
    requires ValidRun(gate, es) && Enabled(After(gate, es), Finish(run, ok, logs, now, order))
    ensures RecordedAs(After(gate, es), Step(After(gate, es), Finish(run, ok, logs, now, order)), run, ok, logs)
  {
    RecordsOkAlways(gate, es);
    FinishInTable(After(gate, es), Finish(run, ok, logs, now, order));
  }

  lemma FinishInTable(s: State, e: Event)
    requires RecordsOk(s) && ApprovalsSlashFree(s) && Enabled(s, e) && e.Finish?
    ensures RecordedAs(s, Step(s, e), e.run, e.ok, e.logs)
  {
    var t := Step(s, e);
    RecordsAfter(s, e);
    StepKeepsRecords(s, e);
    var i :| 0 <= i < |s.records| && s.records[i].id == e.run;
    assert s.records[i].status == Running;
    assert t.records[i] == Updated(s.records[i], e);
    EndedInHistory(s, t, i);
  }

  lemma EndedInHistory(s: State, t: State, i: nat)
    requires HistoryIsSession(s.records, s.history, s.session) && HistoryIsSession(t.records, t.history, t.session)
    requires t.session == s.session && i < |s.records| <= |t.records| && s.records[i].status == Running
    ensures exists k :: 0 <= k < |t.history| && t.history[k] == t.records[i]
  {
    assert t.history[|t.records| - 1 - i] == t.records[i];
  }

  predicate EndedAs(r: Record, ok: bool, logs: string) {
    (r.status == Succeeded <==> ok) && (r.status == Errored <==> !ok) && r.logs == logs
  }

  // ----- whole runs

  ghost predicate Finished(es: seq<Event>, run: Id, ok: bool, logs: string) {
    exists k :: 0 <= k < |es| && es[k].Finish? && es[k].run == run && es[k].ok == ok && es[k].logs == logs
  }

  ghost predicate FailedToStart(es: seq<Event>, run: Id, logs: string) {
    exists k :: 0 <= k < |es| && es[k] == StartFails(run, logs)
  }

  /** The server restarted after the run began. */
  ghost predicate Outlived(gate: bool, es: seq<Event>, run: Id) {
    exists k :: 0 <= k < |es| && RestartsAfter(gate, es, k, run)
  }

  ghost predicate RestartsAfter(gate: bool, es: seq<Event>, k: nat, run: Id)
    requires k < |es|
  {
    es[k].Restart? && ValidRun(gate, es[..k]) && Has(After(gate, es[..k]).records, run)
  }

  ghost predicate Ended(es: seq<Event>, run: Id) {
    exists logs :: (Finished(es, run, true, logs) || Finished(es, run, false, logs) || FailedToStart(es, run, logs))
  }

  /** The record's status and logs are those of the event that ended it. */
  ghost predicate AsEnded(gate: bool, es: seq<Event>, r: Record) {
    && (r.status == Succeeded <==> exists logs :: Finished(es, r.id, true, logs))
    && (r.status == Errored <==> exists logs :: (Finished(es, r.id, false, logs) || FailedToStart(es, r.id, logs)))
    && (r.status == Interrupted <==> !Ended(es, r.id) && Outlived(gate, es, r.id))
    && (forall ok, logs :: Finished(es, r.id, ok, logs) ==> r.logs == logs)
    && (forall logs :: FailedToStart(es, r.id, logs) ==> r.logs == logs)
    && (r.status == Interrupted ==> r.logs == "\\n--- Server restarted before operation completed ---")
    && (r.status == Running ==> r.logs == "")
  }

  lemma FinishedSnoc(es: seq<Event>, run: Id, ok: bool, logs: string)
    requires es != []
    ensures var n := |es| - 1;
            Finished(es, run, ok, logs)
            <==> || Finished(es[..n], run, ok, logs)
                 || (es[n].Finish? && es[n].run == run && es[n].ok == ok && es[n].logs == logs)
  {
    var n := |es| - 1;
    assert forall k :: 0 <= k < n ==> es[..n][k] == es[k];
    if Finished(es[..n], run, ok, logs) {
      var k :| 0 <= k < n && es[..n][k].Finish? && es[..n][k].run == run && es[..n][k].ok == ok
        && es[..n][k].logs == logs;
      assert es[k].Finish?;
    }
  }

  lemma FailedSnoc(es: seq<Event>, run: Id, logs: string)
    requires es != []
    ensures var n := |es| - 1;
            FailedToStart(es, run, logs) <==> FailedToStart(es[..n], run, logs) || es[n] == StartFails(run, logs)
  {
    var n := |es| - 1;
    if k :| 0 <= k < |es[..n]| && es[..n][k] == StartFails(run, logs) {
      assert es[k] == es[..n][k];
    }
    if k :| 0 <= k < |es| && es[k] == StartFails(run, logs) {
      assert k < n ==> es[..n][k] == es[k];
    }
  }

  lemma RestartInPrefix(gate: bool, es: seq<Event>, k: nat, run: Id)
    requires k < |es| - 1
    ensures RestartsAfter(gate, es, k, run) <==> RestartsAfter(gate, es[..|es| - 1], k, run)
  {
    assert es[..|es| - 1][..k] == es[..k];
  }

  lemma OutlivedSnoc(gate: bool, es: seq<Event>, run: Id)
    requires es != []
    ensures var n := |es| - 1;
            Outlived(gate, es, run) <==> Outlived(gate, es[..n], run) || RestartsAfter(gate, es, n, run)
  {
    var n := |es| - 1;
    forall k | 0 <= k < n ensures RestartsAfter(gate, es, k, run) <==> RestartsAfter(gate, es[..n], k, run) {
      RestartInPrefix(gate, es, k, run);
    }
  }

  lemma NeverMentioned(gate: bool, es: seq<Event>, run: Id)
    requires ValidRun(gate, es) && run >= After(gate, es).nextId
    ensures forall ok, logs :: !Finished(es, run, ok, logs)
    ensures forall logs :: !FailedToStart(es, run, logs)
    ensures !Outlived(gate, es, run)
  {
    forall k | 0 <= k < |es|
      ensures !(es[k].Finish? && es[k].run == run) && !(es[k].StartFails? && es[k].run == run)
      ensures !RestartsAfter(gate, es, k, run)
    {
      ValidPrefix(gate, es, k);
      if Mentions(After(gate, es[..k]), es[k], run) {
        MentionedIsOld(gate, es, k, run);
      }
    }
  }

  lemma BegunAsEnded(gate: bool, es: seq<Event>, r: Record)
    requires es != [] && ValidRun(gate, es) && Begins(After(gate, es[..|es| - 1]), es[|es| - 1], r)
    ensures AsEnded(gate, es, r)
  {
    var n := |es| - 1;
    NeverMentioned(gate, es[..n], r.id);
    EventExtends(gate, es, r.id);
  }

  /** One event more. */
  ghost predicate Extends(gate: bool, es: seq<Event>, run: Id)
    requires es != []
  {
    var n := |es| - 1;
    && (forall ok, logs ::
          Finished(es, run, ok, logs)
          <==> || Finished(es[..n], run, ok, logs)
               || (es[n].Finish? && es[n].run == run && es[n].ok == ok && es[n].logs == logs))
    && (forall logs ::
          FailedToStart(es, run, logs) <==> FailedToStart(es[..n], run, logs) || es[n] == StartFails(run, logs))
    && (Outlived(gate, es, run) <==> Outlived(gate, es[..n], run) || RestartsAfter(gate, es, n, run))
  }

  lemma EventExtends(gate: bool, es: seq<Event>, run: Id)
    requires es != []
    ensures Extends(gate, es, run)
  {
    forall ok, logs
      ensures Finished(es, run, ok, logs)
         <==> || Finished(es[..|es| - 1], run, ok, logs)
              || (es[|es| - 1].Finish? && es[|es| - 1].run == run && es[|es| - 1].ok == ok && es[|es| - 1].logs == logs)
    {
      FinishedSnoc(es, run, ok, logs);
    }
    forall logs
      ensures FailedToStart(es, run, logs)
         <==> FailedToStart(es[..|es| - 1], run, logs) || es[|es| - 1] == StartFails(run, logs)
    {
      FailedSnoc(es, run, logs);
    }
    OutlivedSnoc(gate, es, run);
  }

  lemma RunningNeverEnded(gate: bool, es: seq<Event>, r: Record)
    requires AsEnded(gate, es, r) && r.status == Running
    ensures forall ok, logs :: !Finished(es, r.id, ok, logs)
    ensures forall logs :: !FailedToStart(es, r.id, logs)
    ensures !Outlived(gate, es, r.id)
  {
    forall ok, logs ensures !Finished(es, r.id, ok, logs) {
      assert ok || !ok;
    }
  }

  lemma EndsNow(gate: bool, es: seq<Event>, r: Record)
    requires es != [] && Extends(gate, es, r.id) && AsEnded(gate, es[..|es| - 1], r) && r.status == Running
    requires (es[|es| - 1].Finish? || es[|es| - 1].StartFails?) && es[|es| - 1].run == r.id
    ensures AsEnded(gate, es, Updated(r, es[|es| - 1]))
  {
    var e := es[|es| - 1];
    RunningNeverEnded(gate, es[..|es| - 1], r);
    if e.Finish? {
      assert Finished(es, r.id, e.ok, e.logs);
    } else {
      assert FailedToStart(es, r.id, e.logs);
    }
  }

  lemma NothingBefore(s: string)
    ensures "" + s == s
  {
  }

  lemma CrashesNow(gate: bool, es: seq<Event>, r: Record)
    requires es != [] && Extends(gate, es, r.id) && AsEnded(gate, es[..|es| - 1], r)
    requires es[|es| - 1].Restart? && RestartsAfter(gate, es, |es| - 1, r.id)
    ensures AsEnded(gate, es, Updated(r, es[|es| - 1]))
  {
    if r.status == Running {
      RunningNeverEnded(gate, es[..|es| - 1], r);
      NothingBefore("\\n--- Server restarted before operation completed ---");
    }
  }

  lemma GoesOn(gate: bool, es: seq<Event>, r: Record)
    requires es != [] && Extends(gate, es, r.id) && AsEnded(gate, es[..|es| - 1], r)
    requires var e := es[|es| - 1];
             !e.Restart? && !((e.Finish? || e.StartFails?) && e.run == r.id)
    ensures AsEnded(gate, es, Updated(r, es[|es| - 1]))
  {
  }

  lemma UpdatedAsEnded(gate: bool, es: seq<Event>, r: Record)
    requires es != [] && ValidRun(gate, es) && AsEnded(gate, es[..|es| - 1], r)
    requires r in After(gate, es[..|es| - 1]).records
    requires RecordsOk(After(gate, es[..|es| - 1]))
    ensures AsEnded(gate, es, Updated(r, es[|es| - 1]))
  {
    var n := |es| - 1;
    var e, s := es[n], After(gate, es[..n]);
    var i :| 0 <= i < |s.records| && s.records[i] == r;
    EventExtends(gate, es, r.id);
    if (e.Finish? || e.StartFails?) && e.run == r.id {
      assert s.records[i].id in s.jobs;
      EndsNow(gate, es, r);
    } else if e.Restart? {
      assert Has(s.records, r.id);
      assert RestartsAfter(gate, es, n, r.id);
      CrashesNow(gate, es, r);
    } else {
      GoesOn(gate, es, r);
    }
  }

  /** Through any run, crashes included: a record is a success, an error or interrupted exactly as the
      event says that ended it, with that event's logs; it is running as long as there is none. */
  lemma {:induction false} RecordAsEnded(gate: bool, es: seq<Event>, i: nat)
    requires ValidRun(gate, es) && i < |After(gate, es).records|
    ensures AsEnded(gate, es, After(gate, es).records[i])
    decreases |es|
  {
    if es == [] {
    } else {
      var n := |es| - 1;
      var s := After(gate, es[..n]);
      RecordsOkAlways(gate, es[..n]);
      RecordsAfter(s, es[n]);
      if i < |s.records| {
        RecordAsEnded(gate, es[..n], i);
        UpdatedAsEnded(gate, es, s.records[i]);
      } else {
        BegunAsEnded(gate, es, After(gate, es).records[i]);
      }
    }
  }
}
