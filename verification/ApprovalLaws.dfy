/** Approval accounting over every run of the system: where apply and destroy runs come from. */
module ApprovalLaws {
  import opened Wrappers
  import opened Values
  import opened ResourceNames
  import opened Lifecycle
  import opened RunLaws

  ghost predicate ApprovalIdsFresh(approvals: seq<Approval>, nextId: Id) {
    && (forall i, j :: 0 <= i < j < |approvals| ==> approvals[i].id < approvals[j].id)
    && (forall i :: 0 <= i < |approvals| ==> approvals[i].id < nextId && approvals[i].action != Plan)
  }

  ghost predicate IsApproved(approvals: seq<Approval>, id: Id) {
    exists i :: 0 <= i < |approvals| && approvals[i].id == id && approvals[i].status == Approved
  }

  ghost predicate UsedBy(origins: map<Id, Origin>, o: Origin) {
    exists id :: id in origins && origins[id] == o
  }

  /** Waiting launches are approved, wait once, and have not been launched. */
  ghost predicate LaunchesOk(approvals: seq<Approval>, launching: seq<Id>, origins: map<Id, Origin>) {
    && (forall i, j :: 0 <= i < j < |launching| ==> launching[i] != launching[j])
    && (forall a :: a in launching ==> IsApproved(approvals, a) && !UsedBy(origins, FromApproval(a)))
  }

  /** The run asks for what the submission or the approval asked for. */
  ghost predicate FromSubmission(r: Record, s: Submission) {
    && !s.gated && r.action == s.action && r.schema == s.req.schema && r.env == s.req.env
    && r.region == s.req.region && r.inputs == s.req.inputs
  }

  ghost predicate FromReview(r: Record, a: Approval) {
    && a.status == Approved && r.action == a.action && r.schema == a.schema && r.env == a.env
    && r.region == a.region && r.inputs == a.inputs
  }

  ghost predicate Explained(r: Record, o: Origin, submissions: seq<Submission>, approvals: seq<Approval>) {
    match o
    case Direct(k) => k < |submissions| && FromSubmission(r, submissions[k])
    case FromApproval(a) => exists i :: 0 <= i < |approvals| && approvals[i].id == a && FromReview(r, approvals[i])
  }

  /** Exactly the apply and destroy runs have an origin, each a good one, no two the same. */
  ghost predicate OriginsOk(s: State) {
    && (forall i :: 0 <= i < |s.records| ==> (s.records[i].action != Plan <==> s.records[i].id in s.origins))
    && (forall id :: id in s.origins ==> id < s.nextId)
    && (forall i :: 0 <= i < |s.records| && s.records[i].id in s.origins ==>
          Explained(s.records[i], s.origins[s.records[i].id], s.submissions, s.approvals))
    && (forall x, y :: x in s.origins && y in s.origins && x != y ==> s.origins[x] != s.origins[y])
    && (forall id :: id in s.origins && s.origins[id].Direct? ==> s.origins[id].submission < |s.submissions|)
    && (forall id :: id in s.origins && s.origins[id].FromApproval? ==> IsApproved(s.approvals, s.origins[id].approval))
  }

  ghost predicate AccountsOk(s: State) {
    && ApprovalIdsFresh(s.approvals, s.nextId)
    && LaunchesOk(s.approvals, s.launching, s.origins)
    && OriginsOk(s)
  }

  // ----- what single changes keep

  /** Approvals only grow, and a decided one stays as it is. */
  ghost predicate ApprovalPersists(before: Approval, after: Approval) {
    && after == before.(status := after.status)
    && (before.status != Pending ==> after == before)
  }

  ghost predicate ApprovalsPersist(before: seq<Approval>, after: seq<Approval>) {
    |before| <= |after| && forall i :: 0 <= i < |before| ==> ApprovalPersists(before[i], after[i])
  }

  lemma ApprovedPersists(before: seq<Approval>, after: seq<Approval>, id: Id)
    requires ApprovalsPersist(before, after) && IsApproved(before, id)
    ensures IsApproved(after, id)
  {
    var i :| 0 <= i < |before| && before[i].id == id && before[i].status == Approved;
    assert ApprovalPersists(before[i], after[i]);
  }

  lemma ExplainedPersists(r: Record, t: Record, o: Origin, submissions: seq<Submission>, before: seq<Approval>,
                          more: seq<Submission>, after: seq<Approval>)
    requires Explained(r, o, submissions, before) && submissions <= more && ApprovalsPersist(before, after)
    requires RecordPersists(r, t)
    ensures Explained(t, o, more, after)
  {
    if o.FromApproval? {
      var i :| 0 <= i < |before| && before[i].id == o.approval && FromReview(r, before[i]);
      assert ApprovalPersists(before[i], after[i]);
      assert FromReview(t, after[i]);
    }
  }

  /** A change that starts no run keeps all origins good. */
  lemma OriginsPersist(s: State, t: State)
    requires OriginsOk(s) && t.origins == s.origins && s.nextId <= t.nextId
    requires |t.records| == |s.records|
    requires forall i :: 0 <= i < |s.records| ==> RecordPersists(s.records[i], t.records[i])
    requires s.submissions <= t.submissions && ApprovalsPersist(s.approvals, t.approvals)
    ensures OriginsOk(t)
  {
    forall i | 0 <= i < |t.records| && t.records[i].id in t.origins
      ensures Explained(t.records[i], t.origins[t.records[i].id], t.submissions, t.approvals)
    {
      assert RecordPersists(s.records[i], t.records[i]);
      ExplainedPersists(s.records[i], t.records[i], s.origins[s.records[i].id], s.submissions, s.approvals,
                        t.submissions, t.approvals);
    }
    forall i | 0 <= i < |t.records| ensures t.records[i].action != Plan <==> t.records[i].id in t.origins {
      assert RecordPersists(s.records[i], t.records[i]);
    }
    forall id | id in t.origins && t.origins[id].FromApproval? ensures IsApproved(t.approvals, t.origins[id].approval) {
      ApprovedPersists(s.approvals, t.approvals, s.origins[id].approval);
    }
  }

  /** Starting a run with an unused origin that explains it keeps all origins good. */
  lemma StartKeepsOrigins(s: State, action: Action, req: Request, ws: bool, now: string, origin: Origin)
    requires OriginsOk(s) && RecordIdsFresh(s.records, s.nextId)
    requires action != Plan ==>
               && !UsedBy(s.origins, origin)
               && Explained(Record(s.nextId, action, req.schema, req.env, req.region, req.inputs, Running, ""),
                            origin, s.submissions, s.approvals)
    ensures OriginsOk(StartRun(s, action, req, ws, now, origin))
  {
    var t := StartRun(s, action, req, ws, now, origin);
    var r := Record(s.nextId, action, req.schema, req.env, req.region, req.inputs, Running, "");
    assert t.records[|s.records|] == r;
    forall i | 0 <= i < |t.records|
      ensures t.records[i].action != Plan <==> t.records[i].id in t.origins
      ensures t.records[i].id in t.origins ==>
                Explained(t.records[i], t.origins[t.records[i].id], t.submissions, t.approvals)
    {
      if i < |s.records| {
        assert t.records[i] == s.records[i];
      }
    }
    forall x, y | x in t.origins && y in t.origins && x != y ensures t.origins[x] != t.origins[y] {
      if action != Plan {
        assert x != s.nextId ==> s.origins[x] != origin;
        assert y != s.nextId ==> s.origins[y] != origin;
      }
    }
    if action != Plan && origin.FromApproval? {
      var i :| 0 <= i < |s.approvals| && s.approvals[i].id == origin.approval && FromReview(r, s.approvals[i]);
      assert IsApproved(t.approvals, origin.approval);
    }
  }

  lemma {:induction false} RemoveExact(ids: seq<Id>, id: Id)
    requires forall i, j :: 0 <= i < j < |ids| ==> ids[i] != ids[j]
    ensures forall i, j :: 0 <= i < j < |Remove(ids, id)| ==> Remove(ids, id)[i] != Remove(ids, id)[j]
    ensures forall x :: x in Remove(ids, id) <==> x in ids && x != id
  {
    if ids == [] {
    } else {
      RemoveExact(ids[1..], id);
      assert forall x :: x in ids <==> x == ids[0] || x in ids[1..];
      assert ids[0] !in Remove(ids[1..], id);
    }
  }

  // ----- every step

  lemma SubmitKeepsAccounts(s: State, action: Action, req: Request, ws: bool, now: string)
    requires AccountsOk(s) && RecordsOk(s)
    ensures AccountsOk(SubmitStep(s, action, req, ws, now))
  {
    var t := s.(submissions := s.submissions + [Submission(action, req, s.gate)]);
    var u := SubmitStep(s, action, req, ws, now);
    if action != Plan && s.gate {
      OriginsPersist(s, u);
      forall a | a in u.launching ensures IsApproved(u.approvals, a) {
        ApprovedPersists(s.approvals, u.approvals, a);
      }
    } else {
      OriginsPersist(s, t);
      var origin := Direct(|s.submissions|);
      if action != Plan {
        assert t.submissions[|s.submissions|] == Submission(action, req, false);
      }
      StartKeepsOrigins(t, action, req, ws, now, origin);
      forall a | a in u.launching ensures !UsedBy(u.origins, FromApproval(a)) {
        assert !UsedBy(s.origins, FromApproval(a));
      }
    }
  }

  lemma DecideKeepsAccounts(s: State, id: Id, approve: bool)
    requires AccountsOk(s)
    ensures AccountsOk(DecideStep(s, id, approve))
  {
    var u := DecideStep(s, id, approve);
    var found := FindApproval(s.approvals, id);
    if found.Some? && s.approvals[found.value].status == Pending {
      var k := found.value;
      forall i | 0 <= i < |s.approvals| && i != k ensures s.approvals[i].id != id {
      }
      assert ApprovalsPersist(s.approvals, u.approvals);
      OriginsPersist(s, u);
      assert !IsApproved(s.approvals, id);
      forall a | a in u.launching ensures IsApproved(u.approvals, a) && !UsedBy(u.origins, FromApproval(a)) {
        if a in s.launching {
          ApprovedPersists(s.approvals, u.approvals, a);
        } else {
          assert u.approvals[k].id == id && u.approvals[k].status == Approved;
          forall x | x in s.origins ensures s.origins[x] != FromApproval(a) {
            if s.origins[x].FromApproval? {
              assert IsApproved(s.approvals, s.origins[x].approval);
            }
          }
        }
      }
      assert id !in s.launching;
    }
  }

  lemma LaunchIsExplained(s: State, id: Id, k: nat)
    requires ApprovalIdsFresh(s.approvals, s.nextId) && IsApproved(s.approvals, id)
    requires k < |s.approvals| && s.approvals[k].id == id
    ensures var a := s.approvals[k];
            Explained(Record(s.nextId, a.action, a.schema, a.env, a.region, a.inputs, Running, ""),
                      FromApproval(id), s.submissions, s.approvals)
  {
    var i :| 0 <= i < |s.approvals| && s.approvals[i].id == id && s.approvals[i].status == Approved;
    assert i == k;
    var a := s.approvals[k];
    assert FromReview(Record(s.nextId, a.action, a.schema, a.env, a.region, a.inputs, Running, ""), a);
  }

  lemma LaunchKeepsAccounts(s: State, id: Id, now: string)
    requires AccountsOk(s) && RecordsOk(s) && id in s.launching
    ensures AccountsOk(LaunchStep(s, id, now))
  {
    var t := s.(launching := Remove(s.launching, id));
    RemoveExact(s.launching, id);
    OriginsPersist(s, t);
    var found := FindApproval(s.approvals, id);
    if found.Some? {
      var a := s.approvals[found.value];
      LaunchIsExplained(t, id, found.value);
      StartKeepsOrigins(t, a.action, ApprovedRequest(a), false, now, FromApproval(id));
      var u := LaunchStep(s, id, now);
      forall b | b in u.launching ensures !UsedBy(u.origins, FromApproval(b)) {
        assert b in s.launching && b != id;
        assert !UsedBy(s.origins, FromApproval(b));
      }
    }
  }

  lemma RecordsPersist(s: State, e: Event)
    requires RecordsOk(s) && Enabled(s, e)
    ensures |s.records| <= |Step(s, e).records|
    ensures forall i :: 0 <= i < |s.records| ==> RecordPersists(s.records[i], Step(s, e).records[i])
  {
    forall i | 0 <= i < |s.records| ensures RecordPersists(s.records[i], Step(s, e).records[i]) {
      StepKeepsRecord(s, e, i);
    }
  }

  lemma {:induction false} StepKeepsAccounts(s: State, e: Event)
    requires AccountsOk(s) && RecordsOk(s) && Enabled(s, e)
    ensures AccountsOk(Step(s, e))
  {
    RecordsPersist(s, e);
    match e
    case Submit(action, req, ws, now) => SubmitKeepsAccounts(s, action, req, ws, now);
    case Decide(approval, approve) => DecideKeepsAccounts(s, approval, approve);
    case Launch(approval, now) => LaunchKeepsAccounts(s, approval, now);
    case Finish(run, ok, logs, now, order) => OriginsPersist(s, Step(s, e));
    case StartFails(run, logs) => OriginsPersist(s, Step(s, e));
    case SetGate(on) => OriginsPersist(s, Step(s, e));
    case Restart(clock) =>
      RecoverGrowsId(s.rows, InterruptAll(s.records), clock, s.nextId);
      OriginsPersist(s, Step(s, e));
  }

  lemma {:induction false} AccountsOkAlways(gate: bool, es: seq<Event>)
    requires ValidRun(gate, es)
    ensures AccountsOk(After(gate, es))
    decreases |es|
  {
    if es == [] {
    } else {
      AccountsOkAlways(gate, es[..|es| - 1]);
      RecordsOkAlways(gate, es[..|es| - 1]);
      StepKeepsAccounts(After(gate, es[..|es| - 1]), es[|es| - 1]);
    }
  }

  // ----- the account

  /** Every apply or destroy run has an origin of its own: a request made while the gate was off, or an
      approved approval, with the same action, schema, environment, region and inputs. */
  lemma {:induction false} RunsAreAccountedFor(gate: bool, es: seq<Event>, i: nat)
    requires ValidRun(gate, es) && i < |After(gate, es).records| && After(gate, es).records[i].action != Plan
    ensures var s := After(gate, es);
            var r := s.records[i];
            && r.id in s.origins && Explained(r, s.origins[r.id], s.submissions, s.approvals)
            && forall j :: 0 <= j < |s.records| && j != i && s.records[j].id in s.origins ==>
                 s.origins[s.records[j].id] != s.origins[r.id]
  {
    RecordsOkAlways(gate, es);
    AccountsOkAlways(gate, es);
  }

  /** A pending or rejected approval has started no run. */
  lemma UnapprovedStartsNothing(gate: bool, es: seq<Event>, a: nat, i: nat)
    requires ValidRun(gate, es) && a < |After(gate, es).approvals| && i < |After(gate, es).records|
    requires After(gate, es).approvals[a].status != Approved
    requires After(gate, es).records[i].id in After(gate, es).origins
    ensures After(gate, es).origins[After(gate, es).records[i].id] != FromApproval(After(gate, es).approvals[a].id)
  {
    AccountsOkAlways(gate, es);
    var s := After(gate, es);
    var o := s.origins[s.records[i].id];
    if o.FromApproval? {
      var j :| 0 <= j < |s.approvals| && s.approvals[j].id == o.approval && s.approvals[j].status == Approved;
    }
  }

  lemma StepKeepsApproval(s: State, e: Event, a: nat)
    requires ApprovalIdsFresh(s.approvals, s.nextId) && Enabled(s, e) && a < |s.approvals|
    ensures a < |Step(s, e).approvals| && ApprovalPersists(s.approvals[a], Step(s, e).approvals[a])
  {
  }

  /** Through any continuation of a run an approval leaves pending at most once and is never decided
      again. */
  lemma {:induction false} ApprovalsLeavePendingOnce(gate: bool, es: seq<Event>, k: nat, a: nat)
    requires ValidRun(gate, es) && k <= |es| && ValidRun(gate, es[..k])
    requires a < |After(gate, es[..k]).approvals|
    ensures a < |After(gate, es).approvals|
    ensures ApprovalPersists(After(gate, es[..k]).approvals[a], After(gate, es).approvals[a])
    decreases |es|
  {
    if k == |es| {
      assert es[..k] == es;
    } else {
      var n := |es| - 1;
      assert es[..n][..k] == es[..k];
      ApprovalsLeavePendingOnce(gate, es[..n], k, a);
      AccountsOkAlways(gate, es[..n]);
      StepKeepsApproval(After(gate, es[..n]), es[n], a);
    }
  }
}
