/** The approvals table and the waiting launches told from the events: who asks, who decides, what waits,
    what is launched. */
module ApprovalEvents {
  import opened Wrappers
  import opened Values
  import opened ResourceNames
  import opened Lifecycle
  import opened RunLaws
  import opened ApprovalLaws
  import opened RecordEvents

  ghost predicate HasApproval(approvals: seq<Approval>, id: Id) {
    exists i :: 0 <= i < |approvals| && approvals[i].id == id
  }

  // ----- one event

  /** The approval an event asks for: an apply or destroy while the gate is on. */
  ghost predicate Asks(s: State, e: Event, a: Approval) {
    && e.Submit? && e.action != Plan && s.gate
    && a == Approval(s.nextId, e.action, e.req.schema, e.req.env, e.req.region, e.req.inputs, Pending)
  }

  /** What an event makes of an approval that is there: only a decision on a pending one counts. */
  function Decided(a: Approval, e: Event): Approval {
    if e.Decide? && e.approval == a.id && a.status == Pending
    then a.(status := if e.approve then Approved else Rejected) else a
  }

  lemma ApprovalsAfter(s: State, e: Event)
    requires Enabled(s, e) && ApprovalIdsFresh(s.approvals, s.nextId)
    ensures var t := Step(s, e);
            && |s.approvals| <= |t.approvals| <= |s.approvals| + 1
            && (forall i :: 0 <= i < |s.approvals| ==> t.approvals[i] == Decided(s.approvals[i], e))
            && (|t.approvals| > |s.approvals| <==> e.Submit? && e.action != Plan && s.gate)
            && (|t.approvals| > |s.approvals| ==> Asks(s, e, t.approvals[|s.approvals|]))
            && (t.gate == if e.SetGate? then e.on else s.gate)
  {
    if e.Decide? {
      var found := FindApproval(s.approvals, e.approval);
      if found.Some? {
        assert forall i :: 0 <= i < |s.approvals| && i != found.value ==> s.approvals[i].id != e.approval;
      }
    }
  }

  /** What waits to be launched: approving a pending approval adds it, its launch or a restart takes it
      away. */
  lemma LaunchingAfter(s: State, e: Event, id: Id)
    requires Enabled(s, e) && ApprovalIdsFresh(s.approvals, s.nextId)
    requires LaunchesOk(s.approvals, s.launching, s.origins)
    ensures id in Step(s, e).launching
       <==> || (e.Decide? && e.approval == id && e.approve
                && exists i :: 0 <= i < |s.approvals| && s.approvals[i].id == id && s.approvals[i].status == Pending)
            || (id in s.launching && !e.Restart? && !(e.Launch? && e.approval == id))
  {
    match e
    case Launch(approval, _) =>
      RemoveExact(s.launching, approval);
      assert IsApproved(s.approvals, approval);
    case Decide(approval, _) =>
      var found := FindApproval(s.approvals, approval);
      if found.Some? {
        assert forall i :: 0 <= i < |s.approvals| && i != found.value ==> s.approvals[i].id != approval;
      }
    case Submit(_, _, _, _) =>
    case Finish(_, _, _, _, _) =>
    case StartFails(_, _) =>
    case SetGate(_) =>
    case Restart(_) =>
  }

  /** A launch begins a run with the approval's action, schema, environment, region and inputs. */
  lemma LaunchBegins(gate: bool, es: seq<Event>, id: Id, now: string)
    requires ValidRun(gate, es) && id in After(gate, es).launching
    ensures var s := After(gate, es);
            var t := Step(s, Launch(id, now));
            && |t.records| == |s.records| + 1 && Begins(s, Launch(id, now), t.records[|s.records|])
            && id !in t.launching
  {
    var s := After(gate, es);
    AccountsOkAlways(gate, es);
    assert IsApproved(s.approvals, id);
    RecordsAfter(s, Launch(id, now));
    RecordsGrow(s, Launch(id, now));
    LaunchingAfter(s, Launch(id, now), id);
  }

  // ----- whole runs

  /** The event is a decision on an approval that is there. */
  ghost predicate Decides(gate: bool, es: seq<Event>, k: nat, id: Id)
    requires k < |es|
  {
    && es[k].Decide? && es[k].approval == id
    && ValidRun(gate, es[..k]) && HasApproval(After(gate, es[..k]).approvals, id)
  }

  ghost predicate DecidesFirst(gate: bool, es: seq<Event>, k: nat, id: Id) {
    && k < |es| && Decides(gate, es, k, id)
    && forall j :: 0 <= j < k ==> !Decides(gate, es, j, id)
  }

  ghost predicate FirstDecision(gate: bool, es: seq<Event>, id: Id, approve: bool) {
    exists k: nat :: DecidesFirst(gate, es, k, id) && es[k].approve == approve
  }

  ghost predicate Undecided(gate: bool, es: seq<Event>, id: Id) {
    forall k :: 0 <= k < |es| ==> !Decides(gate, es, k, id)
  }

  lemma DecidesInPrefix(gate: bool, es: seq<Event>, k: nat, id: Id)
    requires k < |es| - 1
    ensures Decides(gate, es, k, id) <==> Decides(gate, es[..|es| - 1], k, id)
  {
    assert es[..|es| - 1][..k] == es[..k];
  }

  lemma DecidesFirstInPrefix(gate: bool, es: seq<Event>, k: nat, id: Id)
    requires k < |es| - 1
    ensures DecidesFirst(gate, es, k, id) <==> DecidesFirst(gate, es[..|es| - 1], k, id)
  {
    var early := es[..|es| - 1];
    DecidesInPrefix(gate, es, k, id);
    if DecidesFirst(gate, es, k, id) {
      forall j | 0 <= j < k ensures !Decides(gate, early, j, id) {
        DecidesInPrefix(gate, es, j, id);
        assert !Decides(gate, es, j, id);
      }
    }
    if DecidesFirst(gate, early, k, id) {
      forall j | 0 <= j < k ensures !Decides(gate, es, j, id) {
        DecidesInPrefix(gate, es, j, id);
        assert !Decides(gate, early, j, id);
      }
    }
  }

  lemma DecisionsInPrefix(gate: bool, es: seq<Event>, id: Id)
    requires es != []
    ensures forall k :: 0 <= k < |es| - 1 ==> (Decides(gate, es, k, id) <==> Decides(gate, es[..|es| - 1], k, id))
    ensures forall k: nat :: k < |es| - 1 ==>
              (DecidesFirst(gate, es, k, id) <==> DecidesFirst(gate, es[..|es| - 1], k, id))
  {
    forall k | 0 <= k < |es| - 1 ensures Decides(gate, es, k, id) <==> Decides(gate, es[..|es| - 1], k, id) {
      DecidesInPrefix(gate, es, k, id);
    }
    forall k: nat | k < |es| - 1
      ensures DecidesFirst(gate, es, k, id) <==> DecidesFirst(gate, es[..|es| - 1], k, id)
    {
      DecidesFirstInPrefix(gate, es, k, id);
    }
  }

  lemma UndecidedSnoc(gate: bool, es: seq<Event>, id: Id)
    requires es != []
    ensures Undecided(gate, es, id) <==> Undecided(gate, es[..|es| - 1], id) && !Decides(gate, es, |es| - 1, id)
  {
    var n := |es| - 1;
    DecisionsInPrefix(gate, es, id);
    if Undecided(gate, es, id) {
      forall k | 0 <= k < |es[..n]| ensures !Decides(gate, es[..n], k, id) {
        assert !Decides(gate, es, k, id);
      }
    }
    if Undecided(gate, es[..n], id) && !Decides(gate, es, n, id) {
      forall k | 0 <= k < |es| ensures !Decides(gate, es, k, id) {
        assert k < n ==> !Decides(gate, es[..n], k, id);
      }
    }
  }

  lemma FirstDecisionStays(gate: bool, es: seq<Event>, id: Id, approve: bool)
    requires es != []
    requires var n := |es| - 1;
             || FirstDecision(gate, es[..n], id, approve)
             || (Undecided(gate, es[..n], id) && Decides(gate, es, n, id) && es[n].approve == approve)
    ensures FirstDecision(gate, es, id, approve)
  {
    var n := |es| - 1;
    if FirstDecision(gate, es[..n], id, approve) {
      var k: nat :| DecidesFirst(gate, es[..n], k, id) && es[..n][k].approve == approve;
      DecidesFirstInPrefix(gate, es, k, id);
      assert DecidesFirst(gate, es, k, id) && es[k].approve == approve;
    } else {
      DecisionsInPrefix(gate, es, id);
      forall k | 0 <= k < n ensures !Decides(gate, es, k, id) {
        assert !Decides(gate, es[..n], k, id);
      }
      assert DecidesFirst(gate, es, n, id);
    }
  }

  lemma FirstDecisionSnoc(gate: bool, es: seq<Event>, id: Id, approve: bool)
    requires es != []
    ensures var n := |es| - 1;
            FirstDecision(gate, es, id, approve)
            <==> || FirstDecision(gate, es[..n], id, approve)
                 || (Undecided(gate, es[..n], id) && Decides(gate, es, n, id) && es[n].approve == approve)
  {
    var n := |es| - 1;
    if FirstDecision(gate, es, id, approve) {
      var k: nat :| DecidesFirst(gate, es, k, id) && es[k].approve == approve;
      if k < n {
        DecidesFirstInPrefix(gate, es, k, id);
        assert DecidesFirst(gate, es[..n], k, id) && es[..n][k].approve == approve;
      } else {
        DecisionsInPrefix(gate, es, id);
        forall j | 0 <= j < |es[..n]| ensures !Decides(gate, es[..n], j, id) {
          assert !Decides(gate, es, j, id);
        }
      }
    } else if || FirstDecision(gate, es[..n], id, approve)
              || (Undecided(gate, es[..n], id) && Decides(gate, es, n, id) && es[n].approve == approve) {
      FirstDecisionStays(gate, es, id, approve);
    }
  }

  /** An approval's status is that of the first decision on it, or pending without one. */
  ghost predicate AsDecided(gate: bool, es: seq<Event>, a: Approval) {
    && (a.status == Approved <==> FirstDecision(gate, es, a.id, true))
    && (a.status == Rejected <==> FirstDecision(gate, es, a.id, false))
    && (a.status == Pending <==> Undecided(gate, es, a.id))
  }

  lemma ApprovalIdKnown(gate: bool, es: seq<Event>, id: Id)
    requires ValidRun(gate, es) && HasApproval(After(gate, es).approvals, id)
    ensures id < After(gate, es).nextId
  {
    AccountsOkAlways(gate, es);
    var s := After(gate, es);
    var i :| 0 <= i < |s.approvals| && s.approvals[i].id == id;
  }

  lemma {:induction false} NextIdAtPrefix(gate: bool, es: seq<Event>, k: nat)
    requires ValidRun(gate, es) && k <= |es| && ValidRun(gate, es[..k])
    ensures After(gate, es[..k]).nextId <= After(gate, es).nextId
    decreases |es|
  {
    if k == |es| {
      assert es[..k] == es;
    } else {
      var n := |es| - 1;
      assert es[..n][..k] == es[..k];
      NextIdAtPrefix(gate, es[..n], k);
      NextIdGrows(After(gate, es[..n]), es[n]);
    }
  }

  lemma NeverDecided(gate: bool, es: seq<Event>, id: Id)
    requires ValidRun(gate, es) && id >= After(gate, es).nextId
    ensures Undecided(gate, es, id)
  {
    forall k | 0 <= k < |es| ensures !Decides(gate, es, k, id) {
      if ValidRun(gate, es[..k]) && HasApproval(After(gate, es[..k]).approvals, id) {
        ApprovalIdKnown(gate, es[..k], id);
        NextIdAtPrefix(gate, es, k);
      }
    }
  }

  lemma UndecidedHasNoFirst(gate: bool, es: seq<Event>, id: Id, approve: bool)
    requires Undecided(gate, es, id)
    ensures !FirstDecision(gate, es, id, approve)
  {
  }

  lemma DecidedAsDecided(gate: bool, es: seq<Event>, a: Approval)
    requires es != [] && ValidRun(gate, es) && AsDecided(gate, es[..|es| - 1], a)
    requires HasApproval(After(gate, es[..|es| - 1]).approvals, a.id)
    ensures AsDecided(gate, es, Decided(a, es[|es| - 1]))
  {
    var n := |es| - 1;
    FirstDecisionSnoc(gate, es, a.id, true);
    FirstDecisionSnoc(gate, es, a.id, false);
    UndecidedSnoc(gate, es, a.id);
    assert Decides(gate, es, n, a.id) <==> es[n].Decide? && es[n].approval == a.id;
  }

  /** In every run: an approval is approved, or rejected, if and only if the first decision on it after
      it was asked for says so; it is pending as long as there is none. */
  lemma {:induction false} ApprovalAsDecided(gate: bool, es: seq<Event>, i: nat)
    requires ValidRun(gate, es) && i < |After(gate, es).approvals|
    ensures AsDecided(gate, es, After(gate, es).approvals[i])
    decreases |es|
  {
    if es == [] {
    } else {
      var n := |es| - 1;
      var s, t := After(gate, es[..n]), After(gate, es);
      AccountsOkAlways(gate, es[..n]);
      ApprovalsAfter(s, es[n]);
      if i < |s.approvals| {
        ApprovalAsDecided(gate, es[..n], i);
        DecidedAsDecided(gate, es, s.approvals[i]);
      } else {
        var id := t.approvals[i].id;
        NeverDecided(gate, es[..n], id);
        UndecidedSnoc(gate, es, id);
        UndecidedHasNoFirst(gate, es, id, true);
        UndecidedHasNoFirst(gate, es, id, false);
      }
    }
  }

  /** Approved by the first decision, with neither a launch of it nor a restart since. */
  ghost predicate WaitsSince(gate: bool, es: seq<Event>, k: nat, id: Id) {
    && DecidesFirst(gate, es, k, id) && es[k].approve
    && forall j :: k < j < |es| ==> !es[j].Restart? && !(es[j].Launch? && es[j].approval == id)
  }

  lemma WaitsSnoc(gate: bool, es: seq<Event>, id: Id)
    requires es != []
    ensures var n := |es| - 1;
            (exists k: nat :: WaitsSince(gate, es, k, id))
            <==> || (Undecided(gate, es[..n], id) && Decides(gate, es, n, id) && es[n].approve)
                 || ((exists k: nat :: WaitsSince(gate, es[..n], k, id))
                     && !es[n].Restart? && !(es[n].Launch? && es[n].approval == id))
  {
    var n := |es| - 1;
    forall k | 0 <= k < n ensures Decides(gate, es, k, id) <==> Decides(gate, es[..n], k, id) {
      DecidesInPrefix(gate, es, k, id);
    }
    forall k: nat | k < n
      ensures WaitsSince(gate, es, k, id)
         <==> WaitsSince(gate, es[..n], k, id) && !es[n].Restart? && !(es[n].Launch? && es[n].approval == id)
    {
      DecidesFirstInPrefix(gate, es, k, id);
      assert forall j :: 0 <= j < n ==> es[..n][j] == es[j];
    }
    if Undecided(gate, es[..n], id) && Decides(gate, es, n, id) && es[n].approve {
      assert WaitsSince(gate, es, n, id);
    }
  }

  lemma PendingIsUndecided(gate: bool, es: seq<Event>, id: Id)
    requires ValidRun(gate, es)
    ensures var s := After(gate, es);
            (exists i :: 0 <= i < |s.approvals| && s.approvals[i].id == id && s.approvals[i].status == Pending)
            <==> HasApproval(s.approvals, id) && Undecided(gate, es, id)
  {
    var s := After(gate, es);
    if HasApproval(s.approvals, id) {
      var i :| 0 <= i < |s.approvals| && s.approvals[i].id == id;
      ApprovalAsDecided(gate, es, i);
    }
    if i :| 0 <= i < |s.approvals| && s.approvals[i].id == id && s.approvals[i].status == Pending {
      ApprovalAsDecided(gate, es, i);
    }
  }

  /** In every run: an approval waits to be launched if and only if the first decision on it approved it
      and since then it has not been launched and the server has not restarted. */
  lemma {:induction false} WaitingAsDecided(gate: bool, es: seq<Event>, id: Id)
    requires ValidRun(gate, es)
    ensures id in After(gate, es).launching <==> exists k: nat :: WaitsSince(gate, es, k, id)
    decreases |es|
  {
    if es == [] {
    } else {
      var n := |es| - 1;
      var s := After(gate, es[..n]);
      WaitingAsDecided(gate, es[..n], id);
      AccountsOkAlways(gate, es[..n]);
      LaunchingAfter(s, es[n], id);
      PendingIsUndecided(gate, es[..n], id);
      WaitsSnoc(gate, es, id);
    }
  }
}
