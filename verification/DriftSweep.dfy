/** `runAllDriftChecks` of backend/drift_detector.go: any number of callers, one flag under a mutex,
    every interleaving of their atomic steps. */
module DriftSweep {
  import opened Wrappers
  import opened Text

  datatype ResourceStatus = Active | Unknown | Failed | Destroyed
  datatype Resource = Resource(id: string, status: ResourceStatus)
  datatype Outcome = Clean | Drifted | CheckError
  datatype Check = Check(id: string, outcome: Outcome)

  predicate Eligible(r: Resource) {
    r.status == Active || r.status == Unknown
  }

  /** The sweep in progress: what was read from the table, how far it has come, what it found. */
  datatype Sweep = Sweep(snapshot: seq<Resource>, next: nat, checks: seq<Check>, drifted: nat)

  /** Where a caller is. Entering, FlagSet, Leaving and FlagCleared hold the mutex. */
  datatype Place =
    | Outside
    | AtDoor
    | Entering
    | FlagSet
    | Reading
    | Checking(sweep: Sweep)
    | AtExit(sweep: Sweep)
    | Leaving(sweep: Sweep)
    | FlagCleared(sweep: Sweep)

  datatype State = State(places: seq<Place>, mutex: Option<nat>, running: bool, done: seq<Sweep>)

  function Init(callers: nat): State {
    State(seq(callers, _ => Outside), None, false, [])
  }

  /** A caller takes its next step; the table read and the result of a check come from outside. */
  datatype Event = Event(caller: nat, table: seq<Resource>, outcome: Outcome)

  predicate Enabled(s: State, e: Event) {
    && e.caller < |s.places|
    && match s.places[e.caller]
       case AtDoor => s.mutex.None?
       case AtExit(_) => s.mutex.None?
       case _ => true
  }

  function CheckNext(sweep: Sweep, outcome: Outcome): Sweep
    requires sweep.next < |sweep.snapshot|
  {
    var r := sweep.snapshot[sweep.next];
    var on := sweep.(next := sweep.next + 1);
    if !Eligible(r) then on
    else on.(checks := sweep.checks + [Check(r.id, outcome)],
             drifted := if outcome == Drifted then sweep.drifted + 1 else sweep.drifted)
  }

  function Step(s: State, e: Event): State
    requires Enabled(s, e)
  {
    var i := e.caller;
    match s.places[i]
    case Outside => s.(places := s.places[i := AtDoor])
    case AtDoor => s.(places := s.places[i := Entering], mutex := Some(i))
    case Entering =>
      if s.running then s.(places := s.places[i := Outside], mutex := None)
      else s.(places := s.places[i := FlagSet], running := true)
    case FlagSet => s.(places := s.places[i := Reading], mutex := None)
    case Reading => s.(places := s.places[i := Checking(Sweep(e.table, 0, [], 0))])
    case Checking(sweep) =>
      if sweep.next < |sweep.snapshot| then s.(places := s.places[i := Checking(CheckNext(sweep, e.outcome))])
      else s.(places := s.places[i := AtExit(sweep)])
    case AtExit(sweep) => s.(places := s.places[i := Leaving(sweep)], mutex := Some(i))
    case Leaving(sweep) => s.(places := s.places[i := FlagCleared(sweep)], running := false)
    case FlagCleared(sweep) => s.(places := s.places[i := Outside], mutex := None, done := s.done + [sweep])
  }

  ghost predicate ValidRun(callers: nat, es: seq<Event>)
    decreases |es|, 0
  {
    es == [] || (ValidRun(callers, es[..|es| - 1]) && Enabled(After(callers, es[..|es| - 1]), es[|es| - 1]))
  }

  ghost function After(callers: nat, es: seq<Event>): State
    requires ValidRun(callers, es)
    decreases |es|, 1
  {
    if es == [] then Init(callers) else Step(After(callers, es[..|es| - 1]), es[|es| - 1])
  }

  // ----- exclusion

  predicate HoldsMutex(p: Place) {
    p.Entering? || p.FlagSet? || p.Leaving? || p.FlagCleared?
  }

  /** Between setting and clearing the flag. */
  predicate Sweeping(p: Place) {
    p.FlagSet? || p.Reading? || p.Checking? || p.AtExit? || p.Leaving?
  }

  ghost predicate Exclusion(s: State) {
    && (forall i :: 0 <= i < |s.places| ==> (HoldsMutex(s.places[i]) <==> s.mutex == Some(i)))
    && (forall i, j :: 0 <= i < j < |s.places| ==> !(Sweeping(s.places[i]) && Sweeping(s.places[j])))
    && (s.running <==> exists i :: 0 <= i < |s.places| && Sweeping(s.places[i]))
  }

  lemma StepKeepsExclusion(s: State, e: Event)
    requires Exclusion(s) && Enabled(s, e)
    ensures Exclusion(Step(s, e))
  {
    var t := Step(s, e);
    var i := e.caller;
    assert forall j :: 0 <= j < |s.places| && j != i ==> t.places[j] == s.places[j];
    if Sweeping(t.places[i]) {
      assert t.running;
    }
    if t.running {
      if Sweeping(t.places[i]) {
      } else {
        var j :| 0 <= j < |s.places| && Sweeping(s.places[j]);
        assert j != i && Sweeping(t.places[j]);
      }
    }
  }

  // ----- what a sweep does

  function EligibleIds(rs: seq<Resource>): seq<string> {
    Map((r: Resource) => r.id, Filter((r: Resource) => Eligible(r), rs))
  }

  function CheckedIds(checks: seq<Check>): seq<string> {
    Map((c: Check) => c.id, checks)
  }

  function DriftedChecks(checks: seq<Check>): seq<Check> {
    Filter((c: Check) => c.outcome == Drifted, checks)
  }

  /** So far every eligible resource passed was checked once, in order, and the drifted ones counted. */
  ghost predicate Faithful(w: Sweep) {
    && w.next <= |w.snapshot|
    && CheckedIds(w.checks) == EligibleIds(w.snapshot[..w.next])
    && w.drifted == |DriftedChecks(w.checks)|
  }

  lemma CheckNextIsFaithful(w: Sweep, outcome: Outcome)
    requires Faithful(w) && w.next < |w.snapshot|
    ensures Faithful(CheckNext(w, outcome))
  {
    var r := w.snapshot[w.next];
    assert w.snapshot[..w.next + 1] == w.snapshot[..w.next] + [r];
    FilterConcat((r: Resource) => Eligible(r), w.snapshot[..w.next], [r]);
    assert [r][1..] == [];
    MapConcat((r: Resource) => r.id, Filter((r: Resource) => Eligible(r), w.snapshot[..w.next]), [r]);
    var c := Check(r.id, outcome);
    MapConcat((c: Check) => c.id, w.checks, [c]);
    FilterConcat((c: Check) => c.outcome == Drifted, w.checks, [c]);
    assert [c][1..] == [];
    if !Eligible(r) {
      assert EligibleIds(w.snapshot[..w.next + 1]) == EligibleIds(w.snapshot[..w.next]);
    }
  }

  ghost predicate SweepAt(p: Place, w: Sweep) {
    (p.Checking? || p.AtExit? || p.Leaving? || p.FlagCleared?) && p.sweep == w
  }

  /** The sweeps under way are faithful, those past their loop and those done are complete. */
  ghost predicate SweepsOk(s: State) {
    && (forall i, w :: 0 <= i < |s.places| && SweepAt(s.places[i], w) ==>
          Faithful(w) && (!s.places[i].Checking? ==> w.next == |w.snapshot|))
    && (forall k :: 0 <= k < |s.done| ==> Faithful(s.done[k]) && s.done[k].next == |s.done[k].snapshot|)
  }

  lemma StepKeepsSweeps(s: State, e: Event)
    requires SweepsOk(s) && Enabled(s, e)
    ensures SweepsOk(Step(s, e))
  {
    var t := Step(s, e);
    var p := s.places[e.caller];
    if p.Checking? || p.AtExit? || p.Leaving? || p.FlagCleared? {
      assert SweepAt(p, p.sweep);
      if p.Checking? && p.sweep.next < |p.sweep.snapshot| {
        CheckNextIsFaithful(p.sweep, e.outcome);
      }
    }
    assert Faithful(Sweep(e.table, 0, [], 0));
    forall i, w | 0 <= i < |t.places| && SweepAt(t.places[i], w)
      ensures Faithful(w) && (!t.places[i].Checking? ==> w.next == |w.snapshot|)
    {
      if i != e.caller {
        assert SweepAt(s.places[i], w);
      }
    }
  }

  /** In every interleaving of any number of callers at most one is between setting and clearing the
      flag, the flag is set exactly then, and every completed sweep has checked each active or
      unknown resource of its snapshot once and counted exactly the drifted ones. */
  lemma {:induction false} SweepsExcludeEachOther(callers: nat, es: seq<Event>)
    requires ValidRun(callers, es)
    ensures Exclusion(After(callers, es)) && SweepsOk(After(callers, es))
    decreases |es|
  {
    if es == [] {
    } else {
      SweepsExcludeEachOther(callers, es[..|es| - 1]);
      StepKeepsExclusion(After(callers, es[..|es| - 1]), es[|es| - 1]);
      StepKeepsSweeps(After(callers, es[..|es| - 1]), es[|es| - 1]);
    }
  }

  lemma CompletedSweepIsExact(callers: nat, es: seq<Event>, k: nat)
    requires ValidRun(callers, es) && k < |After(callers, es).done|
    ensures var w := After(callers, es).done[k];
            CheckedIds(w.checks) == EligibleIds(w.snapshot) && w.drifted == |DriftedChecks(w.checks)|
  {
    SweepsExcludeEachOther(callers, es);
    var w := After(callers, es).done[k];
    assert w.snapshot[..|w.snapshot|] == w.snapshot;
  }

  /** Checked are the active and the unknown resources of the snapshot and no others, and the count is that
      of the checks with a drifted outcome. */
  lemma CheckedExactly(callers: nat, es: seq<Event>, k: nat, id: string)
    requires ValidRun(callers, es) && k < |After(callers, es).done|
    ensures var w := After(callers, es).done[k];
            id in CheckedIds(w.checks)
            <==> exists i :: 0 <= i < |w.snapshot| && w.snapshot[i].id == id
                   && (w.snapshot[i].status == Active || w.snapshot[i].status == Unknown)
  {
    CompletedSweepIsExact(callers, es, k);
    var rs := After(callers, es).done[k].snapshot;
    EligibleExactly(rs, id);
  }

  lemma EligibleExactly(rs: seq<Resource>, id: string)
    ensures id in EligibleIds(rs)
       <==> exists i :: 0 <= i < |rs| && rs[i].id == id && (rs[i].status == Active || rs[i].status == Unknown)
  {
    var eligible := (r: Resource) => Eligible(r);
    var mine := Filter(eligible, rs);
    if id in EligibleIds(rs) {
      var j :| 0 <= j < |mine| && mine[j].id == id;
      assert mine[j] in mine;
      FilterMember(eligible, rs, mine[j]);
      var i :| 0 <= i < |rs| && rs[i] == mine[j];
    }
    if i :| 0 <= i < |rs| && rs[i].id == id && (rs[i].status == Active || rs[i].status == Unknown) {
      FilterMember(eligible, rs, rs[i]);
      var j :| 0 <= j < |mine| && mine[j] == rs[i];
      assert EligibleIds(rs)[j] == id;
    }
  }

  function CheckOf(r: Resource, check: Resource -> Outcome): Check {
    Check(r.id, check(r))
  }

  function ChecksOf(rs: seq<Resource>, check: Resource -> Outcome): seq<Check> {
    Map((r: Resource) => CheckOf(r, check), Filter((r: Resource) => Eligible(r), rs))
  }

  lemma ChecksOfSnoc(rs: seq<Resource>, k: nat, check: Resource -> Outcome)
    requires k < |rs|
    ensures ChecksOf(rs[..k + 1], check)
         == ChecksOf(rs[..k], check) + if Eligible(rs[k]) then [CheckOf(rs[k], check)] else []
  {
    var eligible := (r: Resource) => Eligible(r);
    assert rs[..k + 1] == rs[..k] + [rs[k]];
    FilterConcat(eligible, rs[..k], [rs[k]]);
    assert [rs[k]][1..] == [];
    MapConcat((r: Resource) => CheckOf(r, check), Filter(eligible, rs[..k]), Filter(eligible, [rs[k]]));
  }

  /** The loop of one sweep, run to its end; `check` is the result of checking a resource. Every
      eligible resource is checked once and in order, and the drifted ones are counted. */
  method SweepAll(resources: seq<Resource>, check: Resource -> Outcome) returns (w: Sweep)
    ensures Faithful(w) && w.snapshot == resources && w.next == |resources|
    ensures w.checks == ChecksOf(resources, check)
  {
    var drifted := 0;
    var checks: seq<Check> := [];
    for k := 0 to |resources|
      invariant Faithful(Sweep(resources, k, checks, drifted))
      invariant checks == ChecksOf(resources[..k], check)
    {
      var res := resources[k];
      CheckNextIsFaithful(Sweep(resources, k, checks, drifted), check(res));
      ChecksOfSnoc(resources, k, check);
      if res.status != Active && res.status != Unknown {
        continue;
      }
      checks := checks + [Check(res.id, check(res))];
      if check(res) == Drifted {
        drifted := drifted + 1;
      }
    }
    w := Sweep(resources, |resources|, checks, drifted);
    assert resources[..|resources|] == resources;
  }
}
