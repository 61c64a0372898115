/** `BuildPlanManager.plan` and its `commands_step`: packaging claims compiled to actions, and the
    proof that executing the compiled plan means what interpreting the claims means. */
module PlanCompiler {
  import opened Wrappers
  import opened Text
  import opened FileTree
  import opened Paths
  import opened ContentFilter
  import opened BuildPlan

  /** The library functions `plan` relies on: regular expressions and shell word splitting. */
  datatype Tools = Tools(re: string -> Regex, shlex: string -> seq<string>)

  /** A packaging claim. An absent path, prefix or command list is empty; `None` is no patterns. */
  datatype Claim =
    | PathClaim(path: string)
    | DictClaim(path: string, patterns: Option<seq<string>>, commands: seq<string>, prefix: string)

  /** What `plan` records for the content hash. */
  datatype Source = Source(path: PathArg, rules: Option<seq<Rule>>, prefix: string)

  // ----- commands

  predicate IsZip(command: string) {
    ":zip" <= command
  }

  /** `:zip [path [prefix_in_zip]]` */
  function ZipCall(tools: Tools, command: string): Result<Action, Error> {
    var words := tools.shlex(command);
    if |words| == 3 then Success(Zip(Some(Normpath(words[1])), Trim(words[2]), true))
    else if |words| == 2 then Success(Zip(Some(Normpath(words[1])), "", true))
    else if |words| == 1 then Success(Zip(None, "", true))
    else Failure(BadZipCall(command))
  }

  function Flush(batch: seq<string>): seq<Action> {
    if batch == [] then [] else [Sh(Join(batch, "\n"))]
  }

  /** Consecutive shell commands become one script, cut at every `:zip`. */
  function CompileCommands(tools: Tools, commands: seq<string>, batch: seq<string>): Result<seq<Action>, Error>
    decreases |commands|
  {
    if commands == [] then Success(Flush(batch))
    else if !IsZip(commands[0]) then CompileCommands(tools, commands[1..], batch + [commands[0]])
    else
      match ZipCall(tools, commands[0])
      case Failure(e) => Failure(e)
      case Success(zip) =>
        match CompileCommands(tools, commands[1..], [])
        case Failure(e) => Failure(e)
        case Success(rest) => Success(Flush(batch) + [zip] + rest)
  }

  /** One hashed source for every zip action, when the claim has a path. */
  function ZipSources(actions: seq<Action>, path: PathArg, rules: Option<seq<Rule>>): seq<Source> {
    FlatMap((a: Action) => ZipSourceOf(a, path, rules), actions)
  }

  function ZipSourceOf(a: Action, path: PathArg, rules: Option<seq<Rule>>): seq<Source> {
    if a.Zip? then [Source(path, rules, a.prefix)] else []
  }

  lemma ZipSourcesConcat(a: seq<Action>, b: seq<Action>, path: PathArg, rules: Option<seq<Rule>>)
    ensures ZipSources(a + b, path, rules) == ZipSources(a, path, rules) + ZipSources(b, path, rules)
  {
    FlatMapConcat((a: Action) => ZipSourceOf(a, path, rules), a, b);
  }

  /** What compiling the rest adds to the actions already made. */
  function Extend(made: seq<Action>, rest: Result<seq<Action>, Error>): Result<seq<Action>, Error> {
    match rest
    case Failure(e) => Failure(e)
    case Success(actions) => Success(made + actions)
  }

  lemma ExtendMore(made: seq<Action>, more: seq<Action>, rest: Result<seq<Action>, Error>)
    ensures Extend(made + more, rest) == Extend(made, Extend(more, rest))
  {
    if rest.Success? {
      assert made + more + rest.value == made + (more + rest.value);
    }
  }

  lemma FlushSources(batch: seq<string>, path: PathArg, rules: Option<seq<Rule>>)
    ensures ZipSources(Flush(batch), path, rules) == []
  {
    if batch != [] {
      FlatMapOne((a: Action) => ZipSourceOf(a, path, rules), Sh(Join(batch, "\n")));
    }
  }

  /** Emitting the batch and then a zip action: one more source. */
  lemma EmitZip(made: seq<Action>, batch: seq<string>, zip: Action, path: PathArg, rules: Option<seq<Rule>>)
    requires zip.Zip?
    ensures ZipSources(made + Flush(batch) + [zip], path, rules)
         == ZipSources(made, path, rules) + [Source(path, rules, zip.prefix)]
  {
    ZipSourcesConcat(made + Flush(batch), [zip], path, rules);
    ZipSourcesConcat(made, Flush(batch), path, rules);
    FlushSources(batch, path, rules);
    FlatMapOne((a: Action) => ZipSourceOf(a, path, rules), zip);
  }

  lemma CompileStep(tools: Tools, commands: seq<string>, i: nat, made: seq<Action>, batch: seq<string>)
    requires i < |commands|
    ensures Extend(made, CompileCommands(tools, commands[i..], batch))
         == if !IsZip(commands[i]) then Extend(made, CompileCommands(tools, commands[i + 1..], batch + [commands[i]]))
            else match ZipCall(tools, commands[i])
                 case Failure(e) => Failure(e)
                 case Success(zip) => Extend(made + Flush(batch) + [zip], CompileCommands(tools, commands[i + 1..], []))
  {
    assert commands[i..][0] == commands[i] && commands[i..][1..] == commands[i + 1..];
    var call := ZipCall(tools, commands[i]);
    if IsZip(commands[i]) && call.Success? {
      ExtendMore(made, Flush(batch) + [call.value], CompileCommands(tools, commands[i + 1..], []));
      assert made + Flush(batch) + [call.value] == made + (Flush(batch) + [call.value]);
    }
  }

  method CommandsStep(tools: Tools, path: string, commands: seq<string>, rules: Option<seq<Rule>>)
    returns (r: Result<(seq<Action>, seq<Source>), Error>)
    requires commands != []
    ensures match CompileCommands(tools, commands, [])
            case Failure(e) => r == Failure(e)
            case Success(actions) =>
              r == Success((if path == "" then actions else [SetWorkdir(Normpath(path))] + actions,
                            if path == "" then [] else ZipSources(actions, Normpath(path), rules)))
  {
    var made: seq<Action> := [];
    var sources: seq<Source> := [];
    var batch: seq<string> := [];
    assert commands[0..] == commands;
    assert forall actions: seq<Action> :: [] + actions == actions;
    ghost var compiled := CompileCommands(tools, commands, []);
    for i := 0 to |commands|
      invariant compiled == Extend(made, CompileCommands(tools, commands[i..], batch))
      invariant sources == if path == "" then [] else ZipSources(made, Normpath(path), rules)
    {
      var c := commands[i];
      CompileStep(tools, commands, i, made, batch);
      if IsZip(c) {
        var zip := ZipCall(tools, c);
        if zip.Failure? {
          return Failure(zip.error);
        }
        EmitZip(made, batch, zip.value, Normpath(path), rules);
        if batch != [] {
          made := made + [Sh(Join(batch, "\n"))];
        } else {
          assert made + Flush(batch) == made;
        }
        made := made + [zip.value];
        if path != "" {
          sources := sources + [Source(Normpath(path), rules, zip.value.prefix)];
        }
        batch := [];
      } else {
        batch := batch + [c];
      }
    }
    ZipSourcesConcat(made, Flush(batch), Normpath(path), rules);
    FlushSources(batch, Normpath(path), rules);
    assert commands[|commands|..] == [];
    if batch != [] {
      made := made + [Sh(Join(batch, "\n"))];
    } else {
      assert made + Flush(batch) == made;
    }
    var head := if path == "" then [] else [SetWorkdir(Normpath(path))];
    assert path == "" ==> head + made == made;
    assert compiled == Success(made);
    assert sources == if path == "" then [] else ZipSources(made, Normpath(path), rules);
    return Success((head + made, sources));
  }

  // ----- the meaning of a command list, one command at a time

  /** Commands interpreted one by one: shell lines run as they come, and the exit status left by
      the latest one is looked at only before a `:zip` and at the end. */
  function RunCommands(tools: Tools, sh: Shell, commands: seq<string>, run: Run, ok: bool): Result<Run, Error>
    decreases |commands|
  {
    if commands == [] then (if ok then Success(run) else Failure(ShellFailed))
    else if !IsZip(commands[0]) then
      var (host, s) := RunLines(sh, Split(commands[0], '\n'), run.host, ok);
      RunCommands(tools, sh, commands[1..], run.(host := host), s)
    else if !ok then Failure(ShellFailed)
    else
      match ZipCall(tools, commands[0])
      case Failure(e) => Failure(e)
      case Success(zip) =>
        match ZipSource(run, zip.path, zip.prefix, zip.embedded)
        case Failure(e) => Failure(e)
        case Success(next) => RunCommands(tools, sh, commands[1..], next, true)
  }

  lemma {:induction false} RunLinesConcat(sh: Shell, a: seq<string>, b: seq<string>, host: Host, ok: bool)
    ensures RunLines(sh, a + b, host, ok)
         == var (h, s) := RunLines(sh, a, host, ok); RunLines(sh, b, h, s)
    decreases |a|
  {
    if a == [] {
      assert a + b == b;
    } else {
      var (h, s) := sh(a[0], host, ok);
      RunLinesConcat(sh, a[1..], b, h, s);
      assert (a + b)[1..] == a[1..] + b;
    }
  }

  lemma SplitAllSnoc(batch: seq<string>, command: string)
    ensures SplitAll(batch + [command], '\n') == SplitAll(batch, '\n') + Split(command, '\n')
  {
    FlatMapConcat((p: string) => Split(p, '\n'), batch, [command]);
    FlatMapOne((p: string) => Split(p, '\n'), command);
  }

  lemma {:induction false} ExecActionsConcat(sh: Shell, base: Path, run: Run, a: seq<Action>, b: seq<Action>)
    ensures ExecActions(sh, base, run, a + b)
         == match ExecActions(sh, base, run, a)
            case Failure(e) => Failure(e)
            case Success(next) => ExecActions(sh, base, next, b)
    decreases |a|
  {
    if a == [] {
      assert a + b == b;
    } else {
      assert (a + b)[1..] == a[1..] + b;
      var first := ExecAction(sh, base, run, a[0]);
      if first.Success? {
        ExecActionsConcat(sh, base, first.value, a[1..], b);
      }
    }
  }

  /** Executing a flushed batch runs the lines of its commands. */
  lemma FlushRuns(sh: Shell, base: Path, run: Run, batch: seq<string>)
    ensures var (host, ok) := RunLines(sh, SplitAll(batch, '\n'), run.host, true);
            ExecActions(sh, base, run, Flush(batch)) == if ok then Success(run.(host := host)) else Failure(ShellFailed)
  {
    if batch != [] {
      SplitJoinAll(batch, '\n');
      assert Flush(batch)[1..] == [];
    }
  }

  /** The compiler's invariant: the batch collected so far is what has been run but not yet emitted. */
  lemma {:induction false} CompileInvariant(tools: Tools, sh: Shell, base: Path, run: Run,
                                            commands: seq<string>, batch: seq<string>)
    requires CompileCommands(tools, commands, batch).Success?
    ensures var (host, ok) := RunLines(sh, SplitAll(batch, '\n'), run.host, true);
            ExecActions(sh, base, run, CompileCommands(tools, commands, batch).value)
            == RunCommands(tools, sh, commands, run.(host := host), ok)
    decreases |commands|
  {
    var (host, ok) := RunLines(sh, SplitAll(batch, '\n'), run.host, true);
    FlushRuns(sh, base, run, batch);
    if commands == [] {
    } else if !IsZip(commands[0]) {
      CompileInvariant(tools, sh, base, run, commands[1..], batch + [commands[0]]);
      SplitAllSnoc(batch, commands[0]);
      RunLinesConcat(sh, SplitAll(batch, '\n'), Split(commands[0], '\n'), run.host, true);
    } else {
      var zip := ZipCall(tools, commands[0]).value;
      var rest := CompileCommands(tools, commands[1..], []).value;
      ExecActionsConcat(sh, base, run, Flush(batch), [zip] + rest);
      assert Flush(batch) + [zip] + rest == Flush(batch) + ([zip] + rest);
      if ok {
        var flushed := run.(host := host);
        var zipped := ZipSource(flushed, zip.path, zip.prefix, zip.embedded);
        assert ([zip] + rest)[1..] == rest;
        if zipped.Success? {
          CompileInvariant(tools, sh, base, zipped.value, commands[1..], []);
        }
      }
    }
  }

  /** Batching preserves meaning, on every run, failing ones included: the same final working
      directory, file system and archive, or the same error. */
  lemma BatchingPreservesMeaning(tools: Tools, sh: Shell, base: Path, run: Run, commands: seq<string>)
    requires CompileCommands(tools, commands, []).Success?
    ensures ExecActions(sh, base, run, CompileCommands(tools, commands, []).value)
         == RunCommands(tools, sh, commands, run, true)
  {
    CompileInvariant(tools, sh, base, run, commands, []);
  }

  // ----- each line in a process of its own

  /** Every line starts with a clean status and must succeed. */
  function RunLinesStrictly(sh: Shell, lines: seq<string>, host: Host): Option<Host>
    decreases |lines|
  {
    if lines == [] then Some(host)
    else
      var (h, ok) := sh(lines[0], host, true);
      if ok then RunLinesStrictly(sh, lines[1..], h) else None
  }

  function RunStrictly(tools: Tools, sh: Shell, commands: seq<string>, run: Run): Result<Run, Error>
    decreases |commands|
  {
    if commands == [] then Success(run)
    else if !IsZip(commands[0]) then
      match RunLinesStrictly(sh, Split(commands[0], '\n'), run.host)
      case None => Failure(ShellFailed)
      case Some(host) => RunStrictly(tools, sh, commands[1..], run.(host := host))
    else
      match ZipCall(tools, commands[0])
      case Failure(e) => Failure(e)
      case Success(zip) =>
        match ZipSource(run, zip.path, zip.prefix, zip.embedded)
        case Failure(e) => Failure(e)
        case Success(next) => RunStrictly(tools, sh, commands[1..], next)
  }

  lemma {:induction false} StrictLinesAgree(sh: Shell, lines: seq<string>, host: Host)
    requires RunLinesStrictly(sh, lines, host).Some?
    ensures RunLines(sh, lines, host, true) == (RunLinesStrictly(sh, lines, host).value, true)
    decreases |lines|
  {
    if lines == [] {
    } else {
      StrictLinesAgree(sh, lines[1..], sh(lines[0], host, true).0);
    }
  }

  /** Unless a line fails in its own shell, the compiled plan does what running every line in a shell
      of its own does: the same success, or the same malformed or missing zip. */
  lemma {:induction false} StrictRunsAgree(tools: Tools, sh: Shell, commands: seq<string>, run: Run)
    requires RunStrictly(tools, sh, commands, run) != Failure(ShellFailed)
    ensures RunCommands(tools, sh, commands, run, true) == RunStrictly(tools, sh, commands, run)
    decreases |commands|
  {
    if commands == [] {
    } else if !IsZip(commands[0]) {
      StrictLinesAgree(sh, Split(commands[0], '\n'), run.host);
      StrictRunsAgree(tools, sh, commands[1..],
                      run.(host := RunLinesStrictly(sh, Split(commands[0], '\n'), run.host).value));
    } else {
      var call := ZipCall(tools, commands[0]);
      if call.Success? {
        var zipped := ZipSource(run, call.value.path, call.value.prefix, call.value.embedded);
        if zipped.Success? {
          StrictRunsAgree(tools, sh, commands[1..], zipped.value);
        }
      }
    }
  }

  /** Otherwise they can differ: whatever the shell, a failing line followed in its batch by one that
      leaves status zero goes unnoticed, although a line-by-line run stops there. */
  lemma FailureInsideBatchIsLost(tools: Tools, sh: Shell, a: string, b: string, run: Run)
    requires !IsZip(a) && !IsZip(b) && '\n' !in a && '\n' !in b
    requires !sh(a, run.host, true).1 && sh(b, sh(a, run.host, true).0, false).1
    ensures CompileCommands(tools, [a, b], []).Success?
    ensures ExecActions(sh, run.host.cwd, run, CompileCommands(tools, [a, b], []).value).Success?
    ensures RunStrictly(tools, sh, [a, b], run) == Failure(ShellFailed)
  {
    var (h, _) := sh(a, run.host, true);
    assert [a, b][1..] == [b] && [b][1..] == [] && [a][1..] == [];
    SplitWhole(a, '\n');
    SplitWhole(b, '\n');
    assert CompileCommands(tools, [a, b], []) == CompileCommands(tools, [b], [] + [a]);
    assert CompileCommands(tools, [b], [] + [a]) == CompileCommands(tools, [], [] + [a] + [b]);
    BatchingPreservesMeaning(tools, sh, run.host.cwd, run, [a, b]);
    assert RunLines(sh, [a], run.host, true) == (h, false);
    assert RunCommands(tools, sh, [a, b], run, true) == RunCommands(tools, sh, [b], run.(host := h), false);
    var (h2, _) := sh(b, h, false);
    assert RunLines(sh, [b], h, false) == (h2, true);
    assert RunCommands(tools, sh, [b], run.(host := h), false)
        == RunCommands(tools, sh, [], run.(host := h).(host := h2), true);
  }

  // ----- claims

  function Rules(tools: Tools, patterns: Option<seq<string>>): Option<seq<Rule>> {
    if patterns.None? then None else Some(Compile(patterns.value, tools.re))
  }

  /** Only a non-empty pattern list sets a filter for the zip; any list given is hashed through. */
  function FilterActions(tools: Tools, patterns: Option<seq<string>>): seq<Action> {
    if patterns.Some? && patterns.value != [] then [SetFilter(Compile(patterns.value, tools.re))] else []
  }

  function CompileClaim(tools: Tools, fs: Node, base: Path, claim: Claim): Result<(seq<Action>, seq<Source>), Error> {
    match claim
    case PathClaim(path) =>
      if Lookup(fs, Resolve(base, Normpath(path))).None? then Failure(SourceNotFound(path))
      else Success(([Zip(Some(Normpath(path)), "", false)], [Source(Normpath(path), None, "")]))
    case DictClaim(path, patterns, commands, prefix) =>
      var filter := FilterActions(tools, patterns);
      if commands != [] then
        match CompileCommands(tools, commands, [])
        case Failure(e) => Failure(e)
        case Success(actions) =>
          Success((filter + (if path == "" then actions else [SetWorkdir(Normpath(path))] + actions),
                   if path == "" then [] else ZipSources(actions, Normpath(path), Rules(tools, patterns))))
      else if path != "" then
        Success((filter + [Zip(Some(Normpath(path)), prefix, false)],
                 [Source(Normpath(path), Rules(tools, patterns), prefix)]))
      else Success((filter, []))
  }

  /** A claim that compiles to no action makes no step. */
  function CompileClaims(tools: Tools, fs: Node, base: Path, claims: seq<Claim>)
    : Result<(seq<seq<Action>>, seq<Source>), Error>
    decreases |claims|
  {
    if claims == [] then Success(([], []))
    else
      match CompileClaim(tools, fs, base, claims[0])
      case Failure(e) => Failure(e)
      case Success((step, sources)) =>
        match CompileClaims(tools, fs, base, claims[1..])
        case Failure(e) => Failure(e)
        case Success((steps, more)) =>
          Success(((if step == [] then [] else [step]) + steps, sources + more))
  }

  function Prepend(steps: seq<seq<Action>>, sources: seq<Source>,
                   rest: Result<(seq<seq<Action>>, seq<Source>), Error>)
    : Result<(seq<seq<Action>>, seq<Source>), Error>
  {
    match rest
    case Failure(e) => Failure(e)
    case Success((moreSteps, moreSources)) => Success((steps + moreSteps, sources + moreSources))
  }

  method PlanClaim(tools: Tools, fs: Node, base: Path, claim: Claim)
    returns (r: Result<(seq<Action>, seq<Source>), Error>)
    ensures r == CompileClaim(tools, fs, base, claim)
  {
    match claim
    case PathClaim(path) =>
      if Lookup(fs, Resolve(base, Normpath(path))).None? {
        return Failure(SourceNotFound(path));
      }
      return Success(([Zip(Some(Normpath(path)), "", false)], [Source(Normpath(path), None, "")]));
    case DictClaim(path, patterns, commands, prefix) =>
      var step: seq<Action> := [];
      var sources: seq<Source> := [];
      if patterns.Some? && patterns.value != [] {
        step := [SetFilter(Compile(patterns.value, tools.re))];
      }
      if commands != [] {
        var compiled := CommandsStep(tools, path, commands, Rules(tools, patterns));
        if compiled.Failure? {
          return Failure(compiled.error);
        }
        step := step + compiled.value.0;
        sources := compiled.value.1;
      } else if path != "" {
        step := step + [Zip(Some(Normpath(path)), prefix, false)];
        sources := [Source(Normpath(path), Rules(tools, patterns), prefix)];
      }
      return Success((step, sources));
  }

  class BuildPlanManager {
    /** `None` until a plan has recorded a source; later plans add to what is there. */
    var sourcePaths: Option<seq<Source>>

    constructor ()
      ensures sourcePaths == None
    {
      sourcePaths := None;
    }

    method Plan(tools: Tools, fs: Node, base: Path, claims: seq<Claim>) returns (r: Result<seq<seq<Action>>, Error>)
      modifies this
      ensures match CompileClaims(tools, fs, base, claims)
              case Failure(e) => r == Failure(e) && sourcePaths == old(sourcePaths)
              case Success((plan, sources)) =>
                r == Success(plan) && sourcePaths == Recorded(old(sourcePaths), sources)
    {
      var plan: seq<seq<Action>> := [];
      var sources: seq<Source> := [];
      ghost var all := CompileClaims(tools, fs, base, claims);
      assert claims[0..] == claims;
      PrependNone(all);
      for i := 0 to |claims|
        invariant sourcePaths == old(sourcePaths)
        invariant all == Prepend(plan, sources, CompileClaims(tools, fs, base, claims[i..]))
      {
        var compiled := PlanClaim(tools, fs, base, claims[i]);
        assert claims[i..][0] == claims[i] && claims[i..][1..] == claims[i + 1..];
        if compiled.Failure? {
          return Failure(compiled.error);
        }
        var (step, found) := compiled.value;
        PrependMore(plan, sources, if step == [] then [] else [step], found,
                    CompileClaims(tools, fs, base, claims[i + 1..]));
        sources := sources + found;
        if step != [] {
          plan := plan + [step];
        } else {
          assert plan + [] == plan;
        }
      }
      assert claims[|claims|..] == [] && plan + [] == plan && sources + [] == sources;
      Record(sources);
      return Success(plan);
    }

    method Record(sources: seq<Source>)
      modifies this
      ensures sourcePaths == Recorded(old(sourcePaths), sources)
    {
      for i := 0 to |sources|
        invariant sourcePaths == Recorded(old(sourcePaths), sources[..i])
      {
        assert sources[..i + 1] == sources[..i] + [sources[i]];
        if sourcePaths.None? {
          sourcePaths := Some([]);
        }
        ghost var before := sourcePaths.value;
        sourcePaths := Some(sourcePaths.value + [sources[i]]);
        if old(sourcePaths).Some? {
          assert before + [sources[i]] == old(sourcePaths).value + sources[..i + 1];
        }
      }
      assert sources[..|sources|] == sources;
    }
  }

  function Recorded(before: Option<seq<Source>>, sources: seq<Source>): Option<seq<Source>> {
    if sources == [] then before
    else if before.None? then Some(sources)
    else Some(before.value + sources)
  }

  lemma PrependNone(rest: Result<(seq<seq<Action>>, seq<Source>), Error>)
    ensures Prepend([], [], rest) == rest
  {
    if rest.Success? {
      assert [] + rest.value.0 == rest.value.0 && [] + rest.value.1 == rest.value.1;
    }
  }

  lemma PrependMore(steps: seq<seq<Action>>, sources: seq<Source>, step: seq<seq<Action>>, found: seq<Source>,
                    rest: Result<(seq<seq<Action>>, seq<Source>), Error>)
    ensures Prepend(steps, sources, Prepend(step, found, rest)) == Prepend(steps + step, sources + found, rest)
  {
    if rest.Success? {
      assert steps + (step + rest.value.0) == steps + step + rest.value.0;
      assert sources + (found + rest.value.1) == sources + found + rest.value.1;
    }
  }

  // ----- the meaning of claims

  /** What a claim does to the world, without actions, steps or batches. */
  function RunClaim(tools: Tools, sh: Shell, base: Path, w: World, claim: Claim): Result<World, Error> {
    match claim
    case PathClaim(path) =>
      ToWorld(ZipSource(StepStart(base, w), Some(Normpath(path)), "", false))
    case DictClaim(path, patterns, commands, prefix) =>
      var filter := if patterns.Some? && patterns.value == [] then None else Rules(tools, patterns);
      if commands != [] then
        var cwd := if path == "" then base else Resolve(base, Normpath(path));
        ToWorld(RunCommands(tools, sh, commands, Run(Host(cwd, w.fs), filter, w.archive), true))
      else if path != "" then
        ToWorld(ZipSource(Run(Host(base, w.fs), filter, w.archive), Some(Normpath(path)), prefix, false))
      else Success(w)
  }

  function RunClaims(tools: Tools, sh: Shell, base: Path, w: World, claims: seq<Claim>): Result<World, Error>
    decreases |claims|
  {
    if claims == [] then Success(w)
    else
      match RunClaim(tools, sh, base, w, claims[0])
      case Failure(e) => Failure(e)
      case Success(next) => RunClaims(tools, sh, base, next, claims[1..])
  }

  lemma ClaimCompiles(tools: Tools, sh: Shell, base: Path, fs: Node, w: World, claim: Claim)
    requires CompileClaim(tools, fs, base, claim).Success?
    ensures ToWorld(ExecActions(sh, base, StepStart(base, w), CompileClaim(tools, fs, base, claim).value.0))
         == RunClaim(tools, sh, base, w, claim)
  {
    var actions := CompileClaim(tools, fs, base, claim).value.0;
    var start := StepStart(base, w);
    match claim
    case PathClaim(path) =>
      assert actions[1..] == [];
    case DictClaim(path, patterns, commands, prefix) =>
      var filter := FilterActions(tools, patterns);
      var filtered := start.(filter := if filter == [] then None else Rules(tools, patterns));
      assert ExecActions(sh, base, start, filter) == Success(filtered) by {
        if filter != [] {
          assert filter[1..] == [];
        }
      }
      if commands != [] {
        var compiled := CompileCommands(tools, commands, []).value;
        var rest := if path == "" then compiled else [SetWorkdir(Normpath(path))] + compiled;
        ExecActionsConcat(sh, base, start, filter, rest);
        var cwd := if path == "" then base else Resolve(base, Normpath(path));
        var run := Run(Host(cwd, w.fs), filtered.filter, w.archive);
        if path != "" {
          assert rest[1..] == compiled;
        }
        BatchingPreservesMeaning(tools, sh, base, run, commands);
      } else if path != "" {
        var zip := [Zip(Some(Normpath(path)), prefix, false)];
        assert zip[1..] == [];
        ExecActionsConcat(sh, base, start, filter, zip);
      }
  }

  /** Executing the plan of any claims does to the file system and the archive what the claims mean,
      errors included: no step leaks its working directory or filter into the next. */
  lemma {:induction false} PlanPreservesMeaning(tools: Tools, sh: Shell, base: Path, fs: Node, w: World,
                                                claims: seq<Claim>)
    requires CompileClaims(tools, fs, base, claims).Success?
    ensures ExecPlan(sh, base, w, CompileClaims(tools, fs, base, claims).value.0)
         == RunClaims(tools, sh, base, w, claims)
    decreases |claims|
  {
    if claims == [] {
    } else {
      var step := CompileClaim(tools, fs, base, claims[0]).value.0;
      var steps := CompileClaims(tools, fs, base, claims[1..]).value.0;
      ClaimCompiles(tools, sh, base, fs, w, claims[0]);
      ExecPlanCons(sh, base, w, step, steps);
      var next := RunClaim(tools, sh, base, w, claims[0]);
      if next.Success? {
        PlanPreservesMeaning(tools, sh, base, fs, next.value, claims[1..]);
      }
    }
  }

  lemma {:induction false} ExecPlanCons(sh: Shell, base: Path, w: World, step: seq<Action>, steps: seq<seq<Action>>)
    ensures ExecPlan(sh, base, w, (if step == [] then [] else [step]) + steps)
         == match ToWorld(ExecActions(sh, base, StepStart(base, w), step))
            case Failure(e) => Failure(e)
            case Success(next) => ExecPlan(sh, base, next, steps)
  {
    if step == [] {
      assert [] + steps == steps;
    } else {
      assert ([step] + steps)[1..] == steps;
    }
  }
}
