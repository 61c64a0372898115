/** Whole claims: what their step does, which sources they record, and what the hash is fed for a
    recorded source. */
module ClaimLaws {
  import opened Wrappers
  import opened Text
  import opened Ordering
  import opened FileTree
  import opened Paths
  import opened ContentFilter
  import opened BuildPlan
  import opened PlanCompiler
  import opened ContentHash
  import opened ArchiveNames
  import opened PathLaws
  import opened PackagingLaws
  import TreeLaws

  // ----- patterns

  /** One rule per pattern; a leading `!` makes it excluding and is not part of the expression. */
  lemma {:induction false} PatternsAreRules(patterns: seq<string>, re: string -> Regex)
    ensures |Compile(patterns, re)| == |patterns|
    ensures forall k :: 0 <= k < |patterns| ==>
              && (Compile(patterns, re)[k].neg <==> "!" <= patterns[k])
              && Compile(patterns, re)[k].matches == re(if "!" <= patterns[k] then patterns[k][1..] else patterns[k])
  {
    if patterns == [] {
    } else {
      PatternsAreRules(patterns[1..], re);
      forall k | 0 < k < |patterns| ensures Compile(patterns, re)[k] == Compile(patterns[1..], re)[k - 1] {
      }
    }
  }

  /** The rules of the patterns, if there are any. */
  function FilterOf(tools: Tools, patterns: Option<seq<string>>): Option<seq<Rule>> {
    if patterns.Some? && patterns.value != [] then Some(Compile(patterns.value, tools.re)) else None
  }

  // ----- command lists

  /** A list compiles exactly if every `:zip` in it has one to three words. */
  lemma {:induction false} CompilesExactly(tools: Tools, commands: seq<string>, batch: seq<string>)
    ensures CompileCommands(tools, commands, batch).Success?
       <==> forall c :: c in commands && ":zip" <= c ==> 1 <= |tools.shlex(c)| <= 3
    decreases |commands|
  {
    if commands == [] {
    } else {
      CompilesExactly(tools, commands[1..], if IsZip(commands[0]) then [] else batch + [commands[0]]);
      assert forall c :: c in commands <==> c == commands[0] || c in commands[1..];
    }
  }

  /** The prefix a command's zip goes under: the trimmed third word. */
  function ZipPrefix(tools: Tools, command: string): seq<string> {
    if ":zip" <= command then
      [if |tools.shlex(command)| == 3 then Trim(tools.shlex(command)[2]) else ""]
    else []
  }

  function ZipPrefixes(tools: Tools, commands: seq<string>): seq<string> {
    FlatMap((c: string) => ZipPrefix(tools, c), commands)
  }

  lemma {:induction false} SourcesAreZips(tools: Tools, commands: seq<string>, batch: seq<string>,
                                          path: PathArg, rules: Option<seq<Rule>>)
    requires CompileCommands(tools, commands, batch).Success?
    ensures ZipSources(CompileCommands(tools, commands, batch).value, path, rules)
         == Map((p: string) => Source(path, rules, p), ZipPrefixes(tools, commands))
    decreases |commands|
  {
    var source := (p: string) => Source(path, rules, p);
    if commands == [] {
      FlushSources(batch, path, rules);
    } else if !IsZip(commands[0]) {
      SourcesAreZips(tools, commands[1..], batch + [commands[0]], path, rules);
      assert [] + ZipPrefixes(tools, commands[1..]) == ZipPrefixes(tools, commands[1..]);
    } else {
      var zip := ZipCall(tools, commands[0]).value;
      var rest := CompileCommands(tools, commands[1..], []).value;
      SourcesAreZips(tools, commands[1..], [], path, rules);
      EmitZip([], batch, zip, path, rules);
      assert [] + Flush(batch) == Flush(batch);
      ZipSourcesConcat(Flush(batch) + [zip], rest, path, rules);
      FlatMapEmpty((a: Action) => ZipSourceOf(a, path, rules), []);
      MapConcat(source, ZipPrefix(tools, commands[0]), ZipPrefixes(tools, commands[1..]));
      assert Map(source, ZipPrefix(tools, commands[0])) == [Source(path, rules, zip.prefix)];
    }
  }

  // ----- claims

  /** A claim that is a path: it must be there, is packed unfiltered under no prefix, and recorded. */
  lemma {:induction false} PathClaimMeans(tools: Tools, sh: Shell, base: Path, fs: Node, w: World, path: string)
    requires w.fs.Dir? && WellFormed(w.fs)
    ensures var c := CompileClaim(tools, fs, base, PathClaim(path));
            if Lookup(fs, Target(base, path)).None? then c == Failure(SourceNotFound(path))
            else
              && c.Success? && c.value.1 == [Source(Normpath(path), None, "")]
              && Zips(Run(Host(base, w.fs), None, w.archive), Target(base, path), "", false,
                      ExecActions(sh, base, StepStart(base, w), c.value.0))
  {
    WrittenTarget(base, path);
    OneAction(sh, base, StepStart(base, w), Zip(Some(Normpath(path)), "", false));
    ZipSourceZips(StepStart(base, w), Some(Normpath(path)), "", false);
  }

  lemma AfterFilter(tools: Tools, sh: Shell, base: Path, run: Run, patterns: Option<seq<string>>, rest: seq<Action>)
    requires run.filter.None?
    ensures ExecActions(sh, base, run, FilterActions(tools, patterns) + rest)
         == ExecActions(sh, base, run.(filter := FilterOf(tools, patterns)), rest)
  {
    var actions := FilterActions(tools, patterns);
    ExecActionsConcat(sh, base, run, actions, rest);
    if actions != [] {
      OneAction(sh, base, run, actions[0]);
      assert actions == [actions[0]];
    } else {
      assert run == run.(filter := FilterOf(tools, patterns));
    }
  }

  /** A claim with a path and no commands: packed under its prefix, filtered by its patterns if it has
      any, and recorded with prefix and patterns; an empty pattern list is recorded too. */
  lemma {:induction false} PackingClaimMeans(tools: Tools, sh: Shell, base: Path, fs: Node, w: World,
                                             path: string, patterns: Option<seq<string>>, prefix: string)
    requires w.fs.Dir? && WellFormed(w.fs) && path != ""
    ensures var c := CompileClaim(tools, fs, base, DictClaim(path, patterns, [], prefix));
            && c.Success?
            && c.value.1 == [Source(Normpath(path),
                                    if patterns.None? then None else Some(Compile(patterns.value, tools.re)), prefix)]
            && Zips(Run(Host(base, w.fs), FilterOf(tools, patterns), w.archive), Target(base, path), prefix, false,
                    ExecActions(sh, base, StepStart(base, w), c.value.0))
  {
    var run := Run(Host(base, w.fs), FilterOf(tools, patterns), w.archive);
    WrittenTarget(base, path);
    AfterFilter(tools, sh, base, StepStart(base, w), patterns, [Zip(Some(Normpath(path)), prefix, false)]);
    OneAction(sh, base, run, Zip(Some(Normpath(path)), prefix, false));
    ZipSourceZips(run, Some(Normpath(path)), prefix, false);
  }

  /** A claim with commands: they are done from its path, or the base without one, under its patterns;
      every `:zip` records the claim's path, with its own prefix. Without path or commands nothing
      is packed. */
  lemma {:induction false} CommandClaimMeans(tools: Tools, sh: Shell, base: Path, fs: Node, w: World, path: string,
                                             patterns: Option<seq<string>>, commands: seq<string>, prefix: string)
    requires commands != []
    ensures var c := CompileClaim(tools, fs, base, DictClaim(path, patterns, commands, prefix));
            var plan := CompileCommands(tools, commands, []);
            var cwd := if path == "" then base else Target(base, path);
            var rules := if patterns.None? then None else Some(Compile(patterns.value, tools.re));
            && (plan.Failure? ==> c == Failure(plan.error))
            && (plan.Success? ==>
                  && c.Success?
                  && ExecActions(sh, base, StepStart(base, w), c.value.0)
                     == Executed(sh, base, Run(Host(cwd, w.fs), FilterOf(tools, patterns), w.archive), plan)
                  && c.value.1
                     == if path == "" then []
                        else Map((p: string) => Source(Normpath(path), rules, p), ZipPrefixes(tools, commands)))
  {
    var plan := CompileCommands(tools, commands, []);
    if plan.Success? {
      var head := if path == "" then [] else [SetWorkdir(Normpath(path))];
      var filtered := StepStart(base, w).(filter := FilterOf(tools, patterns));
      assert [] + plan.value == plan.value;
      AfterFilter(tools, sh, base, StepStart(base, w), patterns, head + plan.value);
      ExecActionsConcat(sh, base, filtered, head, plan.value);
      if path != "" {
        WrittenTarget(base, path);
        OneAction(sh, base, filtered, SetWorkdir(Normpath(path)));
        SourcesAreZips(tools, commands, [], Normpath(path), Rules(tools, patterns));
      }
    }
  }

  lemma {:induction false} IdleClaimMeans(tools: Tools, sh: Shell, base: Path, fs: Node, w: World,
                                          patterns: Option<seq<string>>, prefix: string)
    ensures var c := CompileClaim(tools, fs, base, DictClaim("", patterns, [], prefix));
            && c.Success? && c.value.1 == []
            && ToWorld(ExecActions(sh, base, StepStart(base, w), c.value.0)) == Success(w)
  {
    AfterFilter(tools, sh, base, StepStart(base, w), patterns, []);
    assert FilterActions(tools, patterns) + [] == FilterActions(tools, patterns);
  }

  lemma {:induction false} ExecPlanConcat(sh: Shell, base: Path, w: World, a: seq<seq<Action>>, b: seq<seq<Action>>)
    ensures ExecPlan(sh, base, w, a + b)
         == Then(ExecPlan(sh, base, w, a), (next: World) => ExecPlan(sh, base, next, b))
    decreases |a|
  {
    if a == [] {
      assert a + b == b;
    } else {
      assert (a + b)[0] == a[0] && (a + b)[1..] == a[1..] + b;
      var next := ToWorld(ExecActions(sh, base, StepStart(base, w), a[0]));
      if next.Success? {
        ExecPlanConcat(sh, base, next.value, a[1..], b);
      }
    }
  }

  /** Claims are compiled one by one: one step each, unless it has no action, and their sources in
      order; the first that fails decides. */
  lemma {:induction false} ClaimsInOrder(tools: Tools, sh: Shell, base: Path, fs: Node, w: World,
                                         claim: Claim, rest: seq<Claim>)
    ensures var first := CompileClaim(tools, fs, base, claim);
            var others := CompileClaims(tools, fs, base, rest);
            var all := CompileClaims(tools, fs, base, [claim] + rest);
            if first.Failure? then all == Failure(first.error)
            else if others.Failure? then all == Failure(others.error)
            else
              && all.Success? && all.value.1 == first.value.1 + others.value.1
              && ExecPlan(sh, base, w, all.value.0)
                 == Then(ToWorld(ExecActions(sh, base, StepStart(base, w), first.value.0)),
                         (next: World) => ExecPlan(sh, base, next, others.value.0))
  {
    assert ([claim] + rest)[1..] == rest;
    var first := CompileClaim(tools, fs, base, claim);
    var others := CompileClaims(tools, fs, base, rest);
    if first.Success? && others.Success? {
      ExecPlanCons(sh, base, w, first.value.0, others.value.0);
    }
  }

  // ----- the hash

  lemma ResolveUnder(base: Path, a: PathArg, path: Path)
    ensures Resolve(base, Under(a, path)) == Resolve(base, a) + path
  {
    if !a.isAbs {
      var head := if a.ups <= |base| then base[..|base| - a.ups] else [];
      ConcatAssociates(head, a.parts, path);
    }
  }

  /** The text hashed for something below a source leads to it, and is relative exactly if the source's
      path is. */
  lemma HashedTextLeads(base: Path, a: PathArg, path: Path)
    requires Normal(a) && (path == [] || ProperPath(path))
    ensures Target(base, HashedText(a, path)) == Resolve(base, a) + path
    ensures "/" <= HashedText(a, path) <==> a.isAbs
  {
    TextNormalises(a);
    ResolveUnder(base, a, path);
    WrittenTarget(base, HashedText(a, path));
    if path == [] {
      assert Under(a, path) == a;
    } else {
      JoinedNormalises(PathArgText(a), path);
    }
    UnderIsAbs(a, path);
    NormpathNormal(HashedText(a, path));
  }

  lemma UnderIsAbs(a: PathArg, path: Path)
    ensures Under(a, path).isAbs == a.isAbs
  {
  }

  /** The update for a location below a source: its text, and of a file its content. */
  ghost predicate UpdateOf(u: Update, t: Node, base: Path, loc: Path, isAbs: bool, path: Path) {
    && Target(base, u.text) == loc + path && ("/" <= u.text <==> isAbs)
    && match Lookup(t, path)
       case None => false
       case Some(File(bytes)) => u == PathAndContent(u.text, loc + path, Some(bytes))
       case Some(Dir(_)) => u == PathOnly(u.text)
  }

  ghost predicate UpdatesOf(updates: seq<Update>, t: Node, base: Path, loc: Path, isAbs: bool, paths: seq<Path>) {
    && |updates| == |paths|
    && forall i :: 0 <= i < |paths| ==> UpdateOf(updates[i], t, base, loc, isAbs, paths[i])
  }

  /** The files below a directory, each once, by the text of their relative path. */
  ghost predicate AllFiles(t: Node, paths: seq<Path>) {
    && Distinct(paths) && SortedBy(paths, PathText)
    && forall path :: path in paths <==> path != [] && Lookup(t, path).Some? && Lookup(t, path).value.File?
  }

  /** What the hash is fed for a source recorded from a written path. */
  ghost predicate Hashes(updates: seq<Update>, fs: Node, base: Path, written: string,
                         rules: Option<seq<Rule>>, prefix: string) {
    var loc := Target(base, written);
    var isAbs := "/" <= written;
    match Lookup(fs, loc)
    case None =>
      if rules.Some? then updates == []
      else |updates| == 1 && updates[0] == PathAndContent(updates[0].text, loc, None)
           && Target(base, updates[0].text) == loc
    case Some(File(bytes)) =>
      if rules.Some? && !Kept(rules.value, SingleFileText(prefix, Basename(loc))) then updates == []
      else UpdatesOf(updates, File(bytes), base, loc, isAbs, [[]])
    case Some(t) =>
      exists paths: seq<Path> ::
        && UpdatesOf(updates, t, base, loc, isAbs, paths)
        && if rules.Some? then Selected(t, rules, prefix, paths) else AllFiles(t, paths)
  }

  lemma EntryUpdateIs(e: Entry, t: Node, base: Path, a: PathArg)
    requires Normal(a) && (e.path == [] || ProperPath(e.path))
    requires Lookup(t, e.path).Some? && Lookup(t, e.path).value.Dir? == e.isDir
    ensures UpdateOf(EntryUpdate(e, t, Place(a, Resolve(base, a))), t, base, Resolve(base, a), a.isAbs, e.path)
  {
    HashedTextLeads(base, a, e.path);
  }

  lemma EntriesUpdate(es: seq<Entry>, t: Node, base: Path, a: PathArg)
    requires Normal(a)
    requires forall e :: e in es ==>
               && (e.path == [] || ProperPath(e.path))
               && Lookup(t, e.path).Some? && Lookup(t, e.path).value.Dir? == e.isDir
    ensures UpdatesOf(EntryUpdates(es, t, Place(a, Resolve(base, a))), t, base, Resolve(base, a), a.isAbs,
                      Map((e: Entry) => e.path, es))
  {
    forall i | 0 <= i < |es|
      ensures UpdateOf(EntryUpdate(es[i], t, Place(a, Resolve(base, a))), t, base, Resolve(base, a), a.isAbs,
                       es[i].path)
    {
      assert es[i] in es;
      EntryUpdateIs(es[i], t, base, a);
    }
  }

  lemma ListedIsAllFiles(t: Node)
    requires t.Dir? && WellFormed(t)
    ensures AllFiles(t, Listed(t))
  {
    var es := Below([], t);
    ListFilesIsExact(t, t) by { SameAsItself(t); }
    TreeLaws.WalkIsExact(t);
    SortByCorrect(FilePaths(es), PathText);
    PathsDistinct(es);
    TreeLaws.MultisetDistinct(FilePaths(es), Listed(t));
  }

  lemma {:induction false} SameAsItself(t: Node)
    requires WellFormed(t)
    ensures SameTree(t, t)
  {
    if t.Dir? {
      forall i | 0 <= i < |t.children|
        ensures Find(t.children, t.children[i].name) == Some(t.children[i].node)
        ensures SameTree(t.children[i].node, t.children[i].node)
      {
        TreeLaws.FindAt(t.children, i);
        SameAsItself(t.children[i].node);
      }
    }
  }

  lemma {:induction false} PathsDistinct(es: seq<Entry>)
    requires Distinct(es)
    ensures Distinct(FilePaths(es))
  {
    if es == [] {
    } else {
      TreeLaws.DistinctTail(es);
      PathsDistinct(es[1..]);
      if !es[0].isDir {
        FilePathsMembers(es[1..], es[0].path);
        assert es[0] == Entry(es[0].path, false);
      }
      TreeLaws.DistinctConcat(FilePath(es[0]), FilePaths(es[1..]));
    }
  }

  lemma ListedUpdates(t: Node, base: Path, a: PathArg)
    requires Normal(a) && t.Dir? && WellFormed(t)
    ensures UpdatesOf(FileUpdates(Listed(t), t, Place(a, Resolve(base, a))), t, base, Resolve(base, a), a.isAbs,
                      Listed(t))
  {
    ListedIsAllFiles(t);
    var at := Place(a, Resolve(base, a));
    forall i | 0 <= i < |Listed(t)|
      ensures UpdateOf(FileUpdates(Listed(t), t, at)[i], t, base, Resolve(base, a), a.isAbs, Listed(t)[i])
    {
      assert Listed(t)[i] in Listed(t);
      FoundIsProper(t, Listed(t)[i]);
      EntryUpdateIs(Entry(Listed(t)[i], false), t, base, a);
    }
  }

  lemma {:induction false} HashExact(fs: Node, base: Path, written: string, rules: Option<seq<Rule>>, prefix: string)
    requires fs.Dir? && WellFormed(fs)
    ensures Hashes(SourceUpdates(fs, base, Source(Normpath(written), rules, prefix)), fs, base, written, rules, prefix)
  {
    var a := Normpath(written);
    var loc := Resolve(base, a);
    var at := Place(a, loc);
    WrittenTarget(base, written);
    NormpathNormal(written);
    var found := Lookup(fs, loc);
    if found.None? {
      HashedTextLeads(base, a, []);
      assert loc + [] == loc;
    } else if found.value.File? {
      var e := Entry([], false);
      EntriesUpdate([e], found.value, base, a);
      assert Map((e: Entry) => e.path, [e]) == [[]];
      assert EntryUpdates([e], found.value, at) == [EntryUpdate(e, found.value, at)];
      assert loc + [] == loc;
    } else {
      LookupWellFormed(fs, loc);
      if rules.Some? {
        WalkedIsSelected(found.value, rules, prefix);
        EntriesUpdate(Walked(found.value, rules, prefix), found.value, base, a);
      } else {
        ListedIsAllFiles(found.value);
        ListedUpdates(found.value, base, a);
      }
    }
  }

  lemma DotPrefix(name: string)
    ensures JoinPath(".", name) == "./" + name
  {
    assert !EndsWith(".", "/");
  }

  /** Sources are hashed one after the other, in the order in which they were recorded. */
  lemma SourcesHashedInOrder(fs: Node, base: Path, first: Source, rest: seq<Source>)
    ensures HashUpdates(fs, base, [first] + rest) == SourceUpdates(fs, base, first) + HashUpdates(fs, base, rest)
  {
    FlatMapStep((s: Source) => SourceUpdates(fs, base, s), first, rest);
  }

  /** A single file is matched by its name under the normalised prefix; only the prefix `.` shows. */
  lemma SingleFileTextExact(prefix: string, name: string)
    requires ProperName(name)
    ensures SingleFileText(prefix, name)
         == if prefix != "" && PathArgText(Normpath(prefix)) == "." then "./" + name
            else PathArgText(EntryArg(prefix, [name]))
  {
    var a := Normpath(prefix);
    assert PathText([name]) == name && ProperPath([name]);
    if prefix == "" {
      PathTextNormal([name]);
    } else if PathArgText(a) == "." {
      DotPrefix(name);
    } else {
      NormpathNormal(prefix);
      JoinedText(a, [name]);
    }
  }
}
