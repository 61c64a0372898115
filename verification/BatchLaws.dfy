/** When joining shell commands into scripts is harmless: the exact lists of commands for which the
    compiled plan does, in every shell and from every state, what running each line in a shell of its
    own does. */
module BatchLaws {
  import opened Wrappers
  import opened Text
  import opened FileTree
  import opened Paths
  import opened BuildPlan
  import opened PlanCompiler

  predicate IsShell(command: string) {
    !IsZip(command)
  }

  /** Every script will be one line: no shell command has several, and none follows another. */
  predicate OneLineScripts(commands: seq<string>) {
    forall i :: 0 <= i < |commands| && IsShell(commands[i]) ==>
      '\n' !in commands[i] && (i + 1 < |commands| ==> IsZip(commands[i + 1]))
  }

  /** Batched and line by line, the same result. */
  ghost predicate Agrees(tools: Tools, sh: Shell, commands: seq<string>, run: Run) {
    RunCommands(tools, sh, commands, run, true) == RunStrictly(tools, sh, commands, run)
  }

  /** Line by line a line fails, batched none is seen to fail. */
  ghost predicate Parts(tools: Tools, sh: Shell, commands: seq<string>, run: Run) {
    && RunStrictly(tools, sh, commands, run) == Failure(ShellFailed)
    && RunCommands(tools, sh, commands, run, true) != Failure(ShellFailed)
  }

  lemma OneLineTail(commands: seq<string>)
    requires OneLineScripts(commands) && commands != []
    ensures OneLineScripts(commands[1..])
  {
    var rest := commands[1..];
    forall i | 0 <= i < |rest| && IsShell(rest[i])
      ensures '\n' !in rest[i] && (i + 1 < |rest| ==> IsZip(rest[i + 1]))
    {
      assert rest[i] == commands[i + 1];
      if i + 1 < |rest| {
        assert rest[i + 1] == commands[i + 2];
      }
    }
  }

  lemma OneLine(sh: Shell, line: string, host: Host, ok: bool)
    requires '\n' !in line
    ensures RunLines(sh, Split(line, '\n'), host, ok) == sh(line, host, ok)
    ensures RunLinesStrictly(sh, Split(line, '\n'), host)
         == var (h, s) := sh(line, host, true); if s then Some(h) else None
  {
    SplitWhole(line, '\n');
    assert [line][1..] == [];
  }

  /** One-line scripts behave the same in every shell and from every state. */
  lemma {:induction false} OneLineScriptsAgree(tools: Tools, sh: Shell, commands: seq<string>, run: Run)
    requires OneLineScripts(commands)
    ensures Agrees(tools, sh, commands, run)
    decreases |commands|
  {
    if commands == [] {
    } else if IsZip(commands[0]) {
      OneLineTail(commands);
      var call := ZipCall(tools, commands[0]);
      if call.Success? {
        var zipped := ZipSource(run, call.value.path, call.value.prefix, call.value.embedded);
        if zipped.Success? {
          OneLineScriptsAgree(tools, sh, commands[1..], zipped.value);
        }
      }
    } else {
      OneLineTail(commands);
      OneLine(sh, commands[0], run.host, true);
      var (h, s) := sh(commands[0], run.host, true);
      if s {
        OneLineScriptsAgree(tools, sh, commands[1..], run.(host := h));
      } else {
        StopsAtScriptEnd(tools, sh, commands[1..], run.(host := h));
      }
    }
  }

  /** A failed script stops the run where it ends. */
  lemma StopsAtScriptEnd(tools: Tools, sh: Shell, commands: seq<string>, run: Run)
    requires commands == [] || IsZip(commands[0])
    ensures RunCommands(tools, sh, commands, run, false) == Failure(ShellFailed)
  {
  }

  // ----- a shell that counts its lines

  /** The shell leaves no directory with two entries of a name. */
  ghost predicate KeepsWellFormed(sh: Shell) {
    forall line, host: Host, ok :: WellFormed(host.fs) ==> WellFormed(sh(line, host, ok).0.fs)
  }

  /** A name that no child has. */
  function FreshName(cs: seq<Child>): string {
    seq(|FlatMap((n: string) => n, Names(cs))| + 1, _ => 'x')
  }

  /** A file of its own, as long as the count. */
  function Counter(cs: seq<Child>, count: nat): Child {
    Child(FreshName(cs), File(seq(count, _ => 0)))
  }

  /** A file system that holds what the given one holds, and a counter last. */
  function Marked(fs: Node, count: nat): Node {
    var cs := if fs.Dir? then fs.children else [];
    Dir(cs + [Counter(cs, count)])
  }

  lemma FreshIsNew(cs: seq<Child>)
    ensures FreshName(cs) !in Names(cs) && ProperName(FreshName(cs))
  {
    var all := |FlatMap((n: string) => n, Names(cs))|;
    forall n | n in Names(cs) ensures n != FreshName(cs) {
      PieceOfFlatMap((n: string) => n, Names(cs), n);
    }
    assert forall c :: c in FreshName(cs) ==> c == 'x';
    assert FreshName(cs)[0] == 'x';
  }

  lemma MarkedIsWellFormed(fs: Node, count: nat)
    requires WellFormed(fs)
    ensures WellFormed(Marked(fs, count))
  {
    var cs := if fs.Dir? then fs.children else [];
    FreshIsNew(cs);
    var more := cs + [Counter(cs, count)];
    assert Names(more) == Names(cs) + [FreshName(cs)];
    forall i | 0 <= i < |more| ensures ProperName(more[i].name) && WellFormed(more[i].node) {
      if i < |cs| {
        assert more[i] == cs[i];
      }
    }
  }

  /** The host after some lines: unchanged at first. */
  function Counted(start: Host, count: nat): Host {
    if count == 0 then start else Host(start.cwd, Marked(start.fs, count))
  }

  function CountOf(start: Host, host: Host): nat {
    if host == start || host.fs.File? || host.fs.children == [] then 0
    else
      match host.fs.children[|host.fs.children| - 1].node
      case File(bytes) => |bytes|
      case Dir(_) => 0
  }

  /** Every line counts, and only the line at one count fails. */
  function CountingShell(start: Host, bad: nat): Shell {
    (line, host, ok) => (Counted(start, CountOf(start, host) + 1), CountOf(start, host) != bad)
  }

  /** Every line takes the shell from one host of a row to the next, and only the one at `bad` fails. */
  ghost predicate Counts(sh: Shell, at: nat -> Host, bad: nat) {
    forall line, count: nat, ok :: sh(line, at(count), ok) == (at(count + 1), count != bad)
  }

  lemma MarkedDiffers(fs: Node, count: nat)
    ensures Marked(fs, count) != fs
  {
    if fs.Dir? {
      assert |Marked(fs, count).children| == |fs.children| + 1;
    }
  }

  lemma CountIsRead(start: Host, count: nat)
    ensures CountOf(start, Counted(start, count)) == count
  {
    MarkedDiffers(start.fs, count);
  }

  lemma CountingShellCounts(start: Host, bad: nat)
    ensures Counts(CountingShell(start, bad), (count: nat) => Counted(start, count), bad)
  {
    var sh, at := CountingShell(start, bad), (count: nat) => Counted(start, count);
    forall line, count: nat, ok ensures sh(line, at(count), ok) == (at(count + 1), count != bad) {
      CountIsRead(start, count);
    }
  }

  lemma CountingShellKeeps(start: Host, bad: nat)
    requires WellFormed(start.fs)
    ensures KeepsWellFormed(CountingShell(start, bad))
  {
    forall line, host: Host, ok | WellFormed(host.fs)
      ensures WellFormed(CountingShell(start, bad)(line, host, ok).0.fs)
    {
      MarkedIsWellFormed(start.fs, CountOf(start, host) + 1);
    }
  }

  lemma {:induction false} FindAppended(cs: seq<Child>, c: Child, name: string)
    requires Find(cs, name).Some?
    ensures Find(cs + [c], name) == Find(cs, name)
  {
    assert (cs + [c])[0] == cs[0] && (cs + [c])[1..] == cs[1..] + [c];
    if cs[0].name != name {
      FindAppended(cs[1..], c, name);
    }
  }

  lemma MarkedHolds(fs: Node, count: nat, loc: Path)
    requires Lookup(fs, loc).Some?
    ensures Lookup(Marked(fs, count), loc).Some?
  {
    if loc != [] {
      FindAppended(fs.children, Counter(fs.children, count), loc[0]);
    }
  }

  // ----- any other list goes wrong in some shell

  /** The zip is well-formed and its source is there. */
  predicate ZipWorks(tools: Tools, command: string, host: Host) {
    ZipCall(tools, command).Success? && Lookup(host.fs, ZipLocation(host.cwd, ZipCall(tools, command).value.path)).Some?
  }

  predicate ZipsWork(tools: Tools, commands: seq<string>, host: Host) {
    forall c :: c in commands && IsZip(c) ==> ZipWorks(tools, c, host)
  }

  lemma ZipsWorkWhenMarked(tools: Tools, commands: seq<string>, start: Host, count: nat)
    requires ZipsWork(tools, commands, start)
    ensures ZipsWork(tools, commands, Counted(start, count))
  {
    forall c | c in commands && IsZip(c) ensures ZipWorks(tools, c, Counted(start, count)) {
      MarkedHolds(start.fs, count, ZipLocation(start.cwd, ZipCall(tools, c).value.path));
    }
  }

  /** Lines after the failing one succeed. */
  lemma {:induction false} LaterLines(sh: Shell, at: nat -> Host, bad: nat, lines: seq<string>, count: nat, ok: bool)
    requires Counts(sh, at, bad) && count > bad
    ensures RunLines(sh, lines, at(count), ok) == (at(count + |lines|), ok || lines != [])
    decreases |lines|
  {
    if lines == [] {
    } else {
      LaterLines(sh, at, bad, lines[1..], count + 1, true);
    }
  }

  /** Once the failing line is past and another follows it, the batched run never stops for the shell. */
  lemma {:induction false} PastTheBadLine(tools: Tools, sh: Shell, at: nat -> Host, bad: nat,
                                          commands: seq<string>, run: Run, count: nat, ok: bool)
    requires Counts(sh, at, bad) && count > bad && run.host == at(count)
    requires ok || (commands != [] && IsShell(commands[0]))
    ensures RunCommands(tools, sh, commands, run, ok) != Failure(ShellFailed)
    decreases |commands|
  {
    if commands == [] {
    } else if IsZip(commands[0]) {
      var call := ZipCall(tools, commands[0]);
      if call.Success? {
        var zipped := ZipSource(run, call.value.path, call.value.prefix, call.value.embedded);
        if zipped.Success? {
          PastTheBadLine(tools, sh, at, bad, commands[1..], zipped.value, count, true);
        }
      }
    } else {
      var lines := Split(commands[0], '\n');
      LaterLines(sh, at, bad, lines, count, ok);
      PastTheBadLine(tools, sh, at, bad, commands[1..], run.(host := at(count + |lines|)), count + |lines|, true);
    }
  }

  /** The first command is a script of its own. */
  predicate StartsAlone(commands: seq<string>)
    requires commands != []
  {
    '\n' !in commands[0] && (|commands| > 1 ==> IsZip(commands[1]))
  }

  /** The number of one-line scripts before the first longer one. */
  function GoodScripts(commands: seq<string>): nat {
    if commands == [] then 0
    else if IsZip(commands[0]) then GoodScripts(commands[1..])
    else if StartsAlone(commands) then 1 + GoodScripts(commands[1..])
    else 0
  }

  /** At the first script of several lines: its first line fails and the rest of it succeeds. */
  lemma LongScript(tools: Tools, sh: Shell, at: nat -> Host, commands: seq<string>, run: Run, count: nat)
    requires Counts(sh, at, count) && run.host == at(count)
    requires commands != [] && IsShell(commands[0]) && !StartsAlone(commands)
    ensures Parts(tools, sh, commands, run)
  {
    var lines := Split(commands[0], '\n');
    LaterLines(sh, at, count, lines[1..], count + 1, false);
    if '\n' in commands[0] {
      ManyLines(commands[0]);
    }
    PastTheBadLine(tools, sh, at, count, commands[1..], run.(host := at(count + |lines|)),
                   count + |lines|, |lines| > 1);
  }

  lemma {:induction false} ManyLines(s: string)
    requires '\n' in s
    ensures |Split(s, '\n')| > 1
  {
    if s[0] == '\n' {
    } else {
      assert s == [s[0]] + s[1..];
      ManyLines(s[1..]);
    }
  }

  lemma PartsAfterZip(tools: Tools, sh: Shell, commands: seq<string>, run: Run, next: Run)
    requires commands != [] && IsZip(commands[0]) && ZipCall(tools, commands[0]).Success?
    requires var zip := ZipCall(tools, commands[0]).value;
             ZipSource(run, zip.path, zip.prefix, zip.embedded) == Success(next)
    requires Parts(tools, sh, commands[1..], next)
    ensures Parts(tools, sh, commands, run)
  {
  }

  lemma PartsAfterLine(tools: Tools, sh: Shell, commands: seq<string>, run: Run, h: Host)
    requires commands != [] && IsShell(commands[0]) && '\n' !in commands[0]
    requires sh(commands[0], run.host, true) == (h, true)
    requires Parts(tools, sh, commands[1..], run.(host := h))
    ensures Parts(tools, sh, commands, run)
  {
    OneLine(sh, commands[0], run.host, true);
  }

  lemma ZipSucceeds(tools: Tools, command: string, run: Run) returns (next: Run)
    requires ZipWorks(tools, command, run.host)
    ensures var zip := ZipCall(tools, command).value;
            ZipSource(run, zip.path, zip.prefix, zip.embedded) == Success(next) && next.host == run.host
  {
    var zip := ZipCall(tools, command).value;
    next := ZipSource(run, zip.path, zip.prefix, zip.embedded).value;
  }

  lemma {:induction false} CountingParts(tools: Tools, sh: Shell, at: nat -> Host, bad: nat,
                                         commands: seq<string>, run: Run, count: nat)
    requires Counts(sh, at, bad) && bad == count + GoodScripts(commands)
    requires !OneLineScripts(commands) && forall k :: ZipsWork(tools, commands, at(k))
    requires run.host == at(count)
    ensures Parts(tools, sh, commands, run)
    decreases |commands|
  {
    assert commands != [];
    if IsShell(commands[0]) && !StartsAlone(commands) {
      LongScript(tools, sh, at, commands, run, count);
    } else {
      LongLater(commands);
      assert forall c :: c in commands[1..] ==> c in commands;
      if IsZip(commands[0]) {
        assert commands[0] in commands && ZipsWork(tools, commands, at(count));
        var next := ZipSucceeds(tools, commands[0], run);
        CountingParts(tools, sh, at, bad, commands[1..], next, count);
        PartsAfterZip(tools, sh, commands, run, next);
      } else {
        CountingParts(tools, sh, at, bad, commands[1..], run.(host := at(count + 1)), count + 1);
        PartsAfterLine(tools, sh, commands, run, at(count + 1));
      }
    }
  }

  /** A list that does not start with the long script has it further on. */
  lemma LongLater(commands: seq<string>)
    requires commands != [] && !OneLineScripts(commands)
    requires IsZip(commands[0]) || StartsAlone(commands)
    ensures !OneLineScripts(commands[1..])
  {
    var rest := commands[1..];
    var i :| 0 <= i < |commands| && IsShell(commands[i])
      && !('\n' !in commands[i] && (i + 1 < |commands| ==> IsZip(commands[i + 1])));
    assert i > 0 && rest[i - 1] == commands[i];
    if i + 1 < |commands| {
      assert rest[i] == commands[i + 1];
    }
  }

  /** For every state in which the sources of all zips are there, some shell tells the two apart. */
  lemma SomeShellDisagrees(tools: Tools, commands: seq<string>, run: Run) returns (sh: Shell)
    requires !OneLineScripts(commands) && ZipsWork(tools, commands, run.host)
    ensures Parts(tools, sh, commands, run)
    ensures WellFormed(run.host.fs) ==> KeepsWellFormed(sh)
  {
    var bad := GoodScripts(commands);
    sh := CountingShell(run.host, bad);
    if WellFormed(run.host.fs) {
      CountingShellKeeps(run.host, bad);
    }
    CountingShellCounts(run.host, bad);
    var at := (count: nat) => Counted(run.host, count);
    forall k ensures ZipsWork(tools, commands, at(k)) {
      ZipsWorkWhenMarked(tools, commands, run.host, k);
    }
    CountingParts(tools, sh, at, bad, commands, run, 0);
  }

  // ----- a state in which the sources of all zips are there

  /** All paths over some names up to some length, as directories. */
  function FullTree(names: seq<string>, depth: nat): Node {
    if depth == 0 then Dir([]) else Dir(Map((n: string) => Child(n, FullTree(names, depth - 1)), names))
  }

  lemma {:induction false} FullTreeIsWellFormed(names: seq<string>, depth: nat)
    requires Distinct(names) && forall n :: n in names ==> ProperName(n)
    ensures WellFormed(FullTree(names, depth))
    decreases depth
  {
    if depth == 0 {
    } else {
      var t := FullTree(names, depth);
      FullTreeIsWellFormed(names, depth - 1);
      assert Names(t.children) == names;
      forall i | 0 <= i < |t.children| ensures ProperName(t.children[i].name) && WellFormed(t.children[i].node) {
        assert t.children[i] == Child(names[i], FullTree(names, depth - 1)) && names[i] in names;
      }
    }
  }

  /** Down to a depth the tree has a directory or file for each of the names everywhere. */
  ghost predicate Offers(t: Node, names: seq<string>, depth: nat)
    decreases depth
  {
    depth > 0 ==>
      && t.Dir?
      && forall n :: n in names ==>
           Find(t.children, n).Some? && Offers(Find(t.children, n).value, names, depth - 1)
  }

  lemma {:induction false} FullTreeOffers(names: seq<string>, depth: nat)
    ensures Offers(FullTree(names, depth), names, depth)
    decreases depth
  {
    if depth == 0 {
    } else {
      FullTreeOffers(names, depth - 1);
      forall n | n in names ensures Find(FullTree(names, depth).children, n) == Some(FullTree(names, depth - 1)) {
        FullTreeFinds(names, depth, n);
      }
    }
  }

  lemma {:induction false} OfferedIsFound(t: Node, names: seq<string>, depth: nat, path: Path)
    requires Offers(t, names, depth) && |path| <= depth
    requires forall i :: 0 <= i < |path| ==> path[i] in names
    ensures Lookup(t, path).Some?
    decreases depth
  {
    if path == [] {
    } else {
      assert forall i :: 0 <= i < |path[1..]| ==> path[1..][i] == path[i + 1];
      OfferedIsFound(Find(t.children, path[0]).value, names, depth - 1, path[1..]);
    }
  }

  lemma FullTreeHolds(names: seq<string>, depth: nat, path: Path)
    requires |path| <= depth && forall n :: n in path ==> n in names
    ensures Lookup(FullTree(names, depth), path).Some?
  {
    FullTreeOffers(names, depth);
    OfferedIsFound(FullTree(names, depth), names, depth, path);
  }

  lemma FullTreeFinds(names: seq<string>, depth: nat, name: string)
    requires depth > 0 && name in names
    ensures Find(FullTree(names, depth).children, name) == Some(FullTree(names, depth - 1))
  {
    var cs := FullTree(names, depth).children;
    var i :| 0 <= i < |names| && names[i] == name;
    assert cs[i].name == name;
    var found := Find(cs, name);
    var j :| 0 <= j < |cs| && cs[j].name == name && cs[j].node == found.value;
  }

  /** The location a zip command names, from the root. */
  function NamedBy(tools: Tools, command: string): Path {
    match ZipCall(tools, command)
    case Success(Zip(path, _, _)) => ZipLocation([], path)
    case _ => []
  }

  lemma {:induction false} PlanHasZips(tools: Tools, commands: seq<string>, batch: seq<string>)
    requires CompileCommands(tools, commands, batch).Success?
    ensures forall c :: c in commands && IsZip(c) ==> ZipCall(tools, c).Success?
    decreases |commands|
  {
    if commands == [] {
    } else {
      PlanHasZips(tools, commands[1..], if IsZip(commands[0]) then [] else batch + [commands[0]]);
      assert forall c :: c in commands <==> c == commands[0] || c in commands[1..];
    }
  }

  lemma NamedByNames(tools: Tools, command: string)
    ensures forall n :: n in NamedBy(tools, command) ==> ProperName(n)
  {
    var words := tools.shlex(command);
    if |words| == 3 || |words| == 2 {
      NormpathNames(words[1]);
    }
  }

  lemma WorkingHost(tools: Tools, commands: seq<string>) returns (host: Host)
    requires CompileCommands(tools, commands, []).Success?
    ensures ZipsWork(tools, commands, host) && WellFormed(host.fs)
  {
    var named := (c: string) => NamedBy(tools, c);
    var all := FlatMap(named, commands);
    var names := ListOf(set n | n in all);
    forall n | n in names ensures ProperName(n) {
      FlatMapMember(named, commands, n);
      var c :| c in commands && n in named(c);
      NamedByNames(tools, c);
    }
    host := Host([], FullTree(names, |all|));
    FullTreeIsWellFormed(names, |all|);
    PlanHasZips(tools, commands, []);
    forall c | c in commands && IsZip(c) ensures ZipWorks(tools, c, host) {
      PieceOfFlatMap(named, commands, c);
      FullTreeHolds(names, |all|, NamedBy(tools, c));
    }
  }

  // ----- the exact condition

  /** The plan gives what running each line in a shell of its own gives, in every shell and from every
      state. */
  ghost predicate Harmless(tools: Tools, base: Path, commands: seq<string>, actions: seq<Action>) {
    forall sh: Shell, run: Run :: KeepsWellFormed(sh) && WellFormed(run.host.fs) ==>
      ExecActions(sh, base, run, actions) == RunStrictly(tools, sh, commands, run)
  }

  /** For every list of commands that compiles to a plan, joining is harmless if and only if no shell
      command has several lines and no two stand next to each other. */
  lemma {:induction false} BatchingIsHarmlessExactly(tools: Tools, base: Path, commands: seq<string>)
    ensures var compiled := CompileCommands(tools, commands, []);
            compiled.Success? ==> (Harmless(tools, base, commands, compiled.value) <==> OneLineScripts(commands))
  {
    var compiled := CompileCommands(tools, commands, []);
    if compiled.Success? && OneLineScripts(commands) {
      forall sh: Shell, run: Run
        ensures ExecActions(sh, base, run, compiled.value) == RunStrictly(tools, sh, commands, run)
      {
        BatchingPreservesMeaning(tools, sh, base, run, commands);
        OneLineScriptsAgree(tools, sh, commands, run);
      }
    } else if compiled.Success? {
      var host := WorkingHost(tools, commands);
      var run := Run(host, None, []);
      var sh := SomeShellDisagrees(tools, commands, run);
      BatchingPreservesMeaning(tools, sh, base, run, commands);
      assert ExecActions(sh, base, run, compiled.value) != RunStrictly(tools, sh, commands, run);
    }
  }
}
