/** What claims and commands do to the archive and what is fed to the hash, said from the written
    claims and the file system alone: neither through the compiler nor through its interpreter. */
module PackagingLaws {
  import opened Wrappers
  import opened Text
  import opened FileTree
  import opened Paths
  import opened ContentFilter
  import opened BuildPlan
  import opened PlanCompiler
  import opened ContentHash
  import opened ArchiveNames
  import opened PathLaws
  import opened WalkOrder
  import TreeLaws

  // ----- what is packed of a directory

  /** The archive entry of a location below a packed directory. */
  ghost predicate EntryOf(a: ArchiveEntry, t: Node, loc: Path, prefix: string, path: Path, epoch: bool) {
    && a.source == loc + path && a.epoch == epoch
    && match Lookup(t, path)
       case None => false
       case Some(File(bytes)) => a.content == Some(bytes) && a.name == Join(Shared(prefix) + path, "/")
       case Some(Dir(_)) => a.content == None && a.name == Join(Shared(prefix) + path, "/") + "/"
  }

  ghost predicate KeptAt(t: Node, filter: Option<seq<Rule>>, prefix: string, path: Path) {
    && path != [] && Lookup(t, path).Some?
    && (filter.None? || Kept(filter.value, EntryText(prefix, Entry(path, Lookup(t, path).value.Dir?))))
  }

  /** The locations the filter keeps, each once, in walk order. */
  ghost predicate Selected(t: Node, filter: Option<seq<Rule>>, prefix: string, paths: seq<Path>) {
    && Distinct(paths)
    && (forall path :: path in paths <==> KeptAt(t, filter, prefix, path))
    && forall i, j :: 0 <= i < j < |paths| ==> Precedes(t, paths[i], paths[j])
  }

  ghost predicate PacksDirectory(added: seq<ArchiveEntry>, t: Node, loc: Path, prefix: string,
                                 filter: Option<seq<Rule>>, epoch: bool) {
    exists paths: seq<Path> ::
      && Selected(t, filter, prefix, paths) && |paths| == |added|
      && forall i :: 0 <= i < |added| ==> EntryOf(added[i], t, loc, prefix, paths[i], epoch)
  }

  lemma {:induction false} FilterInOrder(t: Node, keep: Entry -> bool, es: seq<Entry>)
    requires forall i, j :: 0 <= i < j < |es| ==> Precedes(t, es[i].path, es[j].path)
    ensures var kept := Filter(keep, es);
            forall i, j :: 0 <= i < j < |kept| ==> Precedes(t, kept[i].path, kept[j].path)
  {
    if es == [] {
    } else {
      var rest := Filter(keep, es[1..]);
      forall i, j | 0 <= i < j < |es[1..]| ensures Precedes(t, es[1..][i].path, es[1..][j].path) {
        assert es[1..][i] == es[i + 1] && es[1..][j] == es[j + 1];
      }
      FilterInOrder(t, keep, es[1..]);
      forall e | e in rest ensures Precedes(t, es[0].path, e.path) {
        FilterMember(keep, es[1..], e);
        var k :| 0 <= k < |es[1..]| && es[1..][k] == e;
        assert es[k + 1] == e;
      }
      FilterStep(keep, es[0], es[1..]);
      assert [es[0]] + es[1..] == es;
    }
  }

  function Walked(t: Node, filter: Option<seq<Rule>>, prefix: string): seq<Entry> {
    if filter.Some? then Filtered(filter.value, prefix, Some(t), "") else Below([], t)
  }

  lemma WalkedIsSelected(t: Node, filter: Option<seq<Rule>>, prefix: string)
    requires t.Dir? && WellFormed(t)
    ensures Selected(t, filter, prefix, Map((e: Entry) => e.path, Walked(t, filter, prefix)))
    ensures forall e :: e in Walked(t, filter, prefix) ==>
              Lookup(t, e.path).Some? && Lookup(t, e.path).value.Dir? == e.isDir && ProperPath(e.path)
  {
    var rules := if filter.Some? then filter.value else [];
    var keep := (e: Entry) => Kept(rules, EntryText(prefix, e));
    var es := Walked(t, filter, prefix);
    TreeLaws.WalkIsExact(t);
    WalkIsOrdered(t);
    FilterDistinct(keep, Below([], t));
    FilterInOrder(t, keep, Below([], t));
    forall e ensures e in es <==> KeptAt(t, filter, prefix, e.path) && Lookup(t, e.path).value.Dir? == e.isDir {
      FilterMember(keep, Below([], t), e);
      assert Entry(e.path, e.isDir) in Below([], t)
        <==> e.path != [] && Lookup(t, e.path).Some? && Lookup(t, e.path).value.Dir? == e.isDir;
    }
    forall e | e in es ensures ProperPath(e.path) {
      FoundIsProper(t, e.path);
    }
    PathsAreSelected(t, filter, prefix, es);
  }

  lemma PathsAreSelected(t: Node, filter: Option<seq<Rule>>, prefix: string, es: seq<Entry>)
    requires Distinct(es)
    requires forall e :: e in es <==> KeptAt(t, filter, prefix, e.path) && Lookup(t, e.path).value.Dir? == e.isDir
    requires forall i, j :: 0 <= i < j < |es| ==> Precedes(t, es[i].path, es[j].path)
    ensures Selected(t, filter, prefix, Map((e: Entry) => e.path, es))
  {
    var paths := Map((e: Entry) => e.path, es);
    forall i, j | 0 <= i < j < |paths| ensures paths[i] != paths[j] {
      assert es[i] in es && es[j] in es;
    }
    forall path ensures path in paths <==> KeptAt(t, filter, prefix, path) {
      if path in paths {
        var i :| 0 <= i < |es| && es[i].path == path;
        assert es[i] in es;
      }
      if KeptAt(t, filter, prefix, path) {
        var e := Entry(path, Lookup(t, path).value.Dir?);
        assert e in es;
        var i :| 0 <= i < |es| && es[i] == e;
        assert paths[i] == path;
      }
    }
  }

  lemma PackedEntryIs(e: Entry, t: Node, loc: Path, prefix: string, epoch: bool)
    requires Lookup(t, e.path).Some? && Lookup(t, e.path).value.Dir? == e.isDir && ProperPath(e.path)
    ensures EntryOf(PackedEntry(e, t, loc, prefix, epoch), t, loc, prefix, e.path, epoch)
  {
    NameOfEntry(prefix, e);
  }

  lemma PackedIsDirectory(t: Node, loc: Path, prefix: string, filter: Option<seq<Rule>>, epoch: bool)
    requires t.Dir? && WellFormed(t)
    ensures PacksDirectory(Packed(Walked(t, filter, prefix), t, loc, prefix, epoch), t, loc, prefix, filter, epoch)
  {
    var es := Walked(t, filter, prefix);
    var paths := Map((e: Entry) => e.path, es);
    var added := Packed(es, t, loc, prefix, epoch);
    WalkedIsSelected(t, filter, prefix);
    forall i | 0 <= i < |added| ensures EntryOf(added[i], t, loc, prefix, paths[i], epoch) {
      assert es[i] in es;
      PackedEntryIs(es[i], t, loc, prefix, epoch);
    }
  }

  // ----- one zip

  /** Packing what is found at a location: an error if there is nothing, a single file whatever the
      filter, else what the filter keeps of the directory; nothing but the archive changes. */
  ghost predicate Zips(run: Run, loc: Path, prefix: string, epoch: bool, r: Result<Run, Error>) {
    match Lookup(run.host.fs, loc)
    case None => r == Failure(MissingSource(loc))
    case Some(File(bytes)) =>
      && loc != []
      && r == Success(run.(archive := run.archive
                 + [ArchiveEntry(Join(Shared(prefix) + [loc[|loc| - 1]], "/"), loc, Some(bytes), epoch)]))
    case Some(t) =>
      && r.Success? && r.value.host == run.host && r.value.filter == run.filter
      && run.archive <= r.value.archive
      && PacksDirectory(r.value.archive[|run.archive|..], t, loc, prefix, run.filter, epoch)
  }

  lemma FileName(prefix: string, name: string)
    requires ProperName(name)
    ensures ArchiveName(prefix, name, false) == Join(Shared(prefix) + [name], "/")
  {
    var e := Entry([name], false);
    assert PathText([name]) == name;
    NameOfEntry(prefix, e);
    var text := Join(Shared(prefix) + [name], "/");
    assert text + "" == text;
  }

  lemma ZipSourceZips(run: Run, path: Option<PathArg>, prefix: string, epoch: bool)
    requires run.host.fs.Dir? && WellFormed(run.host.fs)
    ensures Zips(run, ZipLocation(run.host.cwd, path), prefix, epoch, ZipSource(run, path, prefix, epoch))
  {
    var loc := ZipLocation(run.host.cwd, path);
    var found := Lookup(run.host.fs, loc);
    if found.Some? && found.value.File? {
      FoundIsProper(run.host.fs, loc);
      FileName(prefix, Basename(loc));
    } else if found.Some? {
      LookupWellFormed(run.host.fs, loc);
      PackedIsDirectory(found.value, loc, prefix, run.filter, epoch);
      var added := Packed(Walked(found.value, run.filter, prefix), found.value, loc, prefix, epoch);
      assert (run.archive + added)[|run.archive|..] == added;
    }
  }

  lemma WrittenTarget(cwd: Path, written: string)
    ensures Resolve(cwd, Normpath(written)) == Target(cwd, written)
  {
    NormpathLeads(cwd, written);
  }

  // ----- one command

  ghost function Executed(sh: Shell, base: Path, run: Run, plan: Result<seq<Action>, Error>): Result<Run, Error> {
    match plan
    case Failure(e) => Failure(e)
    case Success(actions) => ExecActions(sh, base, run, actions)
  }

  /** A `:zip` command. Its second word is the path, followed from the working directory; its third,
      trimmed, the prefix; the path may be left out for the working directory itself. The entries get
      the fixed timestamp. Any other number of words is a malformed call. */
  lemma {:induction false} ZipCommandMeans(tools: Tools, sh: Shell, base: Path, run: Run, command: string)
    requires ":zip" <= command && run.host.fs.Dir? && WellFormed(run.host.fs)
    ensures var words := tools.shlex(command);
            var plan := CompileCommands(tools, [command], []);
            var r := Executed(sh, base, run, plan);
            if |words| == 3 then Zips(run, Target(run.host.cwd, words[1]), Trim(words[2]), true, r)
            else if |words| == 2 then Zips(run, Target(run.host.cwd, words[1]), "", true, r)
            else if |words| == 1 then Zips(run, run.host.cwd, "", true, r)
            else plan == Failure(BadZipCall(command))
    ensures CompileCommands(tools, [command], []).Success? <==> 1 <= |tools.shlex(command)| <= 3
  {
    var words := tools.shlex(command);
    var call := ZipCall(tools, command);
    assert [command][1..] == [] && [] + [call] == [call];
    assert CompileCommands(tools, [], []) == Success([]);
    if call.Success? {
      var zip := call.value;
      assert Flush([]) + [zip] + [] == [zip];
      assert CompileCommands(tools, [command], []) == Success([zip]);
      OneAction(sh, base, run, zip);
      ZipSourceZips(run, zip.path, zip.prefix, zip.embedded);
      if |words| > 1 {
        WrittenTarget(run.host.cwd, words[1]);
      }
    }
  }

  lemma OneAction(sh: Shell, base: Path, run: Run, action: Action)
    ensures ExecActions(sh, base, run, [action]) == ExecAction(sh, base, run, action)
  {
    assert [action][1..] == [];
  }

  /** Any other command is run line by line by one shell, whose last exit status decides. */
  lemma {:induction false} ShellCommandMeans(tools: Tools, sh: Shell, base: Path, run: Run, command: string)
    requires !(":zip" <= command)
    ensures Executed(sh, base, run, CompileCommands(tools, [command], []))
         == var (host, ok) := RunLines(sh, Split(command, '\n'), run.host, true);
            if ok then Success(run.(host := host)) else Failure(ShellFailed)
  {
    assert [command][1..] == [] && [] + [command] == [command];
    assert CompileCommands(tools, [command], []) == CompileCommands(tools, [], [command]);
    OneAction(sh, base, run, Sh(command));
  }

  // ----- several commands

  function Then<T, E>(first: Result<T, E>, next: T -> Result<T, E>): Result<T, E> {
    match first
    case Failure(e) => Failure(e)
    case Success(t) => next(t)
  }

  lemma {:induction false} CompileAtZip(tools: Tools, a: seq<string>, b: seq<string>, batch: seq<string>)
    requires b == [] || ":zip" <= b[0]
    ensures CompileCommands(tools, a + b, batch)
         == match CompileCommands(tools, a, batch)
            case Failure(e) => Failure(e)
            case Success(first) => Extend(first, CompileCommands(tools, b, []))
    decreases |a|
  {
    if a == [] {
      assert a + b == b;
      if b == [] {
        assert Flush(batch) + [] == Flush(batch);
      } else {
        FlushThenZip(tools, b, batch);
      }
    } else {
      assert (a + b)[0] == a[0] && (a + b)[1..] == a[1..] + b;
      CompileAtZip(tools, a[1..], b, if IsZip(a[0]) then [] else batch + [a[0]]);
      var call := ZipCall(tools, a[0]);
      if IsZip(a[0]) && call.Success? {
        var rest := CompileCommands(tools, a[1..], []);
        if rest.Success? {
          ExtendMore(Flush(batch) + [call.value], rest.value, CompileCommands(tools, b, []));
        }
      }
    }
  }

  lemma FlushThenZip(tools: Tools, b: seq<string>, batch: seq<string>)
    requires b != [] && IsZip(b[0])
    ensures CompileCommands(tools, b, batch) == Extend(Flush(batch), CompileCommands(tools, b, []))
  {
    var call := ZipCall(tools, b[0]);
    if call.Success? {
      var rest := CompileCommands(tools, b[1..], []);
      if rest.Success? {
        assert Flush(batch) + [call.value] + rest.value == Flush(batch) + (Flush([]) + [call.value] + rest.value);
      }
    }
  }

  /** A list that is cut before a `:zip` is done one part after the other. */
  lemma {:induction false} PlanCutAtZip(tools: Tools, sh: Shell, base: Path, run: Run, a: seq<string>, b: seq<string>)
    requires b == [] || ":zip" <= b[0]
    requires CompileCommands(tools, a, []).Success? && CompileCommands(tools, b, []).Success?
    ensures Executed(sh, base, run, CompileCommands(tools, a + b, []))
         == Then(Executed(sh, base, run, CompileCommands(tools, a, [])),
                 (next: Run) => Executed(sh, base, next, CompileCommands(tools, b, [])))
  {
    CompileAtZip(tools, a, b, []);
    ExecActionsConcat(sh, base, run, CompileCommands(tools, a, []).value, CompileCommands(tools, b, []).value);
  }

  /** Two shell commands next to each other are one command of both their lines. */
  lemma {:induction false} NeighboursJoin(tools: Tools, sh: Shell, base: Path, run: Run,
                                          first: string, second: string, rest: seq<string>)
    requires !(":zip" <= first) && !(":zip" <= second)
    requires CompileCommands(tools, [first, second] + rest, []).Success?
    requires CompileCommands(tools, [first + "\n" + second] + rest, []).Success?
    ensures Executed(sh, base, run, CompileCommands(tools, [first, second] + rest, []))
         == Executed(sh, base, run, CompileCommands(tools, [first + "\n" + second] + rest, []))
  {
    BatchingPreservesMeaning(tools, sh, base, run, [first, second] + rest);
    BatchingPreservesMeaning(tools, sh, base, run, [first + "\n" + second] + rest);
    NeighboursRun(tools, sh, run, first, second, rest);
  }

  lemma ShellStep(tools: Tools, sh: Shell, run: Run, command: string, rest: seq<string>, ok: bool)
    requires !(":zip" <= command)
    ensures RunCommands(tools, sh, [command] + rest, run, ok)
         == var (h, s) := RunLines(sh, Split(command, '\n'), run.host, ok);
            RunCommands(tools, sh, rest, run.(host := h), s)
  {
    assert ([command] + rest)[1..] == rest;
  }

  lemma NeighboursRun(tools: Tools, sh: Shell, run: Run, first: string, second: string, rest: seq<string>)
    requires !(":zip" <= first) && !(":zip" <= second)
    ensures RunCommands(tools, sh, [first, second] + rest, run, true)
         == RunCommands(tools, sh, [first + "\n" + second] + rest, run, true)
  {
    var joined := first + "\n" + second;
    JoinedIsNoZip(first, second);
    SplitConcat(first, '\n', second);
    assert first + ['\n'] + second == joined;
    RunLinesConcat(sh, Split(first, '\n'), Split(second, '\n'), run.host, true);
    var (h, s) := RunLines(sh, Split(first, '\n'), run.host, true);
    assert [first, second] + rest == [first] + ([second] + rest);
    ShellStep(tools, sh, run, first, [second] + rest, true);
    ShellStep(tools, sh, run.(host := h), second, rest, s);
    ShellStep(tools, sh, run, joined, rest, true);
  }

  lemma JoinedIsNoZip(first: string, second: string)
    requires !(":zip" <= first)
    ensures !(":zip" <= first + "\n" + second)
  {
    var joined := first + "\n" + second;
    if |first| < 4 {
      assert joined[|first|] == '\n' && ":zip"[|first|] != '\n';
    } else {
      assert joined[..4] == first[..4];
    }
  }
}
