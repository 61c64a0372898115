/** `BuildPlanManager` of modules/aws/lambda/package.py as a compiler and an interpreter: `plan`
    compiles packaging claims into steps of actions, `execute` runs the steps against a working
    directory, a filter, a file system and an archive. */
module BuildPlan {
  import opened Wrappers
  import opened Text
  import opened FileTree
  import opened Paths
  import opened ContentFilter

  // ----- machine state

  datatype Host = Host(cwd: Path, fs: Node)

  /** One shell line: the host and whether `$?` is zero, before and after. */
  type Shell = (string, Host, bool) -> (Host, bool)

  function RunLines(sh: Shell, lines: seq<string>, host: Host, ok: bool): (Host, bool) {
    if lines == [] then (host, ok)
    else
      var (h, s) := sh(lines[0], host, ok);
      RunLines(sh, lines[1..], h, s)
  }

  /** A script is its lines in order; its exit code is the status the last one leaves. */
  function RunScript(sh: Shell, script: string, host: Host): (Host, bool) {
    RunLines(sh, Split(script, '\n'), host, true)
  }

  /** `content` is absent for a directory entry; `epoch` marks the fixed zero timestamp. */
  datatype ArchiveEntry = ArchiveEntry(name: string, source: Path, content: Option<Bytes>, epoch: bool)

  datatype Error = SourceNotFound(path: string) | BadZipCall(line: string) | ShellFailed | MissingSource(loc: Path)

  /** The state threaded through the actions of one step. */
  datatype Run = Run(host: Host, filter: Option<seq<Rule>>, archive: seq<ArchiveEntry>)

  /** What survives from one step to the next. */
  datatype World = World(fs: Node, archive: seq<ArchiveEntry>)

  datatype Action =
    | Zip(path: Option<PathArg>, prefix: string, embedded: bool)
    | Sh(script: string)
    | SetWorkdir(dir: PathArg)
    | SetFilter(rules: seq<Rule>)

  // ----- executing actions

  function ContentAt(t: Node, path: Path): Option<Bytes> {
    match Lookup(t, path)
    case Some(File(bytes)) => Some(bytes)
    case _ => None
  }

  function StripSlashes(s: string): string {
    if s != "" && s[0] == '/' then StripSlashes(s[1..]) else s
  }

  /** The name of an entry: the prefix joined and normalised, relative, a directory's with a slash. */
  function ArchiveName(prefix: string, name: string, isDir: bool): string {
    StripSlashes(PathArgText(Normpath(if prefix == "" then name else JoinPath(prefix, name))))
    + if isDir then "/" else ""
  }

  function PackedEntry(e: Entry, t: Node, loc: Path, prefix: string, epoch: bool): ArchiveEntry {
    ArchiveEntry(ArchiveName(prefix, PathText(e.path), e.isDir), loc + e.path, ContentAt(t, e.path), epoch)
  }

  function Packed(es: seq<Entry>, t: Node, loc: Path, prefix: string, epoch: bool): seq<ArchiveEntry> {
    Map((e: Entry) => PackedEntry(e, t, loc, prefix, epoch), es)
  }

  lemma PackedSnoc(es: seq<Entry>, k: nat, t: Node, loc: Path, prefix: string, epoch: bool)
    requires k < |es|
    ensures Packed(es[..k + 1], t, loc, prefix, epoch)
         == Packed(es[..k], t, loc, prefix, epoch) + [PackedEntry(es[k], t, loc, prefix, epoch)]
  {
    assert es[..k + 1] == es[..k] + [es[k]];
    MapConcat((e: Entry) => PackedEntry(e, t, loc, prefix, epoch), es[..k], [es[k]]);
  }

  function ZipLocation(cwd: Path, path: Option<PathArg>): Path {
    if path.None? then cwd else Resolve(cwd, path.value)
  }

  /** A zip action: a directory's filtered content, a single file whatever the filter says. */
  function ZipSource(run: Run, path: Option<PathArg>, prefix: string, embedded: bool): Result<Run, Error> {
    var loc := ZipLocation(run.host.cwd, path);
    match Lookup(run.host.fs, loc)
    case None => Failure(MissingSource(loc))
    case Some(File(bytes)) =>
      var entry := ArchiveEntry(ArchiveName(prefix, Basename(loc), false), loc, Some(bytes), embedded);
      Success(run.(archive := run.archive + [entry]))
    case Some(t) =>
      var es := if run.filter.Some? then Filtered(run.filter.value, prefix, Some(t), "") else Below([], t);
      Success(run.(archive := run.archive + Packed(es, t, loc, prefix, embedded)))
  }

  function ExecAction(sh: Shell, base: Path, run: Run, a: Action): Result<Run, Error> {
    match a
    case Zip(path, prefix, embedded) => ZipSource(run, path, prefix, embedded)
    case Sh(script) =>
      var (host, ok) := RunScript(sh, script, run.host);
      if ok then Success(run.(host := host)) else Failure(ShellFailed)
    case SetWorkdir(path) => Success(run.(host := run.host.(cwd := Resolve(base, path))))
    case SetFilter(rules) => Success(run.(filter := Some(rules)))
  }

  function ExecActions(sh: Shell, base: Path, run: Run, actions: seq<Action>): Result<Run, Error>
    decreases |actions|
  {
    if actions == [] then Success(run)
    else
      match ExecAction(sh, base, run, actions[0])
      case Failure(e) => Failure(e)
      case Success(next) => ExecActions(sh, base, next, actions[1..])
  }

  /** Every step starts in the base directory with no filter. */
  function StepStart(base: Path, w: World): Run {
    Run(Host(base, w.fs), None, w.archive)
  }

  function ToWorld(r: Result<Run, Error>): Result<World, Error> {
    match r
    case Failure(e) => Failure(e)
    case Success(run) => Success(World(run.host.fs, run.archive))
  }

  function ExecPlan(sh: Shell, base: Path, w: World, plan: seq<seq<Action>>): Result<World, Error>
    decreases |plan|
  {
    if plan == [] then Success(w)
    else
      match ToWorld(ExecActions(sh, base, StepStart(base, w), plan[0]))
      case Failure(e) => Failure(e)
      case Success(next) => ExecPlan(sh, base, next, plan[1..])
  }

  class ZipWriteStream {
    var entries: seq<ArchiveEntry>

    constructor ()
      ensures entries == []
    {
      entries := [];
    }

    method WriteFile(prefix: string, name: string, isDir: bool, source: Path, content: Option<Bytes>, epoch: bool)
      modifies this
      ensures entries == old(entries) + [ArchiveEntry(ArchiveName(prefix, name, isDir), source, content, epoch)]
    {
      var arcname := if prefix != "" then JoinPath(prefix, name) else name;
      arcname := StripSlashes(PathArgText(Normpath(arcname)));
      if isDir {
        arcname := arcname + "/";
      } else {
        assert arcname + "" == arcname;
      }
      entries := entries + [ArchiveEntry(arcname, source, content, epoch)];
    }

    method WriteEntry(e: Entry, t: Node, loc: Path, prefix: string, epoch: bool)
      modifies this
      ensures entries == old(entries) + [PackedEntry(e, t, loc, prefix, epoch)]
    {
      WriteFile(prefix, PathText(e.path), e.isDir, loc + e.path, ContentAt(t, e.path), epoch);
    }

    method WriteAll(es: seq<Entry>, t: Node, loc: Path, prefix: string, epoch: bool)
      modifies this
      ensures entries == old(entries) + Packed(es, t, loc, prefix, epoch)
    {
      for k := 0 to |es|
        invariant entries == old(entries) + Packed(es[..k], t, loc, prefix, epoch)
      {
        PackedSnoc(es, k, t, loc, prefix, epoch);
        WriteEntry(es[k], t, loc, prefix, epoch);
      }
      assert es[..|es|] == es;
    }
  }

  /** One zip action of `execute`: writes to the stream what `ZipSource` appends. */
  method ExecuteZip(zs: ZipWriteStream, host: Host, filter: Option<seq<Rule>>,
                    path: Option<PathArg>, prefix: string, embedded: bool)
    returns (r: Result<(), Error>)
    modifies zs
    ensures match ZipSource(Run(host, filter, old(zs.entries)), path, prefix, embedded)
            case Failure(e) => r == Failure(e)
            case Success(run) =>
              r == Success(()) && zs.entries == run.archive && run.host == host && run.filter == filter
  {
    var loc := ZipLocation(host.cwd, path);
    var found := Lookup(host.fs, loc);
    if found.None? {
      return Failure(MissingSource(loc));
    }
    if found.value.Dir? {
      var es: seq<Entry>;
      if filter.Some? {
        es := FilterSource(filter.value, prefix, found, "");
      } else {
        es := EmitDirContent(found);
      }
      zs.WriteAll(es, found.value, loc, prefix, embedded);
    } else {
      zs.WriteFile(prefix, Basename(loc), false, loc, Some(found.value.bytes), embedded);
    }
    return Success(());
  }

  /** `execute`: the working directory and the filter are reset at each step. */
  method Execute(zs: ZipWriteStream, sh: Shell, base: Path, fs0: Node, plan: seq<seq<Action>>)
    returns (r: Result<Node, Error>)
    modifies zs
    ensures match ExecPlan(sh, base, World(fs0, old(zs.entries)), plan)
            case Failure(e) => r == Failure(e)
            case Success(w) => r == Success(w.fs) && zs.entries == w.archive
  {
    ghost var all := ExecPlan(sh, base, World(fs0, zs.entries), plan);
    var fs := fs0;
    for i := 0 to |plan|
      invariant all == ExecPlan(sh, base, World(fs, zs.entries), plan[i..])
    {
      var step := plan[i];
      var workDir := base;
      var pf: Option<seq<Rule>> := None;
      ghost var whole := ExecActions(sh, base, StepStart(base, World(fs, zs.entries)), step);
      assert plan[i..][0] == step && plan[i..][1..] == plan[i + 1..];
      for k := 0 to |step|
        invariant whole == ExecActions(sh, base, Run(Host(workDir, fs), pf, zs.entries), step[k..])
      {
        assert step[k..][0] == step[k] && step[k..][1..] == step[k + 1..];
        match step[k]
        case Zip(path, prefix, embedded) =>
          var z := ExecuteZip(zs, Host(workDir, fs), pf, path, prefix, embedded);
          if z.Failure? {
            return Failure(z.error);
          }
        case Sh(script) =>
          var (host, ok) := RunScript(sh, script, Host(workDir, fs));
          if !ok {
            return Failure(ShellFailed);
          }
          workDir, fs := host.cwd, host.fs;
        case SetWorkdir(path) =>
          workDir := Resolve(base, path);
        case SetFilter(rules) =>
          pf := Some(rules);
      }
    }
    return Success(fs);
  }
}
