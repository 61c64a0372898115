/** `generate_content_hash` of modules/aws/lambda/package.py: the sequence of updates fed to the
    hash, and what it has to do with the files the archive holds. */
module ContentHash {
  import opened Wrappers
  import opened Text
  import opened Ordering
  import opened FileTree
  import opened Paths
  import opened ContentFilter
  import opened BuildPlan
  import opened PlanCompiler
  import TreeLaws

  /** One `update_hash` call: the path text that is fed to the hash and, of a file, the content found
      at a location, absent when there is no file. */
  datatype Update = PathOnly(text: string) | PathAndContent(text: string, loc: Path, content: Option<Bytes>)

  /** A recorded source: the path as written, normalised, and the location it leads to. */
  datatype Place = Place(arg: PathArg, loc: Path)

  /** The path text of something below a source, relative exactly if the source's is. */
  function HashedText(arg: PathArg, path: Path): string {
    if path == [] then PathArgText(arg) else JoinPath(PathArgText(arg), PathText(path))
  }

  function FileUpdate(p: Path, t: Node, at: Place): Update {
    PathAndContent(HashedText(at.arg, p), at.loc + p, ContentAt(t, p))
  }

  function EntryUpdate(e: Entry, t: Node, at: Place): Update {
    if e.isDir then PathOnly(HashedText(at.arg, e.path)) else FileUpdate(e.path, t, at)
  }

  function EntryUpdates(es: seq<Entry>, t: Node, at: Place): seq<Update> {
    Map((e: Entry) => EntryUpdate(e, t, at), es)
  }

  function FileUpdates(paths: seq<Path>, t: Node, at: Place): seq<Update> {
    Map((p: Path) => FileUpdate(p, t, at), paths)
  }

  function SourceUpdates(fs: Node, base: Path, source: Source): seq<Update> {
    var loc := Resolve(base, source.path);
    var at := Place(source.path, loc);
    var found := Lookup(fs, loc);
    if source.rules.Some? then
      (if found.None? then []
       else EntryUpdates(Filtered(source.rules.value, source.prefix, found, Basename(loc)), found.value, at))
    else if found.Some? && found.value.Dir? then FileUpdates(Listed(found.value), found.value, at)
    else [PathAndContent(HashedText(source.path, []), loc, if found.Some? then Some(found.value.bytes) else None)]
  }

  function HashUpdates(fs: Node, base: Path, sources: seq<Source>): seq<Update> {
    FlatMap((s: Source) => SourceUpdates(fs, base, s), sources)
  }

  lemma EntryUpdatesSnoc(es: seq<Entry>, k: nat, t: Node, at: Place)
    requires k < |es|
    ensures EntryUpdates(es[..k + 1], t, at) == EntryUpdates(es[..k], t, at) + [EntryUpdate(es[k], t, at)]
  {
    assert es[..k + 1] == es[..k] + [es[k]];
    MapConcat((e: Entry) => EntryUpdate(e, t, at), es[..k], [es[k]]);
  }

  lemma FileUpdatesSnoc(paths: seq<Path>, k: nat, t: Node, at: Place)
    requires k < |paths|
    ensures FileUpdates(paths[..k + 1], t, at) == FileUpdates(paths[..k], t, at) + [FileUpdate(paths[k], t, at)]
  {
    assert paths[..k + 1] == paths[..k] + [paths[k]];
    MapConcat((p: Path) => FileUpdate(p, t, at), paths[..k], [paths[k]]);
  }

  method HashSource(fs: Node, base: Path, source: Source) returns (updates: seq<Update>)
    ensures updates == SourceUpdates(fs, base, source)
  {
    updates := [];
    var loc := Resolve(base, source.path);
    var at := Place(source.path, loc);
    var found := Lookup(fs, loc);
    if source.rules.Some? {
      var es := FilterSource(source.rules.value, source.prefix, found, Basename(loc));
      if found.None? {
        return;
      }
      for k := 0 to |es|
        invariant updates == EntryUpdates(es[..k], found.value, at)
      {
        EntryUpdatesSnoc(es, k, found.value, at);
        if es[k].isDir {
          updates := updates + [PathOnly(HashedText(source.path, es[k].path))];
        } else {
          updates := updates + [FileUpdate(es[k].path, found.value, at)];
        }
      }
      assert es[..|es|] == es;
    } else if found.Some? && found.value.Dir? {
      var files := ListFiles(found);
      for k := 0 to |files|
        invariant updates == FileUpdates(files[..k], found.value, at)
      {
        FileUpdatesSnoc(files, k, found.value, at);
        updates := updates + [FileUpdate(files[k], found.value, at)];
      }
      assert files[..|files|] == files;
    } else {
      var content := if found.Some? then Some(found.value.bytes) else None;
      updates := [PathAndContent(HashedText(source.path, []), loc, content)];
    }
  }

  method GenerateContentHash(fs: Node, base: Path, sources: seq<Source>) returns (updates: seq<Update>)
    ensures updates == HashUpdates(fs, base, sources)
  {
    updates := [];
    for i := 0 to |sources|
      invariant updates == HashUpdates(fs, base, sources[..i])
    {
      var more := HashSource(fs, base, sources[i]);
      FlatMapSnoc((s: Source) => SourceUpdates(fs, base, s), sources, i);
      updates := updates + more;
    }
    assert sources[..|sources|] == sources;
  }

  // ----- files read and files zipped

  type FileAt = (Path, Bytes)

  /** The file, with the bytes seen, whose content an update carries. */
  function FileRead(u: Update): seq<FileAt> {
    if u.PathAndContent? && u.content.Some? then [(u.loc, u.content.value)] else []
  }

  function FilesRead(updates: seq<Update>): seq<FileAt> {
    FlatMap((u: Update) => FileRead(u), updates)
  }

  /** The source file, with the bytes packed, of a file entry of the archive. */
  function FileZipped(a: ArchiveEntry): seq<FileAt> {
    if a.content.Some? then [(a.source, a.content.value)] else []
  }

  function FilesZipped(archive: seq<ArchiveEntry>): seq<FileAt> {
    FlatMap((a: ArchiveEntry) => FileZipped(a), archive)
  }

  lemma FilesReadConcat(a: seq<Update>, b: seq<Update>)
    ensures FilesRead(a + b) == FilesRead(a) + FilesRead(b)
  {
    FlatMapConcat((u: Update) => FileRead(u), a, b);
  }

  lemma FilesZippedConcat(a: seq<ArchiveEntry>, b: seq<ArchiveEntry>)
    ensures FilesZipped(a + b) == FilesZipped(a) + FilesZipped(b)
  {
    FlatMapConcat((a: ArchiveEntry) => FileZipped(a), a, b);
  }

  ghost predicate KindsMatch(es: seq<Entry>, t: Node) {
    forall e :: e in es ==> (ContentAt(t, e.path).Some? <==> !e.isDir)
  }

  /** The files the update of one entry, or of one path, makes the hash read. */
  function ReadOf(e: Entry, t: Node, at: Place): seq<FileAt> {
    FileRead(EntryUpdate(e, t, at))
  }

  function ReadAt(p: Path, t: Node, at: Place): seq<FileAt> {
    FileRead(FileUpdate(p, t, at))
  }

  lemma FilesReadOfUpdates(es: seq<Entry>, t: Node, at: Place)
    ensures FilesRead(EntryUpdates(es, t, at)) == FlatMap((e: Entry) => ReadOf(e, t, at), es)
  {
    FlatMapOfMap((u: Update) => FileRead(u), (e: Entry) => EntryUpdate(e, t, at), (e: Entry) => ReadOf(e, t, at), es);
  }

  lemma FilesReadOfPaths(paths: seq<Path>, t: Node, at: Place)
    ensures FilesRead(FileUpdates(paths, t, at)) == FlatMap((p: Path) => ReadAt(p, t, at), paths)
  {
    FlatMapOfMap((u: Update) => FileRead(u), (p: Path) => FileUpdate(p, t, at),
                 (p: Path) => ReadAt(p, t, at), paths);
  }

  lemma PackedFilesAreRead(es: seq<Entry>, t: Node, at: Place, prefix: string, epoch: bool)
    requires KindsMatch(es, t)
    ensures FilesZipped(Packed(es, t, at.loc, prefix, epoch)) == FilesRead(EntryUpdates(es, t, at))
  {
    FilesReadOfUpdates(es, t, at);
    FlatMapOfMap((a: ArchiveEntry) => FileZipped(a),
                 (e: Entry) => PackedEntry(e, t, at.loc, prefix, epoch),
                 (e: Entry) => ReadOf(e, t, at), es);
  }

  lemma FilesReadOfEntries(es: seq<Entry>, t: Node, at: Place)
    requires KindsMatch(es, t)
    ensures FilesRead(EntryUpdates(es, t, at)) == FilesRead(FileUpdates(FilePaths(es), t, at))
  {
    var read := (p: Path) => ReadAt(p, t, at);
    FilesReadOfUpdates(es, t, at);
    FilesReadOfPaths(FilePaths(es), t, at);
    forall e | e in es ensures FlatMap(read, FilePath(e)) == ReadOf(e, t, at) {
      if !e.isDir {
        FlatMapOne(read, e.path);
      }
    }
    FlatMapOfFlatMap(read, (e: Entry) => FilePath(e), (e: Entry) => ReadOf(e, t, at), es);
  }

  /** Sorting the paths reorders the files read and changes nothing else. */
  lemma ReadOrderIrrelevant(a: seq<Path>, b: seq<Path>, t: Node, at: Place)
    requires multiset(a) == multiset(b)
    ensures multiset(FilesRead(FileUpdates(a, t, at))) == multiset(FilesRead(FileUpdates(b, t, at)))
  {
    FilesReadOfPaths(a, t, at);
    FilesReadOfPaths(b, t, at);
    FlatMapPermutes((p: Path) => ReadAt(p, t, at), a, b);
  }

  lemma {:induction false} LookupWellFormed(t: Node, path: Path)
    requires WellFormed(t) && Lookup(t, path).Some?
    ensures WellFormed(Lookup(t, path).value)
  {
    if path == [] {
    } else {
      LookupWellFormed(Find(t.children, path[0]).value, path[1..]);
    }
  }

  lemma {:induction false} WalkedKindsMatch(rules: seq<Rule>, prefix: string, t: Node, name: string)
    requires t.Dir? && WellFormed(t)
    ensures KindsMatch(Below([], t), t) && KindsMatch(Filtered(rules, prefix, Some(t), name), t)
  {
    TreeLaws.WalkIsExact(t);
    forall e | e in Below([], t) ensures ContentAt(t, e.path).Some? <==> !e.isDir {
      assert Entry(e.path, e.isDir) in Below([], t);
    }
    forall e | e in Filtered(rules, prefix, Some(t), name) ensures ContentAt(t, e.path).Some? <==> !e.isDir {
      FilterMember((e: Entry) => Kept(rules, EntryText(prefix, e)), Below([], t), e);
    }
  }

  /** The one thing a source's zip can hold that its hash does not read: a single file whose name
      the source's own patterns reject. The zip ignores the filter there and the hash does not. */
  function Missed(fs: Node, base: Path, source: Source): seq<FileAt> {
    var loc := Resolve(base, source.path);
    match Lookup(fs, loc)
    case Some(File(bytes)) =>
      if source.rules.Some? && !Kept(source.rules.value, SingleFileText(source.prefix, Basename(loc)))
      then [(loc, bytes)] else []
    case _ => []
  }

  /** The filter a zip runs under when its patterns compiled to `rules`. */
  function ZipFilter(rules: Option<seq<Rule>>): Option<seq<Rule>> {
    if rules == Some([]) then None else rules
  }

  /** A zip of the source, as the plan of a claim without commands makes it. */
  function ZipOf(fs: Node, base: Path, source: Source, archive: seq<ArchiveEntry>): Result<Run, Error> {
    ZipSource(Run(Host(base, fs), ZipFilter(source.rules), archive), Some(source.path), source.prefix, false)
  }

  /** What the zip of a source adds is what the hash of the source reads and misses. */
  ghost predicate ZipsWhatIsRead(fs: Node, base: Path, source: Source, archive: seq<ArchiveEntry>) {
    var r := ZipOf(fs, base, source, archive);
    r.Success? ==>
      && r.value.host.fs == fs
      && multiset(FilesZipped(r.value.archive))
         == multiset(FilesZipped(archive)) + multiset(FilesRead(SourceUpdates(fs, base, source)))
            + multiset(Missed(fs, base, source))
  }

  lemma ZippedFile(fs: Node, base: Path, source: Source, archive: seq<ArchiveEntry>)
    requires Lookup(fs, Resolve(base, source.path)).Some? && Lookup(fs, Resolve(base, source.path)).value.File?
    ensures ZipsWhatIsRead(fs, base, source, archive)
  {
    var loc := Resolve(base, source.path);
    var bytes := Lookup(fs, loc).value.bytes;
    var entry := ArchiveEntry(ArchiveName(source.prefix, Basename(loc), false), loc, Some(bytes), false);
    assert ZipOf(fs, base, source, archive)
        == Success(Run(Host(base, fs), ZipFilter(source.rules), archive + [entry]));
    FilesZippedConcat(archive, [entry]);
    FlatMapOne((a: ArchiveEntry) => FileZipped(a), entry);
    ReadOfFile(fs, base, source, bytes);
  }

  lemma ReadOfFile(fs: Node, base: Path, source: Source, bytes: Bytes)
    requires Lookup(fs, Resolve(base, source.path)) == Some(File(bytes))
    ensures FilesRead(SourceUpdates(fs, base, source)) + Missed(fs, base, source)
         == [(Resolve(base, source.path), bytes)]
  {
    var loc := Resolve(base, source.path);
    var update := PathAndContent(HashedText(source.path, []), loc, Some(bytes));
    FlatMapOne((u: Update) => FileRead(u), update);
    assert loc + [] == loc;
    assert EntryUpdates([Entry([], false)], File(bytes), Place(source.path, loc)) == [update];
  }

  lemma {:induction false} ZippedDir(fs: Node, base: Path, source: Source, archive: seq<ArchiveEntry>)
    requires WellFormed(fs)
    requires Lookup(fs, Resolve(base, source.path)).Some? && Lookup(fs, Resolve(base, source.path)).value.Dir?
    ensures ZipsWhatIsRead(fs, base, source, archive)
  {
    var loc := Resolve(base, source.path);
    var at := Place(source.path, loc);
    var t := Lookup(fs, loc).value;
    var rules := if source.rules.Some? then source.rules.value else [];
    var es := if source.rules.Some? then Filtered(rules, source.prefix, Some(t), "") else Below([], t);
    LookupWellFormed(fs, loc);
    WalkedKindsMatch(rules, source.prefix, t, "");
    NoRulesKeepAll(source.prefix, t);
    FilesZippedConcat(archive, Packed(es, t, loc, source.prefix, false));
    PackedFilesAreRead(es, t, at, source.prefix, false);
    if source.rules.None? {
      FilesReadOfEntries(es, t, at);
      SortByCorrect(FilePaths(es), PathText);
      ReadOrderIrrelevant(FilePaths(es), Listed(t), t, at);
    }
  }

  lemma ZippedOfSource(fs: Node, base: Path, source: Source, archive: seq<ArchiveEntry>)
    requires WellFormed(fs)
    ensures ZipsWhatIsRead(fs, base, source, archive)
  {
    var found := Lookup(fs, Resolve(base, source.path));
    if found.Some? && found.value.File? {
      ZippedFile(fs, base, source, archive);
    } else if found.Some? {
      ZippedDir(fs, base, source, archive);
    }
  }

  predicate CommandFree(claim: Claim) {
    claim.PathClaim? || claim.commands == []
  }

  function AllMissed(fs: Node, base: Path, sources: seq<Source>): seq<FileAt> {
    FlatMap((s: Source) => Missed(fs, base, s), sources)
  }

  lemma RunsUnderOwnFilter(tools: Tools, sh: Shell, base: Path, fs: Node, w: World, claim: Claim)
    requires CommandFree(claim) && CompileClaim(tools, fs, base, claim).Success?
    ensures var sources := CompileClaim(tools, fs, base, claim).value.1;
            RunClaim(tools, sh, base, w, claim)
            == if sources == [] then Success(w)
               else ToWorld(ZipOf(w.fs, base, sources[0], w.archive))
    ensures |CompileClaim(tools, fs, base, claim).value.1| <= 1
  {
    if claim.DictClaim? && claim.patterns.Some? && claim.patterns.value != [] {
      assert |Compile(claim.patterns.value, tools.re)| > 0;
    }
  }

  /** What the archive gains from before to after is what the sources' hash reads and misses. */
  ghost predicate Accounted(before: World, after: World, base: Path, sources: seq<Source>) {
    && after.fs == before.fs
    && multiset(FilesZipped(after.archive))
       == multiset(FilesZipped(before.archive)) + multiset(FilesRead(HashUpdates(before.fs, base, sources)))
          + multiset(AllMissed(before.fs, base, sources))
  }

  lemma SourceAccounted(w: World, base: Path, source: Source)
    requires WellFormed(w.fs)
    requires ZipOf(w.fs, base, source, w.archive).Success?
    ensures Accounted(w, ToWorld(ZipOf(w.fs, base, source, w.archive)).value, base, [source])
  {
    ZippedOfSource(w.fs, base, source, w.archive);
    FlatMapOne((s: Source) => SourceUpdates(w.fs, base, s), source);
    FlatMapOne((s: Source) => Missed(w.fs, base, s), source);
  }

  lemma ClaimAccounted(tools: Tools, sh: Shell, base: Path, fs: Node, w: World, claim: Claim)
    requires WellFormed(w.fs) && CommandFree(claim)
    requires CompileClaim(tools, fs, base, claim).Success? && RunClaim(tools, sh, base, w, claim).Success?
    ensures Accounted(w, RunClaim(tools, sh, base, w, claim).value, base, CompileClaim(tools, fs, base, claim).value.1)
  {
    var sources := CompileClaim(tools, fs, base, claim).value.1;
    RunsUnderOwnFilter(tools, sh, base, fs, w, claim);
    if sources != [] {
      assert sources == [sources[0]];
      SourceAccounted(w, base, sources[0]);
    }
  }

  lemma AccountedTrans(a: World, b: World, c: World, base: Path, first: seq<Source>, second: seq<Source>)
    requires Accounted(a, b, base, first) && Accounted(b, c, base, second)
    ensures Accounted(a, c, base, first + second)
  {
    FlatMapConcat((s: Source) => SourceUpdates(a.fs, base, s), first, second);
    FilesReadConcat(HashUpdates(a.fs, base, first), HashUpdates(a.fs, base, second));
    FlatMapConcat((s: Source) => Missed(a.fs, base, s), first, second);
  }

  lemma {:induction false} ClaimsAccounted(tools: Tools, sh: Shell, base: Path, fs: Node, w: World, claims: seq<Claim>)
    requires WellFormed(w.fs)
    requires forall c :: c in claims ==> CommandFree(c)
    requires CompileClaims(tools, fs, base, claims).Success?
    requires RunClaims(tools, sh, base, w, claims).Success?
    ensures Accounted(w, RunClaims(tools, sh, base, w, claims).value, base,
                      CompileClaims(tools, fs, base, claims).value.1)
    decreases |claims|
  {
    if claims == [] {
    } else {
      assert claims[0] in claims;
      ClaimAccounted(tools, sh, base, fs, w, claims[0]);
      var next := RunClaim(tools, sh, base, w, claims[0]).value;
      ClaimsAccounted(tools, sh, base, fs, next, claims[1..]);
      AccountedTrans(w, next, RunClaims(tools, sh, base, next, claims[1..]).value, base,
                     CompileClaim(tools, fs, base, claims[0]).value.1,
                     CompileClaims(tools, fs, base, claims[1..]).value.1);
    }
  }

  /** The hash covers the zip. For claims without commands, the files packed by executing the plan,
      with the bytes packed, are the files and bytes the hash reads from the recorded sources, plus
      exactly the single files their own patterns reject. */
  lemma {:induction false} HashCoversZip(tools: Tools, sh: Shell, base: Path, fs: Node, claims: seq<Claim>)
    requires WellFormed(fs)
    requires forall c :: c in claims ==> CommandFree(c)
    requires CompileClaims(tools, fs, base, claims).Success?
    requires ExecPlan(sh, base, World(fs, []), CompileClaims(tools, fs, base, claims).value.0).Success?
    ensures var (plan, sources) := CompileClaims(tools, fs, base, claims).value;
            multiset(FilesZipped(ExecPlan(sh, base, World(fs, []), plan).value.archive))
            == multiset(FilesRead(HashUpdates(fs, base, sources))) + multiset(AllMissed(fs, base, sources))
  {
    PlanPreservesMeaning(tools, sh, base, fs, World(fs, []), claims);
    ClaimsAccounted(tools, sh, base, fs, World(fs, []), claims);
  }

  /** Hence hash and zip hold the same files exactly when no source is a rejected single file. */
  lemma {:induction false} HashEqualsZipExactly(tools: Tools, sh: Shell, base: Path, fs: Node, claims: seq<Claim>)
    requires WellFormed(fs)
    requires forall c :: c in claims ==> CommandFree(c)
    requires CompileClaims(tools, fs, base, claims).Success?
    requires ExecPlan(sh, base, World(fs, []), CompileClaims(tools, fs, base, claims).value.0).Success?
    ensures var (plan, sources) := CompileClaims(tools, fs, base, claims).value;
            multiset(FilesZipped(ExecPlan(sh, base, World(fs, []), plan).value.archive))
            == multiset(FilesRead(HashUpdates(fs, base, sources)))
            <==> forall s :: s in sources ==> Missed(fs, base, s) == []
  {
    var (plan, sources) := CompileClaims(tools, fs, base, claims).value;
    HashCoversZip(tools, sh, base, fs, claims);
    FlatMapEmpty((s: Source) => Missed(fs, base, s), sources);
    var read := multiset(FilesRead(HashUpdates(fs, base, sources)));
    var missed := multiset(AllMissed(fs, base, sources));
    if read + missed == read {
      assert |read + missed| == |read| + |missed|;
      assert |missed| == |AllMissed(fs, base, sources)|;
    }
  }

  /** Which happens: the plan of a claim with one file packs the file although no pattern keeps it,
      and the hash reads nothing. */
  lemma RejectedFileEscapesHash(tools: Tools, sh: Shell, base: Path, fs: Node, path: string,
                                patterns: seq<string>, prefix: string, bytes: Bytes)
    requires path != "" && Lookup(fs, Resolve(base, Normpath(path))) == Some(File(bytes))
    requires !Kept(Compile(patterns, tools.re), SingleFileText(prefix, Basename(Resolve(base, Normpath(path)))))
    ensures var compiled := CompileClaims(tools, fs, base, [DictClaim(path, Some(patterns), [], prefix)]);
            && compiled.Success?
            && var (plan, sources) := compiled.value;
            && ExecPlan(sh, base, World(fs, []), plan).Success?
            && FilesZipped(ExecPlan(sh, base, World(fs, []), plan).value.archive)
               == [(Resolve(base, Normpath(path)), bytes)]
            && FilesRead(HashUpdates(fs, base, sources)) == []
  {
    var claim := DictClaim(path, Some(patterns), [], prefix);
    var loc := Resolve(base, Normpath(path));
    var entry := ArchiveEntry(ArchiveName(prefix, Basename(loc), false), loc, Some(bytes), false);
    var source := Source(Normpath(path), Some(Compile(patterns, tools.re)), prefix);
    OneClaim(tools, sh, base, fs, claim);
    assert CompileClaim(tools, fs, base, claim).value.1 == [source];
    assert RunClaim(tools, sh, base, World(fs, []), claim) == Success(World(fs, [] + [entry]));
    assert [] + [entry] == [entry];
    FlatMapOne((a: ArchiveEntry) => FileZipped(a), entry);
    FlatMapOne((s: Source) => SourceUpdates(fs, base, s), source);
    assert SourceUpdates(fs, base, source) == [];
  }

  lemma OneClaim(tools: Tools, sh: Shell, base: Path, fs: Node, claim: Claim)
    requires CompileClaim(tools, fs, base, claim).Success?
    ensures CompileClaims(tools, fs, base, [claim]).Success?
    ensures var (plan, sources) := CompileClaims(tools, fs, base, [claim]).value;
            && sources == CompileClaim(tools, fs, base, claim).value.1
            && ExecPlan(sh, base, World(fs, []), plan) == RunClaim(tools, sh, base, World(fs, []), claim)
  {
    assert [claim][1..] == [];
    var (step, sources) := CompileClaim(tools, fs, base, claim).value;
    assert CompileClaims(tools, fs, base, []) == Success(([], []));
    assert sources + [] == sources;
    PlanPreservesMeaning(tools, sh, base, fs, World(fs, []), [claim]);
    var after := RunClaim(tools, sh, base, World(fs, []), claim);
    assert after.Success? ==> RunClaims(tools, sh, base, after.value, []) == after;
  }

  /** For instance one file `f` under the pattern `!f`, whatever it holds. */
  lemma SomeFileEscapesHash(sh: Shell, shlex: string -> seq<string>, bytes: Bytes)
    ensures var tools := Tools((p: string) => ((t: string) => t == p), shlex);
            var fs := Dir([Child("f", File(bytes))]);
            var compiled := CompileClaims(tools, fs, [], [DictClaim("f", Some(["!f"]), [], "")]);
            && WellFormed(fs) && compiled.Success?
            && var (plan, sources) := compiled.value;
            && ExecPlan(sh, [], World(fs, []), plan).Success?
            && FilesZipped(ExecPlan(sh, [], World(fs, []), plan).value.archive) == [(["f"], bytes)]
            && FilesRead(HashUpdates(fs, [], sources)) == []
  {
    var tools := Tools((p: string) => ((t: string) => t == p), shlex);
    var fs := Dir([Child("f", File(bytes))]);
    SplitWhole("f", '/');
    assert ["f"][1..] == [] && [] + ["f"] == ["f"];
    assert Resolve([], Normpath("f")) == ["f"] by {
      assert NormParts(["f"], PathArg(false, 0, [])) == NormParts([], PathArg(false, 0, ["f"]));
      var root: Path := [];
      assert root[..0] + ["f"] == ["f"];
    }
    assert Find(fs.children, "f") == Some(File(bytes));
    assert Lookup(fs, ["f"]) == Some(File(bytes));
    assert "!f"[1..] == "f" && ["!f"][1..] == [];
    var rules := Compile(["!f"], tools.re);
    assert |rules| == 1 && rules[0].neg && rules[0].matches("f");
    assert SingleFileText("", "f") == "f" && Basename(["f"]) == "f";
    RejectedFileEscapesHash(tools, sh, [], fs, "f", ["!f"], "", bytes);
  }

  // ----- listing order

  lemma {:induction false} SameUpdates(es: seq<Entry>, paths: seq<Path>, a: Node, b: Node, at: Place)
    requires WellFormed(a) && WellFormed(b) && SameTree(a, b)
    ensures EntryUpdates(es, a, at) == EntryUpdates(es, b, at)
    ensures FileUpdates(paths, a, at) == FileUpdates(paths, b, at)
  {
    forall p: Path ensures ContentAt(a, p) == ContentAt(b, p) {
      TreeLaws.SameLookup(a, b, p);
    }
  }

  /** Listing the directories of the file system in another order changes neither one update nor
      the order of the updates fed to the hash. */
  lemma {:induction false} HashIgnoresListingOrder(a: Node, b: Node, base: Path, sources: seq<Source>)
    requires WellFormed(a) && WellFormed(b) && SameTree(a, b)
    ensures HashUpdates(a, base, sources) == HashUpdates(b, base, sources)
  {
    if sources == [] {
    } else {
      SourceIgnoresListingOrder(a, b, base, sources[0]);
      HashIgnoresListingOrder(a, b, base, sources[1..]);
    }
  }

  lemma {:induction false} SourceIgnoresListingOrder(a: Node, b: Node, base: Path, s: Source)
    requires WellFormed(a) && WellFormed(b) && SameTree(a, b)
    ensures SourceUpdates(a, base, s) == SourceUpdates(b, base, s)
  {
    var loc := Resolve(base, s.path);
    TreeLaws.SameLookup(a, b, loc);
    if Lookup(a, loc).Some? {
      var x, y := Lookup(a, loc).value, Lookup(b, loc).value;
      var rules := if s.rules.Some? then s.rules.value else [];
      FilterIgnoresListingOrder(rules, s.prefix, x, y, Basename(loc));
      TreeLaws.ListingOrderNeverShows([], x, y);
      SameUpdates(Filtered(rules, s.prefix, Some(x), Basename(loc)), if x.Dir? then Listed(x) else [], x, y,
                  Place(s.path, loc));
    }
  }

  lemma {:induction false} SamePacked(es: seq<Entry>, a: Node, b: Node, loc: Path, prefix: string, epoch: bool)
    requires WellFormed(a) && WellFormed(b) && SameTree(a, b)
    ensures Packed(es, a, loc, prefix, epoch) == Packed(es, b, loc, prefix, epoch)
  {
    forall p: Path ensures ContentAt(a, p) == ContentAt(b, p) {
      TreeLaws.SameLookup(a, b, p);
    }
  }

  /** Nor does it change what a zip action appends, entry by entry, or whether it fails. */
  lemma {:induction false} ZipIgnoresListingOrder(a: Node, b: Node, cwd: Path, filter: Option<seq<Rule>>,
                                                  archive: seq<ArchiveEntry>, path: Option<PathArg>,
                                                  prefix: string, embedded: bool)
    requires WellFormed(a) && WellFormed(b) && SameTree(a, b)
    ensures match (ZipSource(Run(Host(cwd, a), filter, archive), path, prefix, embedded),
                   ZipSource(Run(Host(cwd, b), filter, archive), path, prefix, embedded))
            case (Success(x), Success(y)) => x.archive == y.archive
            case (Failure(x), Failure(y)) => x == y
            case _ => false
  {
    var loc := ZipLocation(cwd, path);
    TreeLaws.SameLookup(a, b, loc);
    if Lookup(a, loc).Some? {
      var x, y := Lookup(a, loc).value, Lookup(b, loc).value;
      if x.Dir? {
        var rules := if filter.Some? then filter.value else [];
        FilterIgnoresListingOrder(rules, prefix, x, y, "");
        TreeLaws.ListingOrderNeverShows([], x, y);
        SamePacked(if filter.Some? then Filtered(rules, prefix, Some(x), "") else Below([], x),
                   x, y, loc, prefix, embedded);
      }
    }
  }

  lemma ClaimCompilesAlike(tools: Tools, a: Node, b: Node, base: Path, claim: Claim)
    requires WellFormed(a) && WellFormed(b) && SameTree(a, b)
    ensures CompileClaim(tools, a, base, claim) == CompileClaim(tools, b, base, claim)
  {
    if claim.PathClaim? {
      TreeLaws.SameLookup(a, b, Resolve(base, Normpath(claim.path)));
    }
  }

  lemma {:induction false} ClaimsCompileAlike(tools: Tools, a: Node, b: Node, base: Path, claims: seq<Claim>)
    requires WellFormed(a) && WellFormed(b) && SameTree(a, b)
    ensures CompileClaims(tools, a, base, claims) == CompileClaims(tools, b, base, claims)
  {
    if claims == [] {
    } else {
      ClaimCompilesAlike(tools, a, b, base, claims[0]);
      ClaimsCompileAlike(tools, a, b, base, claims[1..]);
    }
  }

  /** The same archive over each of the file systems, or the same error. */
  ghost predicate SameOutcome(x: Result<World, Error>, y: Result<World, Error>, a: Node, b: Node) {
    match (x, y)
    case (Success(v), Success(w)) => v.fs == a && w.fs == b && v.archive == w.archive
    case (Failure(e), Failure(f)) => e == f
    case _ => false
  }

  lemma ClaimRunsAlike(tools: Tools, sh: Shell, a: Node, b: Node, base: Path, archive: seq<ArchiveEntry>, claim: Claim)
    requires WellFormed(a) && WellFormed(b) && SameTree(a, b) && CommandFree(claim)
    ensures SameOutcome(RunClaim(tools, sh, base, World(a, archive), claim),
                        RunClaim(tools, sh, base, World(b, archive), claim), a, b)
  {
    match claim
    case PathClaim(path) =>
      ZipIgnoresListingOrder(a, b, base, None, archive, Some(Normpath(path)), "", false);
    case DictClaim(path, patterns, _, prefix) =>
      var filter := if patterns.Some? && patterns.value == [] then None else Rules(tools, patterns);
      ZipIgnoresListingOrder(a, b, base, filter, archive, Some(Normpath(path)), prefix, false);
  }

  lemma {:induction false} ClaimsRunAlike(tools: Tools, sh: Shell, a: Node, b: Node, base: Path,
                                          archive: seq<ArchiveEntry>, claims: seq<Claim>)
    requires WellFormed(a) && WellFormed(b) && SameTree(a, b)
    requires forall c :: c in claims ==> CommandFree(c)
    ensures SameOutcome(RunClaims(tools, sh, base, World(a, archive), claims),
                        RunClaims(tools, sh, base, World(b, archive), claims), a, b)
    decreases |claims|
  {
    if claims == [] {
    } else {
      assert claims[0] in claims;
      ClaimRunsAlike(tools, sh, a, b, base, archive, claims[0]);
      var next := RunClaim(tools, sh, base, World(a, archive), claims[0]);
      if next.Success? {
        ClaimsRunAlike(tools, sh, a, b, base, next.value.archive, claims[1..]);
      }
    }
  }

  /** For claims without commands the listing order of no directory shows in the plan, in the recorded
      sources, or anywhere in the archive, entry by entry. */
  lemma {:induction false} ArchiveIgnoresListingOrder(tools: Tools, sh: Shell, a: Node, b: Node, base: Path,
                                                      claims: seq<Claim>)
    requires WellFormed(a) && WellFormed(b) && SameTree(a, b)
    requires forall c :: c in claims ==> CommandFree(c)
    ensures CompileClaims(tools, a, base, claims) == CompileClaims(tools, b, base, claims)
    ensures CompileClaims(tools, a, base, claims).Success? ==>
              var plan := CompileClaims(tools, a, base, claims).value.0;
              SameOutcome(ExecPlan(sh, base, World(a, []), plan), ExecPlan(sh, base, World(b, []), plan), a, b)
  {
    ClaimsCompileAlike(tools, a, b, base, claims);
    if CompileClaims(tools, a, base, claims).Success? {
      PlanPreservesMeaning(tools, sh, base, a, World(a, []), claims);
      PlanPreservesMeaning(tools, sh, base, b, World(b, []), claims);
      ClaimsRunAlike(tools, sh, a, b, base, [], claims);
    }
  }
}
