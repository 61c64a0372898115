/** `ZipContentFilter` and `list_files` of modules/aws/lambda/package.py: which paths below a
    source are zipped and hashed. A compiled pattern is a predicate on path texts. */
module ContentFilter {
  import opened Wrappers
  import opened Text
  import opened Ordering
  import opened FileTree
  import opened Paths
  import TreeLaws

  type Regex = string -> bool

  /** A pattern; a leading `!` makes it an excluding one. */
  datatype Rule = Rule(neg: bool, matches: Regex)

  function Compile(patterns: seq<string>, re: string -> Regex): seq<Rule> {
    if patterns == [] then []
    else
      var p := patterns[0];
      [if "!" <= p then Rule(true, re(p[1..])) else Rule(false, re(p))] + Compile(patterns[1..], re)
  }

  /** The last rule that matches decides: an excluding match drops the path unless some later
      including rule matches too. A path that nothing matches is kept. */
  predicate Kept(rules: seq<Rule>, text: string) {
    forall k :: 0 <= k < |rules| && rules[k].neg && rules[k].matches(text) ==>
      exists j :: k < j < |rules| && !rules[j].neg && rules[j].matches(text)
  }

  predicate NoneIncludes(rules: seq<Rule>, from: nat, to: nat, text: string)
    requires to <= |rules|
  {
    forall j :: from <= j < to ==> rules[j].neg || !rules[j].matches(text)
  }

  method Apply(rules: seq<Rule>, text: string) returns (keep: bool)
    ensures keep == Kept(rules, text)
  {
    keep := true;
    for k := 0 to |rules|
      invariant keep ==> forall i :: 0 <= i < k && rules[i].neg && rules[i].matches(text) ==>
        exists j :: i < j < k && !rules[j].neg && rules[j].matches(text)
      invariant !keep ==>
        exists i :: 0 <= i < k && rules[i].neg && rules[i].matches(text) && NoneIncludes(rules, i + 1, k, text)
    {
      var rule := rules[k];
      var m := rule.matches(text);
      if rule.neg && m {
        keep := false;
      } else if m {
        keep := true;
      }
    }
  }

  // ----- the text a path is matched by

  /** `os.path.join` of a normalised prefix and a relative path. */
  function JoinPath(prefix: string, relative: string): string {
    if EndsWith(prefix, "/") then prefix + relative else prefix + "/" + relative
  }

  function PathText(path: Path): string {
    Join(path, "/")
  }

  /** An empty prefix is no prefix; any other is normalised first. A directory's text ends in a
      separator and is not normalised again; a file's is, so the prefix `.` shows only before
      directories. */
  function EntryText(prefix: string, e: Entry): string {
    var p := NormPrefix(prefix);
    if e.isDir then (if p == "" then PathText(e.path) else JoinPath(p, PathText(e.path))) + "/"
    else if p == "" || p == "." then PathText(e.path)
    else JoinPath(p, PathText(e.path))
  }

  function SingleFileText(prefix: string, name: string): string {
    if prefix == "" then name else JoinPath(NormPrefix(prefix), name)
  }

  function NormPrefix(prefix: string): string {
    if prefix == "" then "" else PathArgText(Normpath(prefix))
  }

  /** The entries whose own text the rules keep. */
  function Select(rules: seq<Rule>, prefix: string, es: seq<Entry>): seq<Entry> {
    Filter((e: Entry) => Kept(rules, EntryText(prefix, e)), es)
  }

  /** What `filter` yields: of a directory, the kept part of the plain walk; of a single file
      (as the empty path), the file if its name is kept; nothing where there is nothing. */
  function Filtered(rules: seq<Rule>, prefix: string, source: Option<Node>, name: string): seq<Entry> {
    match source
    case None => []
    case Some(File(_)) => if Kept(rules, SingleFileText(prefix, name)) then [Entry([], false)] else []
    case Some(t) => Select(rules, prefix, Below([], t))
  }

  lemma SelectConcat(rules: seq<Rule>, prefix: string, a: seq<Entry>, b: seq<Entry>)
    ensures Select(rules, prefix, a + b) == Select(rules, prefix, a) + Select(rules, prefix, b)
  {
    FilterConcat((e: Entry) => Kept(rules, EntryText(prefix, e)), a, b);
  }

  lemma SelectSnoc(rules: seq<Rule>, prefix: string, es: seq<Entry>, e: Entry)
    ensures Select(rules, prefix, es + [e])
         == Select(rules, prefix, es) + if Kept(rules, EntryText(prefix, e)) then [e] else []
  {
    var keep := (e: Entry) => Kept(rules, EntryText(prefix, e));
    FilterConcat(keep, es, [e]);
    assert [e][1..] == [] && Filter(keep, [e]) == (if keep(e) then [e] else []) + Filter(keep, [e][1..]);
  }

  method FilterSource(rules: seq<Rule>, prefix: string, source: Option<Node>, name: string)
    returns (out: seq<Entry>)
    ensures out == Filtered(rules, prefix, source, name)
  {
    if source.Some? && source.value.File? {
      var keep := Apply(rules, SingleFileText(prefix, name));
      out := if keep then [Entry([], false)] else [];
    } else {
      out := FilterVisits(rules, prefix, Root(source));
      RootGivesBelow(source);
    }
  }

  method EmitIfKept(rules: seq<Rule>, prefix: string, e: Entry) returns (out: seq<Entry>)
    ensures out == Select(rules, prefix, [e])
  {
    SelectSnoc(rules, prefix, [], e);
    assert [] + [e] == [e];
    var keep := Apply(rules, EntryText(prefix, e));
    out := if keep then [e] else [];
  }

  method FilterVisits(rules: seq<Rule>, prefix: string, visits: seq<Visit>) returns (out: seq<Entry>)
    ensures out == Select(rules, prefix, AllVisitEntries(visits))
  {
    out := [];
    for k := 0 to |visits|
      invariant out == Select(rules, prefix, AllVisitEntries(visits[..k]))
    {
      var v := visits[k];
      var files := SortNames(v.files);
      var fromVisit: seq<Entry> := [];
      if v.path != [] {
        fromVisit := EmitIfKept(rules, prefix, Entry(v.path, true));
      }
      ghost var head: seq<Entry> := if v.path == [] then [] else [Entry(v.path, true)];
      assert head + FileEntries(v.path, files[..0]) == head;
      for i := 0 to |files|
        invariant fromVisit == Select(rules, prefix, head + FileEntries(v.path, files[..i]))
      {
        var file := Entry(v.path + [files[i]], false);
        var emitted := EmitIfKept(rules, prefix, file);
        SelectFile(rules, prefix, head, v.path, files, i);
        fromVisit := fromVisit + emitted;
      }
      assert files[..|files|] == files;
      SelectVisit(rules, prefix, visits, k);
      out := out + fromVisit;
    }
    assert visits[..|visits|] == visits;
  }

  lemma {:induction false} SelectFile(rules: seq<Rule>, prefix: string, head: seq<Entry>, root: Path,
                                      files: seq<string>, i: nat)
    requires i < |files|
    ensures Select(rules, prefix, head + FileEntries(root, files[..i + 1]))
         == Select(rules, prefix, head + FileEntries(root, files[..i]))
            + Select(rules, prefix, [Entry(root + [files[i]], false)])
  {
    var file := [Entry(root + [files[i]], false)];
    FileEntriesSnoc(root, files, i);
    SelectConcat(rules, prefix, head + FileEntries(root, files[..i]), file);
    assert head + FileEntries(root, files[..i]) + file == head + (FileEntries(root, files[..i]) + file);
  }

  lemma {:induction false} SelectVisit(rules: seq<Rule>, prefix: string, visits: seq<Visit>, k: nat)
    requires k < |visits|
    ensures Select(rules, prefix, AllVisitEntries(visits[..k + 1]))
         == Select(rules, prefix, AllVisitEntries(visits[..k])) + Select(rules, prefix, VisitEntries(visits[k]))
  {
    AllVisitEntriesSnoc(visits, k);
    SelectConcat(rules, prefix, AllVisitEntries(visits[..k]), VisitEntries(visits[k]));
  }

  /** With no rules the filter is the plain walk. */
  lemma {:induction false} NoRulesKeepAll(prefix: string, t: Node)
    requires t.Dir?
    ensures Filtered([], prefix, Some(t), "") == Below([], t)
  {
    FilterAll((e: Entry) => Kept([], EntryText(prefix, e)), Below([], t));
  }

  /** A location survives the filter of a directory exactly when its own text is kept; whether a
      directory above it was excluded makes no difference. */
  lemma {:induction false} FilterIsPerEntry(rules: seq<Rule>, prefix: string, t: Node, path: Path, isDir: bool)
    requires t.Dir? && WellFormed(t)
    ensures Entry(path, isDir) in Filtered(rules, prefix, Some(t), "")
       <==> && path != [] && Lookup(t, path).Some? && Lookup(t, path).value.Dir? == isDir
            && Kept(rules, EntryText(prefix, Entry(path, isDir)))
  {
    TreeLaws.WalkIsExact(t);
    FilterMember((e: Entry) => Kept(rules, EntryText(prefix, e)), Below([], t), Entry(path, isDir));
  }

  /** Nor does the listing order of any directory show through the filter. */
  lemma {:induction false} FilterIgnoresListingOrder(rules: seq<Rule>, prefix: string, a: Node, b: Node, name: string)
    requires WellFormed(a) && WellFormed(b) && SameTree(a, b)
    ensures Filtered(rules, prefix, Some(a), name) == Filtered(rules, prefix, Some(b), name)
  {
    TreeLaws.ListingOrderNeverShows([], a, b);
  }

  // ----- list_files

  function FilePaths(es: seq<Entry>): seq<Path> {
    FlatMap((e: Entry) => FilePath(e), es)
  }

  function FilePath(e: Entry): seq<Path> {
    if e.isDir then [] else [e.path]
  }

  lemma FilePathsConcat(a: seq<Entry>, b: seq<Entry>)
    ensures FilePaths(a + b) == FilePaths(a) + FilePaths(b)
  {
    FlatMapConcat((e: Entry) => FilePath(e), a, b);
  }

  function Listed(t: Node): seq<Path> {
    SortBy(FilePaths(Below([], t)), PathText)
  }

  method ListFiles(top: Option<Node>) returns (results: seq<Path>)
    ensures results == if top.None? then [] else Listed(top.value)
  {
    results := FilesOfVisits(Root(top));
    RootGivesBelow(top);
    results := SortBy(results, PathText);
  }

  method FilesOfVisits(visits: seq<Visit>) returns (results: seq<Path>)
    ensures results == FilePaths(AllVisitEntries(visits))
  {
    results := [];
    for k := 0 to |visits|
      invariant results == FilePaths(AllVisitEntries(visits[..k]))
    {
      var v := visits[k];
      var files := SortNames(v.files);
      ghost var before := results;
      for i := 0 to |files|
        invariant results == before + FilePaths(FileEntries(v.path, files[..i]))
      {
        var path := v.path + [files[i]];
        FileEntriesSnoc(v.path, files, i);
        FilePathsConcat(FileEntries(v.path, files[..i]), [Entry(path, false)]);
        FlatMapOne((e: Entry) => FilePath(e), Entry(path, false));
        results := results + [path];
      }
      assert files[..|files|] == files;
      FilesOfVisit(visits, k);
    }
    assert visits[..|visits|] == visits;
  }

  /** A visit adds its files; its directory entry adds none. */
  lemma FilesOfVisit(visits: seq<Visit>, k: nat)
    requires k < |visits|
    ensures FilePaths(AllVisitEntries(visits[..k + 1]))
         == FilePaths(AllVisitEntries(visits[..k])) + FilePaths(FileEntries(visits[k].path, SortNames(visits[k].files)))
  {
    var v := visits[k];
    var head := if v.path == [] then [] else [Entry(v.path, true)];
    AllVisitEntriesSnoc(visits, k);
    FilePathsConcat(AllVisitEntries(visits[..k]), VisitEntries(v));
    FilePathsConcat(head, FileEntries(v.path, SortNames(v.files)));
    if head != [] {
      FlatMapOne((e: Entry) => FilePath(e), head[0]);
    }
    assert FilePaths(head) == [];
  }

  lemma FilePathsMembers(es: seq<Entry>, path: Path)
    ensures path in FilePaths(es) <==> Entry(path, false) in es
  {
    FlatMapMember((e: Entry) => FilePath(e), es, path);
    if path in FilePaths(es) {
      var e :| e in es && path in FilePath(e);
      assert e == Entry(path, false);
    }
    if Entry(path, false) in es {
      assert path in FilePath(Entry(path, false));
    }
  }

  /** `list_files` returns every file below the directory, sorted by its relative path's text, and
      the result does not depend on how the system lists directories. */
  lemma {:induction false} ListFilesIsExact(t: Node, other: Node)
    requires t.Dir? && WellFormed(t) && WellFormed(other) && SameTree(t, other)
    ensures SortedBy(Listed(t), PathText)
    ensures forall path :: path in Listed(t) <==> path != [] && Lookup(t, path).Some? && Lookup(t, path).value.File?
    ensures Listed(other) == Listed(t)
  {
    SortByCorrect(FilePaths(Below([], t)), PathText);
    TreeLaws.WalkIsExact(t);
    TreeLaws.ListingOrderNeverShows([], t, other);
    forall path ensures path in Listed(t) <==> path != [] && Lookup(t, path).Some? && Lookup(t, path).value.File? {
      FilePathsMembers(Below([], t), path);
    }
  }
}
