/** The file system as a finite tree whose directories list their children in an arbitrary order,
    and the three tree walks of modules/aws/lambda/package.py that must not depend on that order.
    A path below a directory is the list of its components, which is what `normpath` leaves of it. */
module FileTree {
  import opened Wrappers
  import opened Text
  import opened Ordering

  type Bytes = seq<bv8>
  type Path = seq<string>

  datatype Node = File(bytes: Bytes) | Dir(children: seq<Child>)
  datatype Child = Child(name: string, node: Node)

  /** What a walk yields: a location below the walked directory and its kind. */
  datatype Entry = Entry(path: Path, isDir: bool)

  /** One step of `os.walk`: the directory visited and its raw, unsorted listings. */
  datatype Visit = Visit(path: Path, dirs: seq<string>, files: seq<string>)

  function Names(cs: seq<Child>): seq<string> {
    Map((c: Child) => c.name, cs)
  }

  /** The names of the child directories, or of the child files, in listing order. */
  function Listing(cs: seq<Child>, wantDirs: bool): seq<string> {
    if cs == [] then []
    else (if cs[0].node.Dir? == wantDirs then [cs[0].name] else []) + Listing(cs[1..], wantDirs)
  }

  function Find(cs: seq<Child>, name: string): (r: Option<Node>)
    ensures r.Some? ==> exists i :: 0 <= i < |cs| && cs[i].name == name && cs[i].node == r.value
    ensures r.None? ==> forall i :: 0 <= i < |cs| ==> cs[i].name != name
  {
    if cs == [] then None
    else if cs[0].name == name then Some(cs[0].node)
    else Find(cs[1..], name)
  }

  function Lookup(t: Node, path: Path): Option<Node> {
    if path == [] then Some(t)
    else if t.File? then None
    else
      match Find(t.children, path[0])
      case None => None
      case Some(child) => Lookup(child, path[1..])
  }

  predicate ProperName(name: string) {
    name != "" && name != "." && name != ".." && '/' !in name
  }

  /** No directory lists the same name twice. */
  predicate WellFormed(t: Node) {
    t.Dir? ==>
      && Distinct(Names(t.children))
      && forall i :: 0 <= i < |t.children| ==> ProperName(t.children[i].name) && WellFormed(t.children[i].node)
  }

  /** The same tree up to permuting the listing of any directory at any depth: the listings hold
      the same names, and children of the same name are again the same up to permutation. */
  predicate SameTree(a: Node, b: Node) {
    match a
    case File(bytes) => b == a
    case Dir(cs) =>
      && b.Dir?
      && multiset(Names(cs)) == multiset(Names(b.children))
      && forall i :: 0 <= i < |cs| ==>
           var other := Find(b.children, cs[i].name);
           other.Some? && SameTree(cs[i].node, other.value)
  }

  function FileEntries(base: Path, names: seq<string>): seq<Entry> {
    Map((n: string) => Entry(base + [n], false), names)
  }

  /** Everything below a directory: its files by name, then each child directory by name,
      itself first and then what is below it. */
  function Below(base: Path, t: Node): seq<Entry>
    decreases t, 1, 0
  {
    if t.File? then []
    else
      FileEntries(base, SortNames(Listing(t.children, false)))
      + BelowDirs(base, t, SortNames(Listing(t.children, true)))
  }

  function BelowDirs(base: Path, t: Node, dirs: seq<string>): seq<Entry>
    requires t.Dir?
    decreases t, 0, 1
  {
    FlatMap((d: string) => BelowDir(base, t, d), dirs)
  }

  function BelowDir(base: Path, t: Node, d: string): seq<Entry>
    requires t.Dir?
    decreases t, 0, 0
  {
    match Find(t.children, d)
    case None => []
    case Some(child) => if child.File? then [] else [Entry(base + [d], true)] + Below(base + [d], child)
  }

  /** `os.walk` top-down, followed by callers that sort the directory list in place before the
      walk descends: one visit per directory, raw listings, descent in sorted order. */
  function Walk(base: Path, t: Node): seq<Visit>
    decreases t, 1, 0
  {
    if t.File? then []
    else
      [Visit(base, Listing(t.children, true), Listing(t.children, false))]
      + WalkDirs(base, t, SortNames(Listing(t.children, true)))
  }

  function WalkDirs(base: Path, t: Node, dirs: seq<string>): seq<Visit>
    requires t.Dir?
    decreases t, 0, 1
  {
    FlatMap((d: string) => WalkDir(base, t, d), dirs)
  }

  function WalkDir(base: Path, t: Node, d: string): seq<Visit>
    requires t.Dir?
    decreases t, 0, 0
  {
    match Find(t.children, d)
    case None => []
    case Some(child) => Walk(base + [d], child)
  }

  function Root(t: Option<Node>): seq<Visit> {
    if t.None? then [] else Walk([], t.value)
  }

  function VisitEntries(v: Visit): seq<Entry> {
    (if v.path == [] then [] else [Entry(v.path, true)]) + FileEntries(v.path, SortNames(v.files))
  }

  function AllVisitEntries(vs: seq<Visit>): seq<Entry> {
    FlatMap((v: Visit) => VisitEntries(v), vs)
  }

  lemma AllVisitEntriesConcat(a: seq<Visit>, b: seq<Visit>)
    ensures AllVisitEntries(a + b) == AllVisitEntries(a) + AllVisitEntries(b)
  {
    FlatMapConcat((v: Visit) => VisitEntries(v), a, b);
  }

  lemma AllVisitEntriesSnoc(vs: seq<Visit>, k: nat)
    requires k < |vs|
    ensures AllVisitEntries(vs[..k + 1]) == AllVisitEntries(vs[..k]) + VisitEntries(vs[k])
  {
    FlatMapSnoc((v: Visit) => VisitEntries(v), vs, k);
  }

  lemma AllVisitEntriesCons(v: Visit, rest: seq<Visit>)
    ensures AllVisitEntries([v] + rest) == VisitEntries(v) + AllVisitEntries(rest)
  {
    AllVisitEntriesConcat([v], rest);
    FlatMapOne((v: Visit) => VisitEntries(v), v);
  }

  /** Reading the flat stream of visits gives the tree recursion. */
  lemma {:induction false} WalkGivesBelow(base: Path, t: Node)
    ensures AllVisitEntries(Walk(base, t))
         == (if base == [] || t.File? then [] else [Entry(base, true)]) + Below(base, t)
    decreases t, 1, 0
  {
    if t.Dir? {
      var v := Visit(base, Listing(t.children, true), Listing(t.children, false));
      var dirs := SortNames(v.dirs);
      AllVisitEntriesCons(v, WalkDirs(base, t, dirs));
      WalkDirsGiveBelow(base, t, dirs);
      HeadThenContent(base, SortNames(v.files), BelowDirs(base, t, dirs));
    }
  }

  lemma HeadThenContent(base: Path, files: seq<string>, dirs: seq<Entry>)
    ensures var head := if base == [] then [] else [Entry(base, true)];
            head + FileEntries(base, files) + dirs == head + (FileEntries(base, files) + dirs)
  {
  }

  lemma WalkDirsGiveBelow(base: Path, t: Node, dirs: seq<string>)
    requires t.Dir?
    ensures AllVisitEntries(WalkDirs(base, t, dirs)) == BelowDirs(base, t, dirs)
    decreases t, 0, 1
  {
    forall d | d in dirs ensures AllVisitEntries(WalkDir(base, t, d)) == BelowDir(base, t, d) {
      var found := Find(t.children, d);
      if found.Some? {
        WalkGivesBelow(base + [d], found.value);
      }
    }
    FlatMapOfFlatMap((v: Visit) => VisitEntries(v), (d: string) => WalkDir(base, t, d),
                     (d: string) => BelowDir(base, t, d), dirs);
  }

  lemma FileEntriesSnoc(base: Path, names: seq<string>, k: nat)
    requires k < |names|
    ensures FileEntries(base, names[..k + 1]) == FileEntries(base, names[..k]) + [Entry(base + [names[k]], false)]
  {
    assert names[..k + 1] == names[..k] + [names[k]];
    MapConcat((n: string) => Entry(base + [n], false), names[..k], [names[k]]);
  }

  lemma RootGivesBelow(t: Option<Node>)
    ensures AllVisitEntries(Root(t)) == if t.None? then [] else Below([], t.value)
  {
    if t.Some? {
      WalkGivesBelow([], t.value);
    }
  }

  /** A visit's directory entry and then all its files complete the entries of that visit. */
  lemma VisitWalked(vs: seq<Visit>, k: nat, start: seq<Entry>, files: seq<string>)
    requires k < |vs| && files == SortNames(vs[k].files)
    requires start == AllVisitEntries(vs[..k]) + if vs[k].path == [] then [] else [Entry(vs[k].path, true)]
    ensures start + FileEntries(vs[k].path, files[..|files|]) == AllVisitEntries(vs[..k + 1])
  {
    AllVisitEntriesSnoc(vs, k);
    assert files[..|files|] == files;
  }

  /** `emit_dir_content`: every directory and file below the base, in walk order. */
  method EmitDirContent(base: Option<Node>) returns (out: seq<Entry>)
    ensures out == if base.None? then [] else Below([], base.value)
  {
    out := [];
    var visits := Root(base);
    for k := 0 to |visits|
      invariant out == AllVisitEntries(visits[..k])
    {
      var v := visits[k];
      var files := SortNames(v.files);
      if v.path != [] {
        out := out + [Entry(v.path, true)];
      }
      ghost var start := out;
      for i := 0 to |files|
        invariant out == start + FileEntries(v.path, files[..i])
      {
        FileEntriesSnoc(v.path, files, i);
        out := out + [Entry(v.path + [files[i]], false)];
      }
      VisitWalked(visits, k, start, files);
    }
    assert visits[..|visits|] == visits;
    RootGivesBelow(base);
  }
}
