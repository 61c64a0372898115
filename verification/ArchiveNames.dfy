/** The names under which a directory is packed never collide: `_write_file` and the name rules of
    `ZipInfo.from_file` keep different paths apart under any prefix. */
module ArchiveNames {
  import opened Wrappers
  import opened Text
  import opened FileTree
  import opened Paths
  import opened ContentFilter
  import opened BuildPlan
  import TreeLaws

  predicate ProperPath(path: Path) {
    path != [] && forall i :: 0 <= i < |path| ==> ProperName(path[i])
  }

  /** A component that a normalised text can have: not empty and without a slash. */
  predicate Component(c: string) {
    c != "" && '/' !in c
  }

  /** The components of a normalised path argument. */
  function Components(a: PathArg): seq<string> {
    seq(a.ups, _ => "..") + a.parts
  }

  // ----- what a walk yields has proper paths

  lemma {:induction false} FoundIsProper(t: Node, path: Path)
    requires WellFormed(t) && path != [] && Lookup(t, path).Some?
    ensures ProperPath(path)
  {
    var child := Find(t.children, path[0]);
    var i :| 0 <= i < |t.children| && t.children[i].name == path[0] && t.children[i].node == child.value;
    if path[1..] != [] {
      FoundIsProper(child.value, path[1..]);
      assert forall k :: 0 < k < |path| ==> path[k] == path[1..][k - 1];
    }
  }

  lemma WalkedIsProper(t: Node, e: Entry)
    requires WellFormed(t) && e in Below([], t)
    ensures ProperPath(e.path)
  {
    TreeLaws.WalkIsExact(t);
    assert Entry(e.path, e.isDir) in Below([], t);
    FoundIsProper(t, e.path);
  }

  // ----- normalising a prefix and a path

  lemma {:induction false} NormPartsConcat(a: seq<string>, b: seq<string>, done: PathArg)
    ensures NormParts(a + b, done) == NormParts(b, NormParts(a, done))
    decreases |a|
  {
    if a == [] {
      assert a + b == b;
    } else {
      assert (a + b)[0] == a[0] && (a + b)[1..] == a[1..] + b;
      NormPartsConcat(a[1..], b, NormPart(a[0], done));
    }
  }

  /** Proper components are appended as they are. */
  lemma {:induction false} NormPartsProper(path: Path, done: PathArg)
    requires forall i :: 0 <= i < |path| ==> ProperName(path[i])
    ensures NormParts(path, done) == done.(parts := done.parts + path)
    decreases |path|
  {
    if path == [] {
      assert done.parts + path == done.parts;
    } else {
      NormPartsProper(path[1..], NormPart(path[0], done));
      assert done.parts + [path[0]] + path[1..] == done.parts + path;
    }
  }

  lemma NormpathComponents(text: string)
    ensures forall c :: c in Components(Normpath(text)) ==> Component(c)
  {
    NormpathNames(text);
  }

  lemma {:induction false} SplitEndingInSlash(text: string)
    ensures Split(text + "/", '/') == Split(text, '/') + [""]
  {
    SplitConcat(text, '/', "");
    assert text + ['/'] + "" == text + "/";
  }

  /** A joined path normalises to the normalised prefix with the path appended. */
  lemma JoinedNormalises(prefix: string, path: Path)
    requires prefix != "" && ProperPath(path)
    ensures var a := Normpath(prefix);
            Normpath(JoinPath(prefix, PathText(path))) == a.(parts := a.parts + path)
  {
    var start := PathArg("/" <= prefix, 0, []);
    var joined := JoinPath(prefix, PathText(path));
    assert joined[0] == prefix[0];
    SplitJoin(path, '/');
    var head := if EndsWith(prefix, "/") then prefix[..|prefix| - 1] else prefix;
    assert joined == head + ['/'] + PathText(path);
    SplitConcat(head, '/', PathText(path));
    NormPartsConcat(Split(head, '/'), path, start);
    NormPartsProper(path, NormParts(Split(head, '/'), start));
    if EndsWith(prefix, "/") {
      assert prefix == head + "/";
      SplitEndingInSlash(head);
      NormPartsConcat(Split(head, '/'), [""], start);
      assert [""][1..] == [];
    }
  }

  lemma BareNormalises(path: Path)
    requires ProperPath(path)
    ensures Normpath(PathText(path)) == PathArg(false, 0, path)
  {
    SplitJoin(path, '/');
    FirstOfJoin(path);
    NormPartsProper(path, PathArg(false, 0, []));
    assert [] + path == path;
  }

  lemma FirstOfJoin(parts: seq<string>)
    requires parts != [] && forall c :: c in parts ==> Component(c)
    ensures var text := Join(parts, "/"); text != "" && text[0] != '/'
  {
    assert parts[0] in parts;
    assert Join(parts, "/")[0] == parts[0][0];
  }

  lemma {:induction false} LastOfJoin(parts: seq<string>)
    requires parts != [] && forall c :: c in parts ==> Component(c)
    ensures var text := Join(parts, "/"); text != "" && text[|text| - 1] != '/'
  {
    assert parts[0] in parts;
    if |parts| > 1 {
      LastOfJoin(parts[1..]);
      assert Join(parts, "/") == parts[0] + "/" + Join(parts[1..], "/");
    }
  }

  /** The components of the prefix that all names of a zip share. */
  function Shared(prefix: string): seq<string> {
    if prefix == "" then [] else Components(Normpath(prefix))
  }

  lemma StrippedText(a: PathArg)
    requires Components(a) != [] && forall c :: c in Components(a) ==> Component(c)
    ensures StripSlashes(PathArgText(a)) == Join(Components(a), "/")
  {
    var text := Join(Components(a), "/");
    FirstOfJoin(Components(a));
    assert StripSlashes(text) == text;
    if a.isAbs {
      assert ("/" + text)[1..] == text;
    }
  }

  lemma ProperComponents(prefix: string, path: Path)
    requires ProperPath(path)
    ensures forall c :: c in path ==> Component(c)
    ensures forall c :: c in Shared(prefix) + path ==> Component(c)
  {
    NormpathComponents(prefix);
    forall c | c in path ensures Component(c) {
      var i :| 0 <= i < |path| && path[i] == c;
    }
  }

  lemma JoinedComponents(a: PathArg, path: Path)
    ensures Components(a.(parts := a.parts + path)) == Components(a) + path
  {
    ConcatAssociates(seq(a.ups, _ => ".."), a.parts, path);
  }

  /** A name is the shared components and then the path, a directory's with a slash. */
  lemma NameOfEntry(prefix: string, e: Entry)
    requires ProperPath(e.path)
    ensures ArchiveName(prefix, PathText(e.path), e.isDir)
         == Join(Shared(prefix) + e.path, "/") + if e.isDir then "/" else ""
  {
    ProperComponents(prefix, e.path);
    if prefix == "" {
      BareNormalises(e.path);
      assert Components(PathArg(false, 0, e.path)) == e.path && [] + e.path == e.path;
      StrippedText(PathArg(false, 0, e.path));
    } else {
      var a := Normpath(prefix);
      JoinedNormalises(prefix, e.path);
      JoinedComponents(a, e.path);
      StrippedText(a.(parts := a.parts + e.path));
    }
  }

  lemma TextsApart(shared: seq<string>, x: Path, y: Path)
    requires x != [] && y != [] && x != y
    requires forall c :: c in shared + x || c in shared + y ==> Component(c)
    ensures Join(shared + x, "/") != Join(shared + y, "/")
  {
    SplitJoin(shared + x, '/');
    SplitJoin(shared + y, '/');
    assert (shared + x)[|shared|..] == x && (shared + y)[|shared|..] == y;
  }

  lemma NamesApart(prefix: string, x: Entry, y: Entry)
    requires ProperPath(x.path) && ProperPath(y.path) && x != y
    ensures ArchiveName(prefix, PathText(x.path), x.isDir) != ArchiveName(prefix, PathText(y.path), y.isDir)
  {
    NameOfEntry(prefix, x);
    NameOfEntry(prefix, y);
    ProperComponents(prefix, x.path);
    ProperComponents(prefix, y.path);
    LastOfJoin(Shared(prefix) + x.path);
    LastOfJoin(Shared(prefix) + y.path);
    if x.path != y.path {
      TextsApart(Shared(prefix), x.path, y.path);
    }
    SlashAtEnd(Join(Shared(prefix) + x.path, "/"), Join(Shared(prefix) + y.path, "/"));
  }

  lemma SlashAtEnd(a: string, b: string)
    requires a != "" && a[|a| - 1] != '/' && b != "" && b[|b| - 1] != '/'
    ensures a + "/" != b + "" && a + "" != b + "/"
    ensures (a + "/" == b + "/" ==> a == b) && (a + "" == b + "" ==> a == b)
  {
    assert (a + "/")[|a + "/"| - 1] == '/' && (b + "/")[|b + "/"| - 1] == '/';
    assert a + "" == a && b + "" == b;
    if a + "/" == b + "/" {
      assert (a + "/")[..|a|] == a && (b + "/")[..|b|] == b;
    }
  }

  lemma {:induction false} FilterDistinct<T(!new)>(p: T -> bool, s: seq<T>)
    requires Distinct(s)
    ensures Distinct(Filter(p, s))
  {
    if s == [] {
    } else {
      TreeLaws.DistinctTail(s);
      FilterDistinct(p, s[1..]);
      FilterMember(p, s[1..], s[0]);
    }
  }

  /** No two entries that one zip action makes of a directory have the same name, with or without a
      filter and under any prefix, so none hides another when the archive is unpacked. */
  lemma {:induction false} NamesNeverCollide(filter: Option<seq<Rule>>, t: Node, loc: Path, prefix: string, epoch: bool)
    requires t.Dir? && WellFormed(t)
    ensures var es := if filter.Some? then Filtered(filter.value, prefix, Some(t), "") else Below([], t);
            var packed := Packed(es, t, loc, prefix, epoch);
            forall i, j :: 0 <= i < j < |packed| ==> packed[i].name != packed[j].name
  {
    var rules := if filter.Some? then filter.value else [];
    var keep := (e: Entry) => Kept(rules, EntryText(prefix, e));
    var es := if filter.Some? then Filtered(rules, prefix, Some(t), "") else Below([], t);
    var packed := Packed(es, t, loc, prefix, epoch);
    TreeLaws.WalkIsExact(t);
    FilterDistinct(keep, Below([], t));
    forall e | e in es ensures ProperPath(e.path) {
      FilterMember(keep, Below([], t), e);
      WalkedIsProper(t, e);
    }
    forall i, j | 0 <= i < j < |packed| ensures packed[i].name != packed[j].name {
      assert es[i] in es && es[j] in es;
      NamesApart(prefix, es[i], es[j]);
    }
  }
}
