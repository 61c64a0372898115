/** The order of the tree walks of modules/aws/lambda/package.py, said without the walk: in every
    directory its files come first, then its directories, each before what is below it, and names of
    a kind ascend. */
module WalkOrder {
  import opened Wrappers
  import opened Text
  import opened Ordering
  import opened FileTree
  import TreeLaws

  /** Which of two locations below a directory comes first. */
  predicate Precedes(t: Node, p: Path, q: Path)
    decreases |p|
  {
    if p == [] then true
    else if q == [] || t.File? then false
    else
      var x, y := Find(t.children, p[0]), Find(t.children, q[0]);
      && x.Some? && y.Some?
      && if p[0] == q[0] then Precedes(x.value, p[1..], q[1..])
         else if x.value.Dir? != y.value.Dir? then x.value.File?
         else AtMost(p[0], q[0])
  }

  /** The entries lie below the base, each before the later ones. */
  ghost predicate Ordered(t: Node, base: Path, es: seq<Entry>) {
    && (forall e :: e in es ==> base <= e.path)
    && forall i, j :: 0 <= i < j < |es| ==> Precedes(t, es[i].path[|base|..], es[j].path[|base|..])
  }

  lemma OrderedConcat(t: Node, base: Path, a: seq<Entry>, b: seq<Entry>)
    requires Ordered(t, base, a) && Ordered(t, base, b)
    requires forall x, y :: x in a && y in b ==> Precedes(t, x.path[|base|..], y.path[|base|..])
    ensures Ordered(t, base, a + b)
  {
    var es := a + b;
    forall i, j | 0 <= i < j < |es| ensures Precedes(t, es[i].path[|base|..], es[j].path[|base|..]) {
      if i < |a| <= j {
        assert es[i] in a && es[j] in b;
      }
    }
  }

  /** Both under children of the base with different names. */
  lemma ApartInOrder(t: Node, base: Path, p: Path, q: Path)
    requires t.Dir? && base < p && base < q && p[|base|] != q[|base|]
    requires var x, y := Find(t.children, p[|base|]), Find(t.children, q[|base|]);
             && x.Some? && y.Some?
             && if x.value.Dir? != y.value.Dir? then x.value.File? else AtMost(p[|base|], q[|base|])
    ensures Precedes(t, p[|base|..], q[|base|..])
  {
    assert p[|base|..][0] == p[|base|] && q[|base|..][0] == q[|base|];
  }

  /** Both under the same child. */
  lemma TogetherInOrder(t: Node, base: Path, d: string, p: Path, q: Path)
    requires t.Dir? && base + [d] <= p && base + [d] <= q && Find(t.children, d).Some?
    requires Precedes(Find(t.children, d).value, p[|base| + 1..], q[|base| + 1..])
    ensures base <= p && base <= q && Precedes(t, p[|base|..], q[|base|..])
  {
    var x, y := p[|base|..], q[|base|..];
    assert p[|base|] == d && q[|base|] == d;
    assert x[0] == d && y[0] == d && x[1..] == p[|base| + 1..] && y[1..] == q[|base| + 1..];
  }

  lemma FilesOrdered(base: Path, t: Node)
    requires WellFormed(t) && t.Dir?
    ensures Ordered(t, base, FileEntries(base, SortNames(Listing(t.children, false))))
  {
    var listing := Listing(t.children, false);
    var names := SortNames(listing);
    var es := FileEntries(base, names);
    SortByCorrect(listing, (n: string) => n);
    TreeLaws.ListingExact(t.children, false);
    TreeLaws.MultisetDistinct(listing, names);
    forall i, j | 0 <= i < j < |es| ensures Precedes(t, es[i].path[|base|..], es[j].path[|base|..]) {
      assert names[i] in names && names[j] in names;
      assert AtMost(names[i], names[j]);
      ApartInOrder(t, base, es[i].path, es[j].path);
    }
  }

  lemma {:induction false} BelowOrdered(base: Path, t: Node)
    requires WellFormed(t)
    ensures Ordered(t, base, Below(base, t))
    decreases t, 1, 0
  {
    if t.File? {
    } else {
      var files := FileEntries(base, SortNames(Listing(t.children, false)));
      var names := SortNames(Listing(t.children, true));
      SortByCorrect(Listing(t.children, true), (n: string) => n);
      TreeLaws.ListingExact(t.children, true);
      TreeLaws.MultisetDistinct(Listing(t.children, true), names);
      FilesOrdered(base, t);
      DirsOrdered(base, t, names);
      forall x, y | x in files && y in BelowDirs(base, t, names)
        ensures Precedes(t, x.path[|base|..], y.path[|base|..])
      {
        FileBeforeDir(base, t, x, y);
      }
      OrderedConcat(t, base, files, BelowDirs(base, t, names));
    }
  }

  lemma FileBeforeDir(base: Path, t: Node, x: Entry, y: Entry)
    requires WellFormed(t) && t.Dir? && x in FileEntries(base, SortNames(Listing(t.children, false)))
    requires y in BelowDirs(base, t, SortNames(Listing(t.children, true)))
    ensures base <= x.path && base <= y.path
    ensures Precedes(t, x.path[|base|..], y.path[|base|..])
  {
    SortByCorrect(Listing(t.children, false), (n: string) => n);
    SortByCorrect(Listing(t.children, true), (n: string) => n);
    TreeLaws.ListingExact(t.children, false);
    TreeLaws.ListingExact(t.children, true);
    TreeLaws.FileEntriesMembers(base, SortNames(Listing(t.children, false)), x);
    TreeLaws.BelowDirsSound(base, t, SortNames(Listing(t.children, true)), y);
    ApartInOrder(t, base, x.path, y.path);
  }

  /** What is in order below a child is in order below its directory. */
  lemma OrderedBelowChild(base: Path, t: Node, d: string, es: seq<Entry>)
    requires t.Dir? && Find(t.children, d).Some? && Ordered(Find(t.children, d).value, base + [d], es)
    ensures Ordered(t, base, es)
  {
    forall e | e in es ensures base <= e.path {
      assert base + [d] <= e.path;
    }
    forall i, j | 0 <= i < j < |es| ensures Precedes(t, es[i].path[|base|..], es[j].path[|base|..]) {
      assert es[i] in es && es[j] in es;
      TogetherInOrder(t, base, d, es[i].path, es[j].path);
    }
  }

  lemma DirOrdered(base: Path, t: Node, d: string)
    requires WellFormed(t) && t.Dir?
    ensures Ordered(t, base, BelowDir(base, t, d))
    decreases t, 0, 0
  {
    var found := Find(t.children, d);
    if found.Some? && found.value.Dir? {
      var at := base + [d];
      var first := [Entry(at, true)];
      BelowOrdered(at, found.value);
      forall x, y | x in first && y in Below(at, found.value)
        ensures Precedes(found.value, x.path[|at|..], y.path[|at|..])
      {
        assert x.path[|at|..] == [];
      }
      OrderedConcat(found.value, at, first, Below(at, found.value));
      OrderedBelowChild(base, t, d, first + Below(at, found.value));
    }
  }

  lemma {:induction false} DirsOrdered(base: Path, t: Node, dirs: seq<string>)
    requires WellFormed(t) && t.Dir? && Distinct(dirs) && SortedBy(dirs, (n: string) => n)
    requires forall d :: d in dirs ==> Find(t.children, d).Some? && Find(t.children, d).value.Dir?
    ensures Ordered(t, base, BelowDirs(base, t, dirs))
    decreases t, 0, |dirs| + 1
  {
    if dirs == [] {
    } else {
      var d, rest := dirs[0], dirs[1..];
      TreeLaws.DistinctTail(dirs);
      assert forall x :: x in rest ==> x in dirs;
      DirOrdered(base, t, d);
      DirsOrdered(base, t, rest);
      forall x, y | x in BelowDir(base, t, d) && y in BelowDirs(base, t, rest)
        ensures Precedes(t, x.path[|base|..], y.path[|base|..])
      {
        TreeLaws.BelowDirSound(base, t, d, x);
        TreeLaws.BelowDirsSound(base, t, rest, y);
        var k :| 0 <= k < |rest| && rest[k] == y.path[|base|];
        assert dirs[k + 1] == rest[k] && d in dirs && rest[k] in dirs;
        assert AtMost(dirs[0], dirs[k + 1]);
        ApartInOrder(t, base, x.path, y.path);
      }
      OrderedConcat(t, base, BelowDir(base, t, d), BelowDirs(base, t, rest));
    }
  }

  /** The walk of a directory goes in this order. */
  lemma WalkIsOrdered(t: Node)
    requires WellFormed(t)
    ensures forall i, j :: 0 <= i < j < |Below([], t)| ==> Precedes(t, Below([], t)[i].path, Below([], t)[j].path)
  {
    BelowOrdered([], t);
    var es := Below([], t);
    forall i, j | 0 <= i < j < |es| ensures Precedes(t, es[i].path, es[j].path) {
      assert es[i].path[0..] == es[i].path && es[j].path[0..] == es[j].path;
    }
  }
}
