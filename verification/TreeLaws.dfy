/** What the tree walks promise: they list everything below a directory exactly once, and the
    order in which the operating system lists a directory never shows. */
module TreeLaws {
  import opened Wrappers
  import opened Text
  import opened Ordering
  import opened FileTree

  // ----- children of one directory

  lemma {:induction false} FindAt(cs: seq<Child>, i: nat)
    requires i < |cs| && Distinct(Names(cs))
    ensures Find(cs, cs[i].name) == Some(cs[i].node)
  {
    if i > 0 {
      assert Names(cs)[0] != Names(cs)[i];
      DistinctTail(Names(cs));
      FindAt(cs[1..], i - 1);
    }
  }

  lemma DistinctTail<T>(s: seq<T>)
    requires Distinct(s) && s != []
    ensures Distinct(s[1..]) && s[0] !in s[1..]
  {
  }

  /** A listing holds, without repeats, exactly the names of the children of its kind. */
  lemma {:induction false} ListingExact(cs: seq<Child>, wantDirs: bool)
    requires Distinct(Names(cs))
    ensures Distinct(Listing(cs, wantDirs))
    ensures forall n :: n in Listing(cs, wantDirs)
                   <==> Find(cs, n).Some? && Find(cs, n).value.Dir? == wantDirs
  {
    if cs == [] {
    } else {
      DistinctTail(Names(cs));
      ListingExact(cs[1..], wantDirs);
      assert Find(cs[1..], cs[0].name).None?;
    }
  }

  lemma {:induction false} DistinctMultiset<T>(s: seq<T>)
    requires Distinct(s)
    ensures forall x :: x in s ==> multiset(s)[x] == 1
  {
    if s == [] {
    } else {
      DistinctTail(s);
      DistinctMultiset(s[1..]);
      assert s == [s[0]] + s[1..];
    }
  }

  lemma SameMembersSameMultiset<T>(a: seq<T>, b: seq<T>)
    requires Distinct(a) && Distinct(b)
    requires forall x :: x in a <==> x in b
    ensures multiset(a) == multiset(b)
  {
    DistinctMultiset(a);
    DistinctMultiset(b);
    forall x ensures multiset(a)[x] == multiset(b)[x] {
      assert x in a <==> x in multiset(a);
      assert x in b <==> x in multiset(b);
    }
  }

  lemma {:induction false} CountsDistinct<T>(s: seq<T>)
    requires forall x :: multiset(s)[x] <= 1
    ensures Distinct(s)
  {
    if s == [] {
    } else {
      assert s == [s[0]] + s[1..];
      assert multiset(s) == multiset{s[0]} + multiset(s[1..]);
      forall x ensures multiset(s[1..])[x] <= 1 {
        assert multiset(s)[x] <= 1;
      }
      CountsDistinct(s[1..]);
      assert multiset(s)[s[0]] <= 1;
    }
  }

  lemma MultisetDistinct<T>(a: seq<T>, b: seq<T>)
    requires Distinct(a) && multiset(a) == multiset(b)
    ensures Distinct(b)
  {
    DistinctMultiset(a);
    forall x ensures multiset(b)[x] <= 1 {
      assert x in a <==> x in multiset(a);
    }
    CountsDistinct(b);
  }

  // ----- the walk lists everything below a directory, once

  lemma FileEntriesMembers(base: Path, names: seq<string>, e: Entry)
    ensures e in FileEntries(base, names)
       <==> !e.isDir && |e.path| == |base| + 1 && e.path[..|base|] == base && e.path[|base|] in names
  {
    var es := FileEntries(base, names);
    if e in es {
      var i :| 0 <= i < |es| && es[i] == e;
      assert names[i] in names;
    }
    if !e.isDir && |e.path| == |base| + 1 && e.path[..|base|] == base && e.path[|base|] in names {
      var i :| 0 <= i < |names| && names[i] == e.path[|base|];
      assert e.path == base + [names[i]];
      assert es[i] == e;
    }
  }

  lemma LookupUnder(base: Path, t: Node, path: Path)
    requires t.Dir? && base < path && Find(t.children, path[|base|]).Some?
    ensures Lookup(t, path[|base|..]) == Lookup(Find(t.children, path[|base|]).value, path[|base| + 1..])
  {
    assert path[|base|..][1..] == path[|base| + 1..];
  }

  ghost predicate FoundAt(base: Path, t: Node, e: Entry) {
    && base < e.path
    && Lookup(t, e.path[|base|..]).Some?
    && Lookup(t, e.path[|base|..]).value.Dir? == e.isDir
  }

  /** Everything yielded lies strictly below the base and has the kind found there. */
  lemma {:induction false} BelowSound(base: Path, t: Node, e: Entry)
    requires WellFormed(t) && e in Below(base, t)
    ensures FoundAt(base, t, e)
    decreases t, 1, 0
  {
    var files := Listing(t.children, false);
    if e in FileEntries(base, SortNames(files)) {
      SortByCorrect(files, (n: string) => n);
      ListingExact(t.children, false);
      FileEntriesMembers(base, SortNames(files), e);
      LookupUnder(base, t, e.path);
      assert e.path[|base| + 1..] == [];
    } else {
      BelowDirsSound(base, t, SortNames(Listing(t.children, true)), e);
    }
  }

  lemma BelowDirsSound(base: Path, t: Node, dirs: seq<string>, e: Entry)
    requires WellFormed(t) && t.Dir? && e in BelowDirs(base, t, dirs)
    ensures FoundAt(base, t, e) && e.path[|base|] in dirs
    decreases t, 0, 1
  {
    FlatMapMember((d: string) => BelowDir(base, t, d), dirs, e);
    var d :| d in dirs && e in BelowDir(base, t, d);
    BelowDirSound(base, t, d, e);
  }

  lemma BelowDirSound(base: Path, t: Node, d: string, e: Entry)
    requires WellFormed(t) && t.Dir? && e in BelowDir(base, t, d)
    ensures FoundAt(base, t, e) && e.path[|base|] == d
    decreases t, 0, 0
  {
    if e == Entry(base + [d], true) {
      LookupUnder(base, t, e.path);
      assert e.path[|base| + 1..] == [];
    } else {
      BelowSound(base + [d], Find(t.children, d).value, e);
      LookupUnder(base, t, e.path);
    }
  }

  lemma BelowHolds(base: Path, t: Node, e: Entry)
    requires t.Dir?
    requires || e in FileEntries(base, SortNames(Listing(t.children, false)))
             || e in BelowDirs(base, t, SortNames(Listing(t.children, true)))
    ensures e in Below(base, t)
  {
    InSequence(e, FileEntries(base, SortNames(Listing(t.children, false))),
               BelowDirs(base, t, SortNames(Listing(t.children, true))));
  }

  lemma InSequence<T>(x: T, a: seq<T>, b: seq<T>)
    requires x in a || x in b
    ensures x in a + b
  {
  }

  lemma ChildIsListed(t: Node, name: string)
    requires WellFormed(t) && t.Dir? && Find(t.children, name).Some?
    ensures name in SortNames(Listing(t.children, Find(t.children, name).value.Dir?))
  {
    var wantDirs := Find(t.children, name).value.Dir?;
    SortByCorrect(Listing(t.children, wantDirs), (n: string) => n);
    ListingExact(t.children, wantDirs);
  }

  lemma BelowFileComplete(base: Path, t: Node, path: Path)
    requires WellFormed(t) && t.Dir? && path != [] && Lookup(t, path).Some?
    requires Find(t.children, path[0]).Some? && Find(t.children, path[0]).value.File?
    ensures Entry(base + path, Lookup(t, path).value.Dir?) in FileEntries(base, SortNames(Listing(t.children, false)))
  {
    ChildIsListed(t, path[0]);
    LookupStep(t, path);
    assert path[1..] == [];
    assert path == [path[0]];
    FileEntriesMembers(base, SortNames(Listing(t.children, false)), Entry(base + path, false));
  }

  /** Everything strictly below the base is yielded. */
  lemma {:induction false} BelowComplete(base: Path, t: Node, path: Path)
    requires WellFormed(t) && path != [] && Lookup(t, path).Some?
    ensures Entry(base + path, Lookup(t, path).value.Dir?) in Below(base, t)
    decreases t, 1, 0
  {
    ChildIsListed(t, path[0]);
    if Find(t.children, path[0]).value.File? {
      BelowFileComplete(base, t, path);
    } else {
      BelowDirsComplete(base, t, SortNames(Listing(t.children, true)), path);
    }
    BelowHolds(base, t, Entry(base + path, Lookup(t, path).value.Dir?));
  }

  lemma BelowDirsComplete(base: Path, t: Node, dirs: seq<string>, path: Path)
    requires WellFormed(t) && t.Dir? && path != [] && path[0] in dirs
    requires Find(t.children, path[0]).Some? && Find(t.children, path[0]).value.Dir?
    requires Lookup(t, path).Some?
    ensures Entry(base + path, Lookup(t, path).value.Dir?) in BelowDirs(base, t, dirs)
    decreases t, 0, 1
  {
    BelowDirComplete(base, t, path);
    FlatMapMember((d: string) => BelowDir(base, t, d), dirs, Entry(base + path, Lookup(t, path).value.Dir?));
  }

  lemma BelowDirComplete(base: Path, t: Node, path: Path)
    requires WellFormed(t) && t.Dir? && path != []
    requires Find(t.children, path[0]).Some? && Find(t.children, path[0]).value.Dir?
    requires Lookup(t, path).Some?
    ensures Entry(base + path, Lookup(t, path).value.Dir?) in BelowDir(base, t, path[0])
    decreases t, 0, 0
  {
    var at, child := base + [path[0]], Find(t.children, path[0]).value;
    var e := Entry(base + path, Lookup(t, path).value.Dir?);
    LookupStep(t, path);
    assert at + path[1..] == base + path;
    if path[1..] == [] {
      assert e == Entry(at, true);
    } else {
      BelowComplete(at, child, path[1..]);
      assert e in Below(at, child);
    }
    InEither(e, Entry(at, true), Below(at, child));
  }

  lemma LookupStep(t: Node, path: Path)
    requires t.Dir? && path != [] && Find(t.children, path[0]).Some?
    ensures Lookup(t, path) == Lookup(Find(t.children, path[0]).value, path[1..])
  {
  }

  lemma InEither<T>(x: T, first: T, rest: seq<T>)
    requires x == first || x in rest
    ensures x in [first] + rest
  {
  }

  lemma DistinctConcat<T>(a: seq<T>, b: seq<T>)
    requires Distinct(a) && Distinct(b)
    requires forall x :: x in a ==> x !in b
    ensures Distinct(a + b)
  {
    forall i, j | 0 <= i < j < |a + b| ensures (a + b)[i] != (a + b)[j] {
      if i < |a| <= j {
        assert (a + b)[i] in a && (a + b)[j] in b;
      }
    }
  }

  lemma {:induction false} BelowDistinct(base: Path, t: Node)
    requires WellFormed(t)
    ensures Distinct(Below(base, t))
    decreases t, 1, 0
  {
    if t.Dir? {
      var files := SortNames(Listing(t.children, false));
      var dirs := SortNames(Listing(t.children, true));
      SortByCorrect(Listing(t.children, false), (n: string) => n);
      SortByCorrect(Listing(t.children, true), (n: string) => n);
      ListingExact(t.children, false);
      ListingExact(t.children, true);
      MultisetDistinct(Listing(t.children, false), files);
      MultisetDistinct(Listing(t.children, true), dirs);
      assert Distinct(FileEntries(base, files)) by {
        forall i, j | 0 <= i < j < |files|
          ensures FileEntries(base, files)[i] != FileEntries(base, files)[j]
        {
          assert (base + [files[i]])[|base|] != (base + [files[j]])[|base|];
        }
      }
      BelowDirsDistinct(base, t, dirs);
      forall e | e in FileEntries(base, files) ensures e !in BelowDirs(base, t, dirs) {
        FileEntriesMembers(base, files, e);
        if e in BelowDirs(base, t, dirs) {
          BelowDirsSound(base, t, dirs, e);
        }
      }
      DistinctConcat(FileEntries(base, files), BelowDirs(base, t, dirs));
    }
  }

  lemma {:induction false} BelowDirsDistinct(base: Path, t: Node, dirs: seq<string>)
    requires WellFormed(t) && t.Dir? && Distinct(dirs)
    ensures Distinct(BelowDirs(base, t, dirs))
    decreases t, 0, |dirs| + 1
  {
    if dirs == [] {
    } else {
      DistinctTail(dirs);
      BelowDirsDistinct(base, t, dirs[1..]);
      BelowDirDistinct(base, t, dirs[0]);
      forall e | e in BelowDir(base, t, dirs[0]) ensures e !in BelowDirs(base, t, dirs[1..]) {
        BelowDirSound(base, t, dirs[0], e);
        if e in BelowDirs(base, t, dirs[1..]) {
          BelowDirsSound(base, t, dirs[1..], e);
        }
      }
      DistinctConcat(BelowDir(base, t, dirs[0]), BelowDirs(base, t, dirs[1..]));
    }
  }

  lemma BelowDirDistinct(base: Path, t: Node, d: string)
    requires WellFormed(t) && t.Dir?
    ensures Distinct(BelowDir(base, t, d))
    decreases t, 0, 0
  {
    var found := Find(t.children, d);
    var path := base + [d];
    if found.Some? && found.value.Dir? {
      BelowDistinct(path, found.value);
      forall e | e in Below(path, found.value) ensures e != Entry(path, true) {
        BelowSound(path, found.value, e);
      }
      DistinctConcat([Entry(path, true)], Below(path, found.value));
    }
  }

  /** The walk yields each location below the directory exactly once, with its kind. */
  lemma WalkIsExact(t: Node)
    requires WellFormed(t)
    ensures Distinct(Below([], t))
    ensures forall path, isDir ::
              Entry(path, isDir) in Below([], t)
              <==> path != [] && Lookup(t, path).Some? && Lookup(t, path).value.Dir? == isDir
  {
    BelowDistinct([], t);
    forall path: Path, isDir: bool
      ensures Entry(path, isDir) in Below([], t)
         <==> path != [] && Lookup(t, path).Some? && Lookup(t, path).value.Dir? == isDir
    {
      if Entry(path, isDir) in Below([], t) {
        BelowSound([], t, Entry(path, isDir));
        assert path[0..] == path;
      }
      if path != [] && Lookup(t, path).Some? {
        BelowComplete([], t, path);
        assert [] + path == path;
      }
    }
  }

  // ----- listing order does not show

  lemma {:induction false} SameListings(a: Node, b: Node, wantDirs: bool)
    requires a.Dir? && WellFormed(a) && WellFormed(b) && SameTree(a, b)
    ensures SortNames(Listing(a.children, wantDirs)) == SortNames(Listing(b.children, wantDirs))
  {
    ListingExact(a.children, wantDirs);
    ListingExact(b.children, wantDirs);
    forall n ensures n in Listing(a.children, wantDirs) <==> n in Listing(b.children, wantDirs) {
      SameFind(a, b, n);
    }
    SameMembersSameMultiset(Listing(a.children, wantDirs), Listing(b.children, wantDirs));
    SortNamesUnique(Listing(a.children, wantDirs), Listing(b.children, wantDirs));
  }

  lemma SameFind(a: Node, b: Node, name: string)
    requires a.Dir? && WellFormed(a) && WellFormed(b) && SameTree(a, b)
    ensures Find(a.children, name).Some? <==> Find(b.children, name).Some?
    ensures Find(a.children, name).Some? ==>
              && WellFormed(Find(a.children, name).value) && WellFormed(Find(b.children, name).value)
              && SameTree(Find(a.children, name).value, Find(b.children, name).value)
  {
    if Find(a.children, name).Some? {
      var x, y := Find(a.children, name), Find(b.children, name);
      var i :| 0 <= i < |a.children| && a.children[i].name == name && a.children[i].node == x.value;
      var j :| 0 <= j < |b.children| && b.children[j].name == name && b.children[j].node == y.value;
    }
    if Find(b.children, name).Some? {
      var j :| 0 <= j < |b.children| && b.children[j].name == name;
      assert Names(b.children)[j] in multiset(Names(b.children));
      var i :| 0 <= i < |Names(a.children)| && Names(a.children)[i] == name;
      assert a.children[i].name == name;
    }
  }

  /** Permuting the listings of any directories at any depth leaves the walk as it was. */
  lemma {:induction false} ListingOrderNeverShows(base: Path, a: Node, b: Node)
    requires WellFormed(a) && WellFormed(b) && SameTree(a, b)
    ensures Below(base, a) == Below(base, b)
    decreases a, 1, 0
  {
    if a.Dir? {
      SameListings(a, b, false);
      SameListings(a, b, true);
      SameBelowDirs(base, a, b, SortNames(Listing(a.children, true)));
    }
  }

  lemma {:induction false} SameBelowDirs(base: Path, a: Node, b: Node, dirs: seq<string>)
    requires a.Dir? && WellFormed(a) && WellFormed(b) && SameTree(a, b)
    ensures BelowDirs(base, a, dirs) == BelowDirs(base, b, dirs)
    decreases a, 0, 0
  {
    forall d | d in dirs ensures BelowDir(base, a, d) == BelowDir(base, b, d) {
      SameFind(a, b, d);
      if Find(a.children, d).Some? {
        ListingOrderNeverShows(base + [d], Find(a.children, d).value, Find(b.children, d).value);
      }
    }
    FlatMapAgrees((d: string) => BelowDir(base, a, d), (d: string) => BelowDir(base, b, d), dirs);
  }

  /** Nor does listing order change what is found at a location, file contents included. */
  lemma {:induction false} SameLookup(a: Node, b: Node, path: Path)
    requires WellFormed(a) && WellFormed(b) && SameTree(a, b)
    ensures Lookup(a, path).Some? <==> Lookup(b, path).Some?
    ensures Lookup(a, path).Some? ==>
              && SameTree(Lookup(a, path).value, Lookup(b, path).value)
              && WellFormed(Lookup(a, path).value) && WellFormed(Lookup(b, path).value)
    decreases path
  {
    if path != [] && a.Dir? {
      SameFind(a, b, path[0]);
      if Find(a.children, path[0]).Some? {
        SameLookup(Find(a.children, path[0]).value, Find(b.children, path[0]).value, path[1..]);
      }
    }
  }
}
