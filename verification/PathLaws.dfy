/** What the path texts of modules/aws/lambda/package.py lead to: texts that patterns are matched
    against and texts that are fed to the content hash. */
module PathLaws {
  import opened Wrappers
  import opened Text
  import opened FileTree
  import opened Paths
  import opened ContentFilter
  import opened BuildPlan
  import opened ArchiveNames

  /** Where a written path leads. */
  function Target(cwd: Path, written: string): Path {
    Follow(if "/" <= written then [] else cwd, Split(written, '/'))
  }

  ghost predicate Normal(a: PathArg) {
    && (a.isAbs ==> a.ups == 0)
    && forall i :: 0 <= i < |a.parts| ==> ProperName(a.parts[i])
  }

  lemma {:induction false} NormPartsNormal(components: seq<string>, done: PathArg)
    requires done.isAbs ==> done.ups == 0
    ensures NormParts(components, done).isAbs == done.isAbs
    ensures NormParts(components, done).isAbs ==> NormParts(components, done).ups == 0
    decreases |components|
  {
    if components == [] {
    } else {
      NormPartLeads([], done, components[0]);
      NormPartsNormal(components[1..], NormPart(components[0], done));
    }
  }

  lemma NormpathNormal(text: string)
    ensures Normal(Normpath(text)) && (Normpath(text).isAbs <==> "/" <= text)
  {
    var a := Normpath(text);
    NormPartsNormal(Split(text, '/'), PathArg("/" <= text, 0, []));
    NormpathNames(text);
    forall i | 0 <= i < |a.parts| ensures ProperName(a.parts[i]) {
      assert a.parts[i] in a.parts;
    }
  }

  lemma {:induction false} NormUps(n: nat, k: nat)
    ensures NormParts(seq(n, _ => ".."), PathArg(false, k, [])) == PathArg(false, k + n, [])
  {
    if n == 0 {
    } else {
      var ups := seq(n, _ => "..");
      assert ups[1..] == seq(n - 1, _ => "..");
      NormUps(n - 1, k + 1);
    }
  }

  lemma ComponentsAre(a: PathArg)
    requires Normal(a)
    ensures forall c :: c in Components(a) ==> Component(c)
  {
    forall c | c in Components(a) ensures Component(c) {
      var i :| 0 <= i < |Components(a)| && Components(a)[i] == c;
      if i >= a.ups {
        assert c == a.parts[i - a.ups];
      }
    }
  }

  lemma NormComponents(a: PathArg)
    requires Normal(a)
    ensures NormParts(Components(a), PathArg(a.isAbs, 0, [])) == a
  {
    var ups := seq(a.ups, _ => "..");
    var start := PathArg(a.isAbs, 0, []);
    NormPartsConcat(ups, a.parts, start);
    if a.isAbs {
      assert ups == [];
    } else {
      NormUps(a.ups, 0);
    }
    NormPartsProper(a.parts, start.(ups := a.ups));
    assert [] + a.parts == a.parts;
  }

  /** The text of a normalised path normalises to it. */
  lemma TextNormalises(a: PathArg)
    requires Normal(a)
    ensures Normpath(PathArgText(a)) == a
  {
    var text := Join(Components(a), "/");
    var start := PathArg(a.isAbs, 0, []);
    ComponentsAre(a);
    NormComponents(a);
    if Components(a) == [] {
      EmptyText(a);
    } else {
      SplitJoin(Components(a), '/');
      FirstOfJoin(Components(a));
      if a.isAbs {
        SplitConcat("", '/', text);
        assert "" + ['/'] + text == "/" + text;
        NormPartsConcat([""], Components(a), start);
        assert [""][1..] == [] && NormParts([""], start) == NormParts([], start);
      }
    }
  }

  lemma EmptyText(a: PathArg)
    requires Components(a) == []
    ensures Normpath(PathArgText(a)) == a
  {
    assert a.ups == |seq(a.ups, _ => "..")| == 0 && a.parts == [];
    assert Join(Components(a), "/") == "" && PathArgText(a) == if a.isAbs then "/" else ".";
    if a.isAbs {
      SplitConcat("", '/', "");
      assert "" + ['/'] + "" == "/" && Split("/", '/') == ["", ""];
      assert ["", ""][1..] == [""] && [""][1..] == [] && "/" <= "/";
      assert NormParts(["", ""], PathArg(true, 0, [])) == NormParts([""], PathArg(true, 0, []));
      assert NormParts([""], PathArg(true, 0, [])) == NormParts([], PathArg(true, 0, []));
    } else {
      SplitWhole(".", '/');
      assert ["."][1..] == [] && !("/" <= ".");
      assert NormParts(["."], PathArg(false, 0, [])) == NormParts([], PathArg(false, 0, []));
    }
  }

  // ----- joined texts

  lemma {:induction false} JoinConcat(a: seq<string>, b: seq<string>)
    requires a != [] && b != []
    ensures Join(a + b, "/") == Join(a, "/") + "/" + Join(b, "/")
  {
    if |a| == 1 {
      assert (a + b)[1..] == b;
    } else {
      assert (a + b)[0] == a[0] && (a + b)[1..] == a[1..] + b;
      JoinConcat(a[1..], b);
      var x, y, z := Join(a[1..], "/"), "/", Join(b, "/");
      assert a[0] + "/" + (x + y + z) == a[0] + "/" + x + y + z;
    }
  }

  /** A normalised prefix with a path below it. */
  function Under(a: PathArg, path: Path): PathArg {
    a.(parts := a.parts + path)
  }

  lemma UnderNormal(a: PathArg, path: Path)
    requires Normal(a) && ProperPath(path)
    ensures Normal(Under(a, path))
  {
  }

  /** The text of a path below a normalised prefix. */
  lemma JoinedText(a: PathArg, path: Path)
    requires Normal(a) && ProperPath(path) && PathArgText(a) != "."
    ensures JoinPath(PathArgText(a), PathText(path)) == PathArgText(Under(a, path))
  {
    var head := Components(a);
    ComponentsAre(a);
    JoinedComponents(a, path);
    ProperComponents("", path);
    if head == [] {
      assert a.isAbs;
      assert head + path == path && PathArgText(a) == "/";
    } else {
      JoinConcat(head, path);
      FirstOfJoin(head);
      LastOfJoin(head);
      assert head + path != [];
      FirstOfJoin(head + path);
      SlashBefore(a.isAbs, Join(head, "/"), PathText(path));
    }
  }

  lemma SlashBefore(isAbs: bool, head: string, rest: string)
    requires head != "" && head[|head| - 1] != '/'
    ensures var text := if isAbs then "/" + head else head;
            && !EndsWith(text, "/")
            && text + "/" + rest == (if isAbs then "/" + (head + "/" + rest) else head + "/" + rest)
  {
    var text := if isAbs then "/" + head else head;
    assert text[|text| - 1] == head[|head| - 1];
  }

  lemma DotText(a: PathArg)
    requires Normal(a) && PathArgText(a) == "."
    ensures Components(a) == [] && !a.isAbs
  {
    var dot := PathArg(false, 0, []);
    TextNormalises(a);
    assert Components(dot) == [];
    EmptyText(dot);
    assert PathArgText(dot) == ".";
  }

  lemma PathTextNormal(path: Path)
    requires ProperPath(path)
    ensures PathText(path) == PathArgText(PathArg(false, 0, path))
  {
    ProperComponents("", path);
    FirstOfJoin(path);
    assert Components(PathArg(false, 0, path)) == path;
  }

  // ----- what patterns are matched against

  /** An entry's path under a prefix, normalised. */
  function EntryArg(prefix: string, path: Path): PathArg {
    if prefix == "" then PathArg(false, 0, path) else Under(Normpath(prefix), path)
  }

  /** A file is matched by the text of its normalised path under the prefix; a directory by a text of
      that path, normalised or not, with a slash behind. */
  lemma EntryTextExact(prefix: string, e: Entry)
    requires ProperPath(e.path)
    ensures !e.isDir ==> EntryText(prefix, e) == PathArgText(EntryArg(prefix, e.path))
    ensures e.isDir ==> var text := EntryText(prefix, e);
                        && EndsWith(text, "/") && !EndsWith(text[..|text| - 1], "/")
                        && Normpath(text[..|text| - 1]) == EntryArg(prefix, e.path)
  {
    var a := Normpath(prefix);
    var arg := EntryArg(prefix, e.path);
    NormpathNormal(prefix);
    PathTextNormal(e.path);
    BareNormalises(e.path);
    var text := if prefix == "" then PathText(e.path) else JoinPath(PathArgText(a), PathText(e.path));
    ProperComponents("", e.path);
    LastOfJoin(e.path);
    if prefix != "" {
      TextNormalises(a);
      JoinedNormalises(PathArgText(a), e.path);
      if PathArgText(a) == "." {
        DotText(a);
        assert a.parts == [] && a.ups == 0;
        assert arg == PathArg(false, 0, e.path);
      } else {
        JoinedText(a, e.path);
      }
    }
    EndOfJoined(PathArgText(a), PathText(e.path));
    assert (text + "/")[..|text + "/"| - 1] == text;
  }

  lemma EndOfJoined(prefix: string, rest: string)
    requires rest != "" && rest[|rest| - 1] != '/'
    ensures !EndsWith(rest, "/") && !EndsWith(JoinPath(prefix, rest), "/")
  {
    var text := JoinPath(prefix, rest);
    assert text[|text| - 1] == rest[|rest| - 1];
  }
}
