/** Path arguments and the `os.path` functions modules/aws/lambda/package.py applies to them. */
module Paths {
  import opened Text
  import opened FileTree

  /** A normalised path argument: absolute, or relative after climbing `ups` directories. */
  datatype PathArg = PathArg(isAbs: bool, ups: nat, parts: Path)

  function Normpath(text: string): PathArg {
    NormParts(Split(text, '/'), PathArg("/" <= text, 0, []))
  }

  function NormParts(components: seq<string>, done: PathArg): PathArg {
    if components == [] then done else NormParts(components[1..], NormPart(components[0], done))
  }

  function NormPart(c: string, done: PathArg): PathArg {
    if c == "" || c == "." then done
    else if c != ".." then done.(parts := done.parts + [c])
    else if done.parts != [] then done.(parts := done.parts[..|done.parts| - 1])
    else if done.isAbs then done
    else done.(ups := done.ups + 1)
  }

  function PathArgText(a: PathArg): string {
    var text := Join(seq(a.ups, _ => "..") + a.parts, "/");
    if a.isAbs then "/" + text else if text == "" then "." else text
  }

  function Resolve(cwd: Path, arg: PathArg): Path {
    if arg.isAbs then arg.parts
    else (if arg.ups <= |cwd| then cwd[..|cwd| - arg.ups] else []) + arg.parts
  }

  function Basename(loc: Path): string {
    if loc == [] then "" else loc[|loc| - 1]
  }

  // ----- normalising does not change where a path leads

  /** Following a path component by component; the root is its own parent. */
  function Follow(at: Path, components: seq<string>): Path
    decreases |components|
  {
    if components == [] then at else Follow(FollowOne(at, components[0]), components[1..])
  }

  function FollowOne(at: Path, c: string): Path {
    if c == "" || c == "." then at
    else if c != ".." then at + [c]
    else if at == [] then []
    else at[..|at| - 1]
  }

  lemma NormPartLeads(cwd: Path, done: PathArg, c: string)
    requires done.isAbs ==> done.ups == 0
    ensures Resolve(cwd, NormPart(c, done)) == FollowOne(Resolve(cwd, done), c)
    ensures NormPart(c, done).isAbs == done.isAbs && (done.isAbs ==> NormPart(c, done).ups == 0)
  {
    var head := if done.ups <= |cwd| then cwd[..|cwd| - done.ups] else [];
    if c == ".." && done.parts != [] && !done.isAbs {
      assert (head + done.parts)[..|head| + |done.parts| - 1] == head + done.parts[..|done.parts| - 1];
    } else if c == ".." && !done.isAbs && done.ups < |cwd| {
      assert head[..|head| - 1] == cwd[..|cwd| - (done.ups + 1)];
    } else if !done.isAbs {
      assert head + (done.parts + [c]) == head + done.parts + [c];
    }
  }

  lemma {:induction false} NormPartsLead(cwd: Path, done: PathArg, components: seq<string>)
    requires done.isAbs ==> done.ups == 0
    ensures Resolve(cwd, NormParts(components, done)) == Follow(Resolve(cwd, done), components)
    decreases |components|
  {
    if components == [] {
    } else {
      NormPartLeads(cwd, done, components[0]);
      NormPartsLead(cwd, NormPart(components[0], done), components[1..]);
    }
  }

  /** Resolving the normalised path leads where following the written path does, from the root if
      it is absolute, else from the working directory. */
  lemma NormpathLeads(cwd: Path, text: string)
    ensures Resolve(cwd, Normpath(text)) == Follow(if "/" <= text then [] else cwd, Split(text, '/'))
  {
    var start := PathArg("/" <= text, 0, []);
    NormPartsLead(cwd, start, Split(text, '/'));
    assert cwd[..|cwd| - 0] + [] == cwd;
  }

  /** Normalising leaves only names that a file can have. */
  lemma {:induction false} NormPartsAreNames(components: seq<string>, done: PathArg)
    requires forall c :: c in components ==> '/' !in c
    requires forall c :: c in done.parts ==> ProperName(c)
    ensures forall c :: c in NormParts(components, done).parts ==> ProperName(c)
    decreases |components|
  {
    if components == [] {
    } else {
      assert components[0] in components;
      var next := NormPart(components[0], done);
      forall c | c in next.parts ensures ProperName(c) {
        assert c in done.parts || c == components[0];
      }
      NormPartsAreNames(components[1..], next);
    }
  }

  lemma NormpathNames(text: string)
    ensures forall c :: c in Normpath(text).parts ==> ProperName(c)
  {
    SplitFree(text, '/');
    NormPartsAreNames(Split(text, '/'), PathArg("/" <= text, 0, []));
  }
}
