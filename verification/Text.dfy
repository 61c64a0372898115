/** String operations that the Go, Python and JavaScript sources share: splitting on one
    character, joining, trimming, prefix and suffix tests, and the laws between them. */
module Text {

  /** Splits on every occurrence of `c`; the empty string gives one empty part. */
  function Split(s: string, c: char): (parts: seq<string>)
    ensures |parts| > 0
  {
    if s == [] then [[]] else PushFront(s[0], c, Split(s[1..], c))
  }

  /** A character in front starts a new part if it is the separator, else it joins the first part. */
  function PushFront(x: char, c: char, parts: seq<string>): seq<string>
    requires |parts| > 0
  {
    if x == c then [[]] + parts else [[x] + parts[0]] + parts[1..]
  }

  function Join(parts: seq<string>, sep: string): string {
    if |parts| == 0 then []
    else if |parts| == 1 then parts[0]
    else parts[0] + sep + Join(parts[1..], sep)
  }

  /** The pieces of every part, in order. */
  function SplitAll(parts: seq<string>, c: char): seq<string> {
    FlatMap((p: string) => Split(p, c), parts)
  }

  /** Every line with its newline. */
  function Unlines(lines: seq<string>): string {
    FlatMap((l: string) => l + "\n", lines)
  }

  predicate IsSpace(c: char) {
    c in " \t\n\r\U{000B}\U{000C}\U{0085}\U{00A0}"
  }

  function TrimLeft(s: string): string {
    if s != [] && IsSpace(s[0]) then TrimLeft(s[1..]) else s
  }

  function TrimRight(s: string): string {
    if s != [] && IsSpace(s[|s| - 1]) then TrimRight(s[..|s| - 1]) else s
  }

  function Trim(s: string): string {
    TrimRight(TrimLeft(s))
  }

  predicate EndsWith(s: string, suffix: string) {
    |suffix| <= |s| && s[|s| - |suffix|..] == suffix
  }

  /** `sub` occurs somewhere in `s`. */
  predicate Contains(s: string, sub: string) {
    sub <= s || (s != [] && Contains(s[1..], sub))
  }

  /** No white space at either end. */
  predicate Tight(s: string) {
    s == [] || (!IsSpace(s[0]) && !IsSpace(s[|s| - 1]))
  }

  function Filter<T>(p: T -> bool, s: seq<T>): seq<T> {
    if s == [] then [] else (if p(s[0]) then [s[0]] else []) + Filter(p, s[1..])
  }

  function Map<T, U>(f: T -> U, s: seq<T>): (r: seq<U>)
    ensures |r| == |s| && forall i :: 0 <= i < |s| ==> r[i] == f(s[i])
  {
    seq(|s|, i requires 0 <= i < |s| => f(s[i]))
  }

  /** The results for all elements, one after the other. */
  function FlatMap<T, U>(f: T -> seq<U>, s: seq<T>): seq<U> {
    if s == [] then [] else f(s[0]) + FlatMap(f, s[1..])
  }

  predicate Distinct<T(==)>(s: seq<T>) {
    forall i, j :: 0 <= i < j < |s| ==> s[i] != s[j]
  }

  lemma PushFrontConcat(x: char, c: char, a: seq<string>, b: seq<string>)
    requires |a| > 0
    ensures PushFront(x, c, a + b) == PushFront(x, c, a) + b
  {
    if x == c {
      assert [[]] + (a + b) == [[]] + a + b;
    } else {
      assert (a + b)[0] == a[0] && (a + b)[1..] == a[1..] + b;
      assert [[x] + a[0]] + (a[1..] + b) == [[x] + a[0]] + a[1..] + b;
    }
  }

  lemma {:induction false} SplitConcat(a: string, c: char, b: string)
    ensures Split(a + [c] + b, c) == Split(a, c) + Split(b, c)
  {
    var s := a + [c] + b;
    if a == [] {
      assert s[0] == c && s[1..] == b;
    } else {
      assert s[0] == a[0] && s[1..] == a[1..] + [c] + b;
      SplitConcat(a[1..], c, b);
      PushFrontConcat(a[0], c, Split(a[1..], c), Split(b, c));
    }
  }

  lemma {:induction false} SplitWhole(s: string, c: char)
    requires c !in s
    ensures Split(s, c) == [s]
  {
    if s == [] {
    } else {
      SplitWhole(s[1..], c);
      assert [s[0]] + s[1..] == s;
    }
  }

  lemma {:induction false} SplitFree(s: string, c: char)
    ensures forall p :: p in Split(s, c) ==> c !in p
  {
    if s == [] {
    } else {
      SplitFree(s[1..], c);
    }
  }

  /** Joining then splitting gives the pieces of every part: nothing lost, added or moved. */
  lemma {:induction false} SplitJoinAll(parts: seq<string>, c: char)
    requires parts != []
    ensures Split(Join(parts, [c]), c) == SplitAll(parts, c)
  {
    if |parts| == 1 {
      assert parts == [parts[0]];
      FlatMapOne((p: string) => Split(p, c), parts[0]);
    } else {
      SplitJoinAll(parts[1..], c);
      SplitConcat(parts[0], c, Join(parts[1..], [c]));
    }
  }

  lemma {:induction false} SplitAllWhole(parts: seq<string>, c: char)
    requires forall p :: p in parts ==> c !in p
    ensures SplitAll(parts, c) == parts
  {
    if parts == [] {
    } else {
      assert parts[0] in parts;
      SplitWhole(parts[0], c);
      SplitAllWhole(parts[1..], c);
      assert [parts[0]] + parts[1..] == parts;
    }
  }

  lemma SplitJoin(parts: seq<string>, c: char)
    requires parts != []
    requires forall p :: p in parts ==> c !in p
    ensures Split(Join(parts, [c]), c) == parts
  {
    SplitJoinAll(parts, c);
    SplitAllWhole(parts, c);
  }

  lemma {:induction false} JoinSplit(s: string, c: char)
    ensures Join(Split(s, c), [c]) == s
  {
    if s == [] {
    } else {
      JoinSplit(s[1..], c);
      var rest := Split(s[1..], c);
      if s[0] == c {
        assert Split(s, c)[1..] == rest;
      } else if |rest| > 1 {
        assert Split(s, c)[1..] == rest[1..];
      }
    }
  }

  lemma {:induction false} TrimLeftTight(s: string)
    ensures TrimLeft(s) == [] || !IsSpace(TrimLeft(s)[0])
    ensures |TrimLeft(s)| <= |s| && TrimLeft(s) == s[|s| - |TrimLeft(s)|..]
  {
    if s != [] && IsSpace(s[0]) {
      TrimLeftTight(s[1..]);
    }
  }

  lemma {:induction false} TrimRightTight(s: string)
    ensures TrimRight(s) == [] || !IsSpace(TrimRight(s)[|TrimRight(s)| - 1])
    ensures TrimRight(s) <= s
  {
    if s != [] && IsSpace(s[|s| - 1]) {
      TrimRightTight(s[..|s| - 1]);
    }
  }

  lemma TrimIsTight(s: string)
    ensures Tight(Trim(s))
    ensures forall c :: c in Trim(s) ==> c in s
  {
    TrimLeftTight(s);
    TrimRightTight(TrimLeft(s));
  }

  predicate Blank(s: string) {
    forall c :: c in s ==> IsSpace(c)
  }

  lemma {:induction false} TrimLeftExact(s: string)
    ensures var n := |s| - |TrimLeft(s)|; n >= 0 && Blank(s[..n]) && s[n..] == TrimLeft(s)
  {
    if s == "" {
    } else if IsSpace(s[0]) {
      TrimLeftExact(s[1..]);
      var n := |s| - |TrimLeft(s)|;
      assert s[..n] == [s[0]] + s[1..][..n - 1];
    }
  }

  lemma {:induction false} TrimRightExact(s: string)
    ensures TrimRight(s) <= s && Blank(s[|TrimRight(s)|..])
  {
    if s == "" {
    } else if IsSpace(s[|s| - 1]) {
      TrimRightExact(s[..|s| - 1]);
      assert s[|TrimRight(s)|..] == s[..|s| - 1][|TrimRight(s)|..] + [s[|s| - 1]];
    }
  }

  /** Trimming takes white space off both ends, all of it, and nothing else. */
  lemma TrimExact(s: string) returns (left: string, right: string)
    ensures s == left + Trim(s) + right && Blank(left) && Blank(right) && Tight(Trim(s))
  {
    var middle := TrimLeft(s);
    TrimLeftExact(s);
    TrimRightExact(middle);
    TrimIsTight(s);
    left, right := s[..|s| - |middle|], middle[|Trim(s)|..];
  }

  lemma TrimOfTight(s: string)
    requires Tight(s)
    ensures Trim(s) == s
  {
  }

  lemma {:induction false} FilterMember<T>(p: T -> bool, s: seq<T>, x: T)
    ensures x in Filter(p, s) <==> x in s && p(x)
  {
    if s == [] {
    } else {
      FilterMember(p, s[1..], x);
    }
  }

  lemma FilterStep<T>(p: T -> bool, x: T, s: seq<T>)
    ensures Filter(p, [x] + s) == (if p(x) then [x] else []) + Filter(p, s)
  {
    assert ([x] + s)[1..] == s;
  }

  lemma FilterOne<T>(p: T -> bool, x: T)
    ensures Filter(p, [x]) == if p(x) then [x] else []
  {
    assert [x][1..] == [];
  }

  lemma {:induction false} FilterConcat<T>(p: T -> bool, a: seq<T>, b: seq<T>)
    ensures Filter(p, a + b) == Filter(p, a) + Filter(p, b)
  {
    if a == [] {
      assert a + b == b;
    } else {
      FilterConcat(p, a[1..], b);
      FilterStep(p, a[0], a[1..] + b);
      FilterStep(p, a[0], a[1..]);
      assert [a[0]] + a[1..] == a && [a[0]] + (a[1..] + b) == a + b;
      ConcatAssociates(if p(a[0]) then [a[0]] else [], Filter(p, a[1..]), Filter(p, b));
    }
  }

  lemma ConcatAssociates<T>(a: seq<T>, b: seq<T>, c: seq<T>)
    ensures a + (b + c) == a + b + c
  {
  }

  lemma {:induction false} FilterAll<T>(p: T -> bool, s: seq<T>)
    requires forall x :: x in s ==> p(x)
    ensures Filter(p, s) == s
  {
    if s == [] {
    } else {
      FilterAll(p, s[1..]);
    }
  }

  lemma MapConcat<T, U>(f: T -> U, a: seq<T>, b: seq<T>)
    ensures Map(f, a + b) == Map(f, a) + Map(f, b)
  {
    assert |Map(f, a + b)| == |Map(f, a) + Map(f, b)|;
    forall i | 0 <= i < |a + b| ensures Map(f, a + b)[i] == (Map(f, a) + Map(f, b))[i] {
      assert (a + b)[i] == if i < |a| then a[i] else b[i - |a|];
    }
  }

  lemma FlatMapStep<T, U>(f: T -> seq<U>, x: T, s: seq<T>)
    ensures FlatMap(f, [x] + s) == f(x) + FlatMap(f, s)
  {
    assert ([x] + s)[1..] == s;
  }

  lemma {:induction false} FlatMapConcat<T, U>(f: T -> seq<U>, a: seq<T>, b: seq<T>)
    ensures FlatMap(f, a + b) == FlatMap(f, a) + FlatMap(f, b)
  {
    if a == [] {
      assert a + b == b;
    } else {
      FlatMapConcat(f, a[1..], b);
      FlatMapStep(f, a[0], a[1..] + b);
      assert [a[0]] + (a[1..] + b) == a + b;
      ConcatAssociates(f(a[0]), FlatMap(f, a[1..]), FlatMap(f, b));
    }
  }

  lemma UnlinesConcat(a: seq<string>, b: seq<string>)
    ensures Unlines(a + b) == Unlines(a) + Unlines(b)
  {
    FlatMapConcat((l: string) => l + "\n", a, b);
  }

  lemma UnlinesOne(line: string)
    ensures Unlines([line]) == line + "\n"
  {
    FlatMapOne((l: string) => l + "\n", line);
  }

  lemma FlatMapSnoc<T, U>(f: T -> seq<U>, s: seq<T>, k: nat)
    requires k < |s|
    ensures FlatMap(f, s[..k + 1]) == FlatMap(f, s[..k]) + f(s[k])
  {
    assert s[..k + 1] == s[..k] + [s[k]];
    FlatMapConcat(f, s[..k], [s[k]]);
    FlatMapOne(f, s[k]);
  }

  lemma FlatMapOne<T, U>(f: T -> seq<U>, x: T)
    ensures FlatMap(f, [x]) == f(x)
  {
    assert [x][1..] == [];
  }

  lemma {:induction false} FlatMapEmpty<T, U>(f: T -> seq<U>, s: seq<T>)
    ensures FlatMap(f, s) == [] <==> forall x :: x in s ==> f(x) == []
  {
    if s == [] {
    } else {
      FlatMapEmpty(f, s[1..]);
      assert s[0] in s && forall x :: x in s <==> x == s[0] || x in s[1..];
    }
  }

  lemma {:induction false} FlatMapMember<T, U>(f: T -> seq<U>, s: seq<T>, y: U)
    ensures y in FlatMap(f, s) <==> exists x :: x in s && y in f(x)
  {
    if s == [] {
    } else {
      FlatMapMember(f, s[1..], y);
      assert s[0] in s && forall x :: x in s <==> x == s[0] || x in s[1..];
    }
  }

  lemma {:induction false} FlatMapAgrees<T, U>(f: T -> seq<U>, g: T -> seq<U>, s: seq<T>)
    requires forall x :: x in s ==> f(x) == g(x)
    ensures FlatMap(f, s) == FlatMap(g, s)
  {
    if s == [] {
    } else {
      assert s[0] in s;
      FlatMapAgrees(f, g, s[1..]);
    }
  }

  lemma {:induction false} FlatMapOfMap<T, U, V>(g: U -> seq<V>, f: T -> U, h: T -> seq<V>, s: seq<T>)
    requires forall x :: x in s ==> g(f(x)) == h(x)
    ensures FlatMap(g, Map(f, s)) == FlatMap(h, s)
  {
    if s == [] {
    } else {
      assert s[0] in s;
      FlatMapOfMap(g, f, h, s[1..]);
      assert Map(f, s)[1..] == Map(f, s[1..]);
    }
  }

  lemma MapOfMap<T, U, V>(g: U -> V, f: T -> U, h: T -> V, s: seq<T>)
    requires forall x :: x in s ==> g(f(x)) == h(x)
    ensures Map(g, Map(f, s)) == Map(h, s)
  {
    forall i | 0 <= i < |s| ensures Map(g, Map(f, s))[i] == Map(h, s)[i] {
      assert s[i] in s;
    }
  }

  lemma {:induction false} FlatMapOfOnes<T, U>(f: T -> U, g: T -> seq<U>, s: seq<T>)
    requires forall x :: x in s ==> g(x) == [f(x)]
    ensures FlatMap(g, s) == Map(f, s)
  {
    if s == [] {
    } else {
      assert s[0] in s;
      FlatMapOfOnes(f, g, s[1..]);
      assert Map(f, s) == [f(s[0])] + Map(f, s[1..]);
    }
  }

  lemma {:induction false} FlatMapOfFlatMap<T, U, V>(g: U -> seq<V>, f: T -> seq<U>, h: T -> seq<V>, s: seq<T>)
    requires forall x :: x in s ==> FlatMap(g, f(x)) == h(x)
    ensures FlatMap(g, FlatMap(f, s)) == FlatMap(h, s)
  {
    if s == [] {
    } else {
      assert s[0] in s;
      FlatMapOfFlatMap(g, f, h, s[1..]);
      FlatMapConcat(g, f(s[0]), FlatMap(f, s[1..]));
    }
  }

  lemma RemoveOne<T>(a: seq<T>, b: seq<T>, k: nat)
    requires a != [] && k < |b| && b[k] == a[0] && multiset(a) == multiset(b)
    ensures multiset(a[1..]) == multiset(b[..k] + b[k + 1..])
  {
    assert a == [a[0]] + a[1..];
    assert b == b[..k] + [b[k]] + b[k + 1..];
    assert multiset(a[1..]) == multiset(a) - multiset{a[0]};
    assert multiset(b[..k] + b[k + 1..]) == multiset(b) - multiset{b[k]};
  }

  lemma FlatMapAround<T, U>(f: T -> seq<U>, a: seq<T>, x: T, b: seq<T>)
    ensures multiset(FlatMap(f, a + [x] + b)) == multiset(f(x)) + multiset(FlatMap(f, a + b))
  {
    FlatMapConcat(f, a + [x], b);
    FlatMapConcat(f, a, [x]);
    FlatMapOne(f, x);
    FlatMapConcat(f, a, b);
    MiddleOut(FlatMap(f, a), f(x), FlatMap(f, b));
  }

  lemma MiddleOut<T>(x: seq<T>, y: seq<T>, z: seq<T>)
    ensures multiset(x + y + z) == multiset(y) + multiset(x + z)
  {
  }

  /** Permuting the elements permutes the results. */
  lemma {:induction false} FlatMapPermutes<T, U>(f: T -> seq<U>, a: seq<T>, b: seq<T>)
    requires multiset(a) == multiset(b)
    ensures multiset(FlatMap(f, a)) == multiset(FlatMap(f, b))
    decreases |a|
  {
    assert |a| == |multiset(a)| == |multiset(b)| == |b|;
    if a != [] {
      assert a[0] in multiset(b);
      var k :| 0 <= k < |b| && b[k] == a[0];
      RemoveOne(a, b, k);
      FlatMapPermutes(f, a[1..], b[..k] + b[k + 1..]);
      FlatMapAround(f, b[..k], b[k], b[k + 1..]);
      assert b == b[..k] + [b[k]] + b[k + 1..];
    }
  }

  /** A list of the elements of a set. */
  lemma {:induction false} ListOf<T>(s: set<T>) returns (list: seq<T>)
    ensures Distinct(list) && forall x :: x in list <==> x in s
    decreases |s|
  {
    if s == {} {
      list := [];
    } else {
      var x :| x in s;
      var rest := ListOf(s - {x});
      list := rest + [x];
    }
  }

  lemma {:induction false} PieceOfFlatMap<T, U>(f: T -> seq<U>, s: seq<T>, x: T)
    requires x in s
    ensures |f(x)| <= |FlatMap(f, s)| && forall y :: y in f(x) ==> y in FlatMap(f, s)
  {
    if s[0] != x {
      PieceOfFlatMap(f, s[1..], x);
    }
  }

  lemma {:induction false} FlatMapIsFilterMap<T, U>(p: T -> bool, g: T -> U, h: T -> seq<U>, s: seq<T>)
    requires forall x :: x in s ==> h(x) == if p(x) then [g(x)] else []
    ensures FlatMap(h, s) == Map(g, Filter(p, s))
  {
    if s == [] {
    } else {
      assert s[0] in s;
      FlatMapIsFilterMap(p, g, h, s[1..]);
      var rest := Filter(p, s[1..]);
      assert p(s[0]) ==> Map(g, [s[0]] + rest) == [g(s[0])] + Map(g, rest);
    }
  }

  lemma {:induction false} FilterOfMap<T, U>(q: U -> bool, g: T -> U, p: T -> bool, s: seq<T>)
    requires forall x :: x in s ==> q(g(x)) == p(x)
    ensures Filter(q, Map(g, s)) == Map(g, Filter(p, s))
  {
    if s == [] {
    } else {
      assert s[0] in s;
      FilterOfMap(q, g, p, s[1..]);
      FilterStep(q, g(s[0]), Map(g, s[1..]));
      assert Map(g, s) == [g(s[0])] + Map(g, s[1..]);
      var rest := Filter(p, s[1..]);
      assert p(s[0]) ==> Map(g, [s[0]] + rest) == [g(s[0])] + Map(g, rest);
    }
  }

  lemma {:induction false} FilterOfFilter<T>(q: T -> bool, p: T -> bool, r: T -> bool, s: seq<T>)
    requires forall x :: x in s ==> (p(x) && q(x)) == r(x)
    ensures Filter(q, Filter(p, s)) == Filter(r, s)
  {
    if s == [] {
    } else {
      assert s[0] in s;
      FilterOfFilter(q, p, r, s[1..]);
      if p(s[0]) {
        FilterStep(q, s[0], Filter(p, s[1..]));
      } else {
        assert Filter(p, s) == Filter(p, s[1..]) && Filter(r, s) == Filter(r, s[1..]);
      }
    }
  }

  lemma {:induction false} SameFilter<T>(p: T -> bool, q: T -> bool, s: seq<T>)
    requires forall x :: x in s ==> p(x) == q(x)
    ensures Filter(p, s) == Filter(q, s)
  {
    if s == [] {
    } else {
      assert s[0] in s;
      SameFilter(p, q, s[1..]);
    }
  }
}
