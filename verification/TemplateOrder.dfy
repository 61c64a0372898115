/** When the result of `ResolvePath` depends on the iteration order of the inputs: values that hold
    placeholders themselves, for which backend/hcl_generator.go makes no provision. */
module TemplateOrder {
  import opened Text
  import opened PathTemplate

  /** Input values as text with placeholders. */
  type Values = map<string, seq<Piece>>

  ghost predicate PlainValues(vals: Values) {
    forall k :: k in vals ==> BraceFree(k) && PlainPieces(vals[k])
  }

  function Inputs(vals: Values): map<string, string> {
    map k | k in vals :: Render(vals[k])
  }

  /** An order in which the iteration over the inputs can go. */
  ghost predicate Lists(order: seq<string>, vals: Values) {
    Distinct(order) && forall k :: k in order <==> k in vals
  }

  /** What `ResolvePath` returns when the iteration goes in this order. */
  function Resolved(template: string, order: seq<string>, vals: Values, env: string): string
    requires forall k :: k in order ==> k in vals
  {
    ReplaceKeys(ReplaceAll(template, Placeholder("env"), env), order, Inputs(vals))
  }

  /** No two orders give two results, whatever the template. */
  ghost predicate OrderFree(vals: Values, env: string) {
    forall ps, first, second :: PlainPieces(ps) && Lists(first, vals) && Lists(second, vals) ==>
      Resolved(Render(ps), first, vals, env) == Resolved(Render(ps), second, vals, env)
  }

  /** The value of one key holds the placeholder of another key, whose value is not that same text. The
      value of an input `env` is never put in for a placeholder of the template. */
  predicate Interferes(vals: Values, a: string, b: string) {
    a in vals && b in vals && a != b && a != "env" && Hole(b) in vals[a] && Render(vals[b]) != Placeholder(b)
  }

  // ----- putting pieces in for holes

  function ExpandPiece(p: Piece, key: string, value: seq<Piece>): seq<Piece> {
    if p == Hole(key) then value else [p]
  }

  function Expand(ps: seq<Piece>, key: string, value: seq<Piece>): seq<Piece> {
    FlatMap((p: Piece) => ExpandPiece(p, key, value), ps)
  }

  lemma RenderStep(p: Piece, ps: seq<Piece>)
    ensures Render([p] + ps) == RenderPiece(p) + Render(ps)
  {
    assert ([p] + ps)[1..] == ps;
  }

  lemma {:induction false} RenderConcat(a: seq<Piece>, b: seq<Piece>)
    ensures Render(a + b) == Render(a) + Render(b)
  {
    if a == [] {
      assert a + b == b;
    } else {
      RenderConcat(a[1..], b);
      RenderStep(a[0], a[1..] + b);
      assert [a[0]] + (a[1..] + b) == a + b;
      ConcatAssociates(RenderPiece(a[0]), Render(a[1..]), Render(b));
    }
  }

  lemma RenderOne(p: Piece)
    ensures Render([p]) == RenderPiece(p)
  {
    assert [p][1..] == [] && RenderPiece(p) + "" == RenderPiece(p);
  }

  lemma {:induction false} ExpandRenders(ps: seq<Piece>, key: string, value: seq<Piece>)
    ensures Render(Expand(ps, key, value)) == Render(Fill(ps, key, Render(value)))
  {
    if ps == [] {
    } else {
      ExpandRenders(ps[1..], key, value);
      RenderConcat(ExpandPiece(ps[0], key, value), Expand(ps[1..], key, value));
      RenderOne(ps[0]);
      FillStep(ps, key, Render(value));
    }
  }

  lemma FillStep(ps: seq<Piece>, key: string, value: string)
    requires ps != []
    ensures Render(Fill(ps, key, value))
         == (if ps[0] == Hole(key) then value else RenderPiece(ps[0])) + Render(Fill(ps[1..], key, value))
  {
  }

  /** Replacing a placeholder by text with placeholders puts their pieces in for the holes. */
  lemma ReplaceExpands(ps: seq<Piece>, key: string, value: seq<Piece>)
    requires PlainPieces(ps) && BraceFree(key)
    ensures ReplaceAll(Render(ps), Placeholder(key), Render(value)) == Render(Expand(ps, key, value))
  {
    ReplaceFills(ps, key, Render(value));
    ExpandRenders(ps, key, value);
  }

  lemma {:induction false} ExpandAbsent(ps: seq<Piece>, key: string, value: seq<Piece>)
    requires Hole(key) !in ps
    ensures Expand(ps, key, value) == ps
  {
    if ps == [] {
    } else {
      assert ps[0] in ps;
      ExpandAbsent(ps[1..], key, value);
      assert [ps[0]] + ps[1..] == ps;
    }
  }

  lemma {:induction false} ReplaceBySelf(s: string, pattern: string)
    requires pattern != ""
    ensures ReplaceAll(s, pattern, pattern) == s
    decreases |s|
  {
    if s == "" {
    } else if pattern <= s {
      ReplaceBySelf(s[|pattern|..], pattern);
      assert pattern + s[|pattern|..] == s;
    } else {
      ReplaceBySelf(s[1..], pattern);
      assert [s[0]] + s[1..] == s;
    }
  }

  // ----- without interference every order gives the simultaneous result

  function SettlePiece(p: Piece, vals: Values, keys: seq<string>): seq<Piece> {
    if p.Hole? && p.key in keys && p.key in vals then vals[p.key] else [p]
  }

  /** The holes of some keys filled at once. */
  function Settle(ps: seq<Piece>, vals: Values, keys: seq<string>): seq<Piece> {
    FlatMap((p: Piece) => SettlePiece(p, vals, keys), ps)
  }

  lemma SettlePlain(ps: seq<Piece>, vals: Values, keys: seq<string>)
    requires PlainPieces(ps) && PlainValues(vals)
    ensures PlainPieces(Settle(ps, vals, keys))
  {
    forall q | q in Settle(ps, vals, keys) ensures if q.Lit? then BraceFree(q.text) else BraceFree(q.key) {
      FlatMapMember((p: Piece) => SettlePiece(p, vals, keys), ps, q);
      var p :| p in ps && q in SettlePiece(p, vals, keys);
    }
  }

  lemma SettleNothing(ps: seq<Piece>, vals: Values)
    ensures Settle(ps, vals, []) == ps
  {
    FlatMapOfOnes((p: Piece) => p, (p: Piece) => SettlePiece(p, vals, []), ps);
    assert Map((p: Piece) => p, ps) == ps;
  }

  lemma {:induction false} RenderAgrees(f: Piece -> seq<Piece>, g: Piece -> seq<Piece>, ps: seq<Piece>)
    requires forall p :: p in ps ==> Render(f(p)) == Render(g(p))
    ensures Render(FlatMap(f, ps)) == Render(FlatMap(g, ps))
  {
    if ps == [] {
    } else {
      assert ps[0] in ps;
      RenderAgrees(f, g, ps[1..]);
      RenderConcat(f(ps[0]), FlatMap(f, ps[1..]));
      RenderConcat(g(ps[0]), FlatMap(g, ps[1..]));
    }
  }

  /** One more key whose value is its own placeholder. */
  lemma SettleSelf(ps: seq<Piece>, vals: Values, keys: seq<string>, b: string)
    requires PlainPieces(ps) && PlainValues(vals) && b in vals && b !in keys
    requires Render(vals[b]) == Placeholder(b)
    ensures ReplaceAll(Render(Settle(ps, vals, keys)), Placeholder(b), Render(vals[b]))
         == Render(Settle(ps, vals, keys + [b]))
  {
    var f := (p: Piece) => SettlePiece(p, vals, keys);
    var g := (p: Piece) => SettlePiece(p, vals, keys + [b]);
    ReplaceBySelf(Render(Settle(ps, vals, keys)), Placeholder(b));
    forall p | p in ps ensures Render(f(p)) == Render(g(p)) {
      RenderOne(p);
    }
    RenderAgrees(f, g, ps);
  }

  /** One more key whose placeholder no value put in so far holds. */
  lemma SettleOther(ps: seq<Piece>, vals: Values, keys: seq<string>, b: string)
    requires PlainPieces(ps) && PlainValues(vals) && b in vals && b !in keys
    requires forall k :: k in keys && k in vals && Hole(k) in ps ==> Hole(b) !in vals[k]
    ensures ReplaceAll(Render(Settle(ps, vals, keys)), Placeholder(b), Render(vals[b]))
         == Render(Settle(ps, vals, keys + [b]))
  {
    var expand := (p: Piece) => ExpandPiece(p, b, vals[b]);
    SettlePlain(ps, vals, keys);
    ReplaceExpands(Settle(ps, vals, keys), b, vals[b]);
    forall p | p in ps ensures FlatMap(expand, SettlePiece(p, vals, keys)) == SettlePiece(p, vals, keys + [b]) {
      if p.Hole? && p.key in keys && p.key in vals {
        ExpandAbsent(vals[p.key], b, vals[b]);
      } else {
        FlatMapOne(expand, p);
      }
    }
    FlatMapOfFlatMap(expand, (p: Piece) => SettlePiece(p, vals, keys),
                     (p: Piece) => SettlePiece(p, vals, keys + [b]), ps);
  }

  lemma {:induction false} KeysSettle(ps: seq<Piece>, vals: Values, order: seq<string>)
    requires PlainPieces(ps) && PlainValues(vals) && Hole("env") !in ps
    requires forall a, b :: !Interferes(vals, a, b)
    requires Distinct(order) && forall k :: k in order ==> k in vals
    ensures ReplaceKeys(Render(ps), order, Inputs(vals)) == Render(Settle(ps, vals, order))
  {
    if order == [] {
      SettleNothing(ps, vals);
    } else {
      var n := |order| - 1;
      var keys, b := order[..n], order[n];
      assert order == keys + [b] && b in order;
      assert forall k :: k in keys ==> k in order;
      KeysSettle(ps, vals, keys);
      if Render(vals[b]) == Placeholder(b) {
        SettleSelf(ps, vals, keys, b);
      } else {
        forall k | k in keys && k in vals && Hole(k) in ps ensures Hole(b) !in vals[k] {
          assert !Interferes(vals, k, b);
        }
        SettleOther(ps, vals, keys, b);
      }
    }
  }

  /** Without interference every order gives all placeholders filled at once. */
  lemma ResolvedAtOnce(ps: seq<Piece>, vals: Values, env: string, order: seq<string>)
    requires PlainPieces(ps) && PlainValues(vals) && BraceFree(env) && Lists(order, vals)
    requires forall a, b :: !Interferes(vals, a, b)
    ensures Resolved(Render(ps), order, vals, env) == Render(Settle(Fill(ps, "env", env), vals, order))
  {
    ReplaceFills(ps, "env", env);
    FillStaysPlain(ps, "env", env);
    KeysSettle(Fill(ps, "env", env), vals, order);
  }

  lemma NoInterferenceIsOrderFree(vals: Values, env: string)
    requires PlainValues(vals) && BraceFree(env)
    requires forall a, b :: !Interferes(vals, a, b)
    ensures OrderFree(vals, env)
  {
    forall ps, first, second | PlainPieces(ps) && Lists(first, vals) && Lists(second, vals)
      ensures Resolved(Render(ps), first, vals, env) == Resolved(Render(ps), second, vals, env)
    {
      var start := Fill(ps, "env", env);
      ResolvedAtOnce(ps, vals, env, first);
      ResolvedAtOnce(ps, vals, env, second);
      FlatMapAgrees((p: Piece) => SettlePiece(p, vals, first), (p: Piece) => SettlePiece(p, vals, second), start);
    }
  }

  // ----- with interference two orders give two results

  /** Putting in longer text lengthens, shorter text shortens, and text of the same length neither. */
  lemma {:induction false} ExpandLength(ps: seq<Piece>, b: string, value: seq<Piece>)
    ensures var before, after := |Render(ps)|, |Render(Expand(ps, b, value))|;
            var more := |Render(value)| - |Placeholder(b)|;
            && (more >= 0 ==> after >= before + if Hole(b) in ps then more else 0)
            && (more <= 0 ==> after <= before + if Hole(b) in ps then more else 0)
  {
    if ps == [] {
    } else {
      ExpandLength(ps[1..], b, value);
      RenderConcat(ExpandPiece(ps[0], b, value), Expand(ps[1..], b, value));
      RenderOne(ps[0]);
      assert forall p :: p in ps <==> p == ps[0] || p in ps[1..];
    }
  }

  lemma HeadsAgree(a: string, x: string, b: string, y: string)
    requires |a| == |b|
    ensures a + x == b + y ==> a == b && x == y
  {
    if a + x == b + y {
      assert (a + x)[..|a|] == a && (b + y)[..|b|] == b;
      assert (a + x)[|a|..] == x && (b + y)[|b|..] == y;
    }
  }

  /** Putting in any other text than the placeholder changes the text. */
  lemma {:induction false} ExpandChanges(ps: seq<Piece>, b: string, value: seq<Piece>)
    requires Hole(b) in ps && Render(value) != Placeholder(b)
    ensures Render(Expand(ps, b, value)) != Render(ps)
  {
    ExpandLength(ps, b, value);
    if |Render(value)| == |Placeholder(b)| {
      RenderConcat(ExpandPiece(ps[0], b, value), Expand(ps[1..], b, value));
      if ps[0] == Hole(b) {
        HeadsAgree(Render(value), Render(Expand(ps[1..], b, value)), Placeholder(b), Render(ps[1..]));
      } else {
        RenderOne(ps[0]);
        ExpandChanges(ps[1..], b, value);
        HeadsAgree(RenderPiece(ps[0]), Render(Expand(ps[1..], b, value)), RenderPiece(ps[0]), Render(ps[1..]));
      }
    }
  }

  /** Keys other than that of a lone placeholder leave it as it is. */
  lemma {:induction false} OthersPass(key: string, order: seq<string>, vals: Values)
    requires BraceFree(key) && PlainValues(vals) && key !in order && forall k :: k in order ==> k in vals
    ensures ReplaceKeys(Placeholder(key), order, Inputs(vals)) == Placeholder(key)
  {
    if order == [] {
    } else {
      var n := |order| - 1;
      assert order[n] in order && forall k :: k in order[..n] ==> k in order;
      OthersPass(key, order[..n], vals);
      ReplaceHole(key, order[n], Render(vals[order[n]]));
    }
  }

  lemma KeysThenOne(s: string, order: seq<string>, key: string, vals: Values)
    requires (forall k :: k in order ==> k in vals) && key in vals
    ensures forall k :: k in order + [key] ==> k in vals
    ensures ReplaceKeys(s, order + [key], Inputs(vals))
         == ReplaceAll(ReplaceKeys(s, order, Inputs(vals)), Placeholder(key), Render(vals[key]))
  {
    assert (order + [key])[..|order|] == order;
  }

  lemma ListsTwoMore(others: seq<string>, x: string, y: string, vals: Values)
    requires Distinct(others) && (forall k :: k in others <==> k in vals && k != x && k != y)
    requires x in vals && y in vals && x != y
    ensures Lists(others + [x] + [y], vals)
  {
    var order := others + [x] + [y];
    forall k ensures k in order <==> k in vals {
    }
    forall i, j | 0 <= i < j < |order| ensures order[i] != order[j] {
      if j < |others| {
        assert others[i] != others[j];
      } else if i < |others| {
        assert others[i] in others;
      }
    }
  }

  /** The key first and then the one it holds: its value goes in, changed. */
  lemma KeyThenInner(vals: Values, env: string, a: string, b: string, others: seq<string>)
    requires PlainValues(vals) && a in vals && b in vals && a != "env"
    requires a !in others && forall k :: k in others ==> k in vals
    ensures Resolved(Placeholder(a), others + [a] + [b], vals, env) == Render(Expand(vals[a], b, vals[b]))
  {
    ReplaceHole(a, "env", env);
    OthersPass(a, others, vals);
    KeysThenOne(Placeholder(a), others, a, vals);
    ReplaceHole(a, a, Render(vals[a]));
    KeysThenOne(Placeholder(a), others + [a], b, vals);
    ReplaceExpands(vals[a], b, vals[b]);
  }

  /** The key last: its value goes in as it is. */
  lemma InnerThenKey(vals: Values, env: string, a: string, others: seq<string>)
    requires PlainValues(vals) && a in vals && a != "env"
    requires a !in others && forall k :: k in others ==> k in vals
    ensures Resolved(Placeholder(a), others + [a], vals, env) == Render(vals[a])
  {
    ReplaceHole(a, "env", env);
    OthersPass(a, others, vals);
    KeysThenOne(Placeholder(a), others, a, vals);
    ReplaceHole(a, a, Render(vals[a]));
  }

  /** Values with braces void the guarantee: if one key's value interferes with another's, two orders,
      whatever the other inputs, give two results on the template that is the first key's placeholder. */
  lemma BracesMakeOrderMatter(vals: Values, env: string, a: string, b: string)
    returns (first: seq<string>, second: seq<string>)
    requires PlainValues(vals) && Interferes(vals, a, b)
    ensures Lists(first, vals) && Lists(second, vals)
    ensures Resolved(Placeholder(a), first, vals, env) != Resolved(Placeholder(a), second, vals, env)
  {
    var others := ListOf(vals.Keys - {a, b});
    first, second := others + [a] + [b], others + [b] + [a];
    ListsTwoMore(others, a, b, vals);
    ListsTwoMore(others, b, a, vals);
    KeyThenInner(vals, env, a, b, others);
    InnerThenKey(vals, env, a, others + [b]);
    ExpandChanges(vals[a], b, vals[b]);
  }

  /** The exact condition: the iteration order never shows, on no template, if and only if no key's
      value holds the placeholder of another key whose value is not that same text. */
  lemma OrderFreeExactly(vals: Values, env: string)
    requires PlainValues(vals) && BraceFree(env)
    ensures OrderFree(vals, env) <==> forall a, b :: !Interferes(vals, a, b)
  {
    if a, b :| Interferes(vals, a, b) {
      var first, second := BracesMakeOrderMatter(vals, env, a, b);
      RenderOne(Hole(a));
      assert Render([Hole(a)]) == Placeholder(a) && PlainPieces([Hole(a)]);
    } else {
      NoInterferenceIsOrderFree(vals, env);
    }
  }
}
