/** `ResolvePath` of backend/hcl_generator.go: placeholders replaced one key after the other, in
    whatever order the map of inputs is iterated. */
module PathTemplate {

  /** Go's `strings.ReplaceAll` for a non-empty pattern: leftmost, without overlaps. */
  function ReplaceAll(s: string, pattern: string, value: string): string
    requires pattern != ""
    decreases |s|
  {
    if s == "" then ""
    else if pattern <= s then value + ReplaceAll(s[|pattern|..], pattern, value)
    else [s[0]] + ReplaceAll(s[1..], pattern, value)
  }

  function Placeholder(key: string): string {
    "{" + key + "}"
  }

  /** The replacements for the keys in order. */
  function ReplaceKeys(s: string, order: seq<string>, inputs: map<string, string>): string
    requires forall k :: k in order ==> k in inputs
  {
    if order == [] then s
    else
      var last := order[|order| - 1];
      ReplaceAll(ReplaceKeys(s, order[..|order| - 1], inputs), Placeholder(last), inputs[last])
  }

  /** `order` is the order in which the iteration over the inputs happens to go. */
  method ResolvePath(template: string, inputs: map<string, string>, env: string, order: seq<string>)
    returns (result: string)
    requires forall k :: k in order <==> k in inputs
    ensures result == ReplaceKeys(ReplaceAll(template, Placeholder("env"), env), order, inputs)
  {
    result := ReplaceAll(template, Placeholder("env"), env);
    ghost var start := result;
    for i := 0 to |order|
      invariant result == ReplaceKeys(start, order[..i], inputs)
    {
      assert order[i] in order && order[..i + 1][..i] == order[..i];
      result := ReplaceAll(result, Placeholder(order[i]), inputs[order[i]]);
    }
    assert order[..|order|] == order;
  }

  // ----- templates as pieces

  datatype Piece = Lit(text: string) | Hole(key: string)

  predicate BraceFree(s: string) {
    forall i :: 0 <= i < |s| ==> s[i] != '{' && s[i] != '}'
  }

  predicate PlainPieces(ps: seq<Piece>) {
    forall p :: p in ps ==> if p.Lit? then BraceFree(p.text) else BraceFree(p.key)
  }

  function RenderPiece(p: Piece): string {
    if p.Lit? then p.text else Placeholder(p.key)
  }

  function Render(ps: seq<Piece>): string {
    if ps == [] then "" else RenderPiece(ps[0]) + Render(ps[1..])
  }

  /** All holes filled at once; a hole whose key has no value stays as it is. */
  function Substitute(ps: seq<Piece>, values: map<string, string>): string {
    if ps == [] then ""
    else
      (match ps[0]
       case Lit(text) => text
       case Hole(key) => if key in values then values[key] else Placeholder(key))
      + Substitute(ps[1..], values)
  }

  function Fill(ps: seq<Piece>, key: string, value: string): seq<Piece> {
    if ps == [] then []
    else [if ps[0] == Hole(key) then Lit(value) else ps[0]] + Fill(ps[1..], key, value)
  }

  lemma {:induction false} ReplacePassesText(t: string, rest: string, key: string, value: string)
    requires forall i :: 0 <= i < |t| ==> t[i] != '{'
    ensures ReplaceAll(t + rest, Placeholder(key), value) == t + ReplaceAll(rest, Placeholder(key), value)
  {
    if t == "" {
      assert t + rest == rest;
    } else {
      assert (t + rest)[0] == t[0] && (t + rest)[1..] == t[1..] + rest;
      assert Placeholder(key)[0] == '{';
      ReplacePassesText(t[1..], rest, key, value);
    }
  }

  /** A placeholder matches only a hole with the same key. */
  lemma NoFalseMatch(other: string, rest: string, key: string)
    requires BraceFree(other) && BraceFree(key) && other != key
    ensures !(Placeholder(key) <= Placeholder(other) + rest)
  {
    var p, s := Placeholder(key), Placeholder(other) + rest;
    if |key| < |other| {
      assert p[1 + |key|] == '}' && s[1 + |key|] == other[|key|];
    } else if |other| < |key| {
      assert p[1 + |other|] == key[|other|] && s[1 + |other|] == '}';
    } else {
      var i :| 0 <= i < |key| && key[i] != other[i];
      assert p[1 + i] == key[i] && s[1 + i] == other[i];
    }
  }

  /** Replacing a placeholder in the text fills the holes of that key and touches nothing else. */
  lemma {:induction false} ReplaceFills(ps: seq<Piece>, key: string, value: string)
    requires PlainPieces(ps) && BraceFree(key)
    ensures ReplaceAll(Render(ps), Placeholder(key), value) == Render(Fill(ps, key, value))
  {
    if ps == [] {
    } else {
      assert ps[0] in ps;
      ReplaceFills(ps[1..], key, value);
      var rest := Render(ps[1..]);
      match ps[0]
      case Lit(text) =>
        ReplacePassesText(text, rest, key, value);
      case Hole(other) =>
        if other == key {
          assert (Placeholder(key) + rest)[|Placeholder(key)|..] == rest;
        } else {
          ReplacePassesHole(other, rest, key, value);
        }
    }
  }

  lemma ReplacePassesHole(other: string, rest: string, key: string, value: string)
    requires BraceFree(other) && BraceFree(key) && other != key
    ensures ReplaceAll(Placeholder(other) + rest, Placeholder(key), value)
         == Placeholder(other) + ReplaceAll(rest, Placeholder(key), value)
  {
    var s := Placeholder(other) + rest;
    var after := ReplaceAll(rest, Placeholder(key), value);
    NoFalseMatch(other, rest, key);
    assert s[0] == '{' && s[1..] == (other + "}") + rest;
    ReplacePassesText(other + "}", rest, key, value);
    assert ['{'] + ((other + "}") + after) == Placeholder(other) + after;
  }

  lemma {:induction false} FillStaysPlain(ps: seq<Piece>, key: string, value: string)
    requires PlainPieces(ps) && BraceFree(value)
    ensures PlainPieces(Fill(ps, key, value))
    ensures forall k :: Hole(k) in Fill(ps, key, value) <==> Hole(k) in ps && k != key
  {
    if ps == [] {
    } else {
      assert ps[0] in ps && forall p :: p in ps <==> p == ps[0] || p in ps[1..];
      FillStaysPlain(ps[1..], key, value);
    }
  }

  /** Filling a hole with its own value, or one that is not there, leaves the meaning alone. */
  lemma {:induction false} FillKeepsMeaning(ps: seq<Piece>, key: string, value: string, values: map<string, string>)
    requires Hole(key) in ps ==> key in values && values[key] == value
    ensures Substitute(Fill(ps, key, value), values) == Substitute(ps, values)
  {
    if ps == [] {
    } else {
      assert ps[0] in ps && forall p :: p in ps[1..] ==> p in ps;
      FillKeepsMeaning(ps[1..], key, value, values);
    }
  }

  lemma {:induction false} NothingLeftToFill(ps: seq<Piece>, values: map<string, string>)
    requires forall k :: k in values ==> Hole(k) !in ps
    ensures Substitute(ps, values) == Render(ps)
  {
    if ps == [] {
    } else {
      assert ps[0] in ps;
      forall k | k in values ensures Hole(k) !in ps[1..] {
        assert Hole(k) in ps[1..] ==> Hole(k) in ps;
      }
      NothingLeftToFill(ps[1..], values);
      assert ps[0].Hole? ==> ps[0].key !in values;
    }
  }

  /** After some keys the text is that of pieces with the same meaning and none of those holes. */
  lemma {:induction false} ReplaceKeysFills(ps: seq<Piece>, order: seq<string>, inputs: map<string, string>,
                                            values: map<string, string>)
    returns (filled: seq<Piece>)
    requires PlainPieces(ps) && Hole("env") !in ps
    requires forall k :: k in order ==> k in inputs && BraceFree(k) && BraceFree(inputs[k])
    requires forall k :: k in inputs && k != "env" ==> k in values && values[k] == inputs[k]
    ensures PlainPieces(filled)
    ensures ReplaceKeys(Render(ps), order, inputs) == Render(filled)
    ensures Substitute(filled, values) == Substitute(ps, values)
    ensures forall k :: Hole(k) in filled <==> Hole(k) in ps && k !in order
  {
    if order == [] {
      filled := ps;
    } else {
      var n := |order| - 1;
      var last := order[n];
      assert last in order && forall k :: k in order <==> k == last || k in order[..n];
      var before := ReplaceKeysFills(ps, order[..n], inputs, values);
      filled := Fill(before, last, inputs[last]);
      ReplaceFills(before, last, inputs[last]);
      FillStaysPlain(before, last, inputs[last]);
      FillKeepsMeaning(before, last, inputs[last], values);
    }
  }

  /** Substitution is confluent: whatever the iteration order, the result is all placeholders filled
      at once, `{env}` from the environment even if an input has that name. */
  lemma ResolutionIsSimultaneous(ps: seq<Piece>, inputs: map<string, string>, env: string, order: seq<string>)
    requires PlainPieces(ps) && BraceFree(env)
    requires forall k :: k in inputs ==> BraceFree(k) && BraceFree(inputs[k])
    requires forall k :: k in order <==> k in inputs
    ensures ReplaceKeys(ReplaceAll(Render(ps), Placeholder("env"), env), order, inputs)
         == Substitute(ps, inputs["env" := env])
  {
    var values := inputs["env" := env];
    var start := Fill(ps, "env", env);
    ReplaceFills(ps, "env", env);
    FillStaysPlain(ps, "env", env);
    FillKeepsMeaning(ps, "env", env, values);
    var filled := ReplaceKeysFills(start, order, inputs, values);
    NothingLeftToFill(filled, values);
  }

  lemma ReplaceHole(key: string, other: string, value: string)
    requires BraceFree(key) && BraceFree(other)
    ensures ReplaceAll(Placeholder(key), Placeholder(other), value)
         == if key == other then value else Placeholder(key)
  {
    var ps := [Hole(key)];
    ReplaceFills(ps, other, value);
    assert Render(ps) == Placeholder(key) by {
      assert ps[1..] == [] && Placeholder(key) + "" == Placeholder(key);
    }
    var filled := Fill(ps, other, value);
    assert filled == [if key == other then Lit(value) else Hole(key)] by {
      assert ps[1..] == [] && Fill([], other, value) == [];
    }
    assert filled[1..] == [] && value + "" == value && Placeholder(key) + "" == Placeholder(key);
  }
}
