/** Names and state keys of managed resources: `getResourceName` of backend/handler_plan.go and
    `GenerateStateKey` of backend/hcl_generator.go. */
module ResourceNames {
  import opened Wrappers
  import opened Values

  const NAME_FIELDS := [
    "name", "bucket", "key_name", "role_name", "function_name", "cluster_name", "db_name",
    "domain_name", "identifier", "repository_name", "replication_group_id", "zone_name", "comment"]

  /** The first of the fields that holds non-empty text. */
  function FirstName(inputs: Inputs, fields: seq<string>): Option<string> {
    if fields == [] then None
    else if fields[0] in inputs && inputs[fields[0]].Str? && inputs[fields[0]].text != "" then
      Some(inputs[fields[0]].text)
    else FirstName(inputs, fields[1..])
  }

  /** The name the inputs carry themselves, if any. */
  function CarriedName(inputs: Inputs): Option<string> {
    FirstName(inputs, NAME_FIELDS)
  }

  /** The field holds this text, and it is not empty. */
  predicate Names(inputs: Inputs, field: string, name: string) {
    field in inputs && inputs[field] == Str(name) && name != ""
  }

  ghost predicate NoName(inputs: Inputs, fields: seq<string>) {
    forall j, other :: 0 <= j < |fields| ==> !Names(inputs, fields[j], other)
  }

  /** The field gives the name, and none before it gives any. */
  ghost predicate NamesFirst(inputs: Inputs, fields: seq<string>, k: nat, name: string) {
    k < |fields| && Names(inputs, fields[k], name) && NoName(inputs, fields[..k])
  }

  lemma {:induction false} FirstNameExact(inputs: Inputs, fields: seq<string>, name: string)
    ensures FirstName(inputs, fields) == Some(name) <==> exists k: nat :: NamesFirst(inputs, fields, k, name)
    ensures FirstName(inputs, fields).None? <==> NoName(inputs, fields)
  {
    if fields == [] {
    } else {
      var rest := fields[1..];
      FirstNameExact(inputs, rest, name);
      NoNameSplits(inputs, fields);
      if fields[0] in inputs && inputs[fields[0]].Str? && inputs[fields[0]].text != "" {
        assert Names(inputs, fields[0], inputs[fields[0]].text);
        forall k: nat | 0 < k <= |fields| ensures !NoName(inputs, fields[..k]) {
          assert Names(inputs, fields[..k][0], inputs[fields[0]].text);
        }
        assert Names(inputs, fields[0], name) ==> NamesFirst(inputs, fields, 0, name);
      } else {
        assert forall other :: !Names(inputs, fields[0], other);
        forall k: nat | k < |rest|
          ensures NamesFirst(inputs, rest, k, name) <==> NamesFirst(inputs, fields, k + 1, name)
        {
          assert fields[..k + 1][1..] == rest[..k];
          NoNameSplits(inputs, fields[..k + 1]);
        }
        forall k: nat | NamesFirst(inputs, fields, k, name) ensures k > 0 && NamesFirst(inputs, rest, k - 1, name) {
        }
      }
    }
  }

  lemma NoNameSplits(inputs: Inputs, fields: seq<string>)
    requires fields != []
    ensures NoName(inputs, fields)
       <==> (forall other :: !Names(inputs, fields[0], other)) && NoName(inputs, fields[1..])
  {
    var rest := fields[1..];
    if NoName(inputs, fields) {
      forall j, other | 0 <= j < |rest| ensures !Names(inputs, rest[j], other) {
        assert !Names(inputs, fields[j + 1], other);
      }
    }
    if (forall other :: !Names(inputs, fields[0], other)) && NoName(inputs, rest) {
      forall j, other | 0 <= j < |fields| ensures !Names(inputs, fields[j], other) {
        if j > 0 {
          assert !Names(inputs, rest[j - 1], other);
        }
      }
    }
  }

  /** A resource is named by the first of its name fields that holds non-empty text, and without one by
      its schema and the clock. */
  lemma NameExact(schema: string, inputs: Inputs, now: string)
    ensures forall k: nat, name :: NamesFirst(inputs, NAME_FIELDS, k, name) ==>
              ResourceName(schema, inputs, now) == name
    ensures NoName(inputs, NAME_FIELDS) ==> ResourceName(schema, inputs, now) == schema + "-" + now
  {
    forall k: nat, name | NamesFirst(inputs, NAME_FIELDS, k, name) ensures ResourceName(schema, inputs, now) == name {
      FirstNameExact(inputs, NAME_FIELDS, name);
    }
    FirstNameExact(inputs, NAME_FIELDS, "");
  }

  /** Without a carried name the schema and the clock make one up. */
  function ResourceName(schema: string, inputs: Inputs, now: string): string {
    match CarriedName(inputs)
    case Some(name) => name
    case None => schema + "-" + now
  }

  method GetResourceName(schema: string, inputs: Inputs, now: string) returns (name: string)
    ensures name == ResourceName(schema, inputs, now)
  {
    var fields := NAME_FIELDS;
    for k := 0 to |fields|
      invariant FirstName(inputs, fields) == FirstName(inputs, fields[k..])
    {
      if fields[k] in inputs && inputs[fields[k]].Str? && inputs[fields[k]].text != "" {
        return inputs[fields[k]].text;
      }
    }
    return schema + "-" + now;
  }

  function StateKey(schema: string, name: string, env: string): string {
    env + "/" + schema + "/" + name + "/terraform.tfstate"
  }

  predicate NoSlash(s: string) {
    forall i :: 0 <= i < |s| ==> s[i] != '/'
  }

  /** The text before the first slash and the text after it are determined. */
  lemma SlashCut(a: string, x: string, b: string, y: string)
    requires NoSlash(a) && NoSlash(b) && a + "/" + x == b + "/" + y
    ensures a == b && x == y
  {
    var s := a + "/" + x;
    assert s == b + "/" + y;
    assert s[|a|] == '/' && s[|b|] == '/';
    assert forall i :: 0 <= i < |a| ==> s[i] == a[i];
    assert forall i :: 0 <= i < |b| ==> s[i] == b[i];
    assert |a| == |b|;
    assert s[..|a|] == a && s[..|b|] == b;
    assert s[|a| + 1..] == x && s[|b| + 1..] == y;
  }

  /** Environments and schema ids without slashes make the key injective, whatever the names. */
  lemma StateKeyInjective(schema: string, name: string, env: string, schema2: string, name2: string, env2: string)
    requires NoSlash(schema) && NoSlash(env) && NoSlash(schema2) && NoSlash(env2)
    requires StateKey(schema, name, env) == StateKey(schema2, name2, env2)
    ensures schema == schema2 && name == name2 && env == env2
  {
    var tail := "/terraform.tfstate";
    assert StateKey(schema, name, env) == env + "/" + (schema + "/" + (name + tail));
    assert StateKey(schema2, name2, env2) == env2 + "/" + (schema2 + "/" + (name2 + tail));
    SlashCut(env, schema + "/" + (name + tail), env2, schema2 + "/" + (name2 + tail));
    SlashCut(schema, name + tail, schema2, name2 + tail);
    assert |name| == |name2| && (name + tail)[..|name|] == name && (name2 + tail)[..|name2|] == name2;
  }

  /** What a state key starts with before the name. */
  function KeyPrefix(schema: string, env: string): string {
    env + "/" + schema + "/"
  }

  const KEY_TAIL := "/terraform.tfstate"

  lemma KeyText(schema: string, name: string, env: string)
    ensures StateKey(schema, name, env) == KeyPrefix(schema, env) + (name + KEY_TAIL)
  {
  }

  lemma PrefixCollides(schema: string, env: string, schema2: string, env2: string)
    requires KeyPrefix(schema, env) <= KeyPrefix(schema2, env2)
    ensures StateKey(schema, KeyPrefix(schema2, env2)[|KeyPrefix(schema, env)|..], env) == StateKey(schema2, "", env2)
  {
    var p, q := KeyPrefix(schema, env), KeyPrefix(schema2, env2);
    KeyText(schema, q[|p|..], env);
    KeyText(schema2, "", env2);
    assert p + (q[|p|..] + KEY_TAIL) == q + ("" + KEY_TAIL);
  }

  /** With slashes in environments or schema ids two resources can share a key: some names collide if
      and only if what comes before the name in one key is a beginning of the other. */
  lemma KeysCollideExactly(schema: string, env: string, schema2: string, env2: string)
    ensures (exists name, name2 :: StateKey(schema, name, env) == StateKey(schema2, name2, env2))
       <==> || KeyPrefix(schema, env) <= KeyPrefix(schema2, env2)
            || KeyPrefix(schema2, env2) <= KeyPrefix(schema, env)
  {
    if KeyPrefix(schema, env) <= KeyPrefix(schema2, env2) {
      PrefixCollides(schema, env, schema2, env2);
    } else if KeyPrefix(schema2, env2) <= KeyPrefix(schema, env) {
      PrefixCollides(schema2, env2, schema, env);
    }
    if name, name2 :| StateKey(schema, name, env) == StateKey(schema2, name2, env2) {
      KeyText(schema, name, env);
      KeyText(schema2, name2, env2);
      OneIsPrefix(KeyPrefix(schema, env), name + KEY_TAIL, KeyPrefix(schema2, env2), name2 + KEY_TAIL);
    }
  }

  lemma OneIsPrefix(a: string, x: string, b: string, y: string)
    requires a + x == b + y
    ensures a <= b || b <= a
  {
    if |a| <= |b| {
      assert (a + x)[..|a|] == a && (b + y)[..|a|] == b[..|a|];
    } else {
      assert (a + x)[..|b|] == a[..|b|] && (b + y)[..|b|] == b;
    }
  }
}
