/** The edges of the dependency graph, said from the rows alone: where every reference of every live row
    leads. */
module EdgeLaws {
  import opened Wrappers
  import opened Text
  import opened Values
  import opened DependencyGraph

  /** The row goes by this value: it is its name or one of its identifying inputs; one that is not text
      counts as empty. */
  predicate GoesBy(r: Resource, v: string) {
    || v == r.name
    || (r.inputs.Some? && exists i :: 0 <= i < |IDENTIFYING_KEYS| && InputReads(r.inputs.value, IDENTIFYING_KEYS[i], v))
  }

  predicate InputReads(inputs: Inputs, key: string, v: string) {
    key in inputs && Reads(inputs[key], v)
  }

  predicate Reads(value: Value, v: string) {
    if value.Str? then value.text == v else v == ""
  }

  /** The field's value holds this reference: a text whole, or cut at commas into its trimmed parts
      without the empty ones; an array item by item. */
  predicate Holds(value: Value, ref: string) {
    match value
    case Str(text) =>
      if ',' in text then ref != "" && exists i :: 0 <= i < |Split(text, ',')| && Trim(Split(text, ',')[i]) == ref
      else ref == text && text != ""
    case Arr(items) => exists i :: 0 <= i < |items| && Reads(items[i], ref)
    case _ => false
  }

  /** The last row that goes by the value. */
  predicate LastBy(rows: seq<Resource>, v: string, k: nat) {
    k < |rows| && GoesBy(rows[k], v) && forall j :: k < j < |rows| ==> !GoesBy(rows[j], v)
  }

  /** The first other row of the expected type in the same environment. */
  predicate FirstOfType(rows: seq<Resource>, r: Resource, expected: string, k: nat) {
    && k < |rows| && OtherOfType(r, rows[k], expected)
    && forall j :: 0 <= j < k ==> !OtherOfType(r, rows[j], expected)
  }

  predicate OtherOfType(r: Resource, target: Resource, expected: string) {
    target.schemaId == expected && target.env == r.env && target.id != r.id
  }

  /** The last row that goes by the reference, if that is another row than the one that refers; only then
      the first other row of the expected type. */
  ghost predicate LeadsTo(rows: seq<Resource>, r: Resource, ref: string, expected: string, to: string) {
    if exists k: nat :: LastBy(rows, ref, k) && rows[k].id != r.id
    then exists k: nat :: LastBy(rows, ref, k) && rows[k].id == to
    else exists k: nat :: FirstOfType(rows, r, expected, k) && rows[k].id == to
  }

  /** A live row refers to the edge's end through the edge's field. */
  ghost predicate Refers(rows: seq<Resource>, r: Resource, ref: string, e: Edge) {
    && r in rows && r.id == e.from && r.inputs.Some?
    && e.field in REFERENCE_FIELDS && e.field in r.inputs.value
    && Holds(r.inputs.value[e.field], ref)
    && LeadsTo(rows, r, ref, REFERENCE_FIELDS[e.field], e.to)
  }

  lemma {:induction false} KeyValuesExact(inputs: Inputs, keys: seq<string>, v: string)
    ensures v in KeyValues(inputs, keys) <==> exists i :: 0 <= i < |keys| && InputReads(inputs, keys[i], v)
  {
    if keys == [] {
    } else {
      KeyValuesExact(inputs, keys[1..], v);
      if i :| 0 <= i < |keys[1..]| && InputReads(inputs, keys[1..][i], v) {
        assert keys[i + 1] == keys[1..][i];
      }
      if i :| 0 <= i < |keys| && InputReads(inputs, keys[i], v) {
        assert i > 0 ==> keys[1..][i - 1] == keys[i];
      }
    }
  }

  lemma IdentifiersExact(r: Resource, v: string)
    ensures v in Identifiers(r) <==> GoesBy(r, v)
  {
    if r.inputs.Some? {
      KeyValuesExact(r.inputs.value, IDENTIFYING_KEYS, v);
    }
  }

  lemma RefsExact(value: Value, ref: string)
    ensures ref in ExtractRefs(value) <==> Holds(value, ref)
  {
    match value
    case Str(text) =>
      if ',' in text {
        var parts := Split(text, ',');
        var trimmed := Map((p: string) => Trim(p), parts);
        FilterMember((p: string) => p != "", trimmed, ref);
        if ref in trimmed {
          var i :| 0 <= i < |trimmed| && trimmed[i] == ref;
        }
        if i :| 0 <= i < |parts| && Trim(parts[i]) == ref {
          assert trimmed[i] == ref;
        }
      }
    case Arr(items) =>
      var refs := Map((i: Value) => ToString(i), items);
      if i :| 0 <= i < |items| && Reads(items[i], ref) {
        assert refs[i] == ref;
      }
    case _ =>
  }

  /** The index holds a value exactly if some row goes by it, and then the last such row. */
  lemma IndexExact(rows: seq<Resource>, v: string)
    ensures v in Index(rows) <==> exists k: nat :: LastBy(rows, v, k)
    ensures v in Index(rows) ==> exists k: nat :: LastBy(rows, v, k) && Index(rows)[v] == rows[k].id
    ensures forall k: nat, l: nat :: LastBy(rows, v, k) && LastBy(rows, v, l) ==> k == l
  {
    var names := Namings(rows);
    IndexIsLastWriter(names, v);
    forall k | 0 <= k < |rows| ensures v in names[k].values <==> GoesBy(rows[k], v) {
      IdentifiersExact(rows[k], v);
    }
    forall k: nat ensures LastNamed(names, v, k) <==> LastBy(rows, v, k) {
      if LastNamed(names, v, k) {
        forall j | k < j < |rows| ensures !GoesBy(rows[j], v) {
          assert v !in names[j].values;
        }
      }
    }
    if v in Index(rows) {
      var k: nat :| LastNamed(names, v, k) && Index(rows)[v] == names[k].id;
      assert LastBy(rows, v, k);
    }
  }

  lemma {:induction false} FallbackExact(r: Resource, rows: seq<Resource>, expected: string, to: string)
    ensures FirstFallback(r, rows, expected) == Some(to)
       <==> exists k: nat :: FirstOfType(rows, r, expected, k) && rows[k].id == to
  {
    if rows == [] {
    } else if OtherOfType(r, rows[0], expected) {
      assert FirstOfType(rows, r, expected, 0);
    } else {
      var rest := rows[1..];
      FallbackExact(r, rest, expected, to);
      forall k: nat | k < |rest| ensures FirstOfType(rest, r, expected, k) <==> FirstOfType(rows, r, expected, k + 1) {
        LaterFirst(rows, r, expected, k);
      }
      if k: nat :| FirstOfType(rest, r, expected, k) && rest[k].id == to {
        assert FirstOfType(rows, r, expected, k + 1) && rows[k + 1].id == to;
      }
      if k: nat :| FirstOfType(rows, r, expected, k) && rows[k].id == to {
        assert FirstOfType(rest, r, expected, k - 1) && rest[k - 1].id == to;
      }
    }
  }

  lemma LaterFirst(rows: seq<Resource>, r: Resource, expected: string, k: nat)
    requires rows != [] && k < |rows| - 1 && !OtherOfType(r, rows[0], expected)
    ensures FirstOfType(rows[1..], r, expected, k) <==> FirstOfType(rows, r, expected, k + 1)
  {
    var rest := rows[1..];
    if FirstOfType(rest, r, expected, k) {
      forall j | 0 <= j < k + 1 ensures !OtherOfType(r, rows[j], expected) {
        assert j > 0 ==> rows[j] == rest[j - 1];
      }
    }
    if FirstOfType(rows, r, expected, k + 1) {
      forall j | 0 <= j < k ensures !OtherOfType(r, rest[j], expected) {
        assert rest[j] == rows[j + 1];
      }
    }
  }

  lemma TargetExact(rows: seq<Resource>, r: Resource, ref: string, expected: string, to: string)
    ensures Target(rows, r, ref, expected) == Some(to) <==> LeadsTo(rows, r, ref, expected, to)
  {
    IndexExact(rows, ref);
    FallbackExact(r, rows, expected, to);
    if ref in Index(rows) {
      var k: nat :| LastBy(rows, ref, k) && Index(rows)[ref] == rows[k].id;
      assert Index(rows)[ref] != r.id ==> LastBy(rows, ref, k) && rows[k].id != r.id;
    }
  }

  /** An edge is drawn if and only if a live row holds a reference in a reference field that leads there:
      to the last live row that goes by it, or, when that is the row itself or there is none, to the
      first other live row of the expected type in the same environment. */
  lemma {:induction false} EdgesFollowReferences(table: seq<Resource>, fields: seq<string>, e: Edge)
    requires forall f :: f in fields <==> f in REFERENCE_FIELDS
    ensures e in AllEdges(LiveRows(table), fields) <==> exists r, ref :: Refers(LiveRows(table), r, ref, e)
  {
    var rows := LiveRows(table);
    EdgesAreExact(table, fields, e);
    forall r, ref ensures Explains(rows, r, e.field, ref, e) <==> Refers(rows, r, ref, e) {
      if r in rows && r.inputs.Some? && e.field in REFERENCE_FIELDS && e.field in r.inputs.value {
        RefsExact(r.inputs.value[e.field], ref);
        TargetExact(rows, r, ref, REFERENCE_FIELDS[e.field], e.to);
      }
    }
    if r, field, ref :| Explains(rows, r, field, ref, e) {
      assert Refers(rows, r, ref, e);
    }
    if r, ref :| Refers(rows, r, ref, e) {
      assert Explains(rows, r, e.field, ref, e);
    }
  }

  /** The nodes are the live rows, in order, destroyed ones left out. */
  lemma {:induction false} NodesAreLiveRows(table: seq<Resource>, r: Resource)
    ensures r in LiveRows(table) <==> r in table && !r.destroyed
  {
    FilterMember((r: Resource) => !r.destroyed, table, r);
  }
}
