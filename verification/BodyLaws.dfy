/** What a reader finds in a generated body, said from the schema and the inputs alone: which fields,
    in which order, with which values. */
module BodyLaws {
  import opened Wrappers
  import opened Text
  import opened Values
  import opened HclPrinter
  import opened HclReader
  import opened HclRoundTrip

  /** The value a field is given: its input, or its default if there is no input. */
  function InputOrDefault(f: Field, inputs: Inputs): Value {
    if f.name in inputs then inputs[f.name] else f.default
  }

  /** A field is printed if it has an input or a default that is not null, unless that is the empty
      string or the field is the core add-ons switch. */
  predicate Wanted(f: Field, inputs: Inputs) {
    && f.name != "install_core_addons"
    && (f.name in inputs || f.default != Null)
    && InputOrDefault(f, inputs) != Str("")
  }

  predicate SwitchesOn(v: Value) {
    v == Bool(true) || v == Str("true")
  }

  /** Some switch is on and no later one says false, and the inputs bring no add-ons of their own. */
  predicate AddonsWanted(schema: seq<Field>, inputs: Inputs) {
    && "cluster_addons" !in inputs
    && exists k :: 0 <= k < |schema| && LastSwitch(schema, inputs, k)
  }

  predicate LastSwitch(schema: seq<Field>, inputs: Inputs, k: nat)
    requires k < |schema|
  {
    && schema[k].name == "install_core_addons" && SwitchesOn(InputOrDefault(schema[k], inputs))
    && forall j :: k < j < |schema| && schema[j].name == "install_core_addons" ==>
         InputOrDefault(schema[j], inputs) != Bool(false)
  }

  predicate PrintsList(f: Field) {
    f.multi || exists i :: 0 <= i < |LIST_SUFFIXES| && EndsWith(f.name, LIST_SUFFIXES[i])
  }

  /** Lines without their common margin of spaces, as wide as it can be. */
  ghost predicate Dedents(lines: seq<string>, pieces: seq<string>, margin: nat) {
    && |pieces| == |lines|
    && (forall i :: 0 <= i < |lines| ==>
          margin <= |lines[i]| && AllSpaces(lines[i][..margin]) && pieces[i] == lines[i][margin..])
    && exists i :: 0 <= i < |pieces| && (pieces[i] == "" || pieces[i][0] != ' ')
  }

  /** What a field's value is printed for, kind by kind; at top level list fields are always lists. */
  ghost predicate Denotes(f: Field, v: Value, top: bool, e: Expr) {
    match f.kind
    case BooleanT => e == EBool(v == Bool(true) || v == Str("true"))
    case QuotedT => e == EStr(Show(v))
    case StringT =>
      var parts := Map((p: string) => Trim(p), Split(Show(v), ','));
      if top && PrintsList(f) then e == EList(Filter((p: string) => p != "", parts))
      else if ',' in Show(v) then e == EList(parts)
      else e == EStr(Show(v))
    case MultilineT =>
      if '\n' !in Show(v) then e == EStr(Show(v))
      else exists pieces, margin: nat :: Dedents(Split(Show(v), '\n'), pieces, margin) && e == EStr(Unlines(pieces))
  }

  /** Attributes of these fields, in their order, with their values. */
  ghost predicate Attributes(attrs: seq<Attribute>, fields: seq<Field>, inputs: Inputs, top: bool) {
    && |attrs| == |fields|
    && forall i :: 0 <= i < |attrs| ==>
         attrs[i].name == fields[i].name && Denotes(fields[i], InputOrDefault(fields[i], inputs), top, attrs[i].value)
  }

  /** The core add-ons as one object. */
  function AddonsObject(): Item {
    var on := EObject([Attribute("most_recent", EBool(true))]);
    Attr(Attribute("cluster_addons",
                   EObject([Attribute("coredns", on), Attribute("kube-proxy", on), Attribute("vpc-cni", on)])))
  }

  lemma AddonsObjectIs()
    ensures Attr(AddonsMeaning(CoreAddons())) == AddonsObject()
  {
    assert Map((a: Addon) => AddonMeaning(a), CoreAddons())
        == [AddonMeaning(COREDNS), AddonMeaning(KUBE_PROXY), AddonMeaning(VPC_CNI)];
  }

  function TopFields(schema: seq<Field>, inputs: Inputs): seq<Field> {
    Filter((f: Field) => Wanted(f, inputs) && f.block == "", schema)
  }

  function NestedFields(schema: seq<Field>, inputs: Inputs): seq<Field> {
    Filter((f: Field) => Wanted(f, inputs) && f.block != "", schema)
  }

  function FieldsOf(schema: seq<Field>, inputs: Inputs, block: string): seq<Field> {
    Filter((f: Field) => Wanted(f, inputs) && f.block == block && block != "", schema)
  }

  /** The block names of these fields in order of first appearance: each once, and the field that brings
      a name in comes after fields of earlier names only. */
  ghost predicate FirstAppearance(order: seq<string>, fields: seq<Field>) {
    && Distinct(order)
    && (forall k :: 0 <= k < |fields| ==> fields[k].block in order)
    && forall j :: 0 <= j < |order| ==> IsIntroduced(fields, order, j)
  }

  ghost predicate IsIntroduced(fields: seq<Field>, order: seq<string>, j: nat)
    requires j < |order|
  {
    exists k: nat :: Introduces(fields, order, j, k)
  }

  ghost predicate Introduces(fields: seq<Field>, order: seq<string>, j: nat, k: nat)
    requires j < |order|
  {
    && k < |fields| && fields[k].block == order[j]
    && forall i :: 0 <= i < k ==> fields[i].block in order[..j]
  }

  ghost predicate BlocksInOrder(blocks: seq<Item>, order: seq<string>, schema: seq<Field>, inputs: Inputs) {
    && FirstAppearance(order, NestedFields(schema, inputs)) && |blocks| == |order|
    && forall j :: 0 <= j < |order| ==>
         blocks[j].Block? && blocks[j].name == order[j]
         && Attributes(blocks[j].attrs, FieldsOf(schema, inputs, order[j]), inputs, false)
  }

  ghost predicate BlocksOf(blocks: seq<Item>, schema: seq<Field>, inputs: Inputs) {
    exists order: seq<string> :: BlocksInOrder(blocks, order, schema, inputs)
  }

  /** Top-level fields, the add-ons object, and the blocks. */
  ghost predicate ReadsAs(items: seq<Item>, schema: seq<Field>, inputs: Inputs) {
    exists top: seq<Attribute>, blocks: seq<Item> :: Consists(items, top, blocks, schema, inputs)
  }

  ghost predicate Consists(items: seq<Item>, top: seq<Attribute>, blocks: seq<Item>,
                           schema: seq<Field>, inputs: Inputs) {
    && Attributes(top, TopFields(schema, inputs), inputs, true)
    && BlocksOf(blocks, schema, inputs)
    && items == Map((a: Attribute) => Attr(a), top)
                + (if AddonsWanted(schema, inputs) then [AddonsObject()] else [])
                + blocks
  }

  /** The printer does not escape, so names must be names and quoted values stand for themselves. */
  predicate PlainField(f: Field, inputs: Inputs) {
    Wanted(f, inputs) ==>
      && IsName(f.name) && (f.block == "" || IsName(f.block))
      && PrintableValue(f.kind, InputOrDefault(f, inputs))
  }

  // ----- values

  lemma {:induction false} SpacesAre(s: string)
    ensures AllSpaces(s[..Spaces(s)]) && (Spaces(s) == |s| || s[Spaces(s)] != ' ')
  {
    if s == "" {
    } else if s[0] == ' ' {
      SpacesAre(s[1..]);
      assert s[..Spaces(s)] == [' '] + s[1..][..Spaces(s[1..])];
    }
  }

  lemma FlushDedents(lines: seq<string>)
    requires lines != []
    ensures Dedents(lines, DropEach(Margin(lines), lines), Margin(lines))
    ensures Flush(lines) == Unlines(DropEach(Margin(lines), lines))
  {
    var m := Margin(lines);
    var pieces := DropEach(m, lines);
    MarginIsLeast(lines);
    forall i | 0 <= i < |lines| ensures m <= |lines[i]| && AllSpaces(lines[i][..m]) && pieces[i] == lines[i][m..] {
      assert lines[i] in lines;
      SpacesAre(lines[i]);
      assert lines[i][..m] == lines[i][..Spaces(lines[i])][..m];
    }
    var l :| l in lines && Spaces(l) == m;
    var i :| 0 <= i < |lines| && lines[i] == l;
    SpacesAre(l);
    assert pieces[i] == "" || pieces[i][0] != ' ';
  }

  lemma MeaningDenotes(f: Field, v: Value)
    ensures Denotes(f, v, false, Meaning(f.kind, v))
    ensures Denotes(f, v, true, TopMeaning(Survivor(f, v)).value)
  {
    if f.kind == MultilineT && '\n' in Show(v) {
      FlushDedents(Split(Show(v), '\n'));
    }
  }

  // ----- which fields

  lemma SurvivorsAreWanted(schema: seq<Field>, inputs: Inputs)
    ensures Survivors(schema, inputs)
         == Map((f: Field) => Survivor(f, InputOrDefault(f, inputs)), Filter((f: Field) => Wanted(f, inputs), schema))
  {
    FlatMapIsFilterMap((f: Field) => Wanted(f, inputs), (f: Field) => Survivor(f, InputOrDefault(f, inputs)),
                       (f: Field) => SurvivorOf(f, inputs), schema);
  }

  /** Choosing survivors by their fields is choosing fields. */
  lemma ChosenSurvivors(schema: seq<Field>, inputs: Inputs, chosen: Survivor -> bool, fields: Field -> bool)
    requires forall f :: f in schema ==>
               fields(f) == (Wanted(f, inputs) && chosen(Survivor(f, InputOrDefault(f, inputs))))
    ensures Filter(chosen, Survivors(schema, inputs))
         == Map((f: Field) => Survivor(f, InputOrDefault(f, inputs)), Filter(fields, schema))
  {
    var wanted := (f: Field) => Wanted(f, inputs);
    var survivor := (f: Field) => Survivor(f, InputOrDefault(f, inputs));
    var choose := (f: Field) => chosen(Survivor(f, InputOrDefault(f, inputs)));
    SurvivorsAreWanted(schema, inputs);
    FilterOfMap(chosen, survivor, choose, Filter(wanted, schema));
    FilterOfFilter(choose, wanted, fields, schema);
  }

  function WithValues(fields: seq<Field>, inputs: Inputs): seq<Survivor> {
    Map((f: Field) => Survivor(f, InputOrDefault(f, inputs)), fields)
  }

  lemma TopSurvivors(schema: seq<Field>, inputs: Inputs)
    ensures TopLevel(Survivors(schema, inputs)) == WithValues(TopFields(schema, inputs), inputs)
  {
    ChosenSurvivors(schema, inputs, (s: Survivor) => s.field.block == "",
                    (f: Field) => Wanted(f, inputs) && f.block == "");
  }

  lemma NestedSurvivors(schema: seq<Field>, inputs: Inputs)
    ensures Nested(Survivors(schema, inputs)) == WithValues(NestedFields(schema, inputs), inputs)
  {
    ChosenSurvivors(schema, inputs, (s: Survivor) => s.field.block != "",
                    (f: Field) => Wanted(f, inputs) && f.block != "");
  }

  lemma BlockSurvivors(schema: seq<Field>, inputs: Inputs, block: string)
    requires block != ""
    ensures InBlock(Nested(Survivors(schema, inputs)), block) == WithValues(FieldsOf(schema, inputs, block), inputs)
  {
    var ss := Survivors(schema, inputs);
    FilterOfFilter((s: Survivor) => s.field.block == block, (s: Survivor) => s.field.block != "",
                   (s: Survivor) => s.field.block == block && block != "", ss);
    ChosenSurvivors(schema, inputs, (s: Survivor) => s.field.block == block && block != "",
                    (f: Field) => Wanted(f, inputs) && f.block == block && block != "");
  }

  // ----- the add-ons

  lemma {:induction false} SwitchExact(schema: seq<Field>, inputs: Inputs)
    ensures AddonsOn(schema, inputs) <==> exists k :: 0 <= k < |schema| && LastSwitch(schema, inputs, k)
  {
    if schema == [] {
    } else {
      var n := |schema| - 1;
      var before := schema[..n];
      SwitchExact(before, inputs);
      var v := InputOrDefault(schema[n], inputs);
      forall k | 0 <= k < n
        ensures LastSwitch(schema, inputs, k)
           <==> LastSwitch(before, inputs, k) && !(schema[n].name == "install_core_addons" && v == Bool(false))
      {
        assert forall j :: 0 <= j < n ==> before[j] == schema[j];
      }
      assert LastSwitch(schema, inputs, n) <==> schema[n].name == "install_core_addons" && SwitchesOn(v);
    }
  }

  // ----- block order

  lemma NextInOrder(fields: seq<Field>, inputs: Inputs)
    requires fields != []
    ensures var n := |fields| - 1;
            var before := BlockOrder(WithValues(fields[..n], inputs));
            BlockOrder(WithValues(fields, inputs))
            == if fields[n].block in before then before else before + [fields[n].block]
  {
    var n := |fields| - 1;
    assert WithValues(fields, inputs)[..n] == WithValues(fields[..n], inputs);
    assert WithValues(fields, inputs)[n].field == fields[n];
  }

  lemma NoneInOrder(inputs: Inputs)
    ensures BlockOrder(WithValues([], inputs)) == []
  {
  }

  lemma {:induction false} OrderIsFirstAppearance(fields: seq<Field>, inputs: Inputs)
    ensures FirstAppearance(BlockOrder(WithValues(fields, inputs)), fields)
  {
    if fields == [] {
      NoneInOrder(inputs);
    } else {
      var n := |fields| - 1;
      OrderIsFirstAppearance(fields[..n], inputs);
      NextInOrder(fields, inputs);
      AppearsNext(fields, BlockOrder(WithValues(fields[..n], inputs)));
    }
  }

  lemma StillIntroduces(fields: seq<Field>, before: seq<string>, more: seq<string>, j: nat, k: nat)
    requires fields != [] && j < |before| && before <= more
    requires Introduces(fields[..|fields| - 1], before, j, k)
    ensures Introduces(fields, more, j, k)
  {
    var early := fields[..|fields| - 1];
    assert more[..j] == before[..j];
    forall i | 0 <= i < k ensures fields[i].block in more[..j] {
      assert early[i] == fields[i];
    }
  }

  lemma LastIntroduces(fields: seq<Field>, before: seq<string>)
    requires fields != [] && FirstAppearance(before, fields[..|fields| - 1])
    ensures Introduces(fields, before + [fields[|fields| - 1].block], |before|, |fields| - 1)
  {
    var n := |fields| - 1;
    var more := before + [fields[n].block];
    assert more[..|before|] == before;
    forall i | 0 <= i < n ensures fields[i].block in more[..|before|] {
      assert fields[..n][i] == fields[i];
    }
  }

  lemma AppearsNext(fields: seq<Field>, before: seq<string>)
    requires fields != [] && FirstAppearance(before, fields[..|fields| - 1])
    ensures var b := fields[|fields| - 1].block;
            FirstAppearance(if b in before then before else before + [b], fields)
  {
    var n := |fields| - 1;
    var b := fields[n].block;
    var order := if b in before then before else before + [b];
    forall k | 0 <= k < |fields| ensures fields[k].block in order {
      if k < n {
        assert fields[..n][k].block in before;
      }
    }
    forall j | 0 <= j < |order| ensures IsIntroduced(fields, order, j) {
      if j < |before| {
        assert IsIntroduced(fields[..n], before, j);
        var k: nat :| Introduces(fields[..n], before, j, k);
        StillIntroduces(fields, before, order, j, k);
      } else {
        LastIntroduces(fields, before);
      }
    }
  }

  // ----- the body

  lemma AttributesOf(fields: seq<Field>, inputs: Inputs)
    ensures Attributes(Map((s: Survivor) => NestedMeaning(s), WithValues(fields, inputs)), fields, inputs, false)
    ensures Attributes(Map((s: Survivor) => TopMeaning(s), WithValues(fields, inputs)), fields, inputs, true)
  {
    forall i | 0 <= i < |fields|
      ensures Denotes(fields[i], InputOrDefault(fields[i], inputs), false,
                      NestedMeaning(WithValues(fields, inputs)[i]).value)
      ensures Denotes(fields[i], InputOrDefault(fields[i], inputs), true,
                      TopMeaning(WithValues(fields, inputs)[i]).value)
    {
      MeaningDenotes(fields[i], InputOrDefault(fields[i], inputs));
    }
  }

  lemma ExpectedBlocksOf(schema: seq<Field>, inputs: Inputs)
    ensures BlocksOf(ExpectedBlocks(Nested(Survivors(schema, inputs))), schema, inputs)
  {
    var nested := Nested(Survivors(schema, inputs));
    var order := BlockOrder(nested);
    var blocks := ExpectedBlocks(nested);
    NestedSurvivors(schema, inputs);
    OrderIsFirstAppearance(NestedFields(schema, inputs), inputs);
    forall j | 0 <= j < |order|
      ensures blocks[j].Block? && blocks[j].name == order[j]
      ensures Attributes(blocks[j].attrs, FieldsOf(schema, inputs, order[j]), inputs, false)
    {
      BlockNameIsSome(schema, inputs, order, j);
      BlockSurvivors(schema, inputs, order[j]);
      AttributesOf(FieldsOf(schema, inputs, order[j]), inputs);
    }
    assert BlocksInOrder(blocks, order, schema, inputs);
  }

  lemma BlockNameIsSome(schema: seq<Field>, inputs: Inputs, order: seq<string>, j: nat)
    requires FirstAppearance(order, NestedFields(schema, inputs)) && j < |order|
    ensures order[j] != ""
  {
    var fields := NestedFields(schema, inputs);
    assert IsIntroduced(fields, order, j);
    var k: nat :| Introduces(fields, order, j, k);
    FilterMember((f: Field) => Wanted(f, inputs) && f.block != "", schema, fields[k]);
  }

  lemma WantedArePrintable(schema: seq<Field>, inputs: Inputs)
    requires forall f :: f in schema ==> PlainField(f, inputs)
    ensures forall s :: s in Survivors(schema, inputs) ==> Printable(s)
  {
    var ss, wanted := Survivors(schema, inputs), Filter((f: Field) => Wanted(f, inputs), schema);
    SurvivorsAreWanted(schema, inputs);
    forall s | s in ss ensures Printable(s) {
      var i :| 0 <= i < |wanted| && ss[i] == s;
      assert wanted[i] in wanted;
      FilterMember((f: Field) => Wanted(f, inputs), schema, wanted[i]);
    }
  }

  /** The whole body, for any schema and inputs: exactly the wanted fields, each with the value its
      input or else its default stands for, top-level ones in schema order, the add-ons object if it is
      switched on, then the blocks in order of first appearance with their fields in schema order. */
  lemma {:induction false} BodyExact(schema: seq<Field>, inputs: Inputs)
    requires forall f :: f in schema ==> PlainField(f, inputs)
    ensures var read := ReadBody(Unlines(Body(schema, inputs)));
            read.Some? && ReadsAs(read.value, schema, inputs)
  {
    var ss := Survivors(schema, inputs);
    WantedArePrintable(schema, inputs);
    BodyRoundTrip(schema, inputs);
    TopSurvivors(schema, inputs);
    SwitchExact(schema, inputs);
    AddonsObjectIs();
    ExpectedBlocksOf(schema, inputs);
    AttributesOf(TopFields(schema, inputs), inputs);
    MapOfMap((a: Attribute) => Attr(a), (s: Survivor) => TopMeaning(s), (s: Survivor) => Attr(TopMeaning(s)),
             TopLevel(ss));
    assert Consists(Expected(ss, PrintsAddons(schema, inputs)), Map((s: Survivor) => TopMeaning(s), TopLevel(ss)),
                    ExpectedBlocks(Nested(ss)), schema, inputs);
  }

  // ----- one field

  ghost predicate DistinctNames(schema: seq<Field>) {
    forall i, j :: 0 <= i < j < |schema| ==> schema[i].name != schema[j].name
  }

  /** The field's attribute stands where it belongs, with this value. */
  ghost predicate ReadAt(items: seq<Item>, f: Field, e: Expr) {
    if f.block == "" then Attr(Attribute(f.name, e)) in items
    else exists attrs :: Block(f.block, attrs) in items && Attribute(f.name, e) in attrs
  }

  lemma AttributeOfField(attrs: seq<Attribute>, fields: seq<Field>, inputs: Inputs, top: bool, schema: seq<Field>,
                         f: Field, e: Expr)
    requires Attributes(attrs, fields, inputs, top) && DistinctNames(schema)
    requires f in schema && forall g :: g in fields ==> g in schema
    ensures Attribute(f.name, e) in attrs ==> f in fields && Denotes(f, InputOrDefault(f, inputs), top, e)
    ensures f in fields ==> exists v :: Attribute(f.name, v) in attrs
  {
    if Attribute(f.name, e) in attrs {
      var i :| 0 <= i < |attrs| && attrs[i] == Attribute(f.name, e);
      assert fields[i] in fields;
      SameNameSameField(schema, f, fields[i]);
    }
    if f in fields {
      var i :| 0 <= i < |fields| && fields[i] == f;
      assert attrs[i] == Attribute(f.name, attrs[i].value);
    }
  }

  lemma SameNameSameField(schema: seq<Field>, f: Field, g: Field)
    requires DistinctNames(schema) && f in schema && g in schema && f.name == g.name
    ensures f == g
  {
    var i :| 0 <= i < |schema| && schema[i] == f;
    var j :| 0 <= j < |schema| && schema[j] == g;
  }

  /** The body's items without the split into parts. */
  lemma ItemKinds(items: seq<Item>, top: seq<Attribute>, blocks: seq<Item>, schema: seq<Field>, inputs: Inputs, i: Item)
    requires Consists(items, top, blocks, schema, inputs)
    ensures i in items
       <==> || (i.Attr? && i.attr in top)
            || (AddonsWanted(schema, inputs) && i == AddonsObject())
            || (i.Block? && i in blocks)
  {
    var attrs := Map((a: Attribute) => Attr(a), top);
    var order: seq<string> :| BlocksInOrder(blocks, order, schema, inputs);
    if i in attrs {
      var k :| 0 <= k < |attrs| && attrs[k] == i;
    }
    if i.Attr? && i.attr in top {
      var k :| 0 <= k < |top| && top[k] == i.attr;
      assert attrs[k] == i;
    }
    forall k | 0 <= k < |blocks| ensures blocks[k].Block? {
      assert blocks[k].name == order[k];
    }
  }

  lemma TopFieldRead(schema: seq<Field>, inputs: Inputs, f: Field, top: seq<Attribute>, blocks: seq<Item>,
                     items: seq<Item>, e: Expr)
    requires DistinctNames(schema) && f in schema && f.block == ""
    requires !(f.name == "cluster_addons" && AddonsWanted(schema, inputs))
    requires Consists(items, top, blocks, schema, inputs)
    ensures ReadAt(items, f, e) ==> Wanted(f, inputs) && Denotes(f, InputOrDefault(f, inputs), true, e)
    ensures Wanted(f, inputs) ==> exists v :: ReadAt(items, f, v)
  {
    var fields := TopFields(schema, inputs);
    forall g ensures g in fields <==> g in schema && Wanted(g, inputs) && g.block == "" {
      FilterMember((f: Field) => Wanted(f, inputs) && f.block == "", schema, g);
    }
    AttributeOfField(top, fields, inputs, true, schema, f, e);
    ItemKinds(items, top, blocks, schema, inputs, Attr(Attribute(f.name, e)));
    if Wanted(f, inputs) {
      var v :| Attribute(f.name, v) in top;
      ItemKinds(items, top, blocks, schema, inputs, Attr(Attribute(f.name, v)));
      assert ReadAt(items, f, v);
    }
  }

  lemma BlockAttributes(blocks: seq<Item>, order: seq<string>, schema: seq<Field>, inputs: Inputs, f: Field)
    requires BlocksInOrder(blocks, order, schema, inputs) && f.block != ""
    ensures forall attrs :: Block(f.block, attrs) in blocks ==>
              Attributes(attrs, FieldsOf(schema, inputs, f.block), inputs, false)
    ensures f in schema && Wanted(f, inputs) ==>
              exists attrs :: Block(f.block, attrs) in blocks
                && Attributes(attrs, FieldsOf(schema, inputs, f.block), inputs, false)
  {
    forall attrs | Block(f.block, attrs) in blocks
      ensures Attributes(attrs, FieldsOf(schema, inputs, f.block), inputs, false)
    {
      var j :| 0 <= j < |blocks| && blocks[j] == Block(f.block, attrs);
      assert order[j] == f.block;
    }
    if f in schema && Wanted(f, inputs) {
      var nested := NestedFields(schema, inputs);
      FilterMember((f: Field) => Wanted(f, inputs) && f.block != "", schema, f);
      var k :| 0 <= k < |nested| && nested[k] == f;
      assert nested[k].block in order;
      var j :| 0 <= j < |order| && order[j] == f.block;
      assert blocks[j] == Block(f.block, blocks[j].attrs);
      assert blocks[j] in blocks;
    }
  }

  lemma NestedFieldRead(schema: seq<Field>, inputs: Inputs, f: Field, top: seq<Attribute>, blocks: seq<Item>,
                        items: seq<Item>, e: Expr)
    requires DistinctNames(schema) && f in schema && f.block != ""
    requires Consists(items, top, blocks, schema, inputs)
    ensures ReadAt(items, f, e) ==> Wanted(f, inputs) && Denotes(f, InputOrDefault(f, inputs), false, e)
    ensures Wanted(f, inputs) ==> exists v :: ReadAt(items, f, v)
  {
    var order: seq<string> :| BlocksInOrder(blocks, order, schema, inputs);
    var fields, block := FieldsOf(schema, inputs, f.block), f.block;
    BlockAttributes(blocks, order, schema, inputs, f);
    forall g ensures g in fields <==> g in schema && Wanted(g, inputs) && g.block == block {
      FilterMember((f: Field) => Wanted(f, inputs) && f.block == block && block != "", schema, g);
    }
    if ReadAt(items, f, e) {
      var attrs :| Block(block, attrs) in items && Attribute(f.name, e) in attrs;
      ItemKinds(items, top, blocks, schema, inputs, Block(block, attrs));
      AttributeOfField(attrs, fields, inputs, false, schema, f, e);
    }
    if Wanted(f, inputs) {
      var attrs :| Block(block, attrs) in blocks && Attributes(attrs, fields, inputs, false);
      AttributeOfField(attrs, fields, inputs, false, schema, f, e);
      var v :| Attribute(f.name, v) in attrs;
      ItemKinds(items, top, blocks, schema, inputs, Block(block, attrs));
      assert ReadAt(items, f, v);
    }
  }

  lemma FieldRead(schema: seq<Field>, inputs: Inputs, f: Field, items: seq<Item>)
    requires DistinctNames(schema) && f in schema && ReadsAs(items, schema, inputs)
    requires !(f.name == "cluster_addons" && f.block == "" && AddonsWanted(schema, inputs))
    ensures (exists e :: ReadAt(items, f, e)) <==> Wanted(f, inputs)
    ensures forall e :: ReadAt(items, f, e) ==> Denotes(f, InputOrDefault(f, inputs), f.block == "", e)
  {
    var top: seq<Attribute>, blocks: seq<Item> :| Consists(items, top, blocks, schema, inputs);
    forall e
      ensures ReadAt(items, f, e) ==> Wanted(f, inputs) && Denotes(f, InputOrDefault(f, inputs), f.block == "", e)
      ensures Wanted(f, inputs) ==> exists v :: ReadAt(items, f, v)
    {
      if f.block == "" {
        TopFieldRead(schema, inputs, f, top, blocks, items, e);
      } else {
        NestedFieldRead(schema, inputs, f, top, blocks, items, e);
      }
    }
    if Wanted(f, inputs) {
      var any := EBool(true);
      assert ReadAt(items, f, any) || !ReadAt(items, f, any);
    }
  }

  /** With distinct field names, a field is read back if and only if it is wanted, and then with what its
      input or default stands for. Only the name of the add-ons object can be read twice. */
  lemma FieldReadBackExactly(schema: seq<Field>, inputs: Inputs, f: Field) returns (items: seq<Item>)
    requires (forall g :: g in schema ==> PlainField(g, inputs)) && DistinctNames(schema) && f in schema
    requires !(f.name == "cluster_addons" && f.block == "" && AddonsWanted(schema, inputs))
    ensures ReadBody(Unlines(Body(schema, inputs))) == Some(items)
    ensures (exists e :: ReadAt(items, f, e)) <==> Wanted(f, inputs)
    ensures forall e :: ReadAt(items, f, e) ==> Denotes(f, InputOrDefault(f, inputs), f.block == "", e)
  {
    BodyExact(schema, inputs);
    items := ReadBody(Unlines(Body(schema, inputs))).value;
    FieldRead(schema, inputs, f, items);
  }
}
