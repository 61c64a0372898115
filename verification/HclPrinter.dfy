/** The body of a generated module in backend/hcl_generator.go: schema fields printed as attributes,
    fields with a block name grouped into nested blocks. */
module HclPrinter {
  import opened Wrappers
  import opened Text
  import opened Values

  /** `QuotedT` is "select" and every type name the printer does not know. */
  datatype FieldType = BooleanT | StringT | QuotedT | MultilineT

  /** An empty block name means a top-level attribute, a `Null` default no default. */
  datatype Field = Field(name: string, kind: FieldType, default: Value, block: string, multi: bool)

  /** A field that is printed, with the value it is printed with. */
  datatype Survivor = Survivor(field: Field, value: Value)

  predicate Truth(v: Value) {
    match v
    case Bool(flag) => flag
    case Str(text) => text == "true"
    case _ => false
  }

  const LIST_SUFFIXES := ["_ids", "_cidrs", "_subnets", "_arns", "_types", "_names", "_exports"]

  predicate IsListField(f: Field) {
    f.multi || exists i :: 0 <= i < |LIST_SUFFIXES| && EndsWith(f.name, LIST_SUFFIXES[i])
  }

  function Quote(s: string): string {
    "\"" + s + "\""
  }

  /** The parts of a comma-separated text without the white space around them. */
  function TrimmedParts(s: string): seq<string> {
    Map((p: string) => Trim(p), Split(s, ','))
  }

  function NonEmptyParts(s: string): seq<string> {
    Filter((p: string) => p != "", TrimmedParts(s))
  }

  function ListText(items: seq<string>): string {
    "[" + Join(Map((p: string) => Quote(p), items), ", ") + "]"
  }

  function AttributeLine(name: string, expression: string): string {
    "  " + name + " = " + expression
  }

  function Indent(margin: string, lines: seq<string>): seq<string> {
    Map((l: string) => margin + l, lines)
  }

  function HeredocLines(name: string, text: string): seq<string> {
    [AttributeLine(name, "<<-EOT")] + Indent("    ", Split(text, '\n')) + ["  EOT"]
  }

  /** The lines of `formatHCLValue`. */
  function ValueLines(name: string, kind: FieldType, v: Value): seq<string> {
    match kind
    case BooleanT => [AttributeLine(name, if Truth(v) then "true" else "false")]
    case StringT =>
      if ',' in Show(v) then [AttributeLine(name, ListText(TrimmedParts(Show(v))))]
      else [AttributeLine(name, Quote(Show(v)))]
    case QuotedT => [AttributeLine(name, Quote(Show(v)))]
    case MultilineT =>
      if '\n' in Show(v) then HeredocLines(name, Show(v))
      else [AttributeLine(name, Quote(Show(v)))]
  }

  /** Of a top-level field; list fields of type string are always printed as lists. */
  function TopLines(s: Survivor): seq<string> {
    if s.field.kind == StringT && IsListField(s.field)
    then [AttributeLine(s.field.name, ListText(NonEmptyParts(Show(s.value))))]
    else ValueLines(s.field.name, s.field.kind, s.value)
  }

  /** The value a field has: its input, else its default. */
  function Given(f: Field, inputs: Inputs): Option<Value> {
    if f.name in inputs then Some(inputs[f.name]) else if f.default != Null then Some(f.default) else None
  }

  const ADDONS_SWITCH := "install_core_addons"

  /** The value a field is printed with, if it is printed: never the empty string and never the
      core add-ons switch. */
  function Survives(f: Field, inputs: Inputs): Option<Value> {
    var v := Given(f, inputs);
    if v.None? || f.name == ADDONS_SWITCH || v.value == Str("") then None else v
  }

  /** Whether the fields switch the core add-ons on. */
  predicate AddonsOn(schema: seq<Field>, inputs: Inputs) {
    if schema == [] then false
    else
      var f := schema[|schema| - 1];
      Switched(AddonsOn(schema[..|schema| - 1], inputs), if f.name == ADDONS_SWITCH then Given(f, inputs) else None)
  }

  predicate Switched(on: bool, v: Option<Value>) {
    match v
    case Some(Bool(flag)) => flag
    case Some(Str(text)) => on || text == "true"
    case _ => on
  }

  /** The add-ons are printed unless the inputs bring a map of add-ons of their own. */
  predicate PrintsAddons(schema: seq<Field>, inputs: Inputs) {
    AddonsOn(schema, inputs) && "cluster_addons" !in inputs
  }

  /** An add-on of the cluster and the spaces that align its line. */
  datatype Addon = Addon(name: string, pad: string)

  const COREDNS := Addon("coredns", "   ")
  const KUBE_PROXY := Addon("kube-proxy", "")
  const VPC_CNI := Addon("vpc-cni", "   ")

  function InlineObject(name: string, value: string): string {
    "{ " + (name + " = " + value) + " }"
  }

  function AddonLine(a: Addon): string {
    "    " + (a.name + a.pad + " = " + InlineObject("most_recent", "true"))
  }

  function AddonLines(addons: seq<Addon>): seq<string> {
    ["", "  cluster_addons = {"] + Map((a: Addon) => AddonLine(a), addons) + ["  }"]
  }

  function CoreAddons(): seq<Addon> {
    [COREDNS, KUBE_PROXY, VPC_CNI]
  }

  function Survivors(schema: seq<Field>, inputs: Inputs): seq<Survivor> {
    FlatMap((f: Field) => SurvivorOf(f, inputs), schema)
  }

  function TopLevel(ss: seq<Survivor>): seq<Survivor> {
    Filter((s: Survivor) => s.field.block == "", ss)
  }

  function Nested(ss: seq<Survivor>): seq<Survivor> {
    Filter((s: Survivor) => s.field.block != "", ss)
  }

  function InBlock(ss: seq<Survivor>, block: string): seq<Survivor> {
    Filter((s: Survivor) => s.field.block == block, ss)
  }

  /** Block names in order of first appearance. */
  function BlockOrder(ss: seq<Survivor>): seq<string> {
    if ss == [] then []
    else
      var before := BlockOrder(ss[..|ss| - 1]);
      var b := ss[|ss| - 1].field.block;
      if b in before then before else before + [b]
  }

  function TrimNewlines(s: string): string {
    if s != [] && s[|s| - 1] == '\n' then TrimNewlines(s[..|s| - 1]) else s
  }

  function Reindented(lines: seq<string>): seq<string> {
    Indent("  ", Split(TrimNewlines(Unlines(lines)), '\n'))
  }

  /** A nested field's text is cut into lines again and re-indented by two more spaces. */
  function NestedLines(s: Survivor): seq<string> {
    Reindented(ValueLines(s.field.name, s.field.kind, s.value))
  }

  function BlockLines(ss: seq<Survivor>, block: string): seq<string> {
    ["", "  " + block + " {"] + FlatMap((s: Survivor) => NestedLines(s), InBlock(ss, block)) + ["  }"]
  }

  function BodyLines(ss: seq<Survivor>, addons: bool): seq<string> {
    FlatMap((s: Survivor) => TopLines(s), TopLevel(ss))
    + (if addons then AddonLines(CoreAddons()) else [])
    + FlatMap((b: string) => BlockLines(Nested(ss), b), BlockOrder(Nested(ss)))
  }

  /** The body of the module generated for a schema and its inputs. */
  function Body(schema: seq<Field>, inputs: Inputs): seq<string> {
    BodyLines(Survivors(schema, inputs), PrintsAddons(schema, inputs))
  }

  // ----- the printer itself

  function QuotedPart(p: string, keepEmpty: bool): seq<string> {
    if keepEmpty || Trim(p) != "" then [Quote(Trim(p))] else []
  }

  lemma {:induction false} QuotedKept(trimmed: seq<string>)
    ensures FlatMap((p: string) => if p != "" then [Quote(p)] else [], trimmed)
         == Map((p: string) => Quote(p), Filter((p: string) => p != "", trimmed))
  {
    if trimmed == [] {
    } else {
      QuotedKept(trimmed[1..]);
      FilterStep((p: string) => p != "", trimmed[0], trimmed[1..]);
      assert [trimmed[0]] + trimmed[1..] == trimmed;
      var kept := Filter((p: string) => p != "", trimmed[1..]);
      assert Map((p: string) => Quote(p), [trimmed[0]] + kept)
          == [Quote(trimmed[0])] + Map((p: string) => Quote(p), kept);
    }
  }

  lemma AllQuoted(parts: seq<string>)
    ensures FlatMap((p: string) => QuotedPart(p, true), parts)
         == Map((p: string) => Quote(p), Map((p: string) => Trim(p), parts))
  {
    FlatMapOfOnes((p: string) => Quote(Trim(p)), (p: string) => QuotedPart(p, true), parts);
    MapOfMap((p: string) => Quote(p), (p: string) => Trim(p), (p: string) => Quote(Trim(p)), parts);
  }

  lemma KeptQuoted(parts: seq<string>)
    ensures FlatMap((p: string) => QuotedPart(p, false), parts)
         == Map((p: string) => Quote(p), Filter((p: string) => p != "", Map((p: string) => Trim(p), parts)))
  {
    var quote := (p: string) => if p != "" then [Quote(p)] else [];
    var part := (p: string) => QuotedPart(p, false);
    QuotedKept(Map((p: string) => Trim(p), parts));
    forall p | p in parts ensures quote(Trim(p)) == part(p) {
    }
    FlatMapOfMap(quote, (p: string) => Trim(p), part, parts);
  }

  method FormatParts(parts: seq<string>, keepEmpty: bool) returns (text: string)
    ensures var trimmed := Map((p: string) => Trim(p), parts);
            text == ListText(if keepEmpty then trimmed else Filter((p: string) => p != "", trimmed))
  {
    var quoted: seq<string> := [];
    for i := 0 to |parts|
      invariant quoted == FlatMap((p: string) => QuotedPart(p, keepEmpty), parts[..i])
    {
      FlatMapSnoc((p: string) => QuotedPart(p, keepEmpty), parts, i);
      var p := Trim(parts[i]);
      if keepEmpty || p != "" {
        quoted := quoted + [Quote(p)];
      }
    }
    assert parts[..|parts|] == parts;
    AllQuoted(parts);
    KeptQuoted(parts);
    assert quoted == FlatMap((p: string) => QuotedPart(p, if keepEmpty then true else false), parts);
    text := "[" + Join(quoted, ", ") + "]";
  }

  method FormatHclValue(name: string, kind: FieldType, v: Value) returns (text: string)
    ensures text == Unlines(ValueLines(name, kind, v))
  {
    match kind
    case BooleanT =>
      text := "  " + name + " = " + (if Truth(v) then "true" else "false") + "\n";
      UnlinesOne(AttributeLine(name, if Truth(v) then "true" else "false"));
    case StringT =>
      if ',' in Show(v) {
        var list := FormatParts(Split(Show(v), ','), true);
        text := "  " + name + " = " + list + "\n";
        UnlinesOne(AttributeLine(name, list));
      } else {
        text := "  " + name + " = \"" + Show(v) + "\"\n";
        UnlinesOne(AttributeLine(name, Quote(Show(v))));
        assert text == AttributeLine(name, Quote(Show(v))) + "\n";
      }
    case QuotedT =>
      text := "  " + name + " = \"" + Show(v) + "\"\n";
      UnlinesOne(AttributeLine(name, Quote(Show(v))));
      assert text == AttributeLine(name, Quote(Show(v))) + "\n";
    case MultilineT =>
      if '\n' in Show(v) {
        text := FormatHeredoc(name, Show(v));
      } else {
        text := "  " + name + " = \"" + Show(v) + "\"\n";
        UnlinesOne(AttributeLine(name, Quote(Show(v))));
        assert text == AttributeLine(name, Quote(Show(v))) + "\n";
      }
  }

  method FormatHeredoc(name: string, value: string) returns (text: string)
    ensures text == Unlines(HeredocLines(name, value))
  {
    var head := [AttributeLine(name, "<<-EOT")];
    var lines := Split(value, '\n');
    text := "  " + name + " = <<-EOT\n";
    UnlinesOne(AttributeLine(name, "<<-EOT"));
    assert text == AttributeLine(name, "<<-EOT") + "\n";
    assert head + Indent("    ", []) == head;
    for i := 0 to |lines|
      invariant text == Unlines(head + Indent("    ", lines[..i]))
    {
      assert lines[..i + 1] == lines[..i] + [lines[i]];
      MapConcat((l: string) => "    " + l, lines[..i], [lines[i]]);
      UnlinesConcat(head + Indent("    ", lines[..i]), ["    " + lines[i]]);
      UnlinesOne("    " + lines[i]);
      assert head + Indent("    ", lines[..i + 1]) == head + Indent("    ", lines[..i]) + ["    " + lines[i]];
      text := text + ("    " + lines[i] + "\n");
    }
    assert lines[..|lines|] == lines;
    UnlinesConcat(head + Indent("    ", lines), ["  EOT"]);
    UnlinesOne("  EOT");
    text := text + "  EOT\n";
  }

  // ----- the loops over the schema

  function SurvivorOf(f: Field, inputs: Inputs): seq<Survivor> {
    match Survives(f, inputs)
    case None => []
    case Some(v) => [Survivor(f, v)]
  }

  /** The text of the top-level fields, the fields left for blocks, and the add-ons switch. */
  method PrintTopLevel(schema: seq<Field>, inputs: Inputs)
    returns (text: string, nested: seq<Survivor>, addons: bool)
    ensures text == Unlines(FlatMap((s: Survivor) => TopLines(s), TopLevel(Survivors(schema, inputs))))
    ensures nested == Nested(Survivors(schema, inputs))
    ensures addons == AddonsOn(schema, inputs)
  {
    text := "";
    nested := [];
    addons := false;
    for k := 0 to |schema|
      invariant text == Unlines(FlatMap((s: Survivor) => TopLines(s), TopLevel(Survivors(schema[..k], inputs))))
      invariant nested == Nested(Survivors(schema[..k], inputs))
      invariant addons == AddonsOn(schema[..k], inputs)
    {
      var f := schema[k];
      assert schema[..k + 1][..k] == schema[..k];
      ghost var before := Survivors(schema[..k], inputs);
      FlatMapSnoc((f: Field) => SurvivorOf(f, inputs), schema, k);
      var v := Given(f, inputs);
      if f.name == ADDONS_SWITCH {
        addons := SwitchAddons(addons, v);
      }
      if v.None? || f.name == ADDONS_SWITCH || v.value == Str("") {
        assert before + [] == before;
        continue;
      }
      var s := Survivor(f, v.value);
      OneMore(before, s);
      if f.block != "" {
        nested := nested + [s];
      } else if f.kind == StringT && IsListField(f) {
        var list := FormatParts(Split(Show(v.value), ','), false);
        UnlinesOne(AttributeLine(f.name, list));
        text := text + ("  " + f.name + " = " + list + "\n");
      } else {
        var line := FormatHclValue(f.name, f.kind, v.value);
        text := text + line;
      }
    }
    assert schema[..|schema|] == schema;
  }

  method SwitchAddons(addons: bool, v: Option<Value>) returns (on: bool)
    ensures on == Switched(addons, v)
  {
    on := addons;
    if v.Some? {
      if v.value.Bool? {
        on := v.value.flag;
      } else if v.value == Str("true") {
        on := true;
      }
    }
  }

  /** A further survivor adds its lines at top level, or itself to the nested ones. */
  lemma OneMore(ss: seq<Survivor>, s: Survivor)
    ensures Nested(ss + [s]) == Nested(ss) + if s.field.block != "" then [s] else []
    ensures Unlines(FlatMap((s: Survivor) => TopLines(s), TopLevel(ss + [s])))
         == Unlines(FlatMap((s: Survivor) => TopLines(s), TopLevel(ss)))
            + if s.field.block == "" then Unlines(TopLines(s)) else ""
  {
    assert [s][1..] == [];
    FilterConcat((s: Survivor) => s.field.block != "", ss, [s]);
    var top := (s: Survivor) => TopLines(s);
    PrintedGrows([], (s: Survivor) => s.field.block == "", top, ss, s);
    assert [] + FlatMap(top, TopLevel(ss)) == FlatMap(top, TopLevel(ss));
    assert [] + FlatMap(top, TopLevel(ss + [s])) == FlatMap(top, TopLevel(ss + [s]));
  }

  lemma UnlinesMore<T>(head: seq<string>, lines: T -> seq<string>, xs: seq<T>, k: nat)
    requires k < |xs|
    ensures Unlines(head + FlatMap(lines, xs[..k + 1]))
         == Unlines(head + FlatMap(lines, xs[..k])) + Unlines(lines(xs[k]))
  {
    var before := FlatMap(lines, xs[..k]);
    FlatMapSnoc(lines, xs, k);
    UnlinesConcat(head + before, lines(xs[k]));
    assert head + (before + lines(xs[k])) == head + before + lines(xs[k]);
  }

  /** Printing the chosen ones of one more survivor after a head appends its lines if it is chosen. */
  lemma PrintedGrows(head: seq<string>, chosen: Survivor -> bool, lines: Survivor -> seq<string>,
                     ss: seq<Survivor>, s: Survivor)
    ensures Unlines(head + FlatMap(lines, Filter(chosen, ss + [s])))
         == Unlines(head + FlatMap(lines, Filter(chosen, ss))) + if chosen(s) then Unlines(lines(s)) else ""
  {
    FilterConcat(chosen, ss, [s]);
    assert [s][1..] == [];
    if chosen(s) {
      var all := Filter(chosen, ss) + [s];
      assert Filter(chosen, ss + [s]) == all;
      UnlinesMore(head, lines, all, |all| - 1);
      assert all[..|all| - 1 + 1] == all && all[..|all| - 1] == Filter(chosen, ss);
    } else {
      assert Filter(chosen, ss + [s]) == Filter(chosen, ss);
    }
  }

  method GatherBlocks(nested: seq<Survivor>) returns (order: seq<string>)
    ensures order == BlockOrder(nested)
  {
    order := [];
    var seen: set<string> := {};
    for k := 0 to |nested|
      invariant order == BlockOrder(nested[..k])
      invariant forall b :: b in seen <==> b in order
    {
      assert nested[..k + 1][..k] == nested[..k];
      var b := nested[k].field.block;
      if b !in seen {
        seen := seen + {b};
        order := order + [b];
      }
    }
    assert nested[..|nested|] == nested;
  }

  method PrintReindented(s: Survivor) returns (text: string)
    ensures text == Unlines(NestedLines(s))
  {
    var line := FormatHclValue(s.field.name, s.field.kind, s.value);
    var lines := Split(TrimNewlines(line), '\n');
    text := "";
    for i := 0 to |lines|
      invariant text == Unlines(Indent("  ", lines[..i]))
    {
      assert lines[..i + 1] == lines[..i] + [lines[i]];
      MapConcat((l: string) => "  " + l, lines[..i], [lines[i]]);
      UnlinesConcat(Indent("  ", lines[..i]), ["  " + lines[i]]);
      UnlinesOne("  " + lines[i]);
      assert Indent("  ", lines[..i + 1]) == Indent("  ", lines[..i]) + ["  " + lines[i]];
      text := text + ("  " + lines[i] + "\n");
    }
    assert lines[..|lines|] == lines;
  }

  lemma HeadText(header: string)
    ensures Unlines(["", header]) == "\n" + header + "\n"
  {
    UnlinesConcat([""], [header]);
    UnlinesOne("");
    UnlinesOne(header);
    assert ["", header] == [""] + [header] && "" + "\n" == "\n";
    ConcatAssociates("\n", header, "\n");
  }

  method PrintBlock(nested: seq<Survivor>, block: string) returns (text: string)
    ensures text == Unlines(BlockLines(nested, block))
  {
    var header := "  " + block + " {";
    ghost var head := ["", header];
    ghost var lines := (s: Survivor) => NestedLines(s);
    text := "\n" + header + "\n";
    HeadText(header);
    assert head + [] == head;
    for k := 0 to |nested|
      invariant text == Unlines(head + FlatMap(lines, InBlock(nested[..k], block)))
    {
      assert nested[..k + 1] == nested[..k] + [nested[k]];
      PrintedGrows(head, (s: Survivor) => s.field.block == block, lines, nested[..k], nested[k]);
      if nested[k].field.block == block {
        var more := PrintReindented(nested[k]);
        text := text + more;
      }
    }
    assert nested[..|nested|] == nested;
    UnlinesConcat(head + FlatMap(lines, InBlock(nested, block)), ["  }"]);
    UnlinesOne("  }");
    text := text + "  }\n";
  }

  method PrintAddons() returns (text: string)
    ensures text == Unlines(AddonLines(CoreAddons()))
  {
    text := "\n  cluster_addons = {\n";
    assert text == "" + "\n" + "  cluster_addons = {" + "\n";
    text := text + AddonLine(COREDNS) + "\n";
    text := text + AddonLine(KUBE_PROXY) + "\n";
    text := text + AddonLine(VPC_CNI) + "\n";
    text := text + "  }" + "\n";
    AddonText("", "  cluster_addons = {", COREDNS, KUBE_PROXY, VPC_CNI, "  }");
  }

  lemma AddonText(a: string, b: string, x: Addon, y: Addon, z: Addon, end: string)
    ensures Unlines([a, b] + Map((a: Addon) => AddonLine(a), [x, y, z]) + [end])
         == a + "\n" + b + "\n" + AddonLine(x) + "\n" + AddonLine(y) + "\n" + AddonLine(z) + "\n" + end + "\n"
  {
    assert Map((a: Addon) => AddonLine(a), [x, y, z]) == [AddonLine(x), AddonLine(y), AddonLine(z)];
    SixLines(a, b, AddonLine(x), AddonLine(y), AddonLine(z), end);
  }

  lemma SixLines(a: string, b: string, c: string, d: string, e: string, f: string)
    ensures Unlines([a, b] + [c, d, e] + [f])
         == a + "\n" + b + "\n" + c + "\n" + d + "\n" + e + "\n" + f + "\n"
  {
    LineAfter([], a);
    LineAfter([a], b);
    LineAfter([a, b], c);
    LineAfter([a, b, c], d);
    LineAfter([a, b, c, d], e);
    LineAfter([a, b, c, d, e], f);
    assert [] + [a] == [a] && [a] + [b] == [a, b] && [a, b] + [c] == [a, b, c];
    assert [a, b, c] + [d] == [a, b, c, d] && [a, b, c, d] + [e] == [a, b] + [c, d, e];
    assert [a, b, c, d, e] == [a, b] + [c, d, e];
  }

  lemma LineAfter(lines: seq<string>, line: string)
    ensures Unlines(lines + [line]) == Unlines(lines) + line + "\n"
  {
    UnlinesConcat(lines, [line]);
    UnlinesOne(line);
    ConcatAssociates(Unlines(lines), line, "\n");
  }

  /** The printed body: top-level fields in schema order, the core add-ons, then each block once. */
  method GenerateBody(schema: seq<Field>, inputs: Inputs) returns (text: string)
    ensures text == Unlines(Body(schema, inputs))
  {
    var nested, addonsOn;
    text, nested, addonsOn := PrintTopLevel(schema, inputs);
    ghost var head := FlatMap((s: Survivor) => TopLines(s), TopLevel(Survivors(schema, inputs)));
    if addonsOn && "cluster_addons" !in inputs {
      var addons := PrintAddons();
      UnlinesConcat(head, AddonLines(CoreAddons()));
      text := text + addons;
      head := head + AddonLines(CoreAddons());
    } else {
      assert head + [] == head;
    }
    assert head == FlatMap((s: Survivor) => TopLines(s), TopLevel(Survivors(schema, inputs)))
                   + (if PrintsAddons(schema, inputs) then AddonLines(CoreAddons()) else []);
    var order := GatherBlocks(nested);
    assert head + [] == head;
    ghost var lines := (b: string) => BlockLines(nested, b);
    for k := 0 to |order|
      invariant text == Unlines(head + FlatMap(lines, order[..k]))
    {
      var block := PrintBlock(nested, order[k]);
      UnlinesMore(head, lines, order, k);
      text := text + block;
    }
    assert order[..|order|] == order;
  }
}
