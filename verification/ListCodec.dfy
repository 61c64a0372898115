/** Multi-selects: frontend/src/components/AwsResourceSelect.js keeps a selection as comma-joined
    text, and backend/hcl_generator.go prints that text as a list. */
module ListCodec {
  import opened Wrappers
  import opened Text
  import opened Values
  import opened HclPrinter
  import opened HclReader
  import opened HclRoundTrip

  /** `selectedValues`: the non-empty trimmed parts, which is also how the generator cuts the text. */
  function SelectedValues(value: string): seq<string> {
    NonEmptyParts(value)
  }

  /** A JavaScript `Set` of the values keeps first occurrences in order. */
  function AsSet(values: seq<string>): seq<string> {
    if values == [] then []
    else
      var before := AsSet(values[..|values| - 1]);
      var last := values[|values| - 1];
      if last in before then before else before + [last]
  }

  function Without(values: seq<string>, id: string): seq<string> {
    Filter((v: string) => v != id, values)
  }

  function Toggled(selection: seq<string>, id: string): seq<string> {
    if id in selection then Without(selection, id) else selection + [id]
  }

  function ToggledText(value: string, id: string): string {
    Join(Toggled(AsSet(SelectedValues(value)), id), ",")
  }

  function RemovedText(value: string, id: string): string {
    Join(Without(SelectedValues(value), id), ",")
  }

  datatype Click = Toggle(id: string) | Remove(id: string)

  /** The text after some clicks on a selector that showed some text before. */
  function TextAfter(start: string, clicks: seq<Click>): string {
    if clicks == [] then start
    else
      var before := TextAfter(start, clicks[..|clicks| - 1]);
      match clicks[|clicks| - 1]
      case Toggle(id) => ToggledText(before, id)
      case Remove(id) => RemovedText(before, id)
  }

  /** The selection as a list, without any text. */
  function SelectionAfter(start: seq<string>, clicks: seq<Click>): seq<string> {
    if clicks == [] then start
    else
      var before := SelectionAfter(start, clicks[..|clicks| - 1]);
      match clicks[|clicks| - 1]
      case Toggle(id) => Toggled(AsSet(before), id)
      case Remove(id) => Without(before, id)
  }

  /** Whether an id is selected, from its first state and the clicks on it alone. */
  predicate IsSelected(start: seq<string>, clicks: seq<Click>, id: string) {
    if clicks == [] then id in start
    else
      var before := IsSelected(start, clicks[..|clicks| - 1], id);
      var last := clicks[|clicks| - 1];
      if last.id != id then before else last.Toggle? && !before
  }

  /** An id the joined text can carry. */
  predicate PlainId(id: string) {
    id != "" && Tight(id) && ',' !in id
  }

  /** One that also stands for itself between quotes. */
  predicate GoodId(id: string) {
    PlainId(id) && Literal(id)
  }

  ghost predicate PlainClicks(clicks: seq<Click>) {
    forall c :: c in clicks ==> PlainId(c.id)
  }

  /** The selector keeps text only; the clicks so far and the first text are remembered for proofs. */
  class MultiSelect {
    var value: string
    ghost var start: string
    ghost var clicks: seq<Click>

    ghost predicate Valid()
      reads this
    {
      value == TextAfter(start, clicks)
    }

    /** What the selector shows as selected. */
    function Selection(): seq<string>
      reads this
    {
      SelectedValues(value)
    }

    constructor (value: string)
      ensures this.value == value && start == value && clicks == []
      ensures Valid()
    {
      this.value := value;
      start, clicks := value, [];
    }

    /** A click on an id flips that id and no other, whatever the text was, and leaves no repeats;
        over all clicks the selection shown is the one the clicks make. */
    method ToggleItem(id: string)
      requires Valid()
      modifies this
      ensures Valid() && start == old(start) && clicks == old(clicks) + [Toggle(id)]
      ensures PlainId(id) ==> Distinct(Selection())
      ensures PlainId(id) ==>
                forall v :: v in Selection() <==> if v == id then id !in old(Selection()) else v in old(Selection())
      ensures PlainId(id) && Distinct(old(Selection())) ==>
                Selection() == if id in old(Selection()) then Without(old(Selection()), id) else old(Selection()) + [id]
      ensures PlainClicks(clicks) ==> Selection() == SelectionAfter(SelectedValues(start), clicks)
    {
      if PlainId(id) {
        ToggledTextReads(value, id);
      }
      var current := AsSet(SelectedValues(value));
      if id in current {
        current := Without(current, id);
      } else {
        current := current + [id];
      }
      value := Join(current, ",");
      clicks := clicks + [Toggle(id)];
      assert clicks[..|clicks| - 1] == old(clicks);
      if PlainClicks(clicks) {
        TextHoldsSelection(start, clicks);
      }
    }

    /** Removing an id takes out that id, keeps the others in their order, whatever the text was. */
    method RemoveItem(id: string)
      requires Valid()
      modifies this
      ensures Valid() && start == old(start) && clicks == old(clicks) + [Remove(id)]
      ensures Selection() == Without(old(Selection()), id) && id !in Selection()
      ensures forall v :: v in old(Selection()) && v != id ==> v in Selection()
      ensures PlainClicks(clicks) ==> Selection() == SelectionAfter(SelectedValues(start), clicks)
    {
      RemovedTextReads(value, id);
      value := Join(Without(SelectedValues(value), id), ",");
      clicks := clicks + [Remove(id)];
      assert clicks[..|clicks| - 1] == old(clicks);
      if PlainClicks(clicks) {
        TextHoldsSelection(start, clicks);
      }
    }
  }

  // ----- text and list agree

  lemma {:induction false} TrimAll(ids: seq<string>)
    requires forall id :: id in ids ==> PlainId(id)
    ensures Filter((p: string) => p != "", Map((p: string) => Trim(p), ids)) == ids
  {
    if ids == [] {
    } else {
      assert ids[0] in ids;
      TrimOfTight(ids[0]);
      TrimAll(ids[1..]);
      assert Map((p: string) => Trim(p), ids)[1..] == Map((p: string) => Trim(p), ids[1..]);
    }
  }

  /** Parsing the joined text gives back the ids. */
  lemma {:induction false} JoinThenParse(ids: seq<string>)
    requires forall id :: id in ids ==> PlainId(id)
    ensures SelectedValues(Join(ids, ",")) == ids
  {
    if ids == [] {
      assert Split("", ',') == [""] && TrimmedParts("") == [""];
      assert [""][1..] == [];
    } else {
      SplitJoin(ids, ',');
      TrimAll(ids);
    }
  }

  /** Whatever the text, the ids read from it are plain. */
  lemma PartsArePlain(value: string)
    ensures forall v :: v in SelectedValues(value) ==> PlainId(v)
  {
    SplitFree(value, ',');
    var parts := Split(value, ',');
    forall v | v in SelectedValues(value) ensures PlainId(v) {
      FilterMember((p: string) => p != "", TrimmedParts(value), v);
      var i :| 0 <= i < |parts| && TrimmedParts(value)[i] == v;
      assert parts[i] in parts;
      TrimIsTight(parts[i]);
    }
  }

  lemma {:induction false} AsSetExact(values: seq<string>)
    ensures Distinct(AsSet(values))
    ensures forall v :: v in AsSet(values) <==> v in values
  {
    if values == [] {
    } else {
      var n := |values| - 1;
      AsSetExact(values[..n]);
      assert values == values[..n] + [values[n]];
    }
  }

  lemma {:induction false} SetOfDistinct(values: seq<string>)
    requires Distinct(values)
    ensures AsSet(values) == values
  {
    if values == [] {
    } else {
      var n := |values| - 1;
      SetOfDistinct(values[..n]);
      assert values == values[..n] + [values[n]];
    }
  }

  lemma {:induction false} WithoutExact(values: seq<string>, id: string)
    ensures forall v :: v in Without(values, id) <==> v in values && v != id
    ensures Distinct(values) ==> Distinct(Without(values, id))
  {
    if values == [] {
    } else {
      WithoutExact(values[1..], id);
      assert forall v :: v in values <==> v == values[0] || v in values[1..];
      var rest := Without(values[1..], id);
      if values[0] != id {
        assert Without(values, id) == [values[0]] + rest;
      } else {
        assert Without(values, id) == rest;
      }
      if Distinct(values) {
        assert values[0] !in values[1..];
      }
    }
  }

  lemma ToggledExact(values: seq<string>, id: string)
    ensures Distinct(Toggled(AsSet(values), id))
    ensures forall v :: v in Toggled(AsSet(values), id) <==> if v == id then id !in values else v in values
  {
    AsSetExact(values);
    WithoutExact(AsSet(values), id);
  }

  /** Parsing the text after a toggle gives the toggled selection, whatever the text was before. */
  lemma ToggledTextReads(value: string, id: string)
    requires PlainId(id)
    ensures SelectedValues(ToggledText(value, id)) == Toggled(AsSet(SelectedValues(value)), id)
    ensures Distinct(SelectedValues(ToggledText(value, id)))
    ensures forall v :: v in SelectedValues(ToggledText(value, id))
                   <==> if v == id then id !in SelectedValues(value) else v in SelectedValues(value)
    ensures Distinct(SelectedValues(value)) ==>
              SelectedValues(ToggledText(value, id))
              == if id in SelectedValues(value) then Without(SelectedValues(value), id)
                 else SelectedValues(value) + [id]
  {
    if Distinct(SelectedValues(value)) {
      SetOfDistinct(SelectedValues(value));
    }
    PartsArePlain(value);
    ToggledExact(SelectedValues(value), id);
    JoinThenParse(Toggled(AsSet(SelectedValues(value)), id));
  }

  lemma RemovedTextReads(value: string, id: string)
    ensures SelectedValues(RemovedText(value, id)) == Without(SelectedValues(value), id)
    ensures forall v :: v in SelectedValues(RemovedText(value, id)) <==> v in SelectedValues(value) && v != id
  {
    PartsArePlain(value);
    WithoutExact(SelectedValues(value), id);
    JoinThenParse(Without(SelectedValues(value), id));
  }

  /** The list holds exactly the ids whose own clicks say so, and a list without repeats keeps none. */
  lemma {:induction false} SelectionExact(start: seq<string>, clicks: seq<Click>)
    ensures forall id :: id in SelectionAfter(start, clicks) <==> IsSelected(start, clicks, id)
    ensures Distinct(start) ==> Distinct(SelectionAfter(start, clicks))
  {
    if clicks == [] {
    } else {
      var n := |clicks| - 1;
      SelectionExact(start, clicks[..n]);
      var before := SelectionAfter(start, clicks[..n]);
      ToggledExact(before, clicks[n].id);
      WithoutExact(before, clicks[n].id);
    }
  }

  lemma {:induction false} SelectedIdsAreGood(clicks: seq<Click>, good: string -> bool)
    requires forall c :: c in clicks ==> good(c.id)
    ensures forall id :: id in SelectionAfter([], clicks) ==> good(id)
  {
    if clicks == [] {
    } else {
      var n := |clicks| - 1;
      assert clicks[n] in clicks;
      SelectedIdsAreGood(clicks[..n], good);
      var before := SelectionAfter([], clicks[..n]);
      ToggledExact(before, clicks[n].id);
      WithoutExact(before, clicks[n].id);
    }
  }

  /** Whatever text came first, after any clicks parsing the text gives the selection, and after the
      first click the text is the joined selection. */
  lemma {:induction false} TextHoldsSelection(start: string, clicks: seq<Click>)
    requires PlainClicks(clicks)
    ensures SelectedValues(TextAfter(start, clicks)) == SelectionAfter(SelectedValues(start), clicks)
    ensures clicks != [] ==> TextAfter(start, clicks) == Join(SelectionAfter(SelectedValues(start), clicks), ",")
  {
    if clicks == [] {
    } else {
      var n := |clicks| - 1;
      assert clicks[n] in clicks;
      TextHoldsSelection(start, clicks[..n]);
      var before := TextAfter(start, clicks[..n]);
      match clicks[n]
      case Toggle(id) => ToggledTextReads(before, id);
      case Remove(id) => RemovedTextReads(before, id);
    }
  }

  // ----- what the generator makes of the text

  lemma NothingSelected()
    ensures SelectedValues("") == []
  {
    assert Split("", ',') == [""] && TrimmedParts("") == [""];
    assert [""][1..] == [];
  }

  lemma CommaInJoin(ids: seq<string>)
    requires forall id :: id in ids ==> PlainId(id)
    ensures ',' in Join(ids, ",") <==> |ids| > 1
    ensures Join(ids, ",") == "" <==> ids == []
  {
    if |ids| >= 1 {
      assert ids[0] in ids;
    }
    if |ids| > 1 {
      assert Join(ids, ",")[|ids[0]|] == ',';
    }
  }

  lemma TrimmedIds(ids: seq<string>)
    requires forall id :: id in ids ==> PlainId(id)
    ensures Map((p: string) => Trim(p), ids) == ids
  {
    forall i | 0 <= i < |ids| ensures Trim(ids[i]) == ids[i] {
      assert ids[i] in ids;
      TrimOfTight(ids[i]);
    }
  }

  /** The line of a field in a block: `isListField` is not asked there, so one id alone is no list. */
  function SelectionText(nested: bool, selection: seq<string>): string
    requires selection != []
  {
    if nested && |selection| == 1 then Quote(selection[0]) else ListText(selection)
  }

  lemma JoinedParts(ids: seq<string>)
    requires ids != [] && forall id :: id in ids ==> PlainId(id)
    ensures NonEmptyParts(Join(ids, ",")) == ids
    ensures if |ids| == 1 then Join(ids, ",") == ids[0] && ',' !in ids[0]
            else ',' in Join(ids, ",") && TrimmedParts(Join(ids, ",")) == ids
  {
    JoinThenParse(ids);
    CommaInJoin(ids);
    if |ids| > 1 {
      SplitJoin(ids, ',');
      TrimmedIds(ids);
    }
  }

  lemma FieldLines(ids: seq<string>, f: Field)
    requires ids != [] && forall id :: id in ids ==> PlainId(id)
    requires f.kind == StringT && IsListField(f)
    ensures var s := Survivor(f, Str(Join(ids, ",")));
            && TopLines(s) == [AttributeLine(f.name, SelectionText(false, ids))]
            && ValueLines(f.name, f.kind, s.value) == [AttributeLine(f.name, SelectionText(true, ids))]
  {
    JoinedParts(ids);
  }

  lemma OneFieldBody(s: Survivor)
    ensures BodyLines([s], false)
         == if s.field.block == "" then TopLines(s) else BlockLines([s], s.field.block)
    ensures BlockLines([s], s.field.block) == ["", "  " + s.field.block + " {"] + NestedLines(s) + ["  }"]
  {
    var top, lines := (s: Survivor) => TopLines(s), (s: Survivor) => NestedLines(s);
    OneSurvivor(s);
    FlatMapOne(top, s);
    FlatMapOne(lines, s);
    if s.field.block == "" {
      assert BlockOrder(Nested([s])) == [];
      assert TopLines(s) + [] + [] == TopLines(s);
    } else {
      FlatMapOne((b: string) => BlockLines([s], b), s.field.block);
      assert [] + [] + BlockLines([s], s.field.block) == BlockLines([s], s.field.block);
    }
  }

  /** One list field that holds the text of some clicks survives with that text if anything is selected. */
  lemma SelectionSurvives(clicks: seq<Click>, f: Field)
    requires PlainClicks(clicks) && f.name != ADDONS_SWITCH
    ensures var inputs := map[f.name := Str(TextAfter("", clicks))];
            var selection := SelectionAfter([], clicks);
            && TextAfter("", clicks) == Join(selection, ",")
            && Survivors([f], inputs) == (if selection == [] then [] else [Survivor(f, Str(Join(selection, ",")))])
            && !PrintsAddons([f], inputs)
  {
    var inputs := map[f.name := Str(TextAfter("", clicks))];
    NothingSelected();
    TextHoldsSelection("", clicks);
    SelectedIdsAreGood(clicks, (id: string) => PlainId(id));
    CommaInJoin(SelectionAfter([], clicks));
    FlatMapOne((f: Field) => SurvivorOf(f, inputs), f);
    assert TextAfter("", clicks) == Join(SelectionAfter([], clicks), ",");
    assert [f][..0] == [] && !AddonsOn([], inputs);
    assert !AddonsOn([f], inputs);
    assert SurvivorOf(f, inputs)
        == if TextAfter("", clicks) == "" then [] else [Survivor(f, Str(TextAfter("", clicks)))];
  }

  /** What the generator prints of a list field holding the text: nothing when nothing is selected,
      else one line with exactly the selected ids in their order, in the field's block if it has one.
      The line is a list, except that in a block one id alone is a quoted string. */
  lemma {:induction false} PrintedSelection(clicks: seq<Click>, f: Field)
    requires PlainClicks(clicks)
    requires f.kind == StringT && IsListField(f) && f.name != ADDONS_SWITCH
    ensures var selection := SelectionAfter([], clicks);
            Body([f], map[f.name := Str(TextAfter("", clicks))])
            == if selection == [] then []
               else if f.block == "" then [AttributeLine(f.name, ListText(selection))]
               else ["", "  " + f.block + " {"]
                    + Reindented([AttributeLine(f.name, SelectionText(true, selection))])
                    + ["  }"]
  {
    var selection := SelectionAfter([], clicks);
    SelectionSurvives(clicks, f);
    if selection == [] {
      assert BodyLines([], false) == [];
    } else {
      SelectedIdsAreGood(clicks, (id: string) => PlainId(id));
      FieldLines(selection, f);
      OneFieldBody(Survivor(f, Str(Join(selection, ","))));
    }
  }

  predicate ReadableField(f: Field) {
    && f.kind == StringT && IsListField(f) && f.name != ADDONS_SWITCH
    && IsName(f.name) && (f.block == "" || IsName(f.block))
  }

  function SelectionMeaning(nested: bool, selection: seq<string>): Expr
    requires selection != []
  {
    if nested && |selection| == 1 then EStr(selection[0]) else EList(selection)
  }

  lemma FieldMeaning(ids: seq<string>, f: Field)
    requires ids != [] && (forall id :: id in ids ==> PlainId(id)) && f.kind == StringT && IsListField(f)
    ensures TopMeaning(Survivor(f, Str(Join(ids, ",")))) == Attribute(f.name, EList(ids))
    ensures NestedMeaning(Survivor(f, Str(Join(ids, ",")))) == Attribute(f.name, SelectionMeaning(true, ids))
  {
    var text := Join(ids, ",");
    JoinedParts(ids);
    assert Show(Str(text)) == text;
    assert Meaning(StringT, Str(text)) == if ',' in text then EList(TrimmedParts(text)) else EStr(text);
  }

  /** What is printed reads back, at top level or in a block, as the selection: as nothing when it is
      empty and as a list otherwise, except for one id alone in a block. */
  lemma {:induction false} PrintedSelectionReadsBack(clicks: seq<Click>, f: Field)
    requires (forall c :: c in clicks ==> GoodId(c.id)) && ReadableField(f)
    ensures var selection := SelectionAfter([], clicks);
            ReadBody(Unlines(Body([f], map[f.name := Str(TextAfter("", clicks))])))
            == Some(if selection == [] then []
                    else OneField(f, SelectionMeaning(f.block != "", selection)))
  {
    var selection := SelectionAfter([], clicks);
    var inputs := map[f.name := Str(TextAfter("", clicks))];
    SelectionSurvives(clicks, f);
    SelectedIdsAreGood(clicks, (id: string) => GoodId(id));
    if selection == [] {
      BodyRoundTrip([f], inputs);
      assert Expected([], false) == [];
    } else {
      var s := Survivor(f, Str(Join(selection, ",")));
      LiteralJoin(selection);
      BodyRoundTrip([f], inputs);
      OneFieldExpected(s);
      FieldMeaning(selection, f);
    }
  }

  /** So the list is recovered if and only if the field is at top level or the selection does not
      consist of one id. */
  lemma {:induction false} ListRecoveredExactly(clicks: seq<Click>, f: Field)
    requires (forall c :: c in clicks ==> GoodId(c.id)) && ReadableField(f)
    ensures var selection := SelectionAfter([], clicks);
            ReadBody(Unlines(Body([f], map[f.name := Str(TextAfter("", clicks))])))
            == Some(if selection == [] then [] else OneField(f, EList(selection)))
            <==> f.block == "" || |selection| != 1
  {
    PrintedSelectionReadsBack(clicks, f);
  }

  /** A multi-select of subnets in a block, one subnet chosen: a string where a list is due. */
  lemma OneIdInBlockIsNoList()
    ensures var f := Field("subnet_ids", StringT, Null, "vpc_config", true);
            ReadBody(Unlines(Body([f], map["subnet_ids" := Str(TextAfter("", [Toggle("a")]))])))
            == Some([Block("vpc_config", [Attribute("subnet_ids", EStr("a"))])])
  {
    var f := Field("subnet_ids", StringT, Null, "vpc_config", true);
    var clicks := [Toggle("a")];
    assert clicks[..0] == [];
    assert SelectionAfter([], clicks) == ["a"];
    PrintedSelectionReadsBack(clicks, f);
  }

  lemma {:induction false} LiteralJoin(ids: seq<string>)
    requires forall id :: id in ids ==> GoodId(id)
    ensures Literal(Join(ids, ","))
  {
    if |ids| == 1 {
      assert ids[0] in ids;
    } else if |ids| > 1 {
      assert ids[0] in ids;
      LiteralJoin(ids[1..]);
      var a, rest := ids[0], Join(ids[1..], ",");
      var s := a + "," + rest;
      forall i | 0 <= i < |s| - 1 ensures !(s[i] in "$%" && s[i + 1] == '{') {
        if i + 1 < |a| {
          assert s[i] == a[i] && s[i + 1] == a[i + 1];
        } else if i > |a| {
          assert s[i] == rest[i - |a| - 1] && s[i + 1] == rest[i - |a|];
        }
      }
    }
  }
}
