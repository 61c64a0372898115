/** Reading a printed module body back gives every surviving field, with its value, in its place. */
module HclRoundTrip {
  import opened Wrappers
  import opened Text
  import opened Values
  import opened HclPrinter
  import opened HclReader

  // ----- what a printed field means

  /** A multi-line value without its common indentation, every line ended. */
  function Dedented(text: string): string {
    Flush(Split(text, '\n'))
  }

  function Meaning(kind: FieldType, v: Value): Expr {
    match kind
    case BooleanT => EBool(Truth(v))
    case StringT => if ',' in Show(v) then EList(TrimmedParts(Show(v))) else EStr(Show(v))
    case QuotedT => EStr(Show(v))
    case MultilineT => if '\n' in Show(v) then EStr(Dedented(Show(v))) else EStr(Show(v))
  }

  function TopMeaning(s: Survivor): Attribute {
    Attribute(s.field.name,
              if s.field.kind == StringT && IsListField(s.field) then EList(NonEmptyParts(Show(s.value)))
              else Meaning(s.field.kind, s.value))
  }

  function NestedMeaning(s: Survivor): Attribute {
    Attribute(s.field.name, Meaning(s.field.kind, s.value))
  }

  function AddonMeaning(a: Addon): Attribute {
    Attribute(a.name, EObject([Attribute("most_recent", EBool(true))]))
  }

  /** The add-ons as one object. */
  function AddonsMeaning(addons: seq<Addon>): Attribute {
    Attribute("cluster_addons", EObject(Map((a: Addon) => AddonMeaning(a), addons)))
  }

  /** Every block once with its fields in order. */
  function ExpectedBlocks(nested: seq<Survivor>): seq<Item> {
    Map((b: string) => Block(b, Map((s: Survivor) => NestedMeaning(s), InBlock(nested, b))), BlockOrder(nested))
  }

  /** Top-level fields in order, the add-ons if they are switched on, then the blocks. */
  function Expected(ss: seq<Survivor>, addons: bool): seq<Item> {
    Map((s: Survivor) => Attr(TopMeaning(s)), TopLevel(ss))
    + (if addons then [Attr(AddonsMeaning(CoreAddons()))] else [])
    + ExpectedBlocks(Nested(ss))
  }

  /** The printer does not escape: quoted text must stand for itself, and no line of a heredoc may
      be the end marker or start a template. */
  predicate PrintableValue(kind: FieldType, v: Value) {
    if kind == BooleanT then true
    else if kind == MultilineT && '\n' in Show(v) then
      forall l :: l in Split(Show(v), '\n') ==> Trim(l) != "EOT" && !HasMarker(l)
    else Literal(Show(v))
  }

  predicate Printable(s: Survivor) {
    && IsName(s.field.name) && (s.field.block == "" || IsName(s.field.block))
    && PrintableValue(s.field.kind, s.value)
  }

  // ----- words

  lemma {:induction false} SplitAssignAt(name: string, value: string)
    requires '=' !in name
    ensures SplitAssign(name + " = " + value) == Some((name, value))
  {
    var s := name + " = " + value;
    if name == "" {
      assert s == " = " + value;
    } else {
      SplitAssignAt(name[1..], value);
      assert s[1..] == name[1..] + " = " + value;
      assert s[0] == name[0] && s[1] != '=' && !(" = " <= s);
      assert name == [name[0]] + name[1..];
    }
  }

  predicate AllSpaces(m: string) {
    forall i :: 0 <= i < |m| ==> m[i] == ' '
  }

  lemma {:induction false} SpacesAfter(m: string, s: string)
    requires AllSpaces(m)
    ensures Spaces(m + s) == |m| + Spaces(s)
  {
    if m == "" {
      assert m + s == s;
    } else {
      assert (m + s)[1..] == m[1..] + s;
      SpacesAfter(m[1..], s);
    }
  }

  lemma SkipMargin(m: string, s: string)
    requires AllSpaces(m) && (s == "" || s[0] != ' ')
    ensures SkipSpaces(m + s) == s
  {
    SpacesAfter(m, s);
  }

  lemma LiteralTail(s: string)
    requires s != "" && Literal(s)
    ensures Literal(s[1..])
    ensures s[0] != '"' && s[0] != '\\' && s[0] != '\n'
    ensures !("${" <= s) && !("%{" <= s) && !("$${" <= s) && !("%%{" <= s)
  {
    LiteralSlice(s, 1, |s|);
    assert |s| >= 2 ==> !(s[0] in "$%" && s[1] == '{');
    assert |s| >= 3 ==> !(s[1] in "$%" && s[2] == '{');
  }

  lemma {:induction false} DecodeLiteral(s: string)
    requires Literal(s)
    ensures Decode(s) == Some(s)
  {
    if s == "" {
    } else {
      LiteralTail(s);
      DecodeLiteral(s[1..]);
      assert [s[0]] + s[1..] == s;
    }
  }

  lemma ReadQuoted(s: string)
    requires Literal(s)
    ensures Unquote(Quote(s)) == Some(s) && ReadExpr(Quote(s)) == Some(EStr(s))
  {
    DecodeLiteral(s);
    assert Quote(s)[1..|Quote(s)| - 1] == s;
    assert Quote(s)[0] == '"' && "true"[0] == 't' && "false"[0] == 'f';
  }

  // ----- lists

  lemma CommaInside(lead: string, first: string, rest: string)
    ensures lead + (first + ", " + rest) == (lead + first) + [','] + (" " + rest)
  {
  }

  /** The cells of a comma-and-space list: all but the first start with the space. */
  lemma {:induction false} SplitQuoted(lead: string, items: seq<string>)
    requires items != [] && ',' !in lead
    requires forall p :: p in items ==> ',' !in p
    ensures Split(lead + Join(Map((p: string) => Quote(p), items), ", "), ',')
         == [lead + Quote(items[0])] + Map((p: string) => " " + Quote(p), items[1..])
    decreases |items|
  {
    var quoted := Map((p: string) => Quote(p), items);
    assert items[0] in items && ',' !in Quote(items[0]);
    if |items| == 1 {
      SplitWhole(lead + Quote(items[0]), ',');
    } else {
      var rest := Map((p: string) => Quote(p), items[1..]);
      assert quoted[1..] == rest;
      assert Join(quoted, ", ") == quoted[0] + ", " + Join(rest, ", ");
      CommaInside(lead, Quote(items[0]), Join(rest, ", "));
      SplitConcat(lead + Quote(items[0]), ',', " " + Join(rest, ", "));
      SplitWhole(lead + Quote(items[0]), ',');
      SplitQuoted(" ", items[1..]);
      assert Map((p: string) => " " + Quote(p), items[1..])
          == [" " + Quote(items[1])] + Map((p: string) => " " + Quote(p), items[1..][1..]);
    }
  }

  lemma TrimQuoted(lead: string, s: string)
    requires lead == "" || lead == " "
    ensures Trim(lead + Quote(s)) == Quote(s)
  {
    assert TrimLeft(Quote(s)) == Quote(s);
    if lead == " " {
      assert (lead + Quote(s))[1..] == Quote(s);
    } else {
      assert lead + Quote(s) == Quote(s);
    }
    TrimOfTight(Quote(s));
  }

  lemma {:induction false} UnquoteCells(items: seq<string>)
    requires forall p :: p in items ==> Literal(p)
    ensures UnquoteAll(Map((p: string) => " " + Quote(p), items)) == Some(items)
  {
    if items == [] {
    } else {
      assert items[0] in items;
      TrimQuoted(" ", items[0]);
      ReadQuoted(items[0]);
      UnquoteCells(items[1..]);
      assert Map((p: string) => " " + Quote(p), items)[1..] == Map((p: string) => " " + Quote(p), items[1..]);
      assert [items[0]] + items[1..] == items;
    }
  }

  lemma UnquoteList(items: seq<string>)
    requires items != []
    requires forall p :: p in items ==> Literal(p) && ',' !in p
    ensures var inner := Join(Map((p: string) => Quote(p), items), ", ");
            inner != "" && ReadList(inner) == Some(items)
  {
    var quoted := Map((p: string) => Quote(p), items);
    var inner := Join(quoted, ", ");
    assert items[0] in items;
    assert |quoted[0]| >= 2;
    SplitQuoted("", items);
    assert "" + inner == inner && "" + Quote(items[0]) == Quote(items[0]);
    var cells := [Quote(items[0])] + Map((p: string) => " " + Quote(p), items[1..]);
    TrimQuoted("", items[0]);
    ReadQuoted(items[0]);
    UnquoteCells(items[1..]);
    assert cells[1..] == Map((p: string) => " " + Quote(p), items[1..]);
    assert [items[0]] + items[1..] == items;
  }

  lemma ReadListText(items: seq<string>)
    requires forall p :: p in items ==> Literal(p) && ',' !in p
    ensures ReadExpr(ListText(items)) == Some(EList(items))
  {
    var inner := Join(Map((p: string) => Quote(p), items), ", ");
    var s := ListText(items);
    assert s[0] == '[' && s[|s| - 1] == ']' && s[1..|s| - 1] == inner;
    assert "true"[0] == 't' && "false"[0] == 'f';
    if items != [] {
      UnquoteList(items);
    }
  }

  lemma LiteralSlice(s: string, a: nat, b: nat)
    requires Literal(s) && a <= b <= |s|
    ensures Literal(s[a..b])
  {
    var t := s[a..b];
    forall i | 0 <= i < |t| - 1 ensures !(t[i] in "$%" && t[i + 1] == '{') {
      assert t[i] == s[a + i] && t[i + 1] == s[a + i + 1];
    }
  }

  lemma {:induction false} LiteralParts(s: string, c: char)
    requires Literal(s)
    ensures forall p :: p in Split(s, c) ==> Literal(p)
  {
    if s == "" {
    } else {
      var t := s[1..];
      LiteralSlice(s, 1, |s|);
      LiteralParts(t, c);
      var first := Split(t, c)[0];
      FirstPartIsPrefix(t, c);
      LiteralSlice(s, 0, 1 + |first|);
      assert s[0..1 + |first|] == [s[0]] + first;
      LiteralSlice(s, 0, 0);
    }
  }

  lemma {:induction false} FirstPartIsPrefix(s: string, c: char)
    ensures Split(s, c)[0] <= s
  {
    if s != "" && s[0] != c {
      FirstPartIsPrefix(s[1..], c);
    }
  }

  lemma LiteralTrim(s: string)
    requires Literal(s)
    ensures Literal(Trim(s))
  {
    var l := TrimLeft(s);
    TrimLeftTight(s);
    TrimRightTight(l);
    var k := |s| - |l|;
    LiteralSlice(s, k, k + |Trim(s)|);
    assert s[k..k + |Trim(s)|] == Trim(s);
  }

  lemma PartsAreItems(s: string)
    requires Literal(s)
    ensures forall p :: p in TrimmedParts(s) ==> Literal(p) && ',' !in p
    ensures forall p :: p in NonEmptyParts(s) ==> Literal(p) && ',' !in p
  {
    LiteralParts(s, ',');
    SplitFree(s, ',');
    var parts := Split(s, ',');
    forall p | p in TrimmedParts(s) ensures Literal(p) && ',' !in p {
      var i :| 0 <= i < |parts| && TrimmedParts(s)[i] == p;
      assert parts[i] in parts;
      LiteralTrim(parts[i]);
      TrimIsTight(parts[i]);
    }
    forall p | p in NonEmptyParts(s) ensures Literal(p) && ',' !in p {
      FilterMember((p: string) => p != "", TrimmedParts(s), p);
    }
  }

  // ----- heredocs

  lemma {:induction false} MarginOfIndented(m: string, lines: seq<string>)
    requires AllSpaces(m) && lines != []
    ensures Margin(Indent(m, lines)) == |m| + Margin(lines)
  {
    SpacesAfter(m, lines[0]);
    if |lines| > 1 {
      MarginOfIndented(m, lines[1..]);
      assert Indent(m, lines)[1..] == Indent(m, lines[1..]);
    }
  }

  /** Indenting all lines alike does not change what a flush heredoc reads. */
  lemma FlushOfIndented(m: string, lines: seq<string>)
    requires AllSpaces(m) && lines != []
    ensures Flush(Indent(m, lines)) == Flush(lines)
  {
    MarginOfIndented(m, lines);
    var n := Margin(lines);
    DropIndented(m, n, lines);
  }

  lemma DropIndented(m: string, n: nat, lines: seq<string>)
    ensures DropEach(|m| + n, Indent(m, lines)) == DropEach(n, lines)
  {
    var a, b := DropEach(|m| + n, Indent(m, lines)), DropEach(n, lines);
    forall i | 0 <= i < |lines| ensures a[i] == b[i] {
      if n <= |lines[i]| {
        assert (m + lines[i])[|m| + n..] == lines[i][n..];
      }
    }
  }

  lemma {:induction false} TrimAfterMargin(m: string, s: string)
    requires AllSpaces(m)
    ensures Trim(m + s) == Trim(s)
  {
    if m == "" {
      assert m + s == s;
    } else {
      assert (m + s)[1..] == m[1..] + s;
      TrimAfterMargin(m[1..], s);
    }
  }

  lemma NoMarkerAfterMargin(m: string, s: string)
    requires AllSpaces(m) && !HasMarker(s)
    ensures !HasMarker(m + s)
  {
    var t := m + s;
    forall i | 0 <= i < |t| - 1 ensures !(t[i] in "$%" && t[i + 1] == '{') {
      if i >= |m| {
        assert t[i] == s[i - |m|] && t[i + 1] == s[i - |m| + 1];
      }
    }
  }

  lemma {:induction false} HeredocBodyOf(m: string, lines: seq<string>, close: string, rest: seq<string>)
    requires AllSpaces(m) && AllSpaces(close)
    requires forall l :: l in lines ==> Trim(l) != "EOT" && !HasMarker(l)
    ensures HeredocBody(Indent(m, lines) + [close + "EOT"] + rest) == Some((Indent(m, lines), rest))
    decreases |lines|
  {
    var all := Indent(m, lines) + [close + "EOT"] + rest;
    if lines == [] {
      TrimAfterMargin(close, "EOT");
      TrimOfTight("EOT");
      assert all[0] == close + "EOT" && all[1..] == rest;
    } else {
      assert lines[0] in lines;
      TrimAfterMargin(m, lines[0]);
      NoMarkerAfterMargin(m, lines[0]);
      HeredocBodyOf(m, lines[1..], close, rest);
      assert Indent(m, lines) == [m + lines[0]] + Indent(m, lines[1..]);
      AfterOne(m + lines[0], Indent(m, lines[1..]), [close + "EOT"], rest);
    }
  }

  // ----- one field

  /** A line that opens neither a block nor closes one. */
  predicate StartsField(line: string) {
    var t := SkipSpaces(line);
    t != "" && t != "}" && !EndsWith(t, " {")
  }

  /** However the text goes on, these lines are read as this attribute. */
  ghost predicate ReadsAs(lines: seq<string>, a: Attribute) {
    && lines != [] && StartsField(lines[0])
    && forall rest :: ReadAttribute(lines + rest) == Some((a, rest))
  }

  lemma AttributeLineReads(m: string, name: string, text: string)
    requires AllSpaces(m) && IsName(name) && text != "" && text[|text| - 1] != '{'
    ensures SplitAssign(SkipSpaces(m + AttributeLine(name, text))) == Some((name, text))
    ensures StartsField(m + AttributeLine(name, text))
  {
    var t := name + " = " + text;
    assert m + AttributeLine(name, text) == (m + "  ") + t;
    assert NameChar(name[0]) && t[0] == name[0];
    SkipMargin(m + "  ", t);
    assert t[|t| - 1] == text[|text| - 1];
    assert '=' !in name;
    SplitAssignAt(name, text);
  }

  lemma ExpressionReads(m: string, name: string, text: string, e: Expr)
    requires AllSpaces(m) && IsName(name) && text != "" && text[|text| - 1] != '{'
    requires text != "<<-EOT" && ReadExpr(text) == Some(e)
    ensures ReadsAs(Indent(m, [AttributeLine(name, text)]), Attribute(name, e))
  {
    var line := m + AttributeLine(name, text);
    AttributeLineReads(m, name, text);
    assert Indent(m, [AttributeLine(name, text)]) == [line];
    forall rest ensures ReadAttribute([line] + rest) == Some((Attribute(name, e), rest)) {
      LineReads(line, name, text, e, rest);
    }
  }

  lemma LineReads(line: string, name: string, text: string, e: Expr, rest: seq<string>)
    requires SplitAssign(SkipSpaces(line)) == Some((name, text)) && IsName(name)
    requires text != "<<-EOT" && text != "{" && ReadExpr(text) == Some(e)
    ensures ReadAttribute([line] + rest) == Some((Attribute(name, e), rest))
  {
    assert ([line] + rest)[0] == line && ([line] + rest)[1..] == rest;
  }

  lemma IndentTwice(outer: string, inner: string, lines: seq<string>)
    ensures Indent(outer, Indent(inner, lines)) == Indent(outer + inner, lines)
  {
    forall i | 0 <= i < |lines| ensures Indent(outer, Indent(inner, lines))[i] == Indent(outer + inner, lines)[i] {
      ConcatAssociates(outer, inner, lines[i]);
    }
  }

  lemma IndentedHeredoc(m: string, name: string, text: string)
    ensures Indent(m, HeredocLines(name, text))
         == [m + AttributeLine(name, "<<-EOT")] + Indent(m + "    ", Split(text, '\n')) + [m + "  " + "EOT"]
  {
    var body := Split(text, '\n');
    IndentTwice(m, "    ", body);
    assert m + "  EOT" == m + "  " + "EOT";
    var add := (l: string) => m + l;
    MapConcat(add, [AttributeLine(name, "<<-EOT")] + Indent("    ", body), ["  EOT"]);
    MapConcat(add, [AttributeLine(name, "<<-EOT")], Indent("    ", body));
  }

  lemma HeredocReads(m: string, name: string, text: string)
    requires AllSpaces(m) && IsName(name)
    requires forall l :: l in Split(text, '\n') ==> Trim(l) != "EOT" && !HasMarker(l)
    ensures ReadsAs(Indent(m, HeredocLines(name, text)), Attribute(name, EStr(Dedented(text))))
  {
    var lines := Indent(m, HeredocLines(name, text));
    IndentedHeredoc(m, name, text);
    AttributeLineReads(m, name, "<<-EOT");
    forall rest ensures ReadAttribute(lines + rest) == Some((Attribute(name, EStr(Dedented(text))), rest)) {
      HeredocReadsBefore(m, name, text, rest);
    }
  }

  lemma HeredocReadsBefore(m: string, name: string, text: string, rest: seq<string>)
    requires AllSpaces(m) && IsName(name)
    requires forall l :: l in Split(text, '\n') ==> Trim(l) != "EOT" && !HasMarker(l)
    ensures ReadAttribute(Indent(m, HeredocLines(name, text)) + rest)
         == Some((Attribute(name, EStr(Dedented(text))), rest))
  {
    var body := Split(text, '\n');
    IndentedHeredoc(m, name, text);
    AttributeLineReads(m, name, "<<-EOT");
    HeredocBodyOf(m + "    ", body, m + "  ", rest);
    FlushOfIndented(m + "    ", body);
    AfterOne(m + AttributeLine(name, "<<-EOT"), Indent(m + "    ", body), [m + "  " + "EOT"], rest);
    HeredocAttribute(Indent(m, HeredocLines(name, text)) + rest, name, Indent(m + "    ", body), rest);
  }

  lemma AfterOne(first: string, middle: seq<string>, end: seq<string>, rest: seq<string>)
    ensures var all := [first] + middle + end + rest;
            all != [] && all[0] == first && all[1..] == middle + end + rest
  {
    assert [first] + middle + end + rest == [first] + (middle + end + rest);
  }

  lemma HeredocAttribute(lines: seq<string>, name: string, body: seq<string>, rest: seq<string>)
    requires lines != [] && SplitAssign(SkipSpaces(lines[0])) == Some((name, "<<-EOT")) && IsName(name)
    requires HeredocBody(lines[1..]) == Some((body, rest))
    ensures ReadAttribute(lines) == Some((Attribute(name, EStr(Flush(body))), rest))
  {
  }

  lemma ValueReads(m: string, name: string, kind: FieldType, v: Value)
    requires AllSpaces(m) && IsName(name) && PrintableValue(kind, v)
    ensures ReadsAs(Indent(m, ValueLines(name, kind, v)), Attribute(name, Meaning(kind, v)))
  {
    if kind == MultilineT && '\n' in Show(v) {
      HeredocReads(m, name, Show(v));
    } else if kind == BooleanT {
      ExpressionReads(m, name, if Truth(v) then "true" else "false", EBool(Truth(v)));
    } else if kind == StringT && ',' in Show(v) {
      PartsAreItems(Show(v));
      ReadListText(TrimmedParts(Show(v)));
      ExpressionReads(m, name, ListText(TrimmedParts(Show(v))), EList(TrimmedParts(Show(v))));
    } else {
      ReadQuoted(Show(v));
      ExpressionReads(m, name, Quote(Show(v)), EStr(Show(v)));
    }
  }

  lemma TopReads(s: Survivor)
    requires Printable(s)
    ensures ReadsAs(TopLines(s), TopMeaning(s))
  {
    if s.field.kind == StringT && IsListField(s.field) {
      var items := NonEmptyParts(Show(s.value));
      PartsAreItems(Show(s.value));
      ReadListText(items);
      ExpressionReads("", s.field.name, ListText(items), EList(items));
      assert Indent("", TopLines(s)) == TopLines(s) by { NoIndent(TopLines(s)); }
    } else {
      ValueReads("", s.field.name, s.field.kind, s.value);
      NoIndent(TopLines(s));
    }
  }

  lemma NoIndent(lines: seq<string>)
    ensures Indent("", lines) == lines
  {
    forall i | 0 <= i < |lines| ensures Indent("", lines)[i] == lines[i] {
      assert "" + lines[i] == lines[i];
    }
  }

  // ----- lines and text

  predicate OneLiners(lines: seq<string>) {
    forall l :: l in lines ==> '\n' !in l
  }

  lemma {:induction false} SplitUnlines(lines: seq<string>)
    requires OneLiners(lines)
    ensures Split(Unlines(lines), '\n') == lines + [""]
  {
    if lines == [] {
    } else {
      assert lines[0] in lines;
      SplitUnlines(lines[1..]);
      SplitConcat(lines[0], '\n', Unlines(lines[1..]));
      SplitWhole(lines[0], '\n');
      assert Unlines(lines) == lines[0] + ['\n'] + Unlines(lines[1..]);
      assert [lines[0]] + (lines[1..] + [""]) == lines + [""];
    }
  }

  lemma {:induction false} TrimUnlines(lines: seq<string>)
    requires OneLiners(lines) && lines != [] && lines[|lines| - 1] != ""
    ensures TrimNewlines(Unlines(lines)) == Join(lines, "\n")
    ensures Unlines(lines) == Join(lines, "\n") + "\n"
    ensures var j := Join(lines, "\n"); j != "" && j[|j| - 1] != '\n'
  {
    if |lines| == 1 {
      assert lines[0] in lines;
      UnlinesOne(lines[0]);
      assert lines == [lines[0]];
    } else {
      TrimUnlines(lines[1..]);
      assert Join(lines, "\n") == lines[0] + "\n" + Join(lines[1..], "\n");
    }
    assert Unlines(lines)[..|Unlines(lines)| - 1] == Join(lines, "\n");
  }

  lemma {:induction false} JoinOneLine(parts: seq<string>, sep: string)
    requires OneLiners(parts) && '\n' !in sep
    ensures '\n' !in Join(parts, sep)
  {
    if |parts| > 1 {
      assert parts[0] in parts;
      JoinOneLine(parts[1..], sep);
    } else if |parts| == 1 {
      assert parts[0] in parts;
    }
  }

  lemma ListOneLine(items: seq<string>)
    requires forall p :: p in items ==> Literal(p)
    ensures '\n' !in ListText(items)
  {
    var quoted := Map((p: string) => Quote(p), items);
    forall q | q in quoted ensures '\n' !in q {
      var i :| 0 <= i < |quoted| && quoted[i] == q;
      assert items[i] in items;
    }
    JoinOneLine(quoted, ", ");
  }

  lemma IndentOneLiners(margin: string, lines: seq<string>)
    requires OneLiners(lines) && '\n' !in margin
    ensures OneLiners(Indent(margin, lines))
  {
    forall l | l in Indent(margin, lines) ensures '\n' !in l {
      var i :| 0 <= i < |lines| && Indent(margin, lines)[i] == l;
      assert lines[i] in lines;
    }
  }

  lemma AttributeOneLiner(name: string, text: string)
    requires '\n' !in name && '\n' !in text
    ensures OneLiners([AttributeLine(name, text)]) && AttributeLine(name, text) != ""
  {
  }

  lemma {:induction false} ValueOneLiners(name: string, kind: FieldType, v: Value)
    requires IsName(name) && PrintableValue(kind, v)
    ensures var lines := ValueLines(name, kind, v);
            OneLiners(lines) && lines != [] && lines[|lines| - 1] != ""
  {
    assert '\n' !in name;
    if kind == MultilineT && '\n' in Show(v) {
      AttributeOneLiner(name, "<<-EOT");
      SplitFree(Show(v), '\n');
      IndentOneLiners("    ", Split(Show(v), '\n'));
    } else if kind == BooleanT {
      AttributeOneLiner(name, if Truth(v) then "true" else "false");
    } else if kind == StringT && ',' in Show(v) {
      PartsAreItems(Show(v));
      ListOneLine(TrimmedParts(Show(v)));
      AttributeOneLiner(name, ListText(TrimmedParts(Show(v))));
    } else {
      AttributeOneLiner(name, Quote(Show(v)));
    }
  }

  lemma TopOneLiners(s: Survivor)
    requires Printable(s)
    ensures OneLiners(TopLines(s))
  {
    if s.field.kind == StringT && IsListField(s.field) {
      PartsAreItems(Show(s.value));
      ListOneLine(NonEmptyParts(Show(s.value)));
      assert '\n' !in s.field.name;
      AttributeOneLiner(s.field.name, ListText(NonEmptyParts(Show(s.value))));
    } else {
      ValueOneLiners(s.field.name, s.field.kind, s.value);
    }
  }

  /** Cutting a printed field into lines again loses nothing. */
  lemma NestedLinesAre(s: Survivor)
    requires Printable(s)
    ensures NestedLines(s) == Indent("  ", ValueLines(s.field.name, s.field.kind, s.value))
  {
    var lines := ValueLines(s.field.name, s.field.kind, s.value);
    ValueOneLiners(s.field.name, s.field.kind, s.value);
    TrimUnlines(lines);
    SplitJoin(lines, '\n');
  }

  lemma NestedReads(s: Survivor)
    requires Printable(s)
    ensures ReadsAs(NestedLines(s), NestedMeaning(s)) && OneLiners(NestedLines(s))
  {
    NestedLinesAre(s);
    ValueReads("  ", s.field.name, s.field.kind, s.value);
    ValueOneLiners(s.field.name, s.field.kind, s.value);
    IndentOneLiners("  ", ValueLines(s.field.name, s.field.kind, s.value));
  }

  // ----- sequences of fields and blocks

  ghost predicate AllRead(ss: seq<Survivor>, lines: Survivor -> seq<string>, meaning: Survivor -> Attribute) {
    forall s :: s in ss ==> ReadsAs(lines(s), meaning(s))
  }

  lemma OneItem(lines: seq<string>, a: Attribute, tail: seq<string>)
    requires ReadsAs(lines, a)
    ensures ReadItems(lines + tail) == Cons(Attr(a), ReadItems(tail))
  {
    assert (lines + tail)[0] == lines[0];
    assert ReadAttribute(lines + tail) == Some((a, tail));
  }

  lemma OneInBlock(lines: seq<string>, a: Attribute, tail: seq<string>)
    requires ReadsAs(lines, a) && ReadBlock(tail).Some?
    ensures ReadBlock(lines + tail) == Some(([a] + ReadBlock(tail).value.0, ReadBlock(tail).value.1))
  {
    assert (lines + tail)[0] == lines[0];
    assert ReadAttribute(lines + tail) == Some((a, tail));
  }

  type Reader<R> = seq<string> -> Option<(seq<R>, seq<string>)>

  /** The piece's result comes out in front of what is read from the lines that follow. */
  ghost predicate ReadsFirst<R>(read: Reader<R>, piece: seq<string>, result: R, tail: seq<string>) {
    read(tail).Some? ==> read(piece + tail) == Some(([result] + read(tail).value.0, read(tail).value.1))
  }

  /** Reading one piece after the other, whatever the reader. */
  lemma {:induction false} ReadInSequence<T, R>(xs: seq<T>, lines: T -> seq<string>, result: T -> R,
                                                read: Reader<R>, rest: seq<string>)
    requires read(rest).Some?
    requires forall x, tail :: x in xs ==> ReadsFirst(read, lines(x), result(x), tail)
    ensures read(FlatMap(lines, xs) + rest) == Some((Map(result, xs) + read(rest).value.0, read(rest).value.1))
  {
    if xs == [] {
      assert FlatMap(lines, xs) + rest == rest;
      assert Map(result, xs) + read(rest).value.0 == read(rest).value.0;
    } else {
      assert xs[0] in xs;
      ReadInSequence(xs[1..], lines, result, read, rest);
      var tail := FlatMap(lines, xs[1..]) + rest;
      assert ReadsFirst(read, lines(xs[0]), result(xs[0]), tail);
      assert FlatMap(lines, xs) + rest == lines(xs[0]) + tail;
      assert Map(result, xs) + read(rest).value.0 == [result(xs[0])] + (Map(result, xs[1..]) + read(rest).value.0);
    }
  }

  /** `ReadItems` in the shape of a reader that leaves no lines over. */
  function ItemsReader(lines: seq<string>): Option<(seq<Item>, seq<string>)> {
    match ReadItems(lines)
    case None => None
    case Some(items) => Some((items, []))
  }

  lemma {:induction false} BlockOfFields(ss: seq<Survivor>, lines: Survivor -> seq<string>,
                      meaning: Survivor -> Attribute, rest: seq<string>)
    requires AllRead(ss, lines, meaning)
    ensures ReadBlock(FlatMap(lines, ss) + ["  }"] + rest) == Some((Map(meaning, ss), rest))
  {
    forall s, tail | s in ss ensures ReadsFirst(ReadBlock, lines(s), meaning(s), tail) {
      if ReadBlock(tail).Some? {
        OneInBlock(lines(s), meaning(s), tail);
      }
    }
    EndOfBlock(rest);
    ReadInSequence(ss, lines, meaning, ReadBlock, ["  }"] + rest);
    ConcatAssociates(FlatMap(lines, ss), ["  }"], rest);
    assert Map(meaning, ss) + [] == Map(meaning, ss);
  }

  lemma EndOfBlock(rest: seq<string>)
    ensures ReadBlock(["  }"] + rest) == Some(([], rest))
  {
    SkipMargin("  ", "}");
    assert "  " + "}" == "  }";
    assert (["  }"] + rest)[0] == "  }" && (["  }"] + rest)[1..] == rest;
  }

  lemma {:induction false} BlockHeader(block: string, all: seq<string>, attrs: seq<Attribute>, rest: seq<string>)
    requires IsName(block) && |all| >= 2 && all[0] == "" && all[1] == "  " + block + " {"
    requires ReadBlock(all[2..]) == Some((attrs, rest))
    ensures ReadItems(all) == Cons(Block(block, attrs), ReadItems(rest))
  {
    var t := block + " {";
    assert NameChar(block[0]) && t[0] == block[0];
    assert all[1] == "  " + t;
    SkipMargin("  ", t);
    assert EndsWith(t, " {") && t[..|t| - 2] == block;
    assert all[1..][0] == all[1] && all[1..][1..] == all[2..];
    assert ReadItems(all) == ReadItems(all[1..]);
  }

  lemma BlockReads(nested: seq<Survivor>, block: string, rest: seq<string>)
    requires IsName(block) && forall s :: s in nested ==> Printable(s)
    ensures ReadItems(BlockLines(nested, block) + rest)
         == Cons(Block(block, Map((s: Survivor) => NestedMeaning(s), InBlock(nested, block))), ReadItems(rest))
  {
    BlockContent(nested, block, rest);
    BlockShape(nested, block, rest);
    BlockHeader(block, BlockLines(nested, block) + rest,
                Map((s: Survivor) => NestedMeaning(s), InBlock(nested, block)), rest);
  }

  lemma BlockShape(nested: seq<Survivor>, block: string, rest: seq<string>)
    ensures var all := BlockLines(nested, block) + rest;
            && |all| >= 2 && all[0] == "" && all[1] == "  " + block + " {"
            && all[2..] == FlatMap((s: Survivor) => NestedLines(s), InBlock(nested, block)) + ["  }"] + rest
  {
    AfterTwo("", "  " + block + " {", FlatMap((s: Survivor) => NestedLines(s), InBlock(nested, block)), ["  }"], rest);
  }

  lemma AfterTwo(a: string, b: string, middle: seq<string>, end: seq<string>, rest: seq<string>)
    ensures var all := [a, b] + middle + end + rest;
            |all| >= 2 && all[0] == a && all[1] == b && all[2..] == middle + end + rest
  {
  }

  lemma {:induction false} BlockContent(nested: seq<Survivor>, block: string, rest: seq<string>)
    requires forall s :: s in nested ==> Printable(s)
    ensures ReadBlock(FlatMap((s: Survivor) => NestedLines(s), InBlock(nested, block)) + ["  }"] + rest)
         == Some((Map((s: Survivor) => NestedMeaning(s), InBlock(nested, block)), rest))
  {
    var mine := InBlock(nested, block);
    var lines := (s: Survivor) => NestedLines(s);
    var meaning := (s: Survivor) => NestedMeaning(s);
    forall s | s in mine ensures ReadsAs(lines(s), meaning(s)) {
      FilterMember((s: Survivor) => s.field.block == block, nested, s);
      NestedReads(s);
    }
    BlockOfFields(mine, lines, meaning, rest);
  }

  lemma BlocksRead(nested: seq<Survivor>, order: seq<string>)
    requires forall b :: b in order ==> IsName(b)
    requires forall s :: s in nested ==> Printable(s)
    ensures ReadItems(FlatMap((b: string) => BlockLines(nested, b), order) + [""])
         == Some(Map((b: string) => Block(b, Map((s: Survivor) => NestedMeaning(s), InBlock(nested, b))), order))
  {
    var lines := (b: string) => BlockLines(nested, b);
    var block := (b: string) => Block(b, Map((s: Survivor) => NestedMeaning(s), InBlock(nested, b)));
    forall b, tail | b in order ensures ReadsFirst(ItemsReader, lines(b), block(b), tail) {
      BlockReads(nested, b, tail);
    }
    assert [""][1..] == [] && ReadItems([""]) == ReadItems([""][1..]);
    ReadInSequence(order, lines, block, ItemsReader, [""]);
    assert Map(block, order) + [] == Map(block, order);
  }

  // ----- block order

  /** Every block name of a nested field appears once, and no other name. */
  lemma {:induction false} BlockOrderExact(ss: seq<Survivor>)
    ensures Distinct(BlockOrder(ss))
    ensures forall b :: b in BlockOrder(ss) <==> exists i :: 0 <= i < |ss| && ss[i].field.block == b
  {
    if ss == [] {
    } else {
      var n := |ss| - 1;
      BlockOrderExact(ss[..n]);
      assert forall i :: 0 <= i < n ==> ss[..n][i] == ss[i];
      var before := BlockOrder(ss[..n]);
      forall b ensures b in BlockOrder(ss) <==> exists i :: 0 <= i < |ss| && ss[i].field.block == b {
        assert b in BlockOrder(ss) <==> b in before || b == ss[n].field.block;
      }
    }
  }

  /** A longer field list keeps the order found so far: blocks stand in order of first appearance. */
  lemma {:induction false} BlockOrderGrows(ss: seq<Survivor>, k: nat)
    requires k <= |ss|
    ensures BlockOrder(ss[..k]) <= BlockOrder(ss)
  {
    if k < |ss| {
      BlockOrderGrows(ss[..|ss| - 1], k);
      assert ss[..|ss| - 1][..k] == ss[..k];
    } else {
      assert ss[..k] == ss;
    }
  }

  // ----- no printed line breaks

  lemma {:induction false} FlatMapOneLiners<T>(lines: T -> seq<string>, xs: seq<T>)
    requires forall x :: x in xs ==> OneLiners(lines(x))
    ensures OneLiners(FlatMap(lines, xs))
  {
    if xs == [] {
    } else {
      assert xs[0] in xs;
      FlatMapOneLiners(lines, xs[1..]);
    }
  }

  lemma OneLinersConcat(a: seq<string>, b: seq<string>, c: seq<string>)
    requires OneLiners(a) && OneLiners(b) && OneLiners(c)
    ensures OneLiners(a + b + c)
  {
  }

  lemma {:induction false} BlockOneLiners(nested: seq<Survivor>, block: string)
    requires IsName(block) && forall s :: s in nested ==> Printable(s)
    ensures OneLiners(BlockLines(nested, block))
  {
    var lines := (s: Survivor) => NestedLines(s);
    forall s | s in InBlock(nested, block) ensures OneLiners(lines(s)) {
      FilterMember((s: Survivor) => s.field.block == block, nested, s);
      NestedReads(s);
    }
    FlatMapOneLiners(lines, InBlock(nested, block));
    assert OneLiners(["", "  " + block + " {"]);
    OneLinersConcat(["", "  " + block + " {"], FlatMap(lines, InBlock(nested, block)), ["  }"]);
  }

  lemma PrintableParts(ss: seq<Survivor>)
    requires forall s :: s in ss ==> Printable(s)
    ensures forall s :: s in TopLevel(ss) ==> Printable(s)
    ensures forall s :: s in Nested(ss) ==> Printable(s)
    ensures forall b :: b in BlockOrder(Nested(ss)) ==> IsName(b)
  {
    forall s ensures s in TopLevel(ss) ==> s in ss {
      FilterMember((s: Survivor) => s.field.block == "", ss, s);
    }
    forall s ensures s in Nested(ss) ==> s in ss && s.field.block != "" {
      FilterMember((s: Survivor) => s.field.block != "", ss, s);
    }
    BlockOrderExact(Nested(ss));
    forall b | b in BlockOrder(Nested(ss)) ensures IsName(b) {
      var i :| 0 <= i < |Nested(ss)| && Nested(ss)[i].field.block == b;
      assert Nested(ss)[i] in Nested(ss);
    }
  }

  // ----- the core add-ons

  lemma {:induction false} TrimRightPad(name: string, pad: string)
    requires AllSpaces(pad) && name != "" && !IsSpace(name[|name| - 1])
    ensures TrimRight(name + pad) == name
  {
    var s := name + pad;
    if pad == "" {
      assert s == name;
    } else {
      assert s[..|s| - 1] == name + pad[..|pad| - 1];
      TrimRightPad(name, pad[..|pad| - 1]);
    }
  }

  lemma InlineObjectReads(name: string, value: string, e: Expr)
    requires IsName(name) && ReadExpr(value) == Some(e)
    ensures ReadInlineObject(InlineObject(name, value)) == Some(EObject([Attribute(name, e)]))
  {
    var inner := name + " = " + value;
    var s := "{ " + inner + " }";
    assert s[2..|s| - 2] == inner && s[|s| - 2..] == " }";
    assert '=' !in name;
    SplitAssignAt(name, value);
  }

  predicate WellFormedAddon(a: Addon) {
    IsName(a.name) && AllSpaces(a.pad)
  }

  lemma MemberLineReads(name: string, pad: string, value: string, e: Expr)
    requires IsName(name) && AllSpaces(pad) && "{" <= value && ReadInlineObject(value) == Some(e)
    ensures var line := "    " + (name + pad + " = " + value);
            SkipSpaces(line) == name + pad + " = " + value && ReadMember(line) == Some(Attribute(name, e))
  {
    var t := name + pad + " = " + value;
    assert NameChar(name[0]) && NameChar(name[|name| - 1]) && t[0] == name[0];
    SkipMargin("    ", t);
    assert '=' !in name + pad;
    SplitAssignAt(name + pad, value);
    TrimRightPad(name, pad);
  }

  lemma AddonLineReads(a: Addon)
    requires WellFormedAddon(a)
    ensures SkipSpaces(AddonLine(a)) != "}" && ReadMember(AddonLine(a)) == Some(AddonMeaning(a))
  {
    var value := InlineObject("most_recent", "true");
    InlineObjectReads("most_recent", "true", EBool(true));
    assert "{" <= value && |value| > 1;
    MemberLineReads(a.name, a.pad, value, EObject([Attribute("most_recent", EBool(true))]));
  }

  lemma MembersCons(line: string, a: Attribute, tail: seq<string>)
    requires SkipSpaces(line) != "}" && ReadMember(line) == Some(a) && ReadMembers(tail).Some?
    ensures ReadMembers([line] + tail) == Some(([a] + ReadMembers(tail).value.0, ReadMembers(tail).value.1))
  {
    assert ([line] + tail)[0] == line && ([line] + tail)[1..] == tail;
  }

  lemma EndOfObject(rest: seq<string>)
    ensures ReadMembers(["  }"] + rest) == Some(([], rest))
  {
    SkipMargin("  ", "}");
    assert "  " + "}" == "  }";
    assert (["  }"] + rest)[0] == "  }" && (["  }"] + rest)[1..] == rest;
  }

  lemma AddonMembersRead(addons: seq<Addon>, rest: seq<string>)
    requires forall a :: a in addons ==> WellFormedAddon(a)
    ensures ReadMembers(Map((a: Addon) => AddonLine(a), addons) + (["  }"] + rest))
         == Some((Map((a: Addon) => AddonMeaning(a), addons), rest))
  {
    var line, lines := (a: Addon) => AddonLine(a), (a: Addon) => [AddonLine(a)];
    var member := (a: Addon) => AddonMeaning(a);
    forall a, tail | a in addons ensures ReadsFirst(ReadMembers, lines(a), member(a), tail) {
      AddonLineReads(a);
      if ReadMembers(tail).Some? {
        MembersCons(AddonLine(a), member(a), tail);
      }
    }
    EndOfObject(rest);
    ReadInSequence(addons, lines, member, ReadMembers, ["  }"] + rest);
    FlatMapOfOnes(line, lines, addons);
    assert Map(member, addons) + [] == Map(member, addons);
  }

  /** An object after a blank line; its header is not that of a block. */
  lemma ObjectReads(name: string, all: seq<string>, members: seq<Attribute>, rest: seq<string>)
    requires IsName(name) && |all| >= 2 && all[0] == "" && all[1] == "  " + (name + " = " + "{")
    requires ReadMembers(all[2..]) == Some((members, rest))
    ensures ReadItems(all) == Cons(Attr(Attribute(name, EObject(members))), ReadItems(rest))
  {
    var t := name + " = " + "{";
    assert NameChar(name[0]) && t[0] == name[0];
    SkipMargin("  ", t);
    assert '=' !in name;
    SplitAssignAt(name, "{");
    assert t[..|t| - 2][|name|] == ' ' && !NameChar(' ');
    assert all[1..][0] == all[1] && all[1..][1..] == all[2..];
    assert ReadItems(all) == ReadItems(all[1..]);
  }

  lemma ObjectBodyReads(name: string, header: string, lines: seq<string>, end: seq<string>,
                        members: seq<Attribute>, rest: seq<string>)
    requires IsName(name) && header == "  " + (name + " = " + "{")
    requires ReadMembers(lines + (end + rest)) == Some((members, rest))
    ensures ReadItems(["", header] + lines + end + rest)
         == Cons(Attr(Attribute(name, EObject(members))), ReadItems(rest))
  {
    AfterTwo("", header, lines, end, rest);
    ConcatAssociates(lines, end, rest);
    ObjectReads(name, ["", header] + lines + end + rest, members, rest);
  }

  lemma AddonsHeader()
    ensures IsName("cluster_addons")
    ensures "  cluster_addons = {" == "  " + ("cluster_addons" + " = " + "{")
  {
  }

  lemma AddonsRead(addons: seq<Addon>, rest: seq<string>)
    requires forall a :: a in addons ==> WellFormedAddon(a)
    ensures ReadItems(AddonLines(addons) + rest) == Cons(Attr(AddonsMeaning(addons)), ReadItems(rest))
  {
    AddonsHeader();
    AddonMembersRead(addons, rest);
    ObjectBodyReads("cluster_addons", "  cluster_addons = {", Map((a: Addon) => AddonLine(a), addons), ["  }"],
                    Map((a: Addon) => AddonMeaning(a), addons), rest);
  }

  lemma AddonOneLiner(a: Addon)
    requires WellFormedAddon(a)
    ensures '\n' !in AddonLine(a)
  {
    assert '\n' !in a.name && '\n' !in a.pad;
  }

  lemma AddonsOneLiners(addons: seq<Addon>)
    requires forall a :: a in addons ==> WellFormedAddon(a)
    ensures OneLiners(AddonLines(addons))
  {
    var lines := Map((a: Addon) => AddonLine(a), addons);
    forall l | l in lines ensures '\n' !in l {
      var i :| 0 <= i < |addons| && AddonLine(addons[i]) == l;
      assert addons[i] in addons;
      AddonOneLiner(addons[i]);
    }
    OneLinersConcat(["", "  cluster_addons = {"], lines, ["  }"]);
  }

  lemma CoreAddonsAreWellFormed()
    ensures forall a :: a in CoreAddons() ==> WellFormedAddon(a)
  {
    assert WellFormedAddon(COREDNS);
    assert WellFormedAddon(KUBE_PROXY);
    assert WellFormedAddon(VPC_CNI);
  }

  // ----- the round trip

  lemma BodyOneLiners(ss: seq<Survivor>, addons: bool)
    requires forall s :: s in ss ==> Printable(s)
    ensures OneLiners(BodyLines(ss, addons))
  {
    PrintableParts(ss);
    var top := (s: Survivor) => TopLines(s);
    forall s | s in TopLevel(ss) ensures OneLiners(top(s)) { TopOneLiners(s); }
    FlatMapOneLiners(top, TopLevel(ss));
    var blocks := (b: string) => BlockLines(Nested(ss), b);
    forall b | b in BlockOrder(Nested(ss)) ensures OneLiners(blocks(b)) { BlockOneLiners(Nested(ss), b); }
    FlatMapOneLiners(blocks, BlockOrder(Nested(ss)));
    CoreAddonsAreWellFormed();
    AddonsOneLiners(CoreAddons());
    OneLinersConcat(FlatMap(top, TopLevel(ss)), if addons then AddonLines(CoreAddons()) else [],
                    FlatMap(blocks, BlockOrder(Nested(ss))));
  }

  lemma {:induction false} TopFieldsRead(ss: seq<Survivor>, rest: seq<string>)
    requires forall s :: s in ss ==> Printable(s)
    requires ReadItems(rest).Some?
    ensures ReadItems(FlatMap((s: Survivor) => TopLines(s), ss) + rest)
         == Some(Map((s: Survivor) => Attr(TopMeaning(s)), ss) + ReadItems(rest).value)
  {
    var lines := (s: Survivor) => TopLines(s);
    var result := (s: Survivor) => Attr(TopMeaning(s));
    forall s, tail | s in ss ensures ReadsFirst(ItemsReader, lines(s), result(s), tail) {
      TopReads(s);
      OneItem(lines(s), TopMeaning(s), tail);
    }
    ReadInSequence(ss, lines, result, ItemsReader, rest);
  }

  /** The printer round trip: reading the printed body gives exactly the surviving fields with their
      values, top-level ones in schema order, then the core add-ons if they are switched on, then
      each block once, in order of first appearance, with its fields in schema order. */
  lemma BodyRoundTrip(schema: seq<Field>, inputs: Inputs)
    requires forall s :: s in Survivors(schema, inputs) ==> Printable(s)
    ensures ReadBody(Unlines(Body(schema, inputs)))
         == Some(Expected(Survivors(schema, inputs), PrintsAddons(schema, inputs)))
  {
    var ss, addons := Survivors(schema, inputs), PrintsAddons(schema, inputs);
    BodyOneLiners(ss, addons);
    SplitUnlines(BodyLines(ss, addons));
    PrintableParts(ss);
    BlocksRead(Nested(ss), BlockOrder(Nested(ss)));
    var top := FlatMap((s: Survivor) => TopLines(s), TopLevel(ss));
    var middle := if addons then AddonLines(CoreAddons()) else [];
    var blocks := FlatMap((b: string) => BlockLines(Nested(ss), b), BlockOrder(Nested(ss)));
    AfterTop(addons, blocks + [""]);
    TopFieldsRead(TopLevel(ss), middle + (blocks + [""]));
    ConcatAssociates(top + middle, blocks, [""]);
    ConcatAssociates(top, middle, blocks + [""]);
    ConcatAssociates(Map((s: Survivor) => Attr(TopMeaning(s)), TopLevel(ss)),
                     if addons then [Attr(AddonsMeaning(CoreAddons()))] else [],
                     ExpectedBlocks(Nested(ss)));
  }

  lemma AfterTop(addons: bool, rest: seq<string>)
    requires ReadItems(rest).Some?
    ensures ReadItems((if addons then AddonLines(CoreAddons()) else []) + rest)
         == Some((if addons then [Attr(AddonsMeaning(CoreAddons()))] else []) + ReadItems(rest).value)
  {
    if addons {
      CoreAddonsAreWellFormed();
      AddonsRead(CoreAddons(), rest);
    } else {
      assert [] + rest == rest;
      assert [] + ReadItems(rest).value == ReadItems(rest).value;
    }
  }

  // ----- when a value comes back unchanged

  lemma {:induction false} UnlinesSplit(lines: seq<string>)
    requires lines != []
    ensures Unlines(lines) == Join(lines, "\n") + "\n"
  {
    if |lines| > 1 {
      UnlinesSplit(lines[1..]);
    } else {
      assert Unlines(lines[1..]) == "";
    }
  }

  lemma {:induction false} MarginIsLeast(lines: seq<string>)
    requires lines != []
    ensures forall l :: l in lines ==> Margin(lines) <= Spaces(l)
    ensures exists l :: l in lines && Margin(lines) == Spaces(l)
  {
    assert lines[0] in lines;
    if |lines| > 1 {
      MarginIsLeast(lines[1..]);
      assert forall l :: l in lines <==> l == lines[0] || l in lines[1..];
    } else {
      assert forall l :: l in lines ==> l == lines[0];
    }
  }

  lemma {:induction false} DroppedIsShorter(n: nat, lines: seq<string>)
    requires forall l :: l in lines ==> n <= |l|
    ensures |Unlines(DropEach(n, lines))| <= |Unlines(lines)|
    ensures n > 0 && lines != [] ==> |Unlines(DropEach(n, lines))| < |Unlines(lines)|
  {
    if lines == [] {
    } else {
      assert lines[0] in lines;
      DroppedIsShorter(n, lines[1..]);
      var dropped := DropEach(n, lines);
      assert dropped[1..] == DropEach(n, lines[1..]);
      assert |Unlines(dropped)| == |dropped[0]| + 1 + |Unlines(dropped[1..])|;
      assert |Unlines(lines)| == |lines[0]| + 1 + |Unlines(lines[1..])|;
    }
  }

  /** A heredoc reads back as its value and a final newline exactly when some line of the value
      starts without a space. */
  lemma HeredocExact(text: string)
    ensures Dedented(text) == text + "\n" <==> exists l :: l in Split(text, '\n') && Spaces(l) == 0
  {
    var lines := Split(text, '\n');
    MarginIsLeast(lines);
    JoinSplit(text, '\n');
    UnlinesSplit(lines);
    DroppedIsShorter(Margin(lines), lines);
    if Margin(lines) == 0 {
      assert DropEach(0, lines) == lines;
    }
  }

  lemma ConsLiteral(c: char, s: string)
    requires Literal(s) && c != '"' && c != '\\' && c != '\n'
    requires !("${" <= [c] + s) && !("%{" <= [c] + s)
    ensures Literal([c] + s)
  {
    var t := [c] + s;
    assert !HasMarker(t) by {
      forall i | 0 <= i < |t| - 1 ensures !(t[i] in "$%" && t[i + 1] == '{') {
        if i > 0 {
          assert t[i] == s[i - 1] && t[i + 1] == s[i];
        }
      }
    }
  }

  /** Every escape is longer than what it stands for, so only text without escapes keeps its length. */
  lemma {:induction false} DecodeShrinks(s: string)
    requires Decode(s).Some?
    ensures |Decode(s).value| <= |s|
    ensures |Decode(s).value| == |s| ==> Literal(s)
    decreases |s|
  {
    if s == "" {
    } else if s[0] == '\\' {
      DecodeShrinks(s[Escape(s).value.1..]);
    } else if "$${" <= s || "%%{" <= s {
      DecodeShrinks(s[3..]);
    } else {
      DecodeShrinks(s[1..]);
      assert s == [s[0]] + s[1..];
      if Literal(s[1..]) {
        ConsLiteral(s[0], s[1..]);
      }
    }
  }

  /** The printer does not escape, so what is read is what its text stands for with escapes: the
      value itself exactly if it has no quote, backslash, line break or template start. */
  lemma QuotedExact(text: string)
    ensures ReadExpr(Quote(text)) == Some(EStr(text)) <==> Literal(text)
  {
    assert Quote(text)[1..|Quote(text)| - 1] == text;
    assert Quote(text)[0] == '"' && "true"[0] == 't' && "false"[0] == 'f';
    if Literal(text) {
      ReadQuoted(text);
    } else if Decode(text) == Some(text) {
      DecodeShrinks(text);
    }
  }

  /** A value can even come back as a different one: a backslash and an `n` as a line break. */
  lemma BackslashReadsAsEscape()
    ensures ReadExpr(Quote("\\n")) == Some(EStr("\n"))
  {
    var s := "\\n";
    assert Escape(s) == Some(('\n', 2));
    assert s[2..] == "" && Decode("") == Some("") && ['\n'] + "" == "\n";
    assert Quote(s)[1..|Quote(s)| - 1] == s;
    assert Quote(s)[0] == '"' && "true"[0] == 't' && "false"[0] == 'f';
  }

  // ----- one field of its own

  lemma OneSurvivor(s: Survivor)
    ensures TopLevel([s]) == if s.field.block == "" then [s] else []
    ensures Nested([s]) == if s.field.block == "" then [] else [s]
    ensures InBlock([s], s.field.block) == [s]
    ensures BlockOrder([s]) == [s.field.block]
  {
    FilterOne((s: Survivor) => s.field.block == "", s);
    FilterOne((s: Survivor) => s.field.block != "", s);
    var block := s.field.block;
    FilterOne((s: Survivor) => s.field.block == block, s);
    assert [s][..0] == [];
  }

  /** The body that one field with this value reads back as. */
  function OneField(f: Field, value: Expr): seq<Item> {
    if f.block == "" then [Attr(Attribute(f.name, value))] else [Block(f.block, [Attribute(f.name, value)])]
  }

  lemma OneFieldExpected(s: Survivor)
    ensures Expected([s], false)
         == if s.field.block == "" then [Attr(TopMeaning(s))] else [Block(s.field.block, [NestedMeaning(s)])]
  {
    OneSurvivor(s);
    assert Map((s: Survivor) => Attr(TopMeaning(s)), [s]) == [Attr(TopMeaning(s))];
    assert Map((s: Survivor) => NestedMeaning(s), [s]) == [NestedMeaning(s)];
    if s.field.block == "" {
      assert BlockOrder(Nested([s])) == [];
      assert ExpectedBlocks(Nested([s])) == [];
    } else {
      assert ExpectedBlocks([s]) == [Block(s.field.block, [NestedMeaning(s)])];
    }
  }

  lemma OneFieldSurvives(f: Field, v: Value)
    requires f.name != ADDONS_SWITCH && v != Str("")
    ensures Survivors([f], map[f.name := v]) == [Survivor(f, v)]
    ensures !PrintsAddons([f], map[f.name := v])
  {
    var inputs := map[f.name := v];
    FlatMapOne((f: Field) => SurvivorOf(f, inputs), f);
    assert [f][..0] == [] && !AddonsOn([], inputs);
  }

  /** The heredoc round trip: a multi-line field, at top level or in any block, reads back as its value
      and a final newline if and only if some line of the value starts without a space. */
  lemma {:induction false} HeredocReadsBackExactly(f: Field, text: string)
    requires f.kind == MultilineT && f.name != ADDONS_SWITCH && IsName(f.name) && (f.block == "" || IsName(f.block))
    requires '\n' in text && PrintableValue(MultilineT, Str(text))
    ensures ReadBody(Unlines(Body([f], map[f.name := Str(text)]))) == Some(OneField(f, EStr(Dedented(text))))
    ensures ReadBody(Unlines(Body([f], map[f.name := Str(text)]))) == Some(OneField(f, EStr(text + "\n")))
       <==> exists l :: l in Split(text, '\n') && Spaces(l) == 0
  {
    var s := Survivor(f, Str(text));
    OneFieldSurvives(f, Str(text));
    BodyRoundTrip([f], map[f.name := Str(text)]);
    OneFieldExpected(s);
    assert Meaning(MultilineT, Str(text)) == EStr(Dedented(text));
    assert TopMeaning(s) == NestedMeaning(s) == Attribute(f.name, EStr(Dedented(text)));
    HeredocExact(text);
  }

  // ----- grouping into blocks loses and repeats nothing

  lemma {:induction false} BlocksOfRest(ss: seq<Survivor>, gone: string, order: seq<string>)
    requires gone !in order
    ensures FlatMap((b: string) => InBlock(ss, b), order)
         == FlatMap((b: string) => InBlock(Filter((s: Survivor) => !(s.field.block == gone), ss), b), order)
  {
    if order == [] {
    } else {
      BlocksOfRest(ss, gone, order[1..]);
      BlockOfRest(ss, gone, order[0]);
    }
  }

  lemma {:induction false} BlockOfRest(ss: seq<Survivor>, gone: string, b: string)
    requires gone != b
    ensures InBlock(ss, b) == InBlock(Filter((s: Survivor) => !(s.field.block == gone), ss), b)
  {
    if ss == [] {
    } else {
      BlockOfRest(ss[1..], gone, b);
      FilterConcat((s: Survivor) => s.field.block == b,
                   if ss[0].field.block == gone then [] else [ss[0]],
                   Filter((s: Survivor) => !(s.field.block == gone), ss[1..]));
    }
  }

  lemma {:induction false} PartitionStep(ss: seq<Survivor>, b: string)
    ensures multiset(ss)
         == multiset(InBlock(ss, b)) + multiset(Filter((s: Survivor) => !(s.field.block == b), ss))
  {
    if ss == [] {
    } else {
      PartitionStep(ss[1..], b);
      assert ss == [ss[0]] + ss[1..];
    }
  }

  lemma {:induction false} BlocksPartition(ss: seq<Survivor>, order: seq<string>)
    requires Distinct(order) && forall s :: s in ss ==> s.field.block in order
    ensures multiset(FlatMap((b: string) => InBlock(ss, b), order)) == multiset(ss)
    decreases |order|
  {
    if order == [] {
      forall s ensures multiset(ss)[s] == 0 {
        assert s in multiset(ss) <==> s in ss;
      }
    } else {
      var rest := Filter((s: Survivor) => !(s.field.block == order[0]), ss);
      forall s | s in rest ensures s.field.block in order[1..] {
        FilterMember((s: Survivor) => !(s.field.block == order[0]), ss, s);
      }
      BlocksPartition(rest, order[1..]);
      BlocksOfRest(ss, order[0], order[1..]);
      PartitionStep(ss, order[0]);
      FlatMapConcat((b: string) => InBlock(ss, b), [order[0]], order[1..]);
      FlatMapOne((b: string) => InBlock(ss, b), order[0]);
      assert [order[0]] + order[1..] == order;
    }
  }

  /** The printed fields, in the order of the body, are a rearrangement of the surviving fields. */
  lemma EveryFieldOnce(ss: seq<Survivor>)
    ensures multiset(TopLevel(ss) + FlatMap((b: string) => InBlock(Nested(ss), b), BlockOrder(Nested(ss))))
         == multiset(ss)
  {
    BlockOrderExact(Nested(ss));
    forall s | s in Nested(ss) ensures s.field.block in BlockOrder(Nested(ss)) {
      var i :| 0 <= i < |Nested(ss)| && Nested(ss)[i] == s;
    }
    BlocksPartition(Nested(ss), BlockOrder(Nested(ss)));
    PartitionStep(ss, "");
    SameFilter((s: Survivor) => !(s.field.block == ""), (s: Survivor) => s.field.block != "", ss);
    assert TopLevel(ss) == InBlock(ss, "");
  }
}
