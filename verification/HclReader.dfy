/** A reader for the part of HCL native syntax that the printer uses: attributes whose values are
    booleans, quoted strings with escapes, lists of them, objects with one member a line and flush
    heredocs, and nested blocks. It follows the HCL Native Syntax Specification and knows nothing
    of the printer; text outside that part, templates included, it refuses. */
module HclReader {
  import opened Wrappers
  import opened Text

  datatype Expr =
    | EBool(flag: bool)
    | EStr(text: string)
    | EList(items: seq<string>)
    | EObject(members: seq<Attribute>)
  datatype Attribute = Attribute(name: string, value: Expr)
  datatype Item = Attr(attr: Attribute) | Block(name: string, attrs: seq<Attribute>)

  // ----- characters and words

  predicate NameChar(c: char) {
    'a' <= c <= 'z' || 'A' <= c <= 'Z' || '0' <= c <= '9' || c == '_' || c == '-'
  }

  predicate IsName(s: string) {
    s != "" && forall i :: 0 <= i < |s| ==> NameChar(s[i])
  }

  /** The number of leading spaces. */
  function Spaces(s: string): (n: nat)
    ensures n <= |s|
  {
    if s != "" && s[0] == ' ' then 1 + Spaces(s[1..]) else 0
  }

  function SkipSpaces(s: string): string {
    s[Spaces(s)..]
  }

  /** A template interpolation or directive starts in the text. */
  predicate HasMarker(s: string) {
    exists i :: 0 <= i < |s| - 1 && s[i] in "$%" && s[i + 1] == '{'
  }

  /** Text that stands for itself between quotes: no quote, escape, line break or template. */
  predicate Literal(s: string) {
    (forall i :: 0 <= i < |s| ==> s[i] != '"' && s[i] != '\\' && s[i] != '\n') && !HasMarker(s)
  }

  // ----- quoted text

  function Prepend(c: char, rest: Option<string>): Option<string> {
    match rest
    case None => None
    case Some(text) => Some([c] + text)
  }

  function Digit(c: char): Option<nat> {
    if '0' <= c <= '9' then Some((c - '0') as nat)
    else if 'a' <= c <= 'f' then Some((c - 'a') as nat + 10)
    else if 'A' <= c <= 'F' then Some((c - 'A') as nat + 10)
    else None
  }

  function Hex(s: string): Option<nat> {
    if s == "" then Some(0)
    else
      match (Hex(s[..|s| - 1]), Digit(s[|s| - 1]))
      case (Some(high), Some(low)) => Some(16 * high + low)
      case _ => None
  }

  /** The character with a code point, where there is one. */
  function Scalar(code: Option<nat>): Option<char> {
    if code.Some? && (code.value < 0xD800 || 0xE000 <= code.value < 0x11_0000) then Some(code.value as char)
    else None
  }

  /** The character an escape stands for, and how many characters the escape takes. */
  function Escape(s: string): (r: Option<(char, nat)>)
    ensures r.Some? ==> 2 <= r.value.1 <= |s|
  {
    if |s| < 2 || s[0] != '\\' then None
    else if s[1] == 'n' then Some(('\n', 2))
    else if s[1] == 'r' then Some(('\r', 2))
    else if s[1] == 't' then Some(('\t', 2))
    else if s[1] == '"' || s[1] == '\\' then Some((s[1], 2))
    else
      var digits := if s[1] == 'u' then 4 else if s[1] == 'U' then 8 else 0;
      if digits == 0 || |s| < 2 + digits then None
      else
        match Scalar(Hex(s[2..2 + digits]))
        case None => None
        case Some(c) => Some((c, 2 + digits))
  }

  /** What the text between quotes stands for, by the rules of the sections "Template Expressions"
      and "Template Literals"; nothing if it is ill-formed or a template starts in it. */
  function Decode(s: string): Option<string>
    decreases |s|
  {
    if s == "" then Some("")
    else if s[0] == '"' || s[0] == '\n' then None
    else if s[0] == '\\' then
      match Escape(s)
      case None => None
      case Some((c, n)) => Prepend(c, Decode(s[n..]))
    else if "$${" <= s || "%%{" <= s then
      match Decode(s[3..])
      case None => None
      case Some(text) => Some([s[0], '{'] + text)
    else if "${" <= s || "%{" <= s then None
    else Prepend(s[0], Decode(s[1..]))
  }

  function Unquote(s: string): Option<string> {
    if |s| >= 2 && s[0] == '"' && s[|s| - 1] == '"' then Decode(s[1..|s| - 1]) else None
  }

  // ----- expressions

  function UnquoteAll(parts: seq<string>): Option<seq<string>> {
    if parts == [] then Some([])
    else
      match (Unquote(Trim(parts[0])), UnquoteAll(parts[1..]))
      case (Some(first), Some(rest)) => Some([first] + rest)
      case _ => None
  }

  function ReadList(inner: string): Option<seq<string>> {
    if inner == "" then Some([]) else UnquoteAll(Split(inner, ','))
  }

  function ReadExpr(s: string): Option<Expr> {
    if s == "true" then Some(EBool(true))
    else if s == "false" then Some(EBool(false))
    else if |s| >= 2 && s[0] == '[' && s[|s| - 1] == ']' then
      match ReadList(s[1..|s| - 1])
      case None => None
      case Some(items) => Some(EList(items))
    else
      match Unquote(s)
      case None => None
      case Some(text) => Some(EStr(text))
  }

  // ----- heredocs

  /** The lines up to the closing marker, which may be indented, and the lines after it. */
  function HeredocBody(lines: seq<string>): (r: Option<(seq<string>, seq<string>)>)
    ensures r.Some? ==> |r.value.1| < |lines|
  {
    if lines == [] then None
    else if Trim(lines[0]) == "EOT" then Some(([], lines[1..]))
    else if HasMarker(lines[0]) then None
    else
      match HeredocBody(lines[1..])
      case None => None
      case Some((body, rest)) => Some(([lines[0]] + body, rest))
  }

  /** The smallest number of leading spaces of any line. */
  function Margin(lines: seq<string>): nat
    requires lines != []
  {
    if |lines| == 1 then Spaces(lines[0])
    else if Spaces(lines[0]) < Margin(lines[1..]) then Spaces(lines[0])
    else Margin(lines[1..])
  }

  function DropEach(n: nat, lines: seq<string>): seq<string> {
    Map((l: string) => if n <= |l| then l[n..] else "", lines)
  }

  /** The flush rule of the section "Template Literals" of the HCL Native Syntax Specification:
      the smallest number of leading spaces is removed from the start of every line. */
  function Flush(lines: seq<string>): string {
    if lines == [] then "" else Unlines(DropEach(Margin(lines), lines))
  }

  // ----- bodies

  /** Cuts at the first ` = `. */
  function SplitAssign(s: string): Option<(string, string)> {
    if " = " <= s then Some(("", s[3..]))
    else if s == "" then None
    else
      match SplitAssign(s[1..])
      case None => None
      case Some((name, value)) => Some(([s[0]] + name, value))
  }

  /** `{ name = value }` */
  function ReadInlineObject(s: string): Option<Expr> {
    if |s| < 4 || !("{ " <= s) || !EndsWith(s, " }") then None
    else
      match SplitAssign(s[2..|s| - 2])
      case None => None
      case Some((name, value)) =>
        match ReadExpr(value)
        case None => None
        case Some(e) => if IsName(name) then Some(EObject([Attribute(name, e)])) else None
  }

  /** A member of an object on a line of its own; its name may be padded. */
  function ReadMember(line: string): Option<Attribute> {
    match SplitAssign(SkipSpaces(line))
    case None => None
    case Some((name, value)) =>
      var e := if "{" <= value then ReadInlineObject(value) else ReadExpr(value);
      if e.None? || !IsName(TrimRight(name)) then None else Some(Attribute(TrimRight(name), e.value))
  }

  /** The members up to the closing brace, and the lines after it. */
  function ReadMembers(lines: seq<string>): (r: Option<(seq<Attribute>, seq<string>)>)
    ensures r.Some? ==> |r.value.1| < |lines|
  {
    if lines == [] then None
    else if SkipSpaces(lines[0]) == "}" then Some(([], lines[1..]))
    else
      match (ReadMember(lines[0]), ReadMembers(lines[1..]))
      case (Some(a), Some((more, rest))) => Some(([a] + more, rest))
      case _ => None
  }

  function ReadAttribute(lines: seq<string>): (r: Option<(Attribute, seq<string>)>)
    requires lines != []
    ensures r.Some? ==> |r.value.1| < |lines|
  {
    match SplitAssign(SkipSpaces(lines[0]))
    case None => None
    case Some((name, value)) =>
      if !IsName(name) then None
      else if value == "<<-EOT" then
        match HeredocBody(lines[1..])
        case None => None
        case Some((body, rest)) => Some((Attribute(name, EStr(Flush(body))), rest))
      else if value == "{" then
        match ReadMembers(lines[1..])
        case None => None
        case Some((members, rest)) => Some((Attribute(name, EObject(members)), rest))
      else
        match ReadExpr(value)
        case None => None
        case Some(e) => Some((Attribute(name, e), lines[1..]))
  }

  /** The attributes up to the closing brace, and the lines after it. */
  function ReadBlock(lines: seq<string>): (r: Option<(seq<Attribute>, seq<string>)>)
    ensures r.Some? ==> |r.value.1| < |lines|
    decreases |lines|
  {
    if lines == [] then None
    else if SkipSpaces(lines[0]) == "" then ReadBlock(lines[1..])
    else if SkipSpaces(lines[0]) == "}" then Some(([], lines[1..]))
    else
      match ReadAttribute(lines)
      case None => None
      case Some((a, rest)) =>
        match ReadBlock(rest)
        case None => None
        case Some((more, after)) => Some(([a] + more, after))
  }

  function ReadItems(lines: seq<string>): Option<seq<Item>>
    decreases |lines|
  {
    if lines == [] then Some([])
    else
      var t := SkipSpaces(lines[0]);
      if t == "" then ReadItems(lines[1..])
      else if EndsWith(t, " {") && IsName(t[..|t| - 2]) then
        match ReadBlock(lines[1..])
        case None => None
        case Some((attrs, rest)) => Cons(Block(t[..|t| - 2], attrs), ReadItems(rest))
      else
        match ReadAttribute(lines)
        case None => None
        case Some((a, rest)) => Cons(Attr(a), ReadItems(rest))
  }

  function Cons(item: Item, rest: Option<seq<Item>>): Option<seq<Item>> {
    match rest
    case None => None
    case Some(items) => Some([item] + items)
  }

  function ReadBody(text: string): Option<seq<Item>> {
    ReadItems(Split(text, '\n'))
  }
}
