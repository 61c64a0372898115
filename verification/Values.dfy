/** Input values as the server decodes them from JSON. */
module Values {
  import opened Text

  /** `Other` is a number or an object, of which only Go's `%v` text matters here. */
  datatype Value = Null | Bool(flag: bool) | Str(text: string) | Arr(items: seq<Value>) | Other(shown: string)

  type Inputs = map<string, Value>

  /** Go's `%v`. */
  function Show(v: Value): string {
    match v
    case Null => "<nil>"
    case Bool(flag) => if flag then "true" else "false"
    case Str(text) => text
    case Arr(items) => "[" + Join(ShowAll(items), " ") + "]"
    case Other(shown) => shown
  }

  function ShowAll(items: seq<Value>): seq<string> {
    if items == [] then [] else [Show(items[0])] + ShowAll(items[1..])
  }

  /** Text is printed as it is, a flag as `true` or `false`, null as `<nil>`, and an array as what its items
      print, spaces between, in brackets. */
  lemma ShowExact(v: Value)
    ensures v.Str? ==> Show(v) == v.text
    ensures v == Bool(true) ==> Show(v) == "true"
    ensures v == Bool(false) ==> Show(v) == "false"
    ensures v == Null ==> Show(v) == "<nil>"
    ensures v.Arr? ==> exists shown: seq<string> ::
              && |shown| == |v.items| && (forall i :: 0 <= i < |shown| ==> shown[i] == Show(v.items[i]))
              && Show(v) == "[" + Join(shown, " ") + "]"
  {
    if v.Arr? {
      ShownAll(v.items);
    }
  }

  lemma {:induction false} ShownAll(items: seq<Value>)
    ensures |ShowAll(items)| == |items| && forall i :: 0 <= i < |items| ==> ShowAll(items)[i] == Show(items[i])
  {
    if items == [] {
    } else {
      ShownAll(items[1..]);
    }
  }
}
