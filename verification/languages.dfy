/**
 * Turning a language name picked from the list of names back into its
 * code: the registry is a dictionary from code to name, the names are
 * offered in dictionary order, and the code is the key at the position of
 * the first occurrence of the chosen name.
 */
module Languages {

  datatype Option<T> = None | Some(value: T)

  /** The registry as its (code, name) entries, in dictionary order. */
  type Registry = seq<(string, string)>

  /** A dictionary holds each key at most once. */
  predicate DistinctCodes(reg: Registry)
  {
    forall i, j :: 0 <= i < j < |reg| ==> reg[i].0 != reg[j].0
  }

  /** `list(languages.keys())` */
  function Codes(reg: Registry): seq<string>
  {
    seq(|reg|, i requires 0 <= i < |reg| => reg[i].0)
  }

  /** `list(languages.values())` */
  function Names(reg: Registry): seq<string>
  {
    seq(|reg|, i requires 0 <= i < |reg| => reg[i].1)
  }

  /**
   * `s.index(x)`: the first position holding `x`, or `None` where the list
   * method would raise `ValueError` because `x` is absent.
   */
  function IndexOf(s: seq<string>, x: string): (r: Option<nat>)
    ensures r.None? <==> x !in s
    ensures r.Some? ==> r.value < |s| && s[r.value] == x
    ensures r.Some? ==> forall j :: 0 <= j < r.value ==> s[j] != x
  {
    if s == [] then None
    else if s[0] == x then Some(0)
    else match IndexOf(s[1..], x)
      case None => None
      case Some(i) => Some(i + 1)
  }

  /** `languages[code]`: the name stored under `code`, if any. */
  function Lookup(reg: Registry, code: string): (r: Option<string>)
    ensures r.None? <==> forall i :: 0 <= i < |reg| ==> reg[i].0 != code
    ensures r.Some? ==> exists i :: 0 <= i < |reg| && reg[i] == (code, r.value)
  {
    if reg == [] then None
    else if reg[0].0 == code then Some(reg[0].1)
    else Lookup(reg[1..], code)
  }

  /** `list(languages.keys())[language_options.index(name)]` */
  function CodeOf(reg: Registry, name: string): (r: Option<string>)
    ensures r.None? <==> name !in Names(reg)
    ensures r.Some? ==> exists i :: 0 <= i < |reg| && reg[i] == (r.value, name) &&
                                    forall j :: 0 <= j < i ==> reg[j].1 != name
  {
    match IndexOf(Names(reg), name)
    case None => None
    case Some(i) =>
      assert forall j :: 0 <= j < |reg| ==> Names(reg)[j] == reg[j].1;
      Some(Codes(reg)[i])
  }

  /**
   * The code chosen for a name offered in the list maps back to that name:
   * `languages[code] == name`.
   */
  lemma CodeOfRoundTrip(reg: Registry, name: string)
    requires DistinctCodes(reg)
    requires name in Names(reg)
    ensures CodeOf(reg, name).Some?
    ensures Lookup(reg, CodeOf(reg, name).value) == Some(name)
  {
  }
}
