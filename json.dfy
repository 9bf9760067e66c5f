/** Parsed JSON values as Python holds them after `json.load`, and the
    pieces of Python's object model the card code relies on: `dict.get`,
    truthiness, `str()` and `==`. Numbers are integers only. */
module Json {
  import opened Wrappers
  import Text

  datatype Json =
    | JNull
    | JBool(b: bool)
    | JInt(i: int)
    | JStr(s: string)
    | JArr(items: seq<Json>)
    | JObj(fields: Dict)

  /** One `key: value` entry of a dict. */
  datatype Field = Field(key: string, val: Json)

  /** A Python dict as its entries in insertion order. The model assumes,
      without enforcing it, that no key appears twice, as in a dict built by
      `json.load`; on a sequence that does repeat a key, `Get` reads the
      first entry, where `json.load` would have kept the last. */
  type Dict = seq<Field>

  /** `key in d`. */
  predicate HasKey(d: Dict, key: string) {
    exists i :: 0 <= i < |d| && d[i].key == key
  }

  /** `d[key]` when the key is present. */
  function Get(d: Dict, key: string): (r: Option<Json>)
    ensures r.Some? <==> HasKey(d, key)
  {
    if d == [] then None
    else if d[0].key == key then Some(d[0].val)
    else Get(d[1..], key)
  }

  /** `d.get(key, default)`. */
  function GetOr(d: Dict, key: string, default: Json): Json {
    match Get(d, key)
    case Some(v) => v
    case None => default
  }

  /** Python truthiness: `None`, `False`, `0`, `""`, `[]` and `{}` are
      false, everything else is true. */
  predicate Truthy(v: Json) {
    match v
    case JNull => false
    case JBool(b) => b
    case JInt(i) => i != 0
    case JStr(s) => s != ""
    case JArr(items) => items != []
    case JObj(fields) => fields != []
  }

  /** Python's `str(v)`. */
  function PyStr(v: Json): string {
    match v
    case JStr(s) => s
    case _ => PyRepr(v)
  }

  /** Python's `repr(v)`; strings are quoted with `'` and not escaped. */
  function PyRepr(v: Json): string
    decreases v
  {
    match v
    case JNull => "None"
    case JBool(b) => if b then "True" else "False"
    case JInt(i) => Text.IntString(i)
    case JStr(s) => "'" + s + "'"
    case JArr(items) => "[" + ReprItems(items) + "]"
    case JObj(fields) => "{" + ReprFields(fields) + "}"
  }

  function ReprItems(items: seq<Json>): string
    decreases items
  {
    if items == [] then ""
    else if |items| == 1 then PyRepr(items[0])
    else PyRepr(items[0]) + ", " + ReprItems(items[1..])
  }

  function ReprFields(fields: Dict): string
    decreases fields
  {
    if fields == [] then ""
    else
      var entry := "'" + fields[0].key + "': " + PyRepr(fields[0].val);
      if |fields| == 1 then entry else entry + ", " + ReprFields(fields[1..])
  }

  /** The number a bool or int stands for in a numeric comparison
      (`True == 1` in Python). */
  function NumberOf(v: Json): int
    requires v.JBool? || v.JInt?
  {
    if v.JBool? then (if v.b then 1 else 0) else v.i
  }

  /** Python's `a == b` on parsed JSON values: bools compare as the numbers
      0 and 1, lists element by element, dicts by key set and value. */
  predicate PyEq(a: Json, b: Json)
    decreases a
  {
    match a
    case JNull => b.JNull?
    case JBool(_) => (b.JBool? || b.JInt?) && NumberOf(a) == NumberOf(b)
    case JInt(_) => (b.JBool? || b.JInt?) && NumberOf(a) == NumberOf(b)
    case JStr(s) => b.JStr? && b.s == s
    case JArr(xs) =>
      b.JArr? && |xs| == |b.items| &&
      forall i :: 0 <= i < |xs| ==> PyEq(xs[i], b.items[i])
    case JObj(fs) =>
      b.JObj? &&
      (forall j :: 0 <= j < |b.fields| ==> HasKey(fs, b.fields[j].key)) &&
      forall i :: 0 <= i < |fs| ==> FieldEq(fs[i], b.fields)
  }

  predicate FieldEq(f: Field, other: Dict)
    decreases f
  {
    match Get(other, f.key)
    case Some(w) => PyEq(f.val, w)
    case None => false
  }
}
