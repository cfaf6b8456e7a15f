/**
  The JSON-shaped values the bot reads from Overseerr, Radarr, Sonarr and the
  database, with the Python operations it applies to them: `dict.get`,
  truthiness, `==` against an int or a str, `>=`/`>`, iteration, `str()` and
  `int()`.  Objects keep their key order, as Python dicts do.
*/
module PyJson {
  import opened Wrappers
  import opened PyText

  datatype Json =
    | JNull
    | JBool(b: bool)
    | JInt(i: int)
    | JStr(s: string)
    | JArr(items: seq<Json>)
    | JObj(fields: seq<(string, Json)>)

  /** The value stored under k: the first pair with that key. */
  function Lookup(fields: seq<(string, Json)>, k: string): Option<Json>
  {
    if |fields| == 0 then None
    else if fields[0].0 == k then Some(fields[0].1)
    else Lookup(fields[1..], k)
  }

  /** A key is missing iff no pair has it; a found value is the first pair's with that key. */
  lemma {:induction false} LookupFirst(fields: seq<(string, Json)>, k: string)
    ensures Lookup(fields, k).None? <==> forall i | 0 <= i < |fields| :: fields[i].0 != k
    ensures Lookup(fields, k).Some? ==> exists i | 0 <= i < |fields| ::
      fields[i] == (k, Lookup(fields, k).value) && forall j | 0 <= j < i :: fields[j].0 != k
  {
    if |fields| > 0 && fields[0].0 != k {
      LookupFirst(fields[1..], k);
      assert forall i | 1 <= i < |fields| :: fields[i] == fields[1..][i - 1];
      if Lookup(fields, k).Some? {
        var i :| 0 <= i < |fields[1..]| &&
          fields[1..][i] == (k, Lookup(fields, k).value) && forall j | 0 <= j < i :: fields[1..][j].0 != k;
        assert fields[i + 1] == (k, Lookup(fields, k).value);
        assert forall j | 0 <= j < i + 1 :: fields[j].0 != k by {
          forall j | 0 <= j < i + 1 ensures fields[j].0 != k {
            if j > 0 {
              assert fields[j] == fields[1..][j - 1];
            }
          }
        }
      }
    } else if |fields| > 0 {
      assert fields[0] == (k, fields[0].1);
    }
  }

  /** d.get(k, default) on a dict. */
  function GetOr(d: Json, k: string, default: Json): Json
    requires d.JObj?
  {
    match Lookup(d.fields, k)
    case Some(v) => v
    case None => default
  }

  /** d.get(k) on a dict: a missing key reads as None. */
  function Get(d: Json, k: string): Json
    requires d.JObj?
  {
    GetOr(d, k, JNull)
  }

  /** x.get(k, default) where x may be anything: only a dict has `.get`. */
  function DictGetOr(x: Json, k: string, default: Json): (r: Result<Json>)
    ensures r.Err? <==> !x.JObj?
    ensures r.Err? ==> r.error == AttributeError
  {
    if x.JObj? then Ok(GetOr(x, k, default)) else Err(AttributeError)
  }

  function DictGet(x: Json, k: string): Result<Json> {
    DictGetOr(x, k, JNull)
  }

  /** Python's bool(x). */
  predicate Truthy(x: Json) {
    match x
    case JNull => false
    case JBool(b) => b
    case JInt(i) => i != 0
    case JStr(s) => s != ""
    case JArr(items) => items != []
    case JObj(fields) => fields != []
  }

  /** `a or b`: the first operand when it is truthy, else the second. */
  function Or(a: Json, b: Json): Json {
    if Truthy(a) then a else b
  }

  /** The number a bool or an int stands for (True is 1, False is 0). */
  function NumValue(x: Json): Option<int> {
    match x
    case JBool(b) => Some(if b then 1 else 0)
    case JInt(i) => Some(i)
    case _ => None
  }

  /** Python's `x == n` for an int n. */
  predicate EqInt(x: Json, n: int) {
    NumValue(x) == Some(n)
  }

  /**
    Python's `x >= y` for numbers with numbers and strings with strings; a
    mixed pair raises.  Two lists, which Python compares item by item, are
    treated as raising too.
  */
  function Ge(x: Json, y: Json): (r: Result<bool>)
    ensures r.Err? <==> !((NumValue(x).Some? && NumValue(y).Some?) || (x.JStr? && y.JStr?))
  {
    if NumValue(x).Some? && NumValue(y).Some? then Ok(NumValue(x).value >= NumValue(y).value)
    else if x.JStr? && y.JStr? then Ok(StrLe(y.s, x.s))
    else Err(TypeError)
  }

  /** Python's `x > y`, with the same domain as `>=`. */
  function Gt(x: Json, y: Json): (r: Result<bool>)
    ensures r.Err? <==> !((NumValue(x).Some? && NumValue(y).Some?) || (x.JStr? && y.JStr?))
  {
    if NumValue(x).Some? && NumValue(y).Some? then Ok(NumValue(x).value > NumValue(y).value)
    else if x.JStr? && y.JStr? then Ok(StrLt(y.s, x.s))
    else Err(TypeError)
  }

  /** The keys of an object, in order. */
  function Keys(fields: seq<(string, Json)>): (r: seq<Json>)
    ensures |r| == |fields|
    ensures forall i :: 0 <= i < |fields| ==> r[i] == JStr(fields[i].0)
  {
    seq(|fields|, i requires 0 <= i < |fields| => JStr(fields[i].0))
  }

  /** What `for v in x` visits: list items, dict keys, or the characters of a string. */
  function Iter(x: Json): (r: Result<seq<Json>>)
    ensures r.Err? <==> (x.JNull? || x.JBool? || x.JInt?)
    ensures x.JArr? ==> r == Ok(x.items)
  {
    match x
    case JArr(items) => Ok(items)
    case JObj(fields) => Ok(Keys(fields))
    case JStr(s) => Ok(seq(|s|, i requires 0 <= i < |s| => JStr([s[i]])))
    case _ => Err(TypeError)
  }

  /**
    str(x) for a scalar.  A list or dict prints as its repr, which is not
    modelled: None stands for it.  Every comparison the bot makes with such a
    text is against a word of letters, which a repr (opening with '[' or '{')
    never equals.
  */
  function ScalarStr(x: Json): (r: Option<string>)
    ensures r.None? <==> (x.JArr? || x.JObj?)
    ensures x.JStr? ==> r == Some(x.s)
  {
    match x
    case JNull => Some("None")
    case JBool(b) => Some(if b then "True" else "False")
    case JInt(i) => Some(IntToString(i))
    case JStr(s) => Some(s)
    case _ => None
  }

  /** int(x): bools and ints as numbers, text by int() parsing; None when int() raises. */
  function ToInt(x: Json): (r: Option<int>)
    ensures NumValue(x).Some? ==> r == NumValue(x)
    ensures (x.JNull? || x.JArr? || x.JObj?) ==> r.None?
  {
    match x
    case JBool(_) => NumValue(x)
    case JInt(_) => NumValue(x)
    case JStr(s) => ParseInt(s)
    case _ => None
  }
}
