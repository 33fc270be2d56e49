/**
 * JSON-like values as the Python helpers see them after `json.loads`:
 * objects keep their entries in insertion order, as Python dicts do.
 */
module Json {
  import opened Wrappers
  import PyStr

  /**
   * A decoded JSON document. Numbers are integers. An object is meant to be
   * a dict, whose keys are distinct (see `DistinctKeys`); the type does not
   * enforce this.
   */
  datatype Value =
    | JNull
    | JBool(b: bool)
    | JNum(n: int)
    | JStr(s: string)
    | JArr(items: seq<Value>)
    | JObj(fields: seq<(string, Value)>)

  /** No two entries of an object share a key, as in a Python dict. */
  predicate DistinctKeys(fields: seq<(string, Value)>)
  {
    forall i, j :: 0 <= i < j < |fields| ==> fields[i].0 != fields[j].0
  }

  /** The value stored under `key` in an object's entries, if the key is present. */
  function Lookup(fields: seq<(string, Value)>, key: string): Option<Value>
  {
    if |fields| == 0 then None
    else if fields[0].0 == key then Some(fields[0].1)
    else Lookup(fields[1..], key)
  }

  /**
   * A key is missing exactly when no entry has it, and a value found is
   * the value of the first entry with that key.
   */
  lemma {:induction false} LookupFinds(fields: seq<(string, Value)>, key: string)
    ensures Lookup(fields, key).None? <==> forall i :: 0 <= i < |fields| ==> fields[i].0 != key
    ensures Lookup(fields, key).Some? ==>
      exists i :: 0 <= i < |fields| && fields[i] == (key, Lookup(fields, key).value) &&
        forall j :: 0 <= j < i ==> fields[j].0 != key
    decreases |fields|
  {
    if |fields| > 0 && fields[0].0 != key {
      LookupFinds(fields[1..], key);
      assert forall i :: 1 <= i < |fields| ==> fields[1..][i - 1] == fields[i];
      if Lookup(fields, key).Some? {
        var i :| 0 <= i < |fields| - 1 && fields[1..][i] == (key, Lookup(fields, key).value) &&
          forall j :: 0 <= j < i ==> fields[1..][j].0 != key;
        assert fields[i + 1] == (key, Lookup(fields, key).value);
        assert forall j :: 0 <= j < i + 1 ==> fields[j].0 != key;
      }
    } else if |fields| > 0 {
      assert fields[0] == (key, fields[0].1);
    }
  }

  /** In a dict every entry with the key is the one `get` finds. */
  lemma {:induction false} LookupInDict(fields: seq<(string, Value)>, key: string)
    requires DistinctKeys(fields)
    ensures forall i :: 0 <= i < |fields| && fields[i].0 == key ==> Lookup(fields, key) == Some(fields[i].1)
  {
    LookupFinds(fields, key);
  }

  /** Python's `d.get(key, default)` on a dict with entries `fields`. */
  function Get(fields: seq<(string, Value)>, key: string, default: Value): Value
  {
    match Lookup(fields, key)
    case Some(v) => v
    case None => default
  }

  /**
   * Python's `str(v)`, which is what an f-string inserts: a string as it is,
   * `None`, `True`, `False`, an integer in decimal, and a container in its
   * `repr` form.
   */
  function Str(v: Value): string
    decreases v, 2
  {
    match v
    case JStr(s) => s
    case _ => Repr(v)
  }

  /**
   * What `str` gives for each kind of value: a string unchanged, `None`,
   * `True` and `False` by name, an integer as a numeral that reads back as
   * that integer, and a container bracketed.
   */
  lemma StrOf(v: Value)
    ensures v.JStr? ==> Str(v) == v.s
    ensures v.JNull? ==> Str(v) == "None"
    ensures v.JBool? ==> Str(v) == (if v.b then "True" else "False")
    ensures v.JNum? ==> PyStr.IntValue(Str(v)) == v.n && (Str(v)[0] == '-' <==> v.n < 0)
    ensures v.JArr? ==> Str(v)[0] == '[' && Str(v)[|Str(v)| - 1] == ']'
    ensures v.JObj? ==> Str(v)[0] == '{' && Str(v)[|Str(v)| - 1] == '}'
  {
    if v.JNum? {
      PyStr.IntToStringValue(v.n);
    }
  }

  /** Python's `repr(v)`, with strings quoted by single quotes. */
  function Repr(v: Value): string
    decreases v, 1
  {
    match v
    case JNull => "None"
    case JBool(b) => if b then "True" else "False"
    case JNum(n) => PyStr.IntToString(n)
    case JStr(s) => "'" + s + "'"
    case JArr(items) => "[" + PyStr.Join(", ", ReprItems(v, items)) + "]"
    case JObj(fields) => "{" + PyStr.Join(", ", ReprFields(v, fields)) + "}"
  }

  function ReprItems(parent: Value, items: seq<Value>): (r: seq<string>)
    requires forall i :: 0 <= i < |items| ==> items[i] < parent
    ensures |r| == |items|
    ensures forall i :: 0 <= i < |items| ==> r[i] == Repr(items[i])
    decreases parent, 0, |items|
  {
    if |items| == 0 then []
    else ReprItems(parent, items[..|items| - 1]) + [Repr(items[|items| - 1])]
  }

  function ReprFields(parent: Value, fields: seq<(string, Value)>): (r: seq<string>)
    requires forall i :: 0 <= i < |fields| ==> fields[i].1 < parent
    ensures |r| == |fields|
    ensures forall i :: 0 <= i < |fields| ==> r[i] == "'" + fields[i].0 + "': " + Repr(fields[i].1)
    decreases parent, 0, |fields|
  {
    if |fields| == 0 then []
    else
      var (k, x) := fields[|fields| - 1];
      ReprFields(parent, fields[..|fields| - 1]) + ["'" + k + "': " + Repr(x)]
  }
}
