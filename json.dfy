/**
 * The Python values `json.loads` returns, with the Python semantics the core
 * applies to them: truthiness (`if not x`), `dict.get`, and `str(x)` as used
 * by an f-string.
 */
module Json {
  import opened Wrappers
  import opened PyText

  /**
   * A decoded JSON document. JSON numbers are modelled as Python `int`s only.
   * A `Dict` lists its members as the document gives them; a key may repeat,
   * and the dict `json.loads` builds then keeps the last value given for it.
   */
  datatype Value =
    | Null
    | Bool(b: bool)
    | Int(i: int)
    | Str(s: string)
    | List(items: seq<Value>)
    | Dict(members: seq<(string, Value)>)

  /** Python truthiness: `None`, `False`, `0`, `""`, `[]` and `{}` are false. */
  predicate Truthy(v: Value) {
    match v
    case Null => false
    case Bool(b) => b
    case Int(i) => i != 0
    case Str(s) => s != []
    case List(items) => items != []
    case Dict(members) => members != []
  }

  /** `d.get(key)` on a dict with the given members: the value given last for the key. */
  function Lookup(members: seq<(string, Value)>, key: string): Option<Value>
    decreases |members|
  {
    if members == [] then None
    else if members[|members| - 1].0 == key then Some(members[|members| - 1].1)
    else Lookup(members[..|members| - 1], key)
  }

  /**
   * `d.get(key)` finds a value exactly when some member has that key, and the
   * value is that of the last member with the key.
   */
  lemma {:induction false} LookupFinds(members: seq<(string, Value)>, key: string)
    ensures Lookup(members, key).None? <==> forall i | 0 <= i < |members| :: members[i].0 != key
    ensures Lookup(members, key).Some? ==>
      exists i | 0 <= i < |members| :: members[i] == (key, Lookup(members, key).value)
                                      && forall j | i < j < |members| :: members[j].0 != key
    decreases |members|
  {
    if members != [] {
      var last := |members| - 1;
      var init := members[..last];
      if members[last].0 != key {
        LookupFinds(init, key);
        assert forall i | 0 <= i < last :: members[i] == init[i];
        if Lookup(members, key).Some? {
          var i :| 0 <= i < |init| && init[i] == (key, Lookup(members, key).value)
                   && forall j | i < j < |init| :: init[j].0 != key;
          assert members[i] == (key, Lookup(members, key).value);
        }
      }
    }
  }

  /** `str(v)`: a string is itself, anything else is its `repr`. */
  function PyStr(v: Value): string {
    if v.Str? then v.s else Repr(v)
  }

  /** `repr(v)` for the Python value `v`. */
  function Repr(v: Value): string
    decreases v
  {
    match v
    case Null => "None"
    case Bool(b) => if b then "True" else "False"
    case Int(i) => Decimal(i)
    case Str(s) => QuoteRepr(s)
    case List(items) =>
      "[" + Join(seq(|items|, k requires 0 <= k < |items| => Repr(items[k]))) + "]"
    case Dict(members) =>
      "{" + Join(seq(|members|, k requires 0 <= k < |members| =>
                   assert members[k] in members;
                   QuoteRepr(members[k].0) + ": " + Repr(members[k].1))) + "}"
  }

  /** Joins the parts with `", "`, as `repr` of a list or dict does. */
  function Join(parts: seq<string>): string {
    if parts == [] then ""
    else if |parts| == 1 then parts[0]
    else parts[0] + ", " + Join(parts[1..])
  }

  /**
   * `repr(s)` for a string: single quotes unless `s` holds a single quote and
   * no double quote; the backslash, the chosen quote, newline, carriage return
   * and tab are escaped.
   */
  function QuoteRepr(s: string): string {
    var q := if '\'' in s && '"' !in s then '"' else '\'';
    [q] + Escape(s, q) + [q]
  }

  function Escape(s: string, q: char): string {
    if s == [] then ""
    else
      var c := s[0];
      var e := if c == '\\' then "\\\\"
               else if c == q then ['\\', q]
               else if c == '\n' then "\\n"
               else if c == '\r' then "\\r"
               else if c == '\t' then "\\t"
               else [c];
      e + Escape(s[1..], q)
  }
}
