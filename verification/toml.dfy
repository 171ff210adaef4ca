/**
 * An already-parsed TOML document, as the configuration loader receives it.
 * A table is an ordered sequence of key/value pairs in the order the table
 * iterates; nothing here assumes that keys are sorted.
 */
module Toml {
  import opened Wrappers

  datatype Value =
    | Str(text: string)
    | Array(items: seq<Value>)
    | Table(entries: seq<(string, Value)>)
      /** Integers, floats, booleans and datetimes: the loader never reads them. */
    | Scalar

  /** Looks a key up in the entries of a table; the first pair with that key wins. */
  function Get(entries: seq<(string, Value)>, key: string): (r: Option<Value>)
    ensures r.None? <==> forall i :: 0 <= i < |entries| ==> entries[i].0 != key
    ensures r.Some? ==> exists i :: 0 <= i < |entries| && entries[i] == (key, r.value)
  {
    if |entries| == 0 then None
    else if entries[0].0 == key then Some(entries[0].1)
    else Get(entries[1..], key)
  }

  /** `value.get(key)` on any value: only a table has members. */
  function Member(v: Value, key: string): Option<Value>
  {
    if v.Table? then Get(v.entries, key) else None
  }

  /** The entries of a table, and nothing for any other value. */
  function Inner(v: Value): seq<(string, Value)>
  {
    if v.Table? then v.entries else []
  }
}
