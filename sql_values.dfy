/**
 The values the data-access layer hands to and receives from the SQLite engine:
 bound parameters, result rows, and the ordered column/value mapping that
 `insert` and `update` take (a Python dict, iterated in insertion order).
 */
module SqlValues {

  /** Python's `None` versus a present value, for the layer's own "absent" results. */
  datatype Option<T> = None | Some(value: T)

  /** A value SQLite can bind or return. `Null` is SQL NULL, which Python sees as `None`. */
  datatype Value =
    | Null
    | Integer(i: int)
    | Real(r: real)
    | Text(s: string)
    | Blob(bytes: seq<bv8>)

  /** A result row, addressed by position. */
  type Row = seq<Value>

  /** One dict entry: a column name and the value bound for it. */
  type Field = (string, Value)

  /** A Python dict never holds the same key twice. */
  predicate DistinctKeys(d: seq<Field>)
  {
    forall i, j :: 0 <= i < j < |d| ==> d[i].0 != d[j].0
  }

  /** A dict of column names to values, in iteration (insertion) order. */
  type FieldMap = d: seq<Field> | DistinctKeys(d)

  /** `data.keys()`, in iteration order. */
  function Keys(data: FieldMap): seq<string>
  {
    seq(|data|, i requires 0 <= i < |data| => data[i].0)
  }

  /** `tuple(data.values())`, in iteration order. */
  function ValuesOf(data: FieldMap): seq<Value>
  {
    seq(|data|, i requires 0 <= i < |data| => data[i].1)
  }
}
