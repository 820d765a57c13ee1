/**
 Dot-paths of a JSON-like payload (app/agents/specialists.py and app/agents/core.py): the set of
 all paths, the set of leaf paths, and what those strings do and do not say about the payload.
 */
module JsonPaths {
  import opened Wrappers
  import opened Numerals

  datatype Field = Field(key: string, value: Json)

  /** A payload value; `Model` is a Pydantic model, standing for what it dumps to. */
  datatype Json =
    | Null
    | Scalar(text: string)
    | Object(fields: seq<Field>)
    | List(items: seq<Json>)
    | Model(dumped: Json)

  // ---------------------------------------------------------------- children

  function Count(v: Json): nat {
    match v
    case Object(fields) => |fields|
    case List(items) => |items|
    case _ => 0
  }

  function KeyAt(v: Json, i: nat): string
    requires i < Count(v)
  {
    if v.Object? then v.fields[i].key else Numeral(i)
  }

  function ChildAt(v: Json, i: nat): (child: Json)
    requires i < Count(v)
    ensures child < v
  {
    if v.Object? then v.fields[i].value else v.items[i]
  }

  /** The children of a dictionary are its values under their keys, those of a list its items under their positions. */
  lemma ChildrenExactly(v: Json, i: nat)
    requires i < Count(v)
    ensures match v
            case Object(fields) => Count(v) == |fields| && KeyAt(v, i) == fields[i].key && ChildAt(v, i) == fields[i].value
            case List(items) =>
              && Count(v) == |items| && ChildAt(v, i) == items[i]
              && AllDigits(KeyAt(v, i)) && NumberOf(KeyAt(v, i)) == i
            case _ => false
  {
    NumberOfNumeral(i);
  }

  /** The prefix of a child: `f"{prefix}.{key}" if prefix else str(key)`. */
  function Extend(prefix: string, key: string): string {
    if prefix != [] then prefix + "." + key else key
  }

  // ---------------------------------------------------------------- the two path sets

  /**
   `_grounded_json_paths`: every path, containers included.  With `descend` as in specialists.py,
   which looks inside models; without it as in core.py, which does not.
   */
  function AllPaths(v: Json, prefix: string, descend: bool): set<string>
    decreases v, Count(v) + 1
  {
    (if prefix != [] then {prefix} else {})
    + match v
      case Model(dumped) => if descend then AllPaths(dumped, prefix, descend) else {}
      case _ => ChildPaths(v, Count(v), prefix, descend)
  }

  function ChildPaths(v: Json, n: nat, prefix: string, descend: bool): set<string>
    requires n <= Count(v)
    decreases v, n
  {
    if n == 0 then {}
    else
      ChildPaths(v, n - 1, prefix, descend)
      + AllPaths(ChildAt(v, n - 1), Extend(prefix, KeyAt(v, n - 1)), descend)
  }

  /** `_grounded_json_leaf_paths`, the same in both files. */
  function LeafPaths(v: Json, prefix: string): set<string>
    decreases v, Count(v) + 1
  {
    match v
    case Model(dumped) => LeafPaths(dumped, prefix)
    case Null => {}
    case Scalar(_) => if prefix != [] then {prefix} else {}
    case _ => ChildLeafPaths(v, Count(v), prefix)
  }

  function ChildLeafPaths(v: Json, n: nat, prefix: string): set<string>
    requires n <= Count(v)
    decreases v, n
  {
    if n == 0 then {}
    else
      ChildLeafPaths(v, n - 1, prefix)
      + LeafPaths(ChildAt(v, n - 1), Extend(prefix, KeyAt(v, n - 1)))
  }

  method GroundedJsonPaths(value: Json, prefix: string, descend: bool) returns (paths: set<string>)
    ensures paths == AllPaths(value, prefix, descend)
    decreases value
  {
    paths := {};
    if prefix != [] { paths := paths + {prefix}; }
    if value.Model? {
      if descend {
        var inner := GroundedJsonPaths(value.dumped, prefix, descend);
        paths := paths + inner;
      }
    } else {
      ghost var start := paths;
      for i := 0 to Count(value)
        invariant paths == start + ChildPaths(value, i, prefix, descend)
      {
        var inner := GroundedJsonPaths(ChildAt(value, i), Extend(prefix, KeyAt(value, i)), descend);
        paths := paths + inner;
      }
    }
  }

  method GroundedJsonLeafPaths(value: Json, prefix: string) returns (paths: set<string>)
    ensures paths == LeafPaths(value, prefix)
    decreases value
  {
    match value
    case Model(dumped) => paths := GroundedJsonLeafPaths(dumped, prefix);
    case Null => return {};
    case Scalar(_) => return if prefix == [] then {} else {prefix};
    case _ =>
      paths := {};
      for i := 0 to Count(value)
        invariant paths == ChildLeafPaths(value, i, prefix)
      {
        var inner := GroundedJsonLeafPaths(ChildAt(value, i), Extend(prefix, KeyAt(value, i)));
        paths := paths + inner;
      }
  }

  // ---------------------------------------------------------------- leaf paths are paths

  /** Where models are looked into, every leaf path is a path. */
  lemma {:induction false} LeavesAreAmongPaths(v: Json, prefix: string)
    ensures LeafPaths(v, prefix) <= AllPaths(v, prefix, true)
    decreases v, Count(v) + 1
  {
    match v
    case Model(dumped) => LeavesAreAmongPaths(dumped, prefix);
    case _ => ChildLeavesAreAmongPaths(v, Count(v), prefix);
  }

  lemma {:induction false} ChildLeavesAreAmongPaths(v: Json, n: nat, prefix: string)
    requires n <= Count(v)
    ensures ChildLeafPaths(v, n, prefix) <= ChildPaths(v, n, prefix, true)
    decreases v, n
  {
    if n > 0 {
      ChildLeavesAreAmongPaths(v, n - 1, prefix);
      LeavesAreAmongPaths(ChildAt(v, n - 1), Extend(prefix, KeyAt(v, n - 1)));
    }
  }

  // ---------------------------------------------------------------- nodes and their encodings

  /** Dictionaries have unique keys. */
  predicate UniqueKeys(v: Json)
    decreases v, 0
  {
    match v
    case Model(dumped) => UniqueKeys(dumped)
    case _ =>
      && (forall i, j | 0 <= i < j < Count(v) :: KeyAt(v, i) != KeyAt(v, j))
      && (forall i | 0 <= i < Count(v) :: UniqueKeys(ChildAt(v, i)))
  }

  /** The node reached by following `keys`, if there is one. */
  ghost function NodeAt(v: Json, keys: seq<string>, descend: bool): Option<Json>
    decreases v
  {
    if v.Model? then
      if descend then NodeAt(v.dumped, keys, descend) else if keys == [] then Some(v) else None
    else if keys == [] then Some(v)
    else if i: nat :| i < Count(v) && KeyAt(v, i) == keys[0] then NodeAt(ChildAt(v, i), keys[1..], descend)
    else None
  }
}
