/** Positions inside a value: the `Value *` that `Reader::nodes_` holds, as paths from the root. */
module Nodes {
  import opened JsonValue

  type Path = seq<Key>

  function Entries(v: Value): seq<Entry> {
    match v
    case Array(items) => items
    case Object(members) => members
    case _ => []
  }

  function WithEntries(v: Value, es: seq<Entry>): Value {
    match v
    case Array(_) => Array(es)
    case Object(_) => Object(es)
    case _ => v
  }

  /** `*node`. */
  function GetAt(v: Value, path: Path): Value
    decreases |path|
  {
    if path == [] then v else GetAt(Get(Entries(v), path[0]), path[1..])
  }

  /** `*node = x`. */
  function SetAt(v: Value, path: Path, x: Value): Value
    decreases |path|
  {
    if path == [] then x
    else WithEntries(v, Put(Entries(v), path[0], SetAt(Get(Entries(v), path[0]), path[1..], x)))
  }

  /** The node exists: every step leads to an entry of a container in map order. */
  ghost predicate Valid(v: Value, path: Path)
    decreases |path|
  {
    path == [] ||
    ((v.Array? || v.Object?) && Sorted(Entries(v)) && HasKey(Entries(v), path[0])
     && Valid(Get(Entries(v), path[0]), path[1..]))
  }

  lemma {:induction false} GetPutSame(es: seq<Entry>, k: Key, v: Value)
    ensures Get(Put(es, k, v), k) == v
  {
    if es != [] {
      KeyLessTotal(es[0].key, k);
      if KeyLess(es[0].key, k) {
        GetPutSame(es[1..], k, v);
        assert Put(es, k, v)[1..] == Put(es[1..], k, v);
      }
    }
  }

  lemma PutHasKey(es: seq<Entry>, k: Key, v: Value)
    ensures HasKey(Put(es, k, v), k)
  {
    PutEntries(es, k, v);
    var i :| 0 <= i < |Put(es, k, v)| && Put(es, k, v)[i] == Entry(k, v);
  }

  lemma {:induction false} PutSame(es: seq<Entry>, k: Key)
    requires Sorted(es) && HasKey(es, k)
    ensures Put(es, k, Get(es, k)) == es
  {
    var i :| 0 <= i < |es| && es[i].key == k;
    KeyLessTotal(es[0].key, k);
    if i > 0 {
      assert es[1..][i - 1].key == k;
      PutSame(es[1..], k);
    }
    assert es == [es[0]] + es[1..];
  }

  /** Assigning through a node is seen through it, keeps it valid, and a second assignment replaces the first. */
  lemma {:induction false} Assign(v: Value, path: Path, x: Value, y: Value)
    requires Valid(v, path)
    ensures GetAt(SetAt(v, path, x), path) == x && Valid(SetAt(v, path, x), path)
    ensures SetAt(SetAt(v, path, x), path, y) == SetAt(v, path, y)
    decreases |path|
  {
    if path != [] {
      var es, k := Entries(v), path[0];
      var inner := SetAt(Get(es, k), path[1..], x);
      Assign(Get(es, k), path[1..], x, y);
      GetPutSame(es, k, inner);
      PutSorted(es, k, inner);
      PutHasKey(es, k, inner);
      PutPut(es, k, inner, SetAt(Get(es, k), path[1..], y));
    }
  }

  /** Assigning a node its own value changes nothing. */
  lemma {:induction false} AssignSame(v: Value, path: Path)
    requires Valid(v, path)
    ensures SetAt(v, path, GetAt(v, path)) == v
    decreases |path|
  {
    if path != [] {
      AssignSame(Get(Entries(v), path[0]), path[1..]);
      PutSame(Entries(v), path[0]);
    }
  }

  /** The child of a container node that has its key is a valid node, and assigning to it puts one
      entry of the container. */
  lemma {:induction false} Child(v: Value, path: Path, k: Key, x: Value)
    requires Valid(v, path) && (GetAt(v, path).Array? || GetAt(v, path).Object?)
    requires Sorted(Entries(GetAt(v, path))) && HasKey(Entries(GetAt(v, path)), k)
    ensures Valid(v, path + [k])
    ensures GetAt(v, path + [k]) == Get(Entries(GetAt(v, path)), k)
    ensures SetAt(v, path + [k], x)
         == SetAt(v, path, WithEntries(GetAt(v, path), Put(Entries(GetAt(v, path)), k, x)))
    decreases |path|
  {
    if path == [] {
      assert (path + [k])[1..] == [];
    } else {
      assert (path + [k])[1..] == path[1..] + [k];
      Child(Get(Entries(v), path[0]), path[1..], k, x);
    }
  }

  /** operator[] on the container at a node: the entry exists afterwards, and what is assigned to it
      replaces what the container held for the key. */
  lemma ResolveChild(v: Value, path: Path, k: Key, x: Value)
    requires Valid(v, path) && (GetAt(v, path).Array? || GetAt(v, path).Object?)
    requires Sorted(Entries(GetAt(v, path)))
    ensures var here := GetAt(v, path);
      var resolved := SetAt(v, path, WithEntries(here, Resolve(Entries(here), k)));
      && Valid(resolved, path + [k])
      && GetAt(resolved, path + [k]) == Get(Entries(here), k)
      && SetAt(resolved, path + [k], x) == SetAt(v, path, WithEntries(here, Put(Entries(here), k, x)))
  {
    var here := GetAt(v, path);
    var es, es' := Entries(here), Resolve(Entries(here), k);
    var resolved := SetAt(v, path, WithEntries(here, es'));
    PutSorted(es, k, Get(es, k));
    PutHasKey(es, k, Get(es, k));
    GetPutSame(es, k, Get(es, k));
    PutPut(es, k, Get(es, k), x);
    Assign(v, path, WithEntries(here, es'), WithEntries(here, Put(es', k, x)));
    Child(resolved, path, k, x);
  }
}
