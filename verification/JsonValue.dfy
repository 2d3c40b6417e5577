/** The value type behind every message: json_value.cpp and value.h.

    A C++ `char` is a Dafny `char` and a byte string is a `string`; every statement is made for all
    characters, the 256 byte values among them. Arrays and objects are both a `std::map` from
    `CZString` to `Value`, kept here as the sequence of its entries in map order, because printing and
    comparison walk the map in that order. */
module JsonValue {
  const MAX_INT := 0x7FFF_FFFF
  const MAX_UINT := 0xFFFF_FFFF

  /** CZString: an array index or a member name. */
  datatype Key = Index(index: nat) | Name(name: string)

  datatype Entry = Entry(key: Key, value: Value)

  datatype Value =
    | Null
    | Int(i: int)
    | UInt(u: int)
    | Real(r: real)
    | String(s: string)
    | Bool(b: bool)
    | Array(items: seq<Entry>)
    | Object(members: seq<Entry>)

  // ---- C strings ----

  ghost predicate NulFree(s: string) {
    forall i | 0 <= i < |s| :: s[i] != '\0'
  }

  /** What `strlen`/`strdup`/`c_str()` see of a string: the text before its first NUL. */
  function CString(s: string): (r: string)
    ensures NulFree(r) && r <= s
    ensures NulFree(s) ==> r == s
    ensures r == s || s[|r|] == '\0'
  {
    if s == [] || s[0] == '\0' then [] else [s[0]] + CString(s[1..])
  }

  /** `strcmp(a, b) < 0` on NUL-free strings. */
  predicate StrLess(a: string, b: string) {
    b != [] && (a == [] || a[0] < b[0] || (a[0] == b[0] && StrLess(a[1..], b[1..])))
  }

  lemma {:induction false} StrLessTransitive(a: string, b: string, c: string)
    requires StrLess(a, b) && StrLess(b, c)
    ensures StrLess(a, c)
  {
    if a != [] && a[0] == b[0] && b[0] == c[0] {
      StrLessTransitive(a[1..], b[1..], c[1..]);
    }
  }

  lemma {:induction false} StrLessTotal(a: string, b: string)
    ensures a == b ==> !StrLess(a, b)
    ensures a != b ==> StrLess(a, b) != StrLess(b, a)
  {
    if a != [] && b != [] && a[0] == b[0] {
      assert a == [a[0]] + a[1..] && b == [b[0]] + b[1..];
      StrLessTotal(a[1..], b[1..]);
    }
  }

  // ---- Keys in map order ----

  /** CZString::operator<. Names and indices never meet in one map; the last case only makes the order total. */
  predicate KeyLess(a: Key, b: Key) {
    match (a, b)
    case (Index(i), Index(j)) => i < j
    case (Name(m), Name(n)) => StrLess(m, n)
    case (Index(_), Name(_)) => true
    case (Name(_), Index(_)) => false
  }

  lemma KeyLessTransitive(a: Key, b: Key, c: Key)
    requires KeyLess(a, b) && KeyLess(b, c)
    ensures KeyLess(a, c)
  {
    if a.Name? {
      StrLessTransitive(a.name, b.name, c.name);
    }
  }

  lemma KeyLessTotal(a: Key, b: Key)
    ensures a == b ==> !KeyLess(a, b)
    ensures a != b ==> KeyLess(a, b) != KeyLess(b, a)
  {
    if a.Name? && b.Name? {
      StrLessTotal(a.name, b.name);
    }
  }

  // ---- The ordered map ----

  ghost predicate Sorted(es: seq<Entry>) {
    forall i, j | 0 <= i < j < |es| :: KeyLess(es[i].key, es[j].key)
  }

  ghost predicate HasKey(es: seq<Entry>, k: Key) {
    exists i | 0 <= i < |es| :: es[i].key == k
  }

  /** `find`, with an absent key read as the static `Value::null`. */
  function Get(es: seq<Entry>, k: Key): Value {
    if es == [] then Null else if es[0].key == k then es[0].value else Get(es[1..], k)
  }

  /** `lower_bound`, then overwrite or insert in front of it. */
  function Put(es: seq<Entry>, k: Key, v: Value): (r: seq<Entry>)
    ensures |es| <= |r|
  {
    if es == [] then [Entry(k, v)]
    else if KeyLess(es[0].key, k) then [es[0]] + Put(es[1..], k, v)
    else if es[0].key == k then [Entry(k, v)] + es[1..]
    else [Entry(k, v)] + es
  }

  /** The non-const `operator[]`: the entry for `k` exists afterwards, new ones holding null. */
  function Resolve(es: seq<Entry>, k: Key): seq<Entry> {
    Put(es, k, Get(es, k))
  }

  lemma SortedTail(es: seq<Entry>)
    requires Sorted(es) && es != []
    ensures Sorted(es[1..])
    ensures forall i | 0 <= i < |es[1..]| :: KeyLess(es[0].key, es[1..][i].key)
  {}

  /** Every entry after a put is the new one or an old one with another key. */
  lemma {:induction false} PutEntries(es: seq<Entry>, k: Key, v: Value)
    ensures forall e | e in Put(es, k, v) :: e == Entry(k, v) || e in es
    ensures Entry(k, v) in Put(es, k, v)
    ensures forall e | e in es && e.key != k :: e in Put(es, k, v)
  {
    if es != [] {
      var tail := es[1..];
      assert es == [es[0]] + tail;
      if KeyLess(es[0].key, k) {
        PutEntries(tail, k, v);
      }
    }
  }

  lemma {:induction false} PutSorted(es: seq<Entry>, k: Key, v: Value)
    requires Sorted(es)
    ensures Sorted(Put(es, k, v))
  {
    if es != [] {
      var tail := es[1..];
      SortedTail(es);
      KeyLessTotal(es[0].key, k);
      if KeyLess(es[0].key, k) {
        PutSorted(tail, k, v);
        PutEntries(tail, k, v);
        var r := Put(tail, k, v);
        forall i | 0 <= i < |r|
          ensures KeyLess(es[0].key, r[i].key)
        {
          assert r[i] in r;
          if r[i] != Entry(k, v) {
            assert r[i] in tail;
          }
        }
      } else if es[0].key != k {
        forall i | 0 < i < |es|
          ensures KeyLess(k, es[i].key)
        {
          KeyLessTransitive(k, es[0].key, es[i].key);
        }
      }
    }
  }

  lemma {:induction false} GetAbsent(es: seq<Entry>, k: Key)
    requires forall i | 0 <= i < |es| :: es[i].key != k
    ensures Get(es, k) == Null
  {
    if es != [] {
      GetAbsent(es[1..], k);
    }
  }

  lemma {:induction false} GetPut(es: seq<Entry>, k: Key, v: Value, q: Key)
    requires Sorted(es)
    ensures Get(Put(es, k, v), q) == if q == k then v else Get(es, q)
  {
    if es != [] {
      SortedTail(es);
      KeyLessTotal(es[0].key, k);
      if KeyLess(es[0].key, k) {
        GetPut(es[1..], k, v, q);
        assert Put(es, k, v)[1..] == Put(es[1..], k, v);
      } else if es[0].key == k {
        assert Put(es, k, v)[1..] == es[1..];
      } else {
        assert Put(es, k, v)[1..] == es;
      }
    }
  }

  /** Writing twice through one reference keeps the last value. */
  lemma {:induction false} PutPut(es: seq<Entry>, k: Key, v: Value, w: Value)
    ensures Put(Put(es, k, v), k, w) == Put(es, k, w)
  {
    KeyLessTotal(k, k);
    if es != [] {
      if KeyLess(es[0].key, k) {
        PutPut(es[1..], k, v, w);
        assert Put(es, k, v)[1..] == Put(es[1..], k, v);
      }
    }
  }

  /** A key beyond every key in the map is appended. */
  lemma {:induction false} PutLast(es: seq<Entry>, k: Key, v: Value)
    requires forall i | 0 <= i < |es| :: KeyLess(es[i].key, k)
    ensures Put(es, k, v) == es + [Entry(k, v)]
  {
    if es != [] {
      PutLast(es[1..], k, v);
      assert es == [es[0]] + es[1..];
    }
  }

  lemma {:induction false} GetMember(es: seq<Entry>, i: nat)
    requires Sorted(es) && i < |es|
    ensures Get(es, es[i].key) == es[i].value
  {
    if i > 0 {
      KeyLessTotal(es[0].key, es[i].key);
      SortedTail(es);
      GetMember(es[1..], i - 1);
    }
  }

  // ---- Values ----

  /** What the constructors and operations of `Value` maintain: 32-bit integers, C strings, ordered maps. */
  ghost predicate WellFormed(v: Value) {
    match v
    case Null => true
    case Int(i) => -MAX_INT - 1 <= i <= MAX_INT
    case UInt(u) => 0 <= u <= MAX_UINT
    case Real(_) => true
    case String(s) => NulFree(s)
    case Bool(_) => true
    case Array(items) =>
      Sorted(items) && (forall k | 0 <= k < |items| :: items[k].key.Index? && WellFormed(items[k].value))
    case Object(members) =>
      Sorted(members) &&
      (forall k | 0 <= k < |members| ::
        members[k].key.Name? && NulFree(members[k].key.name) && WellFormed(members[k].value))
  }

  /** Value::size(): the highest index + 1 for an array, the number of members for an object. */
  function Size(v: Value): nat {
    match v
    case Array(items) =>
      if items != [] && items[|items| - 1].key.Index? then items[|items| - 1].key.index + 1 else 0
    case Object(members) => |members|
    case _ => 0
  }

  /** The const `operator[](UInt)` of an array. */
  function ItemAt(items: seq<Entry>, index: nat): Value {
    Get(items, Index(index))
  }

  lemma WellFormedGet(v: Value, k: Key)
    requires WellFormed(v)
    requires v.Array? || v.Object?
    ensures WellFormed(Get(if v.Array? then v.items else v.members, k))
  {
    var es := if v.Array? then v.items else v.members;
    if HasKey(es, k) {
      var i :| 0 <= i < |es| && es[i].key == k;
      GetMember(es, i);
    } else {
      GetAbsent(es, k);
    }
  }

  lemma WellFormedPutItem(items: seq<Entry>, index: nat, v: Value)
    requires WellFormed(Array(items)) && WellFormed(v)
    ensures WellFormed(Array(Put(items, Index(index), v)))
  {
    var r := Put(items, Index(index), v);
    PutSorted(items, Index(index), v);
    PutEntries(items, Index(index), v);
    forall k | 0 <= k < |r|
      ensures r[k].key.Index? && WellFormed(r[k].value)
    {
      assert r[k] in r;
      if r[k] in items {
        var i :| 0 <= i < |items| && items[i] == r[k];
      }
    }
  }

  lemma WellFormedPutMember(members: seq<Entry>, name: string, v: Value)
    requires WellFormed(Object(members)) && WellFormed(v) && NulFree(name)
    ensures WellFormed(Object(Put(members, Name(name), v)))
  {
    var r := Put(members, Name(name), v);
    PutSorted(members, Name(name), v);
    PutEntries(members, Name(name), v);
    forall k | 0 <= k < |r|
      ensures r[k].key.Name? && NulFree(r[k].key.name) && WellFormed(r[k].value)
    {
      assert r[k] in r;
      if r[k] in members {
        var i :| 0 <= i < |members| && members[i] == r[k];
      }
    }
  }

  /** The size is the least bound on the indices. */
  lemma SizeBound(items: seq<Entry>)
    requires WellFormed(Array(items))
    ensures forall k | 0 <= k < |items| :: items[k].key.index < Size(Array(items))
    ensures items != [] ==> HasKey(items, Index(Size(Array(items)) - 1))
    ensures Size(Array(items)) == 0 <==> items == []
  {
    forall k | 0 <= k < |items|
      ensures items[k].key.index < Size(Array(items))
    {
      if k < |items| - 1 {
        assert KeyLess(items[k].key, items[|items| - 1].key);
      }
    }
    if items != [] {
      assert items[|items| - 1].key == Index(Size(Array(items)) - 1);
    }
  }

  // ---- Measure ----

  /** Number of nodes and entries: the termination measure of what recurses through values. */
  function Weight(v: Value): nat {
    1 + match v
        case Array(items) => EntriesWeight(items)
        case Object(members) => EntriesWeight(members)
        case _ => 0
  }

  function EntriesWeight(es: seq<Entry>): nat {
    if es == [] then 0 else EntryWeight(es[0]) + EntriesWeight(es[1..])
  }

  function EntryWeight(e: Entry): nat {
    1 + Weight(e.value)
  }

  lemma WeightStep(es: seq<Entry>)
    requires es != []
    ensures EntriesWeight(es) == EntryWeight(es[0]) + EntriesWeight(es[1..])
  {}

  lemma {:induction false} GetWeight(es: seq<Entry>, k: Key)
    requires es != []
    ensures Weight(Get(es, k)) < EntriesWeight(es)
  {
    WeightStep(es);
    if es[0].key != k && es[1..] != [] {
      GetWeight(es[1..], k);
    }
  }
}
