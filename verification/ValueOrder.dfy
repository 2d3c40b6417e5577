/** Value::operator< and operator== (json_value.cpp): a strict total order on well-formed values,
    whose equivalence is operator==. */
module ValueOrder {
  import opened JsonValue

  /** Position in `enum ValueType`. */
  function TypeRank(v: Value): nat {
    match v
    case Null => 0
    case Int(_) => 1
    case UInt(_) => 2
    case Real(_) => 3
    case String(_) => 4
    case Bool(_) => 5
    case Array(_) => 6
    case Object(_) => 7
  }

  /** Value::operator<: type, then payload; containers by number of entries, then lexicographically. */
  predicate Less(a: Value, b: Value)
    decreases Weight(a) + Weight(b)
  {
    if TypeRank(a) != TypeRank(b) then TypeRank(a) < TypeRank(b)
    else
      match a
      case Null => false
      case Int(i) => i < b.i
      case UInt(u) => u < b.u
      case Real(r) => r < b.r
      case String(s) => StrLess(s, b.s)
      case Bool(p) => !p && b.b
      case Array(items) =>
        if |items| != |b.items| then |items| < |b.items| else LexLess(items, b.items)
      case Object(members) =>
        if |members| != |b.members| then |members| < |b.members| else LexLess(members, b.members)
  }

  /** `std::lexicographical_compare` over the entries of two maps, each compared as a `std::pair`. */
  predicate LexLess(es: seq<Entry>, fs: seq<Entry>)
    decreases EntriesWeight(es) + EntriesWeight(fs), 1
  {
    if fs == [] then false
    else if es == [] then true
    else
      WeightStep(es); WeightStep(fs);
      if EntryLess(es[0], fs[0]) then true
      else if EntryLess(fs[0], es[0]) then false
      else LexLess(es[1..], fs[1..])
  }

  /** `std::pair::operator<`. */
  predicate EntryLess(e: Entry, f: Entry)
    decreases EntryWeight(e) + EntryWeight(f), 0
  {
    KeyLess(e.key, f.key) || (!KeyLess(f.key, e.key) && Less(e.value, f.value))
  }

  /** Value::operator==. */
  predicate Equal(a: Value, b: Value)
    decreases Weight(a)
  {
    TypeRank(a) == TypeRank(b) &&
    match a
    case Null => true
    case Int(i) => i == b.i
    case UInt(u) => u == b.u
    case Real(r) => r == b.r
    case String(s) => s == b.s
    case Bool(p) => p == b.b
    case Array(items) => |items| == |b.items| && EntriesEqual(items, b.items)
    case Object(members) => |members| == |b.members| && EntriesEqual(members, b.members)
  }

  predicate EntriesEqual(es: seq<Entry>, fs: seq<Entry>)
    requires |es| == |fs|
    decreases EntriesWeight(es)
  {
    es == [] ||
    (WeightStep(es);
     es[0].key == fs[0].key && Equal(es[0].value, fs[0].value) && EntriesEqual(es[1..], fs[1..]))
  }

  // ---- operator== is equality of the modelled values ----

  lemma {:induction false} EqualIsIdentity(a: Value, b: Value)
    ensures Equal(a, b) <==> a == b
    decreases Weight(a)
  {
    if TypeRank(a) == TypeRank(b) {
      match a
      case Array(items) =>
        if |items| == |b.items| { EntriesEqualIsIdentity(items, b.items); }
      case Object(members) =>
        if |members| == |b.members| { EntriesEqualIsIdentity(members, b.members); }
      case _ =>
    }
  }

  lemma {:induction false} EntriesEqualIsIdentity(es: seq<Entry>, fs: seq<Entry>)
    requires |es| == |fs|
    ensures EntriesEqual(es, fs) <==> es == fs
    decreases EntriesWeight(es)
  {
    if es != [] {
      WeightStep(es);
      EqualIsIdentity(es[0].value, fs[0].value);
      EntriesEqualIsIdentity(es[1..], fs[1..]);
      assert es == [es[0]] + es[1..] && fs == [fs[0]] + fs[1..];
    }
  }

  // ---- Strict total order ----

  /** Exactly one of `a < b`, `b < a` and `a == b` holds, at every depth of nesting. */
  lemma {:induction false} Trichotomy(a: Value, b: Value)
    ensures !(Less(a, b) && Less(b, a))
    ensures Equal(a, b) <==> !Less(a, b) && !Less(b, a)
    decreases Weight(a)
  {
    EqualIsIdentity(a, b);
    if TypeRank(a) == TypeRank(b) {
      match a
      case String(s) => StrLessTotal(s, b.s);
      case Array(items) =>
        if |items| == |b.items| { LexTrichotomy(items, b.items); }
      case Object(members) =>
        if |members| == |b.members| { LexTrichotomy(members, b.members); }
      case _ =>
    }
  }

  lemma {:induction false} LexTrichotomy(es: seq<Entry>, fs: seq<Entry>)
    ensures !(LexLess(es, fs) && LexLess(fs, es))
    ensures es == fs <==> !LexLess(es, fs) && !LexLess(fs, es)
    decreases EntriesWeight(es)
  {
    if es != [] && fs != [] {
      WeightStep(es);
      KeyLessTotal(es[0].key, fs[0].key);
      Trichotomy(es[0].value, fs[0].value);
      EqualIsIdentity(es[0].value, fs[0].value);
      LexTrichotomy(es[1..], fs[1..]);
      assert es == [es[0]] + es[1..] && fs == [fs[0]] + fs[1..];
    }
  }

  /** `a < b` and `b < c` give `a < c`, at every depth of nesting. */
  lemma {:induction false} Transitive(a: Value, b: Value, c: Value)
    requires Less(a, b) && Less(b, c)
    ensures Less(a, c)
    decreases Weight(a)
  {
    if TypeRank(a) == TypeRank(b) && TypeRank(b) == TypeRank(c) {
      match a
      case String(s) => StrLessTransitive(s, b.s, c.s);
      case Array(items) =>
        if |items| == |b.items| && |b.items| == |c.items| { LexTransitive(items, b.items, c.items); }
      case Object(members) =>
        if |members| == |b.members| && |b.members| == |c.members| { LexTransitive(members, b.members, c.members); }
      case _ =>
    }
  }

  lemma {:induction false} EntryTransitive(e: Entry, f: Entry, g: Entry)
    requires EntryLess(e, f) && EntryLess(f, g)
    ensures EntryLess(e, g)
    decreases EntryWeight(e), 0
  {
    KeyLessTotal(e.key, f.key);
    KeyLessTotal(f.key, g.key);
    if KeyLess(e.key, f.key) && KeyLess(f.key, g.key) {
      KeyLessTransitive(e.key, f.key, g.key);
    }
    if e.key == f.key && f.key == g.key {
      Transitive(e.value, f.value, g.value);
    }
  }

  lemma EntryTrichotomy(e: Entry, f: Entry)
    ensures !(EntryLess(e, f) && EntryLess(f, e))
    ensures e == f <==> !EntryLess(e, f) && !EntryLess(f, e)
  {
    KeyLessTotal(e.key, f.key);
    Trichotomy(e.value, f.value);
    EqualIsIdentity(e.value, f.value);
  }

  lemma {:induction false} LexTransitive(es: seq<Entry>, fs: seq<Entry>, gs: seq<Entry>)
    requires LexLess(es, fs) && LexLess(fs, gs)
    ensures LexLess(es, gs)
    decreases EntriesWeight(es), 1
  {
    if es != [] {
      WeightStep(es);
      EntryTrichotomy(es[0], fs[0]);
      EntryTrichotomy(fs[0], gs[0]);
      EntryTrichotomy(es[0], gs[0]);
      if EntryLess(es[0], fs[0]) && EntryLess(fs[0], gs[0]) {
        EntryTransitive(es[0], fs[0], gs[0]);
      } else if es[0] == fs[0] && fs[0] == gs[0] {
        LexTransitive(es[1..], fs[1..], gs[1..]);
      }
    }
  }

  // ---- Which comes first ----

  /** Values of different types: null, int, uint, real, string, boolean, array, object. The rest is transitivity. */
  lemma TypesInOrder(i: int, u: int, r: real, s: string, b: bool, items: seq<Entry>, members: seq<Entry>)
    ensures Less(Null, Int(i)) && Less(Int(i), UInt(u)) && Less(UInt(u), Real(r)) && Less(Real(r), String(s))
    ensures Less(String(s), Bool(b)) && Less(Bool(b), Array(items)) && Less(Array(items), Object(members))
  {}

  /** Numbers by value, false before true. */
  lemma ScalarsInOrder(i: int, j: int, r: real, q: real)
    ensures i < j ==> Less(Int(i), Int(j)) && Less(UInt(i), UInt(j))
    ensures r < q ==> Less(Real(r), Real(q))
    ensures Less(Bool(false), Bool(true))
  {}

  /** Strings by their first difference: there the smaller character decides, or the end of the shorter one. */
  lemma {:induction false} FirstCharacterDecides(a: string, b: string, k: nat)
    requires k < |b| && k <= |a| && a[..k] == b[..k]
    requires k == |a| || a[k] < b[k]
    ensures StrLess(a, b) && !StrLess(b, a) && Less(String(a), String(b))
  {
    StrLessTotal(a, b);
    if k > 0 {
      assert a[0] == a[..k][0] == b[..k][0] == b[0];
      assert a[1..][..k - 1] == a[..k][1..] == b[..k][1..] == b[1..][..k - 1];
      FirstCharacterDecides(a[1..], b[1..], k - 1);
    }
  }

  /** Containers by their number of entries. */
  lemma FewerComeFirst(es: seq<Entry>, fs: seq<Entry>)
    requires |es| < |fs|
    ensures Less(Array(es), Array(fs)) && Less(Object(es), Object(fs))
  {}

  lemma {:induction false} FirstEntryDecides(es: seq<Entry>, fs: seq<Entry>, k: nat)
    requires k < |es| && k < |fs| && es[..k] == fs[..k] && EntryLess(es[k], fs[k])
    ensures LexLess(es, fs)
    decreases k
  {
    if k > 0 {
      assert es[0] == es[..k][0] == fs[..k][0] == fs[0];
      assert es[1..][..k - 1] == es[..k][1..] == fs[..k][1..] == fs[1..][..k - 1];
      EntryTrichotomy(es[0], fs[0]);
      FirstEntryDecides(es[1..], fs[1..], k - 1);
    }
  }

  /** With as many entries, by the first entry in which they differ: the smaller index, and for the same one the smaller
      element. */
  lemma FirstElementDecides(es: seq<Entry>, fs: seq<Entry>, k: nat)
    requires |es| == |fs| && k < |es| && es[..k] == fs[..k] && es[k].key.Index? && fs[k].key.Index?
    requires es[k].key.index < fs[k].key.index || (es[k].key == fs[k].key && Less(es[k].value, fs[k].value))
    ensures Less(Array(es), Array(fs))
  {
    FirstEntryDecides(es, fs, k);
  }

  /** The first member in which they differ: the name whose first different character is smaller or which ends there,
      and for the same name the smaller value. */
  lemma FirstMemberDecides(es: seq<Entry>, fs: seq<Entry>, k: nat, a: string, b: string, i: nat)
    requires |es| == |fs| && k < |es| && es[..k] == fs[..k] && es[k].key == Name(a) && fs[k].key == Name(b)
    requires (i < |b| && i <= |a| && a[..i] == b[..i] && (i == |a| || a[i] < b[i]))
             || (a == b && Less(es[k].value, fs[k].value))
    ensures Less(Object(es), Object(fs))
  {
    if a == b {
      StrLessTotal(a, b);
    } else {
      FirstCharacterDecides(a, b, i);
    }
    assert EntryLess(es[k], fs[k]);
    FirstEntryDecides(es, fs, k);
  }
}
