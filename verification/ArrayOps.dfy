/** The in-place operations of `Value` on arrays and objects (json_value.cpp), and that a sparse array
    behaves as a sequence padded with nulls. Indices are mathematical; the source keeps them in 32 bits. */
module ArrayOps {
  import opened JsonValue

  /** One update through the non-const interface. */
  datatype Op = Store(index: nat, v: Value) | Append(v: Value) | Resize(size: nat)

  /** The map behind an array; null turns into an empty array on first use. */
  function Items(v: Value): seq<Entry> {
    if v.Array? then v.items else []
  }

  /** Entries whose index is not in `lo..hi`. */
  function Without(items: seq<Entry>, lo: nat, hi: nat): seq<Entry> {
    if items == [] then []
    else if items[0].key.Index? && lo <= items[0].key.index < hi then Without(items[1..], lo, hi)
    else [items[0]] + Without(items[1..], lo, hi)
  }

  function Apply(v: Value, op: Op): Value {
    match op
    case Store(index, x) => Array(Put(Items(v), Index(index), x))
    case Append(x) => Array(Put(Items(v), Index(Size(Array(Items(v)))), x))
    case Resize(size) =>
      if size == 0 then Array([])
      else if size > Size(Array(Items(v))) then Array(Resolve(Items(v), Index(size - 1)))
      else Array(Without(Items(v), size, Size(Array(Items(v)))))
  }

  class ValueCell {
    var value: Value

    constructor (value: Value)
      ensures this.value == value
    {
      this.value := value;
    }

    /** operator[](UInt): the element exists afterwards; the reference is written with `StoreAt`. */
    method ElementAt(index: nat) returns (element: Value)
      requires value.Null? || value.Array?
      modifies this
      ensures value == Array(Resolve(Items(old(value)), Index(index)))
      ensures element == ItemAt(Items(old(value)), index)
    {
      if value.Null? {
        value := Array([]);
      }
      element := Get(value.items, Index(index));
      value := Array(Put(value.items, Index(index), element));
    }

    /** `(*this)[index] = v`. */
    method StoreAt(index: nat, v: Value)
      requires value.Null? || value.Array?
      modifies this
      ensures value == Apply(old(value), Store(index, v))
    {
      var _ := ElementAt(index);
      PutPut(Items(old(value)), Index(index), ItemAt(Items(old(value)), index), v);
      value := Array(Put(value.items, Index(index), v));
    }

    method AppendValue(v: Value)
      requires value.Null? || value.Array?
      modifies this
      ensures value == Apply(old(value), Append(v))
    {
      StoreAt(Size(value), v);
    }

    /** resize; the result tells whether the assertion `size() == newSize` of the shrinking branch holds. */
    method ResizeTo(newSize: nat) returns (asserted: bool)
      requires value.Null? || (value.Array? && WellFormed(value))
      modifies this
      ensures value == Apply(old(value), Resize(newSize))
      ensures asserted <==> 0 < newSize <= Size(old(value)) ==> Size(value) == newSize
    {
      if value.Null? {
        value := Array([]);
      }
      ghost var items := value.items;
      var oldSize := Size(value);
      asserted := true;
      if newSize == 0 {
        value := Array([]);
      } else if newSize > oldSize {
        var _ := ElementAt(newSize - 1);
      } else {
        WithoutNothing(items, newSize);
        for index := newSize to oldSize
          invariant value.Array? && value.items == Without(items, newSize, index)
        {
          EraseNext(items, newSize, index);
          value := Array(Without(value.items, index, index + 1));
        }
        asserted := Size(value) == newSize;
      }
    }

    /** `(*this)[name] = v` on an object. */
    method StoreMember(name: string, v: Value)
      requires value.Null? || value.Object?
      modifies this
      ensures value
           == Object(Put(if old(value).Object? then old(value).members else [], Name(CString(name)), v))
    {
      if value.Null? {
        value := Object([]);
      }
      value := Object(Put(value.members, Name(CString(name)), v));
    }
  }

  // ---- Erasing ----

  lemma {:induction false} WithoutNothing(items: seq<Entry>, at: nat)
    ensures Without(items, at, at) == items
  {
    if items != [] {
      WithoutNothing(items[1..], at);
    }
  }

  lemma {:induction false} EraseNext(items: seq<Entry>, lo: nat, hi: nat)
    requires lo <= hi
    ensures Without(Without(items, lo, hi), hi, hi + 1) == Without(items, lo, hi + 1)
  {
    if items != [] {
      EraseNext(items[1..], lo, hi);
      if !(items[0].key.Index? && lo <= items[0].key.index < hi) {
        assert Without(items, lo, hi)[1..] == Without(items[1..], lo, hi);
      }
    }
  }

  lemma {:induction false} WithoutGet(items: seq<Entry>, lo: nat, hi: nat, k: Key)
    ensures Get(Without(items, lo, hi), k) == if k.Index? && lo <= k.index < hi then Null else Get(items, k)
    ensures HasKey(Without(items, lo, hi), k) <==> HasKey(items, k) && !(k.Index? && lo <= k.index < hi)
  {
    var r := Without(items, lo, hi);
    if items != [] {
      WithoutGet(items[1..], lo, hi, k);
      HasKeyStep(items, k);
      if r != [] {
        HasKeyStep(r, k);
      }
      if !(items[0].key.Index? && lo <= items[0].key.index < hi) {
        assert r[1..] == Without(items[1..], lo, hi);
      }
    }
  }

  lemma HasKeyStep(es: seq<Entry>, k: Key)
    requires es != []
    ensures HasKey(es, k) <==> es[0].key == k || HasKey(es[1..], k)
  {
    if HasKey(es, k) && es[0].key != k {
      var i :| 0 <= i < |es| && es[i].key == k;
      assert es[1..][i - 1].key == k;
    }
    if HasKey(es[1..], k) {
      var i :| 0 <= i < |es[1..]| && es[1..][i].key == k;
      assert es[i + 1].key == k;
    }
  }

  lemma {:induction false} WithoutWellFormed(items: seq<Entry>, lo: nat, hi: nat)
    requires WellFormed(Array(items))
    ensures WellFormed(Array(Without(items, lo, hi)))
    ensures forall e | e in Without(items, lo, hi) :: e in items
  {
    if items != [] {
      var r, tail := Without(items, lo, hi), Without(items[1..], lo, hi);
      SortedTail(items);
      assert WellFormed(Array(items[1..]));
      WithoutWellFormed(items[1..], lo, hi);
      if r != tail {
        assert r == [items[0]] + tail;
        forall k | 0 <= k < |tail|
          ensures KeyLess(items[0].key, tail[k].key)
        {
          assert tail[k] in items[1..];
        }
      }
    }
  }

  // ---- Size ----

  lemma SizeIs(items: seq<Entry>, n: nat)
    requires WellFormed(Array(items))
    requires forall k | 0 <= k < |items| :: items[k].key.index < n
    requires n > 0 ==> HasKey(items, Index(n - 1))
    ensures Size(Array(items)) == n
  {
    if n > 0 {
      var i :| 0 <= i < |items| && items[i].key == Index(n - 1);
      assert items[i].key.index <= items[|items| - 1].key.index;
    }
  }

  lemma PutSize(items: seq<Entry>, index: nat, v: Value)
    requires WellFormed(Array(items)) && WellFormed(v)
    ensures WellFormed(Array(Put(items, Index(index), v)))
    ensures Size(Array(Put(items, Index(index), v)))
         == if index + 1 > Size(Array(items)) then index + 1 else Size(Array(items))
  {
    hide WellFormed, Put, KeyLess;
    var r := Put(items, Index(index), v);
    var n := if index + 1 > Size(Array(items)) then index + 1 else Size(Array(items));
    WellFormedPutItem(items, index, v);
    PutEntries(items, Index(index), v);
    SizeBound(items);
    forall k | 0 <= k < |r|
      ensures r[k].key.index < n
    {
      assert r[k] in r;
    }
    if n == index + 1 {
      var i :| 0 <= i < |r| && r[i] == Entry(Index(index), v);
    } else {
      var last := items[|items| - 1];
      assert last in r;
      var i :| 0 <= i < |r| && r[i] == last;
    }
    SizeIs(r, n);
  }

  /** A shrinking resize meets its assertion exactly when the last index it keeps was present. */
  lemma ShrinkAssertion(v: Value, size: nat)
    requires v.Array? && WellFormed(v) && 0 < size <= Size(v)
    ensures Size(Apply(v, Resize(size))) == size <==> HasKey(v.items, Index(size - 1))
    ensures Size(Apply(v, Resize(size))) <= size
  {
    var r := Without(v.items, size, Size(v));
    WithoutWellFormed(v.items, size, Size(v));
    WithoutGet(v.items, size, Size(v), Index(size - 1));
    SizeBound(v.items);
    SizeBound(r);
    forall k | 0 <= k < |r|
      ensures r[k].key.index < size
    {
      assert r[k] in v.items;
      WithoutGet(v.items, size, Size(v), r[k].key);
      assert HasKey(r, r[k].key);
    }
    if HasKey(r, Index(size - 1)) {
      SizeIs(r, size);
    }
  }

  /** A write at index 2 of a null value and a resize to 1: the assertion fails, the size is 0. */
  lemma ShrinkMissesSize()
    ensures var v := Apply(Null, Store(2, Int(1)));
      Size(v) == 3 && Size(Apply(v, Resize(1))) == 0 && !HasKey(Items(v), Index(0))
  {
    var items := [Entry(Index(2), Int(1))];
    assert Apply(Null, Store(2, Int(1))) == Array(items);
    assert items[1..] == [] && Without(items, 1, 3) == [];
  }

  // ---- Sparse arrays are padded sequences ----

  /** What reading every index below the size gives. */
  function View(v: Value): (s: seq<Value>)
    ensures |s| == Size(Array(Items(v)))
  {
    seq(Size(Array(Items(v))), i requires i >= 0 => ItemAt(Items(v), i))
  }

  function Pad(s: seq<Value>, size: nat): (r: seq<Value>)
    ensures |r| == if |s| < size then size else |s|
  {
    if |s| < size then s + seq(size - |s|, _ => Null) else s
  }

  /** The operations on a padded sequence. */
  function ApplyPadded(s: seq<Value>, op: Op): seq<Value> {
    match op
    case Store(index, x) => Pad(s, index + 1)[index := x]
    case Append(x) => s + [x]
    case Resize(size) => if size <= |s| then s[..size] else Pad(s, size)
  }

  /** The guard of the one failing branch: a shrinking resize needs the last index it keeps. */
  ghost predicate Proper(v: Value, op: Op) {
    op.Resize? && 0 < op.size <= Size(Array(Items(v))) ==> HasKey(Items(v), Index(op.size - 1))
  }

  ghost predicate IsArrayCell(v: Value) {
    WellFormed(v) && (v.Null? || v.Array?)
  }

  ghost predicate WellFormedOp(op: Op) {
    !op.Resize? ==> WellFormed(op.v)
  }

  lemma BeyondSize(items: seq<Entry>, index: nat)
    requires WellFormed(Array(items)) && index >= Size(Array(items))
    ensures ItemAt(items, index) == Null
  {
    SizeBound(items);
    GetAbsent(items, Index(index));
  }

  lemma StoreReads(items: seq<Entry>, index: nat, x: Value, i: nat)
    requires WellFormed(Array(items)) && WellFormed(x)
    ensures ItemAt(Put(items, Index(index), x), i) == if i == index then x else ItemAt(items, i)
    ensures i >= Size(Array(items)) ==> ItemAt(items, i) == Null
  {
    GetPut(items, Index(index), x, Index(i));
    if i >= Size(Array(items)) {
      BeyondSize(items, i);
    }
  }

  lemma StoreRefines(v: Value, index: nat, x: Value)
    requires IsArrayCell(v) && WellFormed(x)
    ensures IsArrayCell(Apply(v, Store(index, x)))
    ensures View(Apply(v, Store(index, x))) == ApplyPadded(View(v), Store(index, x))
  {
    ItemsWellFormed(v);
    PutSize(Items(v), index, x);
    hide WellFormed, Put, Get, Size;
    StoreView(Items(v), index, x);
  }

  lemma ItemsWellFormed(v: Value)
    requires IsArrayCell(v)
    ensures WellFormed(Array(Items(v)))
  {}

  lemma StoreView(items: seq<Entry>, index: nat, x: Value)
    requires WellFormed(Array(items)) && WellFormed(x)
    ensures View(Array(Put(items, Index(index), x))) == Pad(View(Array(items)), index + 1)[index := x]
  {
    PutSize(items, index, x);
    hide WellFormed, Put, Get, Size;
    var r, s := View(Array(Put(items, Index(index), x))), Pad(View(Array(items)), index + 1)[index := x];
    assert |r| == |s|;
    forall i | 0 <= i < |s|
      ensures r[i] == s[i]
    {
      StoreReads(items, index, x, i);
    }
  }

  lemma ShrinkKeeps(v: Value, size: nat, index: nat)
    requires v.Array? && 0 < size <= Size(v) && index < size
    ensures ItemAt(Items(Apply(v, Resize(size))), index) == ItemAt(v.items, index)
  {
    WithoutGet(v.items, size, Size(v), Index(index));
  }

  lemma GrowRefines(v: Value, size: nat)
    requires IsArrayCell(v) && size > Size(Array(Items(v)))
    ensures IsArrayCell(Apply(v, Resize(size)))
    ensures View(Apply(v, Resize(size))) == Pad(View(v), size)
  {
    NullIsWellFormed();
    hide WellFormed, Put, Get, View, Pad;
    BeyondSize(Items(v), size - 1);
    StoreRefines(v, size - 1, Null);
    PadLast(View(v), size);
  }

  lemma PadOne(s: seq<Value>, x: Value)
    ensures Pad(s, |s| + 1)[|s| := x] == s + [x]
  {}

  lemma NullIsWellFormed()
    ensures WellFormed(Null)
  {}

  lemma PadLast(s: seq<Value>, size: nat)
    requires |s| < size
    ensures Pad(s, size)[size - 1 := Null] == Pad(s, size)
  {}

  lemma ShrinkRefines(v: Value, size: nat)
    requires IsArrayCell(v) && 0 < size <= Size(Array(Items(v)))
    ensures IsArrayCell(Apply(v, Resize(size)))
    ensures View(Apply(v, Resize(size))) == View(v)[..size] <==> Proper(v, Resize(size))
  {
    assert v.Array?;
    ShrinkAssertion(v, size);
    WithoutWellFormed(v.items, size, Size(v));
    hide WellFormed, Get, Size, HasKey;
    var r := Apply(v, Resize(size));
    assert r == Array(Without(v.items, size, Size(v)));
    forall i | 0 <= i < Size(r)
      ensures View(r)[i] == View(v)[i]
    {
      ShrinkKeeps(v, size, i);
    }
  }

  lemma ResizeRefines(v: Value, size: nat)
    requires IsArrayCell(v)
    ensures IsArrayCell(Apply(v, Resize(size)))
    ensures View(Apply(v, Resize(size))) == ApplyPadded(View(v), Resize(size)) <==> Proper(v, Resize(size))
  {
    hide WellFormed, Get, Put, HasKey, Without;
    if size > Size(Array(Items(v))) {
      GrowRefines(v, size);
    } else if size > 0 {
      ShrinkRefines(v, size);
    } else {
      ClearRefines(v);
    }
  }

  lemma ClearRefines(v: Value)
    requires IsArrayCell(v)
    ensures IsArrayCell(Apply(v, Resize(0))) && View(Apply(v, Resize(0))) == [] && Proper(v, Resize(0))
  {}

  /** Each operation on the sparse map is the operation on the padded sequence exactly when it is proper. */
  lemma Refines(v: Value, op: Op)
    requires IsArrayCell(v) && WellFormedOp(op)
    ensures IsArrayCell(Apply(v, op))
    ensures View(Apply(v, op)) == ApplyPadded(View(v), op) <==> Proper(v, op)
  {
    hide WellFormed, Put, Get, Without, HasKey, View, Pad;
    match op
    case Store(index, x) => StoreRefines(v, index, x);
    case Append(x) =>
      var size := Size(Array(Items(v)));
      StoreRefines(v, size, x);
      PadOne(View(v), x);
    case Resize(size) => ResizeRefines(v, size);
  }

  function Run(v: Value, ops: seq<Op>): Value
    decreases |ops|
  {
    if ops == [] then v else Run(Apply(v, ops[0]), ops[1..])
  }

  function RunPadded(s: seq<Value>, ops: seq<Op>): seq<Value>
    decreases |ops|
  {
    if ops == [] then s else RunPadded(ApplyPadded(s, ops[0]), ops[1..])
  }

  ghost predicate ProperRun(v: Value, ops: seq<Op>)
    decreases |ops|
  {
    ops == [] || (WellFormedOp(ops[0]) && Proper(v, ops[0]) && ProperRun(Apply(v, ops[0]), ops[1..]))
  }

  /** After any run of writes, appends and proper resizes, reading the array is reading the padded sequence. */
  lemma {:induction false} RunRefines(v: Value, ops: seq<Op>)
    requires IsArrayCell(v) && ProperRun(v, ops)
    ensures View(Run(v, ops)) == RunPadded(View(v), ops)
    decreases |ops|
  {
    if ops != [] {
      Refines(v, ops[0]);
      RunRefines(Apply(v, ops[0]), ops[1..]);
    }
  }

  /** The array and the padded sequence agree before the first operation and after each one. */
  ghost predicate AgreesThroughout(v: Value, s: seq<Value>, ops: seq<Op>)
    decreases |ops|
  {
    View(v) == s && (ops == [] || AgreesThroughout(Apply(v, ops[0]), ApplyPadded(s, ops[0]), ops[1..]))
  }

  /** They agree throughout a run if and only if every operation in it is proper where it happens. */
  lemma {:induction false} RunRefinesExactly(v: Value, ops: seq<Op>)
    requires IsArrayCell(v) && forall op | op in ops :: WellFormedOp(op)
    ensures AgreesThroughout(v, View(v), ops) <==> ProperRun(v, ops)
    decreases |ops|
  {
    hide View, Apply, ApplyPadded, Proper, IsArrayCell, WellFormedOp;
    if ops != [] {
      Refines(v, ops[0]);
      RunRefinesExactly(Apply(v, ops[0]), ops[1..]);
    }
  }
}
