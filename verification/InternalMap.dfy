/** ValueInternalMap (json_internalmap.inl): one bucket of linked pages with six slots each, and a pointer to the
    last page. The keys are C strings, so a key is the text before its terminator. */
module InternalMap {
  import opened JsonValue

  /** `ValueInternalLink::itemPerLink`. */
  const ITEM_PER_LINK := 6

  /** `Value *`: null, or an item of a page. */
  datatype Slot = NoSlot | Slot(link: ValueInternalLink, index: nat)

  /** The arrays of a page are part of the object. `used` is the items' `itemIsUsed_` flag, `isStatic` their
      `memberNameIsStatic_` flag. */
  class ValueInternalLink {
    var items_: seq<Value>
    var used: seq<bool>
    var isStatic: seq<bool>
    var keys_: seq<string>
    var next_: ValueInternalLink?

    constructor ()
      ensures Holds(this, 0, [], []) && next_ == null
    {
      items_, keys_ := seq(ITEM_PER_LINK, _ => Null), seq(ITEM_PER_LINK, _ => "");
      used, isStatic := seq(ITEM_PER_LINK, _ => false), seq(ITEM_PER_LINK, _ => false);
      next_ := null;
    }
  }

  /** A page that holds the items from number `first` on: those that exist are used, the rest available. */
  ghost predicate Holds(link: ValueInternalLink, first: nat, keys: seq<string>, values: seq<Value>)
    reads link`items_, link`used, link`isStatic, link`keys_
  {
    && |link.items_| == |link.used| == |link.isStatic| == |link.keys_| == ITEM_PER_LINK && |keys| == |values|
    && HoldSlots(link.items_, link.used, link.keys_, first, keys, values)
  }

  ghost predicate HoldSlots(items: seq<Value>, used: seq<bool>, slotKeys: seq<string>, first: nat, keys: seq<string>,
    values: seq<Value>)
  {
    && |items| == |used| == |slotKeys| == ITEM_PER_LINK && |keys| == |values|
    && (forall j {:trigger used[j]} | 0 <= j < ITEM_PER_LINK :: used[j] == (first + j < |keys|))
    && (forall j {:trigger slotKeys[j]} | 0 <= j < ITEM_PER_LINK ::
          first + j < |keys| ==> slotKeys[j] == keys[first + j])
    && (forall j {:trigger items[j]} | 0 <= j < ITEM_PER_LINK ::
          items[j] == if first + j < |keys| then values[first + j] else Null)
  }

  /** A new page holds the items from behind the last one on. */
  lemma HoldsNothing(items: seq<Value>, used: seq<bool>, slotKeys: seq<string>, first: nat, keys: seq<string>,
    values: seq<Value>)
    requires HoldSlots(items, used, slotKeys, 0, [], []) && |keys| == |values| <= first
    ensures HoldSlots(items, used, slotKeys, first, keys, values)
  {
  }

  /** A full page does not see a new item. */
  lemma AppendElsewhere(items: seq<Value>, used: seq<bool>, slotKeys: seq<string>, first: nat, keys: seq<string>,
    values: seq<Value>, key: string)
    requires HoldSlots(items, used, slotKeys, first, keys, values) && first + ITEM_PER_LINK <= |keys|
    ensures HoldSlots(items, used, slotKeys, first, keys + [key], values + [Null])
  {
  }

  /** The first available slot takes it. */
  lemma AppendHere(items: seq<Value>, used: seq<bool>, slotKeys: seq<string>, first: nat, keys: seq<string>,
    values: seq<Value>, key: string, index: nat)
    requires HoldSlots(items, used, slotKeys, first, keys, values)
    requires index < ITEM_PER_LINK && first + index == |keys|
    ensures HoldSlots(items, used[index := true], slotKeys[index := key], first, keys + [key], values + [Null])
  {
  }

  lemma StoreElsewhere(items: seq<Value>, used: seq<bool>, slotKeys: seq<string>, first: nat, keys: seq<string>,
    values: seq<Value>, n: nat, value: Value)
    requires HoldSlots(items, used, slotKeys, first, keys, values) && n < |keys|
    requires n < first || first + ITEM_PER_LINK <= n
    ensures HoldSlots(items, used, slotKeys, first, keys, values[n := value])
  {
  }

  lemma StoreHere(items: seq<Value>, used: seq<bool>, slotKeys: seq<string>, first: nat, keys: seq<string>,
    values: seq<Value>, index: nat, value: Value)
    requires HoldSlots(items, used, slotKeys, first, keys, values)
    requires index < ITEM_PER_LINK && first + index < |keys|
    ensures HoldSlots(items[index := value], used, slotKeys, first, keys, values[first + index := value])
  {
  }

  // ---- The plain map ----

  ghost predicate NoRepeats(keys: seq<string>) {
    forall m, n | 0 <= m < n < |keys| :: keys[m] != keys[n]
  }

  ghost function MembersOf(keys: seq<string>, values: seq<Value>): map<string, Value>
    requires |keys| == |values|
  {
    if keys == [] then map[]
    else
      var last := |keys| - 1;
      MembersOf(keys[..last], values[..last])[keys[last] := values[last]]
  }

  /** The keys of a run of resolveReference calls, each where it first occurs. */
  function FirstOccurrences(requests: seq<string>): seq<string> {
    if requests == [] then []
    else
      var before := FirstOccurrences(requests[..|requests| - 1]);
      if requests[|requests| - 1] in before then before else before + [requests[|requests| - 1]]
  }

  lemma {:induction false} MembersLookup(keys: seq<string>, values: seq<Value>)
    requires NoRepeats(keys) && |keys| == |values|
    ensures forall k :: k in MembersOf(keys, values) <==> k in keys
    ensures forall n | 0 <= n < |keys| :: MembersOf(keys, values)[keys[n]] == values[n]
  {
    if keys != [] {
      var last := |keys| - 1;
      MembersLookup(keys[..last], values[..last]);
      assert keys == keys[..last] + [keys[last]];
      forall n | 0 <= n < |keys|
        ensures keys[n] in MembersOf(keys, values) && MembersOf(keys, values)[keys[n]] == values[n]
      {
        assert n < last ==> keys[..last][n] == keys[n] && values[..last][n] == values[n];
      }
    }
  }

  /** A new member joins the map with a null value. */
  lemma AddedMember(keys: seq<string>, values: seq<Value>, key: string)
    requires |keys| == |values|
    ensures MembersOf(keys + [key], values + [Null]) == MembersOf(keys, values)[key := Null]
  {
    assert (keys + [key])[..|keys|] == keys && (values + [Null])[..|keys|] == values;
  }

  /** A store into the slot of a member updates that member of the map only. */
  lemma StoredMember(keys: seq<string>, values: seq<Value>, n: nat, value: Value)
    requires NoRepeats(keys) && |keys| == |values| && n < |keys|
    ensures MembersOf(keys, values[n := value]) == MembersOf(keys, values)[keys[n] := value]
  {
    MembersLookup(keys, values);
    MembersLookup(keys, values[n := value]);
    var after, expected := MembersOf(keys, values[n := value]), MembersOf(keys, values)[keys[n] := value];
    forall k | k in keys
      ensures after[k] == expected[k]
    {
      var m :| 0 <= m < |keys| && keys[m] == k;
      assert m != n ==> keys[m] != keys[n];
    }
    assert forall k :: k in after <==> k in keys;
    assert forall k :: k in expected <==> k in keys;
    assert after == expected;
  }

  /** A run of requests leaves each key once, and as many members as there are different keys. */
  lemma {:induction false} DistinctRequests(requests: seq<string>)
    ensures NoRepeats(FirstOccurrences(requests))
    ensures forall k :: k in FirstOccurrences(requests) <==> k in requests
    ensures |FirstOccurrences(requests)| == |set k | k in requests|
  {
    if requests == [] {
      assert (set k | k in requests) == {};
    } else {
      var before, key := requests[..|requests| - 1], requests[|requests| - 1];
      DistinctRequests(before);
      assert requests == before + [key];
      assert (set k | k in requests) == (set k | k in before) + {key};
    }
  }

  lemma NextOccurrence(requests: seq<string>, n: nat)
    requires n <= |requests|
    ensures FirstOccurrences(requests[..0]) == []
    ensures n < |requests| ==>
      var before := FirstOccurrences(requests[..n]);
      FirstOccurrences(requests[..n + 1]) == if requests[n] in before then before else before + [requests[n]]
  {
    assert n < |requests| ==> requests[..n + 1][..n] == requests[..n];
  }

  ghost function PageAfter(pages: seq<ValueInternalLink>, i: int): ValueInternalLink?
    requires -1 <= i < |pages|
  {
    if i + 1 < |pages| then pages[i + 1] else null
  }

  /** hash(key), 32 bits wide. */
  function HashOf(key: string): nat {
    if key == [] then 0 else (HashOf(key[..|key| - 1]) + key[|key| - 1] as int * 37) % 0x1_0000_0000
  }

  class ValueInternalMap {
    /** `buckets_`, with `bucketsSize_` links. */
    var buckets_: seq<ValueInternalLink>
    var bucketsSize_: nat
    var tailLink_: ValueInternalLink?
    var itemCount_: nat

    /** The pages in list order, and the members in the order they were added. */
    ghost var pages: seq<ValueInternalLink>
    ghost var keys: seq<string>
    ghost var values: seq<Value>

    ghost predicate Linked()
      reads this`buckets_, this`bucketsSize_, this`tailLink_, this`pages, pages`next_
    {
      && bucketsSize_ == |buckets_| <= 1 && (pages == [] <==> buckets_ == [])
      && (pages != [] ==> pages[0] == buckets_[0] && tailLink_ == pages[|pages| - 1])
      && (forall i, j | 0 <= i < j < |pages| :: pages[i] != pages[j])
      && (forall i {:trigger pages[i].next_} | 0 <= i < |pages| :: pages[i].next_ == PageAfter(pages, i))
    }

    /** Used slots form a prefix of the pages, and every page but the last is full. */
    ghost predicate Filled()
      reads this`pages, this`keys, this`values, pages`items_, pages`used, pages`isStatic, pages`keys_
    {
      && (forall i {:trigger pages[i]} | 0 <= i < |pages| :: Holds(pages[i], ITEM_PER_LINK * i, keys, values))
      && ITEM_PER_LINK * (|pages| - 1) <= |keys| <= ITEM_PER_LINK * |pages| && |keys| == |values|
    }

    ghost predicate Distinct()
      reads this`keys
    {
      NoRepeats(keys)
    }

    /** The map that the pages stand for. */
    ghost function Members(): map<string, Value>
      reads this, pages
      requires Valid()
    {
      MembersOf(keys, values)
    }

    ghost predicate Consistent()
      reads this, pages
    {
      Linked() && Filled() && Distinct() && itemCount_ == |keys|
    }

    /** Between two operations no page but the first is empty. */
    ghost predicate Valid()
      reads this, pages
    {
      Consistent() && (|pages| > 1 ==> ITEM_PER_LINK * (|pages| - 1) < |keys|)
    }

    /** The slot of the n-th member added. */
    ghost function SlotAt(n: nat): Slot
      reads this`pages
      requires n < ITEM_PER_LINK * |pages|
    {
      Slot(pages[n / ITEM_PER_LINK], n % ITEM_PER_LINK)
    }

    lemma SlotIs(i: nat, index: nat)
      requires i < |pages| && index < ITEM_PER_LINK
      ensures ITEM_PER_LINK * i + index < ITEM_PER_LINK * |pages|
      ensures SlotAt(ITEM_PER_LINK * i + index) == Slot(pages[i], index)
    {
    }

    constructor ()
      ensures Valid() && itemCount_ == 0 && keys == [] && pages == []
    {
      buckets_, bucketsSize_, tailLink_, itemCount_ := [], 0, null, 0;
      pages, keys, values := [], [], [];
    }

    method Hash(key: string) returns (hash: nat)
      ensures hash == HashOf(key)
    {
      hash := 0;
      var n := 0;
      while n < |key|
        invariant 0 <= n <= |key| && hash == HashOf(key[..n])
      {
        assert key[..n + 1][..n] == key[..n];
        hash := (hash + key[n] as int * 37) % 0x1_0000_0000;
        n := n + 1;
      }
      assert key[..n] == key;
    }

    /** reserve(newItemCount). */
    method Reserve(newItemCount: nat) returns (ok: bool)
      requires Valid()
      modifies this`buckets_, this`bucketsSize_, this`tailLink_, this`pages
      ensures Valid() && ok
      ensures newItemCount > 0 ==> bucketsSize_ == 1
      ensures pages == old(pages) || (old(pages) == [] && |pages| == 1 && fresh(pages[0]))
    {
      if buckets_ == [] && newItemCount > 0 {
        var link := new ValueInternalLink();
        buckets_ := [link];
        bucketsSize_ := 1;
        tailLink_ := buckets_[0];
        pages := [link];
      }
      ok := true;
    }

    /** The scan of one page: a slot whose key is `key`, the first available slot, or neither. */
    method ScanPage(link: ValueInternalLink, key: string, ghost i: nat) returns (index: nat)
      requires Valid() && i < |pages| && pages[i] == link
      ensures index <= ITEM_PER_LINK && ITEM_PER_LINK * i + index <= |keys|
      ensures forall n | ITEM_PER_LINK * i <= n < ITEM_PER_LINK * i + index :: keys[n] != key
      ensures index < ITEM_PER_LINK && link.used[index] ==>
                ITEM_PER_LINK * i + index < |keys| && keys[ITEM_PER_LINK * i + index] == key
      ensures index < ITEM_PER_LINK && !link.used[index] ==> ITEM_PER_LINK * i + index == |keys|
    {
      index := 0;
      while index < ITEM_PER_LINK
        invariant index <= ITEM_PER_LINK && ITEM_PER_LINK * i + index <= |keys|
        invariant forall n | ITEM_PER_LINK * i <= n < ITEM_PER_LINK * i + index :: keys[n] != key
      {
        if !link.used[index] || key == link.keys_[index] {
          return;
        }
        index := index + 1;
      }
    }

    /** The walk over the bucket that find and resolveReference share: it stops at the member's slot or at the first
        available one, and runs off the last page when that is full. */
    method SearchBucket(key: string) returns (current: ValueInternalLink?, index: nat, ghost i: nat)
      requires Valid() && bucketsSize_ > 0
      ensures current == null ==> key !in keys && |keys| == ITEM_PER_LINK * |pages|
      ensures current != null ==> i < |pages| && pages[i] == current && index < |current.used| == ITEM_PER_LINK
      ensures current != null && current.used[index] ==>
                var n := ITEM_PER_LINK * i + index;
                n < |keys| <= ITEM_PER_LINK * |pages| && keys[n] == key && Slot(current, index) == SlotAt(n)
      ensures current != null && !current.used[index] ==> ITEM_PER_LINK * i + index == |keys| && key !in keys
    {
      var hashedKey := Hash(key);
      var bucketIndex := hashedKey % bucketsSize_;
      hide HoldSlots, Holds, Distinct, HashOf, SlotAt;
      current, index, i := buckets_[bucketIndex], 0, 0;
      while current != null
        invariant 0 <= i <= |pages| && current == PageAfter(pages, i - 1)
        invariant if i == |pages| then |keys| == ITEM_PER_LINK * |pages| else ITEM_PER_LINK * i <= |keys|
        invariant forall n | 0 <= n < ITEM_PER_LINK * i && n < |keys| :: keys[n] != key
        decreases |pages| - i
      {
        index := ScanPage(current, key, i);
        if index < ITEM_PER_LINK {
          SlotIs(i, index);
          return;
        }
        current := current.next_;
        i := i + 1;
      }
    }

    /** find(key). */
    method Find(key: string) returns (slot: Slot)
      requires Valid()
      ensures key !in keys ==> slot == NoSlot
      ensures forall n | 0 <= n < |keys| && keys[n] == key :: slot == SlotAt(n)
    {
      if bucketsSize_ == 0 {
        return NoSlot;
      }
      var current, index, _ := SearchBucket(key);
      if current == null || !current.used[index] {
        return NoSlot;
      }
      return Slot(current, index);
    }

    lemma BucketBounds()
      requires Valid()
      ensures |keys| <= ITEM_PER_LINK * |pages| && (bucketsSize_ == 0 ==> keys == [])
      ensures pages == [] ==> bucketsSize_ == 0
      ensures |keys| == |values| && ITEM_PER_LINK * (|pages| - 1) <= |keys|
    {
      hide HoldSlots, Holds;
    }

    /** resolveReference(key, isStatic): the member's slot, added behind the others when it is new. */
    method ResolveReference(key: string, static_: bool) returns (slot: Slot)
      requires Valid()
      modifies this, pages
      ensures Valid() && itemCount_ == |keys|
      ensures key in old(keys) ==> keys == old(keys) && values == old(values) && pages == old(pages)
      ensures key !in old(keys) ==> keys == old(keys) + [key] && values == old(values) + [Null]
      ensures old(pages) <= pages && fresh(pages[|old(pages)|..])
      ensures Members() == if key in old(keys) then old(Members()) else old(Members())[key := Null]
      ensures forall n | 0 <= n < |keys| && keys[n] == key :: slot == SlotAt(n)
    {
      hide HoldSlots, Holds, Filled, Linked, HashOf, MembersOf;
      BucketBounds();
      AddedMember(keys, values, key);
      var hashedKey := Hash(key);
      if bucketsSize_ != 0 {
        var current, index, i := SearchBucket(key);
        if current != null {
          if !current.used[index] {
            slot := SetNewItem(key, static_, current, index, i);
            return;
          }
          return Slot(current, index);
        }
      }
      var _ := Reserve(itemCount_ + 1);
      slot := UnsafeAdd(key, static_, hashedKey);
    }

    /** What the pages hold once `link` has taken the new item. */
    lemma AppendToPages(key: string, link: ValueInternalLink, index: nat, i: nat)
      requires Linked() && Filled() && i < |pages| && pages[i] == link
      requires index < ITEM_PER_LINK && ITEM_PER_LINK * i + index == |keys|
      ensures HoldSlots(link.items_, link.used[index := true], link.keys_[index := key], ITEM_PER_LINK * i,
                keys + [key], values + [Null])
      ensures forall m {:trigger pages[m]} | 0 <= m < |pages| && m != i ::
                HoldSlots(pages[m].items_, pages[m].used, pages[m].keys_, ITEM_PER_LINK * m,
                  keys + [key], values + [Null])
    {
      hide HoldSlots, Linked;
      assert Holds(link, ITEM_PER_LINK * i, keys, values);
      AppendHere(link.items_, link.used, link.keys_, ITEM_PER_LINK * i, keys, values, key, index);
      forall m | 0 <= m < |pages| && m != i
        ensures HoldSlots(pages[m].items_, pages[m].used, pages[m].keys_, ITEM_PER_LINK * m,
                  keys + [key], values + [Null])
      {
        assert Holds(pages[m], ITEM_PER_LINK * m, keys, values);
        AppendElsewhere(pages[m].items_, pages[m].used, pages[m].keys_, ITEM_PER_LINK * m, keys, values, key);
      }
    }

    /** setNewItem(key, isStatic, link, index), at the first available slot. */
    method SetNewItem(key: string, static_: bool, link: ValueInternalLink, index: nat, ghost i: nat)
      returns (slot: Slot)
      requires Consistent() && key !in keys && i < |pages| && pages[i] == link && index < ITEM_PER_LINK
      requires ITEM_PER_LINK * i + index == |keys|
      modifies this`itemCount_, this`keys, this`values, link`used, link`isStatic, link`keys_
      ensures Valid() && keys == old(keys) + [key] && values == old(values) + [Null]
      ensures slot == Slot(link, index) == SlotAt(|keys| - 1)
      ensures |old(link.isStatic)| == ITEM_PER_LINK && link.isStatic == old(link.isStatic)[index := static_]
    {
      hide HoldSlots, PageAfter, MembersOf;
      AppendToPages(key, link, index, i);
      itemCount_ := itemCount_ + 1;
      link.keys_ := link.keys_[index := key];
      link.used := link.used[index := true];
      link.isStatic := link.isStatic[index := static_];
      keys, values := keys + [key], values + [Null];
      slot := Slot(link, index);
    }

    /** getLastLinkInBucket(bucketIndex). There is one bucket, so the index is always that of the last one. */
    method GetLastLinkInBucket(bucketIndex: nat) returns (link: ValueInternalLink)
      requires Valid() && bucketIndex < bucketsSize_
      ensures pages != [] && link == pages[|pages| - 1] && link.next_ == null
    {
      assert bucketIndex == bucketsSize_ - 1 && pages[|pages| - 1].next_ == null;
      link := tailLink_;
    }

    /** The new page of unsafeAdd, linked behind the last one through the reference that getLastLinkInBucket
        returns, which for the only bucket is `tailLink_`. */
    method AddPage(link: ValueInternalLink) returns (newLink: ValueInternalLink)
      requires Valid() && pages != [] && link == tailLink_ && |keys| == ITEM_PER_LINK * |pages|
      modifies this`tailLink_, this`pages, link`next_
      ensures Consistent() && fresh(newLink) && pages == old(pages) + [newLink]
    {
      hide HoldSlots, Distinct;
      newLink := new ValueInternalLink();
      HoldsNothing(newLink.items_, newLink.used, newLink.keys_, ITEM_PER_LINK * |pages|, keys, values);
      link.next_ := newLink;
      tailLink_ := newLink;
      pages := pages + [newLink];
    }

    /** The loop of unsafeAdd over the slots of the last page. */
    method FirstAvailable(link: ValueInternalLink, ghost i: nat) returns (index: nat)
      requires Valid() && i + 1 == |pages| && pages[i] == link
      ensures index <= ITEM_PER_LINK && ITEM_PER_LINK * i + index == |keys|
    {
      hide Linked, Distinct;
      assert Holds(link, ITEM_PER_LINK * i, keys, values);
      index := 0;
      while index < ITEM_PER_LINK && link.used[index]
        invariant index <= ITEM_PER_LINK && ITEM_PER_LINK * i + index <= |keys|
      {
        index := index + 1;
      }
    }

    /** unsafeAdd(key, isStatic, hashedKey): the last page, or a new one behind it when that is full. */
    method UnsafeAdd(key: string, static_: bool, hashedKey: nat) returns (slot: Slot)
      requires Valid() && key !in keys && bucketsSize_ > 0
      modifies this, pages
      ensures Valid() && keys == old(keys) + [key] && values == old(values) + [Null]
      ensures old(pages) <= pages && fresh(pages[|old(pages)|..])
      ensures slot == SlotAt(|keys| - 1)
    {
      var bucketIndex := hashedKey % bucketsSize_;
      var link := GetLastLinkInBucket(bucketIndex);
      ghost var i := |pages| - 1;
      hide HoldSlots, Holds, Filled, Linked, Distinct;
      var index := FirstAvailable(link, i);
      if index == ITEM_PER_LINK {
        index := 0;
        link := AddPage(link);
        i := i + 1;
      }
      slot := SetNewItem(key, static_, link, index, i);
    }

    /** An assignment through the reference that resolveReference returned. */
    method AssignItem(slot: Slot, value: Value, ghost n: nat)
      requires Valid() && n < |keys| && slot == SlotAt(n)
      modifies this`values, pages`items_
      ensures Valid() && keys == old(keys) && values == old(values)[n := value]
      ensures Members() == old(Members())[keys[n] := value]
    {
      hide HoldSlots, MembersOf;
      StoredMember(keys, values, n, value);
      ghost var i := n / ITEM_PER_LINK;
      forall m | 0 <= m < |pages|
        ensures HoldSlots(if m == i then slot.link.items_[slot.index := value] else pages[m].items_,
                  pages[m].used, pages[m].keys_, ITEM_PER_LINK * m, keys, values[n := value])
      {
        assert Holds(pages[m], ITEM_PER_LINK * m, keys, values);
        if m == i {
          StoreHere(slot.link.items_, slot.link.used, slot.link.keys_, ITEM_PER_LINK * m, keys, values, slot.index,
            value);
        } else {
          StoreElsewhere(pages[m].items_, pages[m].used, pages[m].keys_, ITEM_PER_LINK * m, keys, values, n, value);
        }
      }
      slot.link.items_ := slot.link.items_[slot.index := value];
      values := values[n := value];
    }
  }

  /** Any run of resolveReference calls from an empty map: `find` then knows the keys asked for and no others, and
      `itemCount_` is the number of different keys. */
  method ResolveAll(requests: seq<string>) returns (m: ValueInternalMap)
    ensures fresh(m) && m.Valid() && m.keys == FirstOccurrences(requests)
    ensures m.itemCount_ == |set k | k in requests|
  {
    hide *;
    m := new ValueInternalMap();
    var n := 0;
    NextOccurrence(requests, n);
    while n < |requests|
      invariant n <= |requests| && m.Valid() && m.keys == FirstOccurrences(requests[..n])
      invariant m.itemCount_ == |m.keys| && fresh(m) && fresh(m.pages)
    {
      NextOccurrence(requests, n);
      ghost var before := m.pages;
      var _ := m.ResolveReference(requests[n], false);
      assert m.pages == before + m.pages[|before|..];
      n := n + 1;
    }
    assert requests[..n] == requests;
    DistinctRequests(requests);
  }
}
