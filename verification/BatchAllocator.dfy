/** BatchAllocator (json_batchallocator.h): pages handed out in fixed-size blocks, and a free list threaded
    through the released blocks. An address is a page and an offset into its buffer, counted in objects. */
module BatchAllocator {

  /** `AllocatedType *`. */
  datatype Ptr = Null | Obj(batch: BatchInfo, offset: nat)

  class BatchInfo {
    var next_: BatchInfo?
    var used_: nat
    const end_: nat
    /** The number of objects that `mallocSize` has room for. */
    const room: nat
    /** What the first word of an object holds, by the object's offset. */
    var words: map<nat, Ptr>

    /** allocateBatch. The room is for `objectsPerPage` blocks, `end_` stands behind as many objects. */
    constructor (objectsPerPage: nat, objectPerAllocation: nat)
      ensures next_ == null && used_ == 0 && end_ == objectsPerPage && words == map[]
      ensures room == Times(objectsPerPage, objectPerAllocation)
    {
      next_, used_, end_, room, words := null, 0, objectsPerPage, Times(objectsPerPage, objectPerAllocation), map[];
    }
  }

  function LinkOf(p: Ptr): Ptr
    reads (if p.Obj? then {p.batch} else {})`words
  {
    if p.Obj? && p.offset in p.batch.words then p.batch.words[p.offset] else Null
  }

  /** The carved blocks are the live ones and the free ones; none is both, and none is free twice. */
  ghost predicate Partitioned(carved: set<Ptr>, live: set<Ptr>, free: seq<Ptr>) {
    && (forall p | p in carved :: p in live || p in free)
    && (forall p | p in live :: p in carved && p !in free)
    && (forall p | p in free :: p in carved)
    && (forall i, j | 0 <= i < j < |free| :: free[i] != free[j])
    && |carved| == |live| + |free|
  }

  ghost predicate Disjoint(blocks: set<Ptr>, size: nat) {
    forall p, q | p in blocks && q in blocks && p != q :: Apart(p, q, size)
  }

  function Times(n: nat, size: nat): nat { n * size }

  ghost predicate Multiple(n: nat, size: nat) {
    exists m :: 0 <= m && n == Times(m, size)
  }

  predicate Apart(p: Ptr, q: Ptr, size: nat) {
    p.Obj? && q.Obj? && p.batch == q.batch ==> p.offset + size <= q.offset || q.offset + size <= p.offset
  }

  ghost function PageAfter(chain: seq<BatchInfo>, i: int): BatchInfo?
    requires -1 <= i < |chain|
  {
    if i + 1 < |chain| then chain[i + 1] else null
  }

  ghost function BlockAfter(free: seq<Ptr>, i: int): Ptr
    requires -1 <= i < |free|
  {
    if i + 1 < |free| then free[i + 1] else Null
  }

  class BatchAllocator {
    const objectPerAllocation: nat
    const objectsPerPage_: nat
    var batches_: BatchInfo?
    var currentBatch_: BatchInfo?
    var freeHead_: Ptr

    /** The pages in list order, the blocks ever carved from them, those handed out, and the released ones,
        last released first. */
    ghost var chain: seq<BatchInfo>
    ghost var carved: set<Ptr>
    ghost var live: set<Ptr>
    ghost var free: seq<Ptr>

    /** The page list: the newest page first, the dummy page last, every page but the first full. */
    ghost predicate Chained()
      reads this`chain, this`batches_, chain`next_, chain`used_
    {
      && chain != [] && batches_ == chain[0]
      && (forall i, j | 0 <= i < j < |chain| :: chain[i] != chain[j])
      && (forall i {:trigger chain[i].next_} | 0 <= i < |chain| :: chain[i].next_ == PageAfter(chain, i))
      && (forall i {:trigger chain[i].end_} | 0 <= i < |chain| ::
            chain[i].end_ == if i < |chain| - 1 then objectsPerPage_ else 0)
      && (forall i {:trigger chain[i].room} | 0 <= i < |chain| ::
            chain[i].room == Times(chain[i].end_, objectPerAllocation))
      && (forall i {:trigger chain[i].used_} | 1 <= i < |chain| :: chain[i].used_ == chain[i].end_)
    }

    /** Carved blocks lie below the bump pointer of their page and do not overlap. */
    ghost predicate Separated()
      reads this`chain, this`carved, chain`used_
    {
      && (forall p | p in carved :: p.Obj? && p.batch in chain)
      && (forall p | p in carved :: p.offset + objectPerAllocation <= p.batch.used_)
      && Disjoint(carved, objectPerAllocation)
    }

    /** The list that starts at `freeHead_` is `free`. */
    ghost predicate Threaded()
      reads this`free, this`freeHead_, (set p | p in free && p.Obj? :: p.batch)`words
    {
      && freeHead_ == BlockAfter(free, -1)
      && (forall i | 0 <= i < |free| :: free[i].Obj?)
      && (forall i {:trigger LinkOf(free[i])} | 0 <= i < |free| :: LinkOf(free[i]) == BlockAfter(free, i))
    }

    /** Carved and never-used objects make up the pages; with a page size that is a multiple of the block
        size the never-used part is a whole number of blocks, never a negative one. */
    ghost predicate Conserved()
      reads this`chain, this`carved, chain`used_
    {
      && chain != [] && objectPerAllocation > 0 && objectsPerPage_ >= 16
      && Times(|carved|, objectPerAllocation) + chain[0].end_ - chain[0].used_ == Times(|chain| - 1, objectsPerPage_)
      && Multiple(chain[0].used_, objectPerAllocation)
      && (Multiple(objectsPerPage_, objectPerAllocation) ==> chain[0].used_ <= chain[0].end_)
    }

    ghost predicate Valid()
      reads this, chain, set p | p in free && p.Obj? :: p.batch
    {
      && Chained() && Separated() && Threaded() && Conserved()
      && Partitioned(carved, live, free) && currentBatch_ == batches_
    }

    /** The block that was carved last from the newest page. */
    ghost predicate OnTop(p: Ptr)
      reads this`chain, chain`used_
    {
      p.Obj? && chain != [] && p.batch == chain[0] && p.offset + objectPerAllocation == chain[0].used_
    }

    /** BatchAllocator. */
    constructor (objectPerAllocation: nat, objectsPerPage: nat)
      requires objectPerAllocation > 0 && objectsPerPage >= 16
      ensures Valid() && live == {} && free == [] && |chain| == 1 && fresh(chain[0])
      ensures chain[0].used_ == chain[0].end_
      ensures this.objectPerAllocation == objectPerAllocation && objectsPerPage_ == objectsPerPage
    {
      this.objectPerAllocation, objectsPerPage_, freeHead_ := objectPerAllocation, objectsPerPage, Null;
      var batch := new BatchInfo(0, objectPerAllocation);
      batches_, currentBatch_ := batch, batch;
      chain, carved, live, free := [batch], {}, {}, [];
    }

    /** allocate(). */
    method Allocate() returns (p: Ptr)
      requires Valid()
      modifies this, chain
      ensures Valid()
      ensures live == old(live) + {p} && p !in old(live) && carved == old(carved) + {p}
      ensures old(free) != [] ==> p == old(free)[0] && free == old(free)[1..] && chain == old(chain)
      ensures old(free) == [] ==> free == [] && p !in old(carved) && OnTop(p)
      ensures old(free) == [] && old(chain[0].used_ != chain[0].end_) ==>
                chain == old(chain) && p.offset == old(chain[0].used_)
      ensures old(free) == [] && old(chain[0].used_ == chain[0].end_) ==>
                chain[1..] == old(chain) && fresh(chain[0]) && p.offset == 0
    {
      if freeHead_ != Null {
        p := PopFree();
      } else {
        if currentBatch_.used_ == currentBatch_.end_ {
          NextPage();
        }
        p := Carve();
      }
    }

    /** The head of the free list (json_batchallocator.h:51-56). */
    method PopFree() returns (p: Ptr)
      requires Valid() && freeHead_ != Null
      modifies this`freeHead_, this`live, this`free
      ensures Valid()
      ensures old(free) != [] && p == old(free)[0] && free == old(free)[1..]
      ensures live == old(live) + {p} && p !in old(live) && p in carved
    {
      hide Chained, Separated, Conserved, Partitioned;
      p := freeHead_;
      PopKeeps(carved, live, free);
      freeHead_ := LinkOf(p);
      live, free := live + {p}, free[1..];
    }

    /** The walk over full pages, and a new page at the head of the list when it finds no other
        (json_batchallocator.h:59-69). */
    method NextPage()
      requires Valid() && free == [] && currentBatch_.used_ == currentBatch_.end_
      modifies this`currentBatch_, this`batches_, this`chain
      ensures Valid() && currentBatch_.used_ == 0 != currentBatch_.end_
      ensures chain != [] && fresh(chain[0]) && chain == [chain[0]] + old(chain)
    {
      hide Times, Multiple, Partitioned;
      WalkFull();
      if currentBatch_ == null {
        NewPage();
      }
    }

    /** `allocateBatch( objectsPerPage_ )`, put at the head of the list. */
    method NewPage()
      requires Chained() && Separated() && Threaded() && Conserved() && Partitioned(carved, live, free) && free == []
      requires chain[0].used_ == chain[0].end_
      modifies this`currentBatch_, this`batches_, this`chain
      ensures Valid() && currentBatch_.used_ == 0 != currentBatch_.end_
      ensures chain != [] && fresh(chain[0]) && chain == [chain[0]] + old(chain)
    {
      hide Times, Multiple, Partitioned, Disjoint, Threaded;
      var batch := new BatchInfo(objectsPerPage_, objectPerAllocation);
      currentBatch_ := batch;
      currentBatch_.next_ := batches_;
      batches_ := currentBatch_;
      TimesNext(|chain| - 1, objectsPerPage_);
      ZeroIsMultiple(objectPerAllocation);
      chain := [batches_] + chain;
    }

    method WalkFull()
      requires Chained() && currentBatch_ == batches_ && currentBatch_.used_ == currentBatch_.end_
      modifies this`currentBatch_
      ensures currentBatch_ == null
    {
      currentBatch_ := currentBatch_.next_;
      ghost var i := 1;
      while currentBatch_ != null && currentBatch_.used_ == currentBatch_.end_
        invariant Chained()
        invariant 1 <= i <= |chain|
        invariant currentBatch_ == PageAfter(chain, i - 1)
        decreases |chain| - i
      {
        currentBatch_ := currentBatch_.next_;
        i := i + 1;
      }
    }

    /** The bump allocation from the current page (json_batchallocator.h:71-73). */
    method Carve() returns (p: Ptr)
      requires Valid() && free == [] && currentBatch_.used_ != currentBatch_.end_
      modifies this`carved, this`live, currentBatch_`used_
      ensures Valid()
      ensures live == old(live) + {p} && carved == old(carved) + {p} && p !in old(carved)
      ensures OnTop(p) && p.batch == currentBatch_ && p.offset == old(currentBatch_.used_)
    {
      hide Times, Multiple, Partitioned, Threaded, Disjoint, Chained, PageAfter, BlockAfter, LinkOf;
      CarveFacts();
      p := Obj(currentBatch_, currentBatch_.used_);
      Bump();
      live, carved := live + {p}, carved + {p};
    }

    /** `currentBatch_->used_ += objectPerAllocation`. */
    method Bump()
      requires Chained() && currentBatch_ == batches_ && currentBatch_.used_ != currentBatch_.end_
      modifies currentBatch_`used_
      ensures Chained() && currentBatch_.used_ == old(currentBatch_.used_) + objectPerAllocation
      ensures forall b | b in chain && b != currentBatch_ :: b.used_ == old(b.used_)
    {
      currentBatch_.used_ := currentBatch_.used_ + objectPerAllocation;
    }

    lemma CarveFacts()
      requires Valid() && free == [] && currentBatch_.used_ != currentBatch_.end_
      ensures currentBatch_ == chain[0]
      ensures
        var p := Obj(currentBatch_, currentBatch_.used_);
        p !in carved && Disjoint(carved + {p}, objectPerAllocation) && Partitioned(carved + {p}, live + {p}, [])
      ensures Times(|carved| + 1, objectPerAllocation) == Times(|carved|, objectPerAllocation) + objectPerAllocation
      ensures Multiple(chain[0].used_ + objectPerAllocation, objectPerAllocation)
      ensures Multiple(objectsPerPage_, objectPerAllocation) ==> chain[0].used_ + objectPerAllocation <= chain[0].end_
    {
      hide Times, Multiple, Partitioned, Threaded, Disjoint;
      var p := Obj(currentBatch_, currentBatch_.used_);
      assert p !in carved;
      CarveKeeps(carved, live, p);
      CarveCount();
      DisjointNext(carved, p, objectPerAllocation);
    }

    lemma CarveCount()
      requires Chained() && Conserved() && chain[0].used_ != chain[0].end_
      ensures Times(|carved| + 1, objectPerAllocation) == Times(|carved|, objectPerAllocation) + objectPerAllocation
      ensures Multiple(chain[0].used_ + objectPerAllocation, objectPerAllocation)
      ensures Multiple(objectsPerPage_, objectPerAllocation) ==> chain[0].used_ + objectPerAllocation <= chain[0].end_
    {
      hide Times;
      TimesNext(|carved|, objectPerAllocation);
      MultipleNext(chain[0].used_, objectPerAllocation);
      if Multiple(objectsPerPage_, objectPerAllocation) {
        MultiplesApart(chain[0].used_, objectsPerPage_, objectPerAllocation);
      }
    }

    /** A client's own store into any object of a block it holds never reaches the free list. */
    method StoreWord(p: Ptr, k: nat, word: Ptr)
      requires Valid() && p in live && k < objectPerAllocation
      modifies (if p.Obj? then {p.batch} else {})`words
      ensures Valid() && p.Obj? && LinkOf(Obj(p.batch, p.offset + k)) == word
    {
      hide Conserved, Chained;
      p.batch.words := p.batch.words[p.offset + k := word];
      forall i | 0 <= i < |free|
        ensures LinkOf(free[i]) == old(LinkOf(free[i]))
      {
        assert free[i] in free && free[i] != p;
        assert Apart(p, free[i], objectPerAllocation);
      }
    }

    lemma LiveIsBlock(p: Ptr)
      requires Valid() && p in live
      ensures p.Obj? && p.batch in chain && objectPerAllocation > 0
    {
      hide Times, Multiple, Chained, Disjoint, Threaded;
    }

    /** release(object). */
    method Release(object_: Ptr)
      requires Valid() && object_ in live
      modifies this`freeHead_, this`live, this`free, (if object_.Obj? then {object_.batch} else {})`words
      ensures Valid()
      ensures live == old(live) - {object_} && free == [object_] + old(free)
    {
      hide Conserved, Partitioned, Chained, Separated;
      LiveIsBlock(object_);
      PushKeeps(carved, live, free, object_);
      StoreWord(object_, 0, freeHead_);
      freeHead_ := object_;
      live, free := live - {object_}, [object_] + free;
    }

    /** With the page size a multiple of the block size, live blocks lie inside their pages and do not overlap,
        and a live block is not on the free list. */
    lemma LiveBlocksSafe(p: Ptr, q: Ptr)
      requires Valid() && p in live && Multiple(objectsPerPage_, objectPerAllocation)
      ensures p.Obj? && p.batch in chain && p !in free
      ensures p.offset + objectPerAllocation <= p.batch.end_ <= p.batch.room
      ensures q in live && q != p ==> Apart(p, q, objectPerAllocation)
    {
      hide Times, Multiple, Threaded;
      var i :| 0 <= i < |chain| && chain[i] == p.batch;
      TimesAtLeast(chain[i].end_, objectPerAllocation);
      assert chain[i].room == Times(chain[i].end_, objectPerAllocation);
    }

    /** With `perPage` blocks to a page, live, free and never-used blocks make up the pages, the dummy aside. */
    lemma BlocksConserved(perPage: nat)
      requires Valid() && objectsPerPage_ == Times(perPage, objectPerAllocation)
      ensures exists unused: nat ::
        && Times(unused, objectPerAllocation) == chain[0].end_ - chain[0].used_
        && |live| + |free| + unused == Times(|chain| - 1, perPage)
    {
      hide Times, Threaded, Separated;
      var size := objectPerAllocation;
      assert Multiple(objectsPerPage_, size);
      var pages := if |chain| > 1 then perPage else 0;
      assert Times(pages, size) == chain[0].end_ by { TimesZero(size); }
      var used: nat :| chain[0].used_ == Times(used, size);
      if used > pages {
        TimesNext(pages, size);
        TimesMonotone(pages + 1, used, size);
      }
      var unused: nat := pages - used;
      TimesAdd(unused, used, size);
      TimesAdd(|carved|, unused, size);
      TimesAssociative(|chain| - 1, perPage, size);
      TimesCancel(|carved| + unused, Times(|chain| - 1, perPage), size);
    }
  }

  /** With any other page size the full-page test, which compares for equality, never holds again: the bump pointer
      steps over the end of the page and runs on. For every limit, the room of the page among them, a run hands out a
      live block that reaches past it. */
  method OverrunningRun(size: nat, pageSize: nat, limit: nat) returns (a: BatchAllocator, p: Ptr)
    requires size > 0 && pageSize >= 16 && !Multiple(pageSize, size)
    ensures fresh(a) && a.Valid() && a.objectPerAllocation == size && a.objectsPerPage_ == pageSize
    ensures p in a.live && p.Obj? && p.offset + size > limit
    ensures p.batch.end_ == pageSize && p.batch.room == Times(pageSize, size)
  {
    hide Multiple, Times;
    a := new BatchAllocator(size, pageSize);
    p := a.Allocate();
    while p.offset + size <= limit
      invariant a.Valid() && a.free == [] && p in a.live && a.OnTop(p) && |a.chain| == 2
      invariant a.objectPerAllocation == size && a.objectsPerPage_ == pageSize
      invariant fresh(a) && fresh(a.chain)
      decreases limit - p.offset
    {
      p := a.Allocate();
    }
    assert p.batch == a.chain[0] && a.chain[0].end_ == pageSize;
    assert a.chain[0].room == Times(a.chain[0].end_, size);
  }

  /** `Multiple` is divisibility. */
  lemma MultipleIsRemainderZero(n: nat, size: nat)
    requires size > 0
    ensures Multiple(n, size) <==> n % size == 0
  {
    assert n == Times(n / size, size) + n % size;
    if Multiple(n, size) {
      var m: nat :| n == Times(m, size);
      if m < n / size {
        TimesNext(m, size);
        TimesMonotone(m + 1, n / size, size);
      } else if n / size < m {
        TimesNext(n / size, size);
        TimesMonotone(n / size + 1, m, size);
      }
    }
  }

  lemma TimesNext(n: nat, size: nat)
    ensures Times(n + 1, size) == Times(n, size) + size
  {
    assert (n + 1) * size == n * size + size;
  }

  lemma {:induction false} TimesMonotone(x: nat, y: nat, size: nat)
    requires x <= y
    ensures Times(x, size) <= Times(y, size)
    decreases y - x
  {
    if x < y {
      TimesNext(y - 1, size);
      TimesMonotone(x, y - 1, size);
    }
  }

  /** A multiple below another is a whole block below it. */
  lemma MultiplesApart(a: nat, b: nat, size: nat)
    requires Multiple(a, size) && Multiple(b, size) && a < b
    ensures a + size <= b
  {
    var x: nat :| a == Times(x, size);
    var y: nat :| b == Times(y, size);
    if y <= x {
      TimesMonotone(y, x, size);
    } else {
      TimesNext(x, size);
      TimesMonotone(x + 1, y, size);
    }
  }

  lemma MultipleNext(a: nat, size: nat)
    requires Multiple(a, size)
    ensures Multiple(a + size, size)
  {
    var x: nat :| a == Times(x, size);
    TimesNext(x, size);
  }

  lemma TimesAtLeast(n: nat, size: nat)
    requires size > 0
    ensures n <= Times(n, size)
  {
    assert n * size >= n * 1;
  }

  lemma TimesZero(size: nat)
    ensures Times(0, size) == 0
  {
  }

  lemma TimesAdd(a: nat, b: nat, size: nat)
    ensures Times(a + b, size) == Times(a, size) + Times(b, size)
  {
    assert (a + b) * size == a * size + b * size;
  }

  lemma TimesAssociative(a: nat, b: nat, size: nat)
    ensures Times(a, Times(b, size)) == Times(Times(a, b), size)
  {
    assert a * (b * size) == (a * b) * size;
  }

  lemma TimesCancel(a: nat, b: nat, size: nat)
    requires size > 0 && Times(a, size) == Times(b, size)
    ensures a == b
  {
    hide Times;
    if a < b {
      TimesNext(a, size);
      TimesMonotone(a + 1, b, size);
    } else if b < a {
      TimesNext(b, size);
      TimesMonotone(b + 1, a, size);
    }
  }

  lemma ZeroIsMultiple(size: nat)
    ensures Multiple(0, size)
  {
    assert Times(0, size) == 0;
  }

  lemma DisjointNext(blocks: set<Ptr>, p: Ptr, size: nat)
    requires Disjoint(blocks, size) && p.Obj?
    requires forall q | q in blocks :: q.Obj? && (q.batch == p.batch ==> q.offset + size <= p.offset)
    ensures Disjoint(blocks + {p}, size)
  {
  }

  lemma PopKeeps(carved: set<Ptr>, live: set<Ptr>, free: seq<Ptr>)
    requires Partitioned(carved, live, free) && free != []
    ensures free[0] in carved && free[0] !in live
    ensures Partitioned(carved, live + {free[0]}, free[1..])
  {
    assert free[0] in free;
    assert free == [free[0]] + free[1..];
  }

  lemma PushKeeps(carved: set<Ptr>, live: set<Ptr>, free: seq<Ptr>, p: Ptr)
    requires Partitioned(carved, live, free) && p in live
    ensures p in carved && p !in free
    ensures Partitioned(carved, live - {p}, [p] + free)
  {
  }

  lemma CarveKeeps(carved: set<Ptr>, live: set<Ptr>, p: Ptr)
    requires Partitioned(carved, live, []) && p !in carved
    ensures Partitioned(carved + {p}, live + {p}, [])
  {
  }
}
