/**
 The size-class allocator: power-of-two buckets, one intrusive free list per bucket, and
 fresh pages when a list is empty.  The first 8-byte word of a block holds its usable size
 while the block is live, and the address of the next free block while it is free.
 */
module Malloc {
  const HEAP_BASE := 0x4_0000_0000
  const HDR_SIZE := 8
  const NUM_BUCKETS := 16
  const LARGEST := 262144
  const WORD := 0x1_0000_0000_0000_0000

  type Size = n: int | 0 <= n < WORD

  // ---------- Buckets ----------

  /** bucket_size */
  function BucketSize(b: nat): nat { if b == 0 then 8 else 2 * BucketSize(b - 1) }

  /** b is the first bucket that holds sz bytes, or the last bucket. */
  ghost predicate IsBucket(sz: int, b: nat) {
    && b < NUM_BUCKETS
    && (sz <= BucketSize(b) || b == NUM_BUCKETS - 1)
    && (b > 0 ==> BucketSize(b - 1) < sz)
  }

  /** bucket_for */
  method BucketFor(sz: Size) returns (b: nat)
    ensures IsBucket(sz, b)
  {
    b := 0;
    var s := 8;
    while s < sz && b < NUM_BUCKETS - 1
      invariant b < NUM_BUCKETS && s == BucketSize(b) && (b > 0 ==> BucketSize(b - 1) < sz)
      decreases NUM_BUCKETS - b
    {
      s := s * 2;
      b := b + 1;
    }
  }

  lemma {:induction false} BucketSizeMono(b: nat, c: nat)
    requires b < c
    ensures 8 <= BucketSize(b) && 2 * BucketSize(b) <= BucketSize(c)
    decreases c
  {
    BucketSizeLow(b);
    if b < c - 1 { BucketSizeMono(b, c - 1); }
  }

  lemma {:induction false} BucketSizeLow(b: nat)
    ensures 8 <= BucketSize(b)
  {
    if b > 0 { BucketSizeLow(b - 1); }
  }

  lemma LargestBucket()
    ensures BucketSize(15) == LARGEST
  {
    assert BucketSize(5) == 256;
    assert BucketSize(10) == 8192;
  }

  /** A size belongs to one bucket only. */
  lemma BucketUnique(sz: int, b: nat, c: nat)
    requires IsBucket(sz, b) && IsBucket(sz, c)
    ensures b == c
  {
    hide BucketSize;
    if b < c - 1 { BucketSizeMono(b, c - 1); }
    if c < b - 1 { BucketSizeMono(c, b - 1); }
  }

  /** The size in a block's header leads back to the block's own bucket. */
  lemma BucketOfSize(b: nat)
    requires b < NUM_BUCKETS
    ensures IsBucket(BucketSize(b), b)
  {
    if b > 0 { BucketSizeMono(b - 1, b); }
  }

  /** The bucket covers the size exactly up to the largest block. */
  lemma BucketCovers(sz: int, b: nat)
    requires IsBucket(sz, b)
    ensures sz <= BucketSize(b) <==> sz <= LARGEST
  {
    LargestBucket();
    hide BucketSize;
    if b < 15 { BucketSizeMono(b, 15); }
  }

  /** The size malloc looks for: header included, never for nothing, and wrapping like size_t. */
  function Total(size: Size): Size {
    var request := if size == 0 then 1 else size;
    if request + HDR_SIZE < WORD then request + HDR_SIZE else request + HDR_SIZE - WORD
  }

  function FirstBucket(sz: int, b: nat): nat
    requires b < NUM_BUCKETS
    decreases NUM_BUCKETS - b
  {
    if sz <= BucketSize(b) || b == NUM_BUCKETS - 1 then b else FirstBucket(sz, b + 1)
  }

  lemma {:induction false} FirstIsBucket(sz: int, b: nat)
    requires b < NUM_BUCKETS && (b > 0 ==> BucketSize(b - 1) < sz)
    ensures IsBucket(sz, FirstBucket(sz, b))
    decreases NUM_BUCKETS - b
  {
    hide BucketSize;
    if sz > BucketSize(b) && b < NUM_BUCKETS - 1 { FirstIsBucket(sz, b + 1); }
  }

  /** The usable size of the block a request gets. */
  function Room(size: Size): int { BucketSize(FirstBucket(Total(size), 0)) - HDR_SIZE }

  /** Exactly the requests above 256 KiB less the header get a block that is too small for them. */
  lemma RoomCovers(size: Size)
    ensures 0 <= Room(size) <= LARGEST - HDR_SIZE
    ensures size <= Room(size) <==> size + HDR_SIZE <= LARGEST
  {
    var total := Total(size);
    var b := FirstBucket(total, 0);
    FirstIsBucket(total, 0);
    LargestBucket();
    hide BucketSize;
    BucketSizeLow(b);
    BucketCovers(total, b);
    if b < 15 { BucketSizeMono(b, 15); }
  }

  /** A request of 256 KiB gets a block of 256 KiB less its header. */
  lemma LargestRequestIsShort()
    ensures Room(LARGEST) == LARGEST - HDR_SIZE < LARGEST
  {
    FirstIsBucket(Total(LARGEST), 0);
    LargestBucket();
    hide BucketSize;
    var b := FirstBucket(Total(LARGEST), 0);
    if b < 15 {
      BucketSizeMono(b, 15);
    }
  }

  // ---------- The heap ----------

  type Memory = map<int, int>
  type Blocks = map<int, nat>

  /** A null-terminated list through the first words of the blocks. */
  ghost predicate Chain(mem: Memory, head: int, l: seq<int>)
    decreases |l|
  {
    if l == [] then head == 0
    else head == l[0] && head != 0 && head in mem && Chain(mem, mem[head], l[1..])
  }

  ghost predicate Distinct(l: seq<int>) { forall i, j :: 0 <= i < j < |l| ==> l[i] != l[j] }

  /** The list heads and next words spell out these lists; none has a cycle. */
  ghost predicate Chains(mem: Memory, heads: seq<int>, lists: seq<seq<int>>) {
    && |heads| == |lists| == NUM_BUCKETS
    && forall b :: 0 <= b < NUM_BUCKETS ==> Chain(mem, heads[b], lists[b]) && Distinct(lists[b])
  }

  /** Every block is in exactly one place: live, or free in the list of its own bucket. */
  ghost predicate Places(blocks: Blocks, live: set<int>, lists: seq<seq<int>>) {
    && |lists| == NUM_BUCKETS
    && (forall x :: x in blocks ==> blocks[x] < NUM_BUCKETS)
    && (forall x :: x in live ==> x in blocks)
    && (forall b, x :: 0 <= b < NUM_BUCKETS && x in lists[b] ==> x in blocks && blocks[x] == b && x !in live)
    && (forall x :: x in blocks && x !in live ==> x in lists[blocks[x]])
  }

  /** The header of a live block holds its usable size. */
  ghost predicate Headers(mem: Memory, blocks: Blocks, live: set<int>) {
    forall x :: x in live ==> x in blocks && x in mem && mem[x] == BucketSize(blocks[x]) - HDR_SIZE
  }

  ghost predicate Apart(x: int, n: int, y: int, m: int) { x + n <= y || y + m <= x }

  /** Blocks lie below the top of the heap and do not overlap. */
  ghost predicate Layout(blocks: Blocks, top: int) {
    && HEAP_BASE <= top
    && (forall x :: x in blocks ==> HEAP_BASE <= x && x + BucketSize(blocks[x]) <= top)
    && (forall x, y :: x in blocks && y in blocks && x != y ==>
        Apart(x, BucketSize(blocks[x]), y, BucketSize(blocks[y])))
  }

  // ---------- What a write leaves alone ----------

  lemma {:induction false} ChainFrame(mem: Memory, mem': Memory, head: int, l: seq<int>)
    requires Chain(mem, head, l)
    requires forall x :: x in l ==> x in mem' && (x in mem ==> mem'[x] == mem[x])
    ensures Chain(mem', head, l)
    decreases |l|
  {
    if l != [] { ChainFrame(mem, mem', mem[head], l[1..]); }
  }

  lemma {:induction false} ChainInMemory(mem: Memory, head: int, l: seq<int>)
    requires Chain(mem, head, l)
    ensures forall x :: x in l ==> x in mem
    decreases |l|
  {
    if l != [] { ChainInMemory(mem, mem[head], l[1..]); }
  }

  /** Writing a word that is no free block's keeps every list. */
  lemma ChainsFrame(mem: Memory, a: int, v: int, heads: seq<int>, lists: seq<seq<int>>)
    requires Chains(mem, heads, lists)
    requires forall b :: 0 <= b < NUM_BUCKETS ==> a !in lists[b]
    ensures Chains(mem[a := v], heads, lists)
  {
    hide Chain, Distinct;
    forall b | 0 <= b < NUM_BUCKETS
      ensures Chain(mem[a := v], heads[b], lists[b])
    {
      ChainInMemory(mem, heads[b], lists[b]);
      ChainFrame(mem, mem[a := v], heads[b], lists[b]);
    }
  }

  lemma ChainUnfold(mem: Memory, head: int, l: seq<int>)
    requires Chain(mem, head, l)
    ensures head == 0 <==> l == []
    ensures head != 0 ==> head == l[0] && head in mem && Chain(mem, mem[head], l[1..])
  {
  }

  lemma DistinctTail(l: seq<int>)
    requires Distinct(l) && l != []
    ensures Distinct(l[1..]) && l[0] !in l[1..]
  {
    var t := l[1..];
    assert forall i :: 0 <= i < |t| ==> t[i] == l[i + 1];
  }

  lemma DistinctCons(x: int, l: seq<int>)
    requires Distinct(l) && x !in l
    ensures Distinct([x] + l)
  {
  }

  /** Taking the first block of a list. */
  lemma PopChains(mem: Memory, heads: seq<int>, lists: seq<seq<int>>, b: nat)
    requires Chains(mem, heads, lists) && b < NUM_BUCKETS && heads[b] != 0
    ensures heads[b] in mem && lists[b] != [] && lists[b][0] == heads[b]
    ensures Chains(mem, heads[b := mem[heads[b]]], lists[b := lists[b][1..]])
    ensures heads[b] !in lists[b][1..]
  {
    hide Chain, Distinct;
    ChainUnfold(mem, heads[b], lists[b]);
    DistinctTail(lists[b]);
  }

  lemma PopPlaces(blocks: Blocks, live: set<int>, lists: seq<seq<int>>, b: nat)
    requires Places(blocks, live, lists) && b < NUM_BUCKETS && lists[b] != [] && lists[b][0] !in lists[b][1..]
    ensures Places(blocks, live + {lists[b][0]}, lists[b := lists[b][1..]])
  {
    var x, lists' := lists[b][0], lists[b := lists[b][1..]];
    assert x in lists[b];
    assert lists[b] == [x] + lists[b][1..];
    forall y | y in blocks && y !in live + {x}
      ensures y in lists'[blocks[y]]
    {
      assert y in lists[blocks[y]];
    }
  }

  lemma PushPlaces(blocks: Blocks, live: set<int>, lists: seq<seq<int>>, x: int)
    requires Places(blocks, live, lists) && x in live
    ensures x in blocks && blocks[x] < NUM_BUCKETS
    ensures Places(blocks, live - {x}, lists[blocks[x] := [x] + lists[blocks[x]]])
  {
  }

  lemma PushChains(mem: Memory, heads: seq<int>, lists: seq<seq<int>>, b: nat, x: int)
    requires Chains(mem, heads, lists) && b < NUM_BUCKETS && x != 0
    requires forall c :: 0 <= c < NUM_BUCKETS ==> x !in lists[c]
    ensures Chains(mem[x := heads[b]], heads[b := x], lists[b := [x] + lists[b]])
  {
    ChainsFrame(mem, x, heads[b], heads, lists);
    var mem', l := mem[x := heads[b]], [x] + lists[b];
    assert l[1..] == lists[b];
    assert Chain(mem', x, l);
    hide Chain, Distinct;
    DistinctCons(x, lists[b]);
  }

  /** A block cut from fresh pages at the top. */
  lemma FreshLayout(blocks: Blocks, top: int, b: nat, top': int)
    requires Layout(blocks, top) && b < NUM_BUCKETS && top + BucketSize(b) <= top'
    ensures top !in blocks && Layout(blocks[top := b], top')
  {
    hide BucketSize;
    BucketSizeLow(b);
    if top in blocks { BucketSizeLow(blocks[top]); }
  }

  lemma FreshPlaces(blocks: Blocks, live: set<int>, lists: seq<seq<int>>, x: int, b: nat)
    requires Places(blocks, live, lists) && x !in blocks && b < NUM_BUCKETS
    ensures Places(blocks[x := b], live + {x}, lists)
    ensures x !in live && forall c :: 0 <= c < NUM_BUCKETS ==> x !in lists[c]
  {
  }

  lemma OnlyBlocksAreFree(blocks: Blocks, live: set<int>, lists: seq<seq<int>>, a: int)
    requires Places(blocks, live, lists) && a !in blocks
    ensures forall b :: 0 <= b < NUM_BUCKETS ==> a !in lists[b]
  {
  }

  /** A user's word lies inside one block's payload, so it is no block's first word. */
  lemma PayloadIsNoHeader(blocks: Blocks, top: int, x: int, a: int, y: int)
    requires Layout(blocks, top) && x in blocks && y in blocks
    requires x + HDR_SIZE <= a && a + 8 <= x + BucketSize(blocks[x])
    ensures a != y
  {
    hide BucketSize;
    if x != y {
      assert Apart(x, BucketSize(blocks[x]), y, BucketSize(blocks[y]));
      BucketSizeLow(blocks[y]);
    }
  }

  lemma HeadersAdd(mem: Memory, blocks: Blocks, live: set<int>, x: int, b: nat)
    requires Headers(mem, blocks, live) && x !in live
    ensures Headers(mem[x := BucketSize(b) - HDR_SIZE], blocks[x := b], live + {x})
  {
    hide BucketSize;
  }

  /** The first block of a list is a block of that bucket, and not live. */
  lemma FreeBlock(blocks: Blocks, live: set<int>, lists: seq<seq<int>>, top: int, b: nat)
    requires Places(blocks, live, lists) && Layout(blocks, top) && b < NUM_BUCKETS && lists[b] != []
    ensures var x := lists[b][0];
      x in blocks && blocks[x] == b && x !in live && x >= HEAP_BASE && blocks[x := b] == blocks
    ensures forall c :: 0 <= c < NUM_BUCKETS && c != b ==> lists[b][0] !in lists[c]
  {
    assert lists[b][0] in lists[b];
  }

  /** The kernel's anonymous mapping call: it may refuse, and cannot map past the address space. */
  method MmapAnon(va: int, bytes: int, willing: bool) returns (mapped: bool)
    ensures mapped <==> willing && va + bytes < WORD
  {
    mapped := willing && va + bytes < WORD;
  }

  class Heap {
    const pageSize: int
    var freeLists: seq<int>
    var heapTop: int
    var mem: Memory
    /** Every block ever cut, with its bucket; those in use; and what the free lists hold. */
    ghost var blocks: Blocks
    ghost var live: set<int>
    ghost var lists: seq<seq<int>>

    ghost predicate Valid()
      reads this
    {
      && 0 < pageSize < 0x8000_0000
      && Chains(mem, freeLists, lists) && Places(blocks, live, lists)
      && Headers(mem, blocks, live) && Layout(blocks, heapTop)
    }

    constructor (page: int)
      requires 0 < page < 0x8000_0000
      ensures Valid() && pageSize == page && heapTop == HEAP_BASE && live == {} && blocks == map[] && mem == map[]
    {
      pageSize := page;
      heapTop := HEAP_BASE;
      freeLists := seq(NUM_BUCKETS, _ => 0);
      mem := map[];
      blocks := map[];
      live := {};
      lists := seq(NUM_BUCKETS, _ => []);
    }

    /** alloc_pages */
    method AllocPages(bytes: Size, willing: bool) returns (va: int)
      requires 0 < pageSize < 0x8000_0000 && 0 < bytes <= LARGEST && HEAP_BASE <= heapTop
      modifies `heapTop
      ensures va == 0 ==> heapTop == old(heapTop)
      ensures va != 0 ==> va == old(heapTop) && va + bytes <= heapTop < va + bytes + pageSize
      ensures va == 0 ==> !willing || old(heapTop) + bytes + pageSize >= WORD
    {
      var pages := (bytes + pageSize - 1) / pageSize;
      EnoughPages(bytes, pageSize);
      var mapped := MmapAnon(heapTop, pages * pageSize, willing);
      if !mapped { return 0; }
      va := heapTop;
      heapTop := heapTop + pages * pageSize;
    }

    /**
     malloc: null comes only when no pages can be had, and leaves the heap as it was.  A free
     block of the right bucket is taken before any fresh pages.  On success a block that was
     not live becomes live, with its usable size in its header; no live block is lost, moved
     or overlapped.
     The usable size covers the request exactly up to the largest bucket.
     */
    method Malloc(size: Size, willing: bool) returns (p: int)
      requires Valid()
      modifies this
      ensures Valid()
      ensures p == 0 ==> live == old(live) && blocks == old(blocks) && mem == old(mem) && freeLists == old(freeLists)
      ensures p != 0 ==> p - HDR_SIZE !in old(live) && live == old(live) + {p - HDR_SIZE}
      ensures p != 0 ==> forall x :: x in old(blocks) ==> x in blocks && blocks[x] == old(blocks)[x]
      ensures p != 0 ==> forall a :: a != p - HDR_SIZE && a in old(mem) ==> a in mem && mem[a] == old(mem)[a]
      ensures p == 0 ==> !willing || old(heapTop) + LARGEST + pageSize >= WORD
      ensures forall b: nat :: b < |old(freeLists)| && IsBucket(Total(size), b) && old(freeLists)[b] != 0 ==>
        p == old(freeLists)[b] + HDR_SIZE && blocks == old(blocks) && heapTop == old(heapTop)
      ensures old(heapTop) <= heapTop <= old(heapTop) + LARGEST + pageSize
      ensures p != 0 ==> p - HDR_SIZE in mem && mem[p - HDR_SIZE] == Room(size)
      ensures p != 0 ==> (size <= mem[p - HDR_SIZE] <==> size + HDR_SIZE <= LARGEST)
    {
      hide BucketSize, Chains, Places, Headers, Layout;
      var request := if size == 0 then 1 else size;
      var total := if request + HDR_SIZE < WORD then request + HDR_SIZE else request + HDR_SIZE - WORD;
      assert total == Total(size);
      var b := BucketFor(total);
      FirstIsBucket(total, 0);
      forall c: nat | IsBucket(total, c)
        ensures c == b
      {
        BucketUnique(total, b, c);
      }
      RoomCovers(size);
      ListsAreThere(this);
      assert BucketSize(b) == Room(size) + HDR_SIZE;
      if freeLists[b] != 0 {
        p := TakeFree(b);
      } else {
        p := TakeFresh(b, willing);
      }
    }

    /** Takes the first block of a list and writes its header. */
    method TakeFree(b: nat) returns (p: int)
      requires Valid() && b < NUM_BUCKETS && |freeLists| == NUM_BUCKETS && freeLists[b] != 0
      modifies `freeLists, `mem, `live, `lists
      ensures Valid()
      ensures p == old(freeLists[b]) + HDR_SIZE && p != 0
      ensures p - HDR_SIZE !in old(live) && live == old(live) + {p - HDR_SIZE}
      ensures p - HDR_SIZE in old(mem) && mem == old(mem)[p - HDR_SIZE := BucketSize(b) - HDR_SIZE]
    {
      hide BucketSize, Chain, Distinct, Layout;
      var block := freeLists[b];
      PopChains(mem, freeLists, lists, b);
      PopPlaces(blocks, live, lists, b);
      FreeBlock(blocks, live, lists, heapTop, b);
      freeLists := freeLists[b := mem[block]];
      lists := lists[b := lists[b][1..]];
      ChainsFrame(mem, block, BucketSize(b) - HDR_SIZE, freeLists, lists);
      hide Chains, Places, Headers;
      HeadersAdd(mem, blocks, live, block, b);
      live := live + {block};
      mem := mem[block := BucketSize(b) - HDR_SIZE];
      p := block + HDR_SIZE;
    }

    /** Cuts a block from fresh pages and writes its header. */
    method TakeFresh(b: nat, willing: bool) returns (p: int)
      requires Valid() && b < NUM_BUCKETS && 0 < BucketSize(b) <= LARGEST
      modifies `heapTop, `mem, `live, `blocks
      ensures Valid()
      ensures old(heapTop) <= heapTop <= old(heapTop) + LARGEST + pageSize
      ensures p == 0 ==> live == old(live) && blocks == old(blocks) && mem == old(mem)
      ensures p == 0 ==> !willing || old(heapTop) + LARGEST + pageSize >= WORD
      ensures p != 0 ==> p - HDR_SIZE !in old(blocks) && blocks == old(blocks)[p - HDR_SIZE := b]
      ensures p != 0 ==> p - HDR_SIZE !in old(live) && live == old(live) + {p - HDR_SIZE}
      ensures p != 0 ==> mem == old(mem)[p - HDR_SIZE := BucketSize(b) - HDR_SIZE]
    {
      hide BucketSize, Chains, Headers, Places;
      assert HEAP_BASE <= heapTop;
      var block := AllocPages(BucketSize(b), willing);
      if block == 0 { return 0; }
      FreshLayout(blocks, block, b, heapTop);
      FreshPlaces(blocks, live, lists, block, b);
      hide Layout;
      ChainsFrame(mem, block, BucketSize(b) - HDR_SIZE, freeLists, lists);
      HeadersAdd(mem, blocks, live, block, b);
      blocks := blocks[block := b];
      live := live + {block};
      mem := mem[block := BucketSize(b) - HDR_SIZE];
      p := block + HDR_SIZE;
    }

    /** free: a live block goes back to the head of the list of its own bucket. */
    method Free(p: int)
      requires Valid()
      requires p == 0 || p - HDR_SIZE in live
      modifies this
      ensures Valid() && blocks == old(blocks) && heapTop == old(heapTop)
      ensures p == 0 ==> live == old(live) && lists == old(lists) && mem == old(mem)
      ensures p != 0 ==>
        var x := p - HDR_SIZE;
        live == old(live) - {x} && lists == old(lists)[blocks[x] := [x] + old(lists)[blocks[x]]]
      ensures p != 0 ==> forall a :: a != p - HDR_SIZE && a in old(mem) ==> a in mem && mem[a] == old(mem)[a]
    {
      hide BucketSize, Chain, Distinct, Apart, IsBucket;
      if p == 0 { return; }
      var block := p - HDR_SIZE;
      var usable := mem[block];
      ghost var home := blocks[block];
      HomeBucket(home);
      var total := usable + HDR_SIZE;
      var b := BucketFor(total);
      BucketUnique(total, b, home);
      PushPlaces(blocks, live, lists, block);
      PushChains(mem, freeLists, lists, b, block);
      mem := mem[block := freeLists[b]];
      freeLists := freeLists[b := block];
      lists := lists[b := [block] + lists[b]];
      live := live - {block};
    }

    /** Any write by the program inside the payload of a live block. */
    method UserWrite(p: int, a: int, v: int)
      requires Valid() && p - HDR_SIZE in live
      requires p <= a && a + 8 <= p + mem[p - HDR_SIZE]
      modifies `mem
      ensures Valid() && mem == old(mem)[a := v]
    {
      hide BucketSize, Chain, Distinct, Apart;
      forall y | y in blocks
        ensures a != y
      {
        PayloadIsNoHeader(blocks, heapTop, p - HDR_SIZE, a, y);
      }
      assert a !in blocks;
      OnlyBlocksAreFree(blocks, live, lists, a);
      ChainsFrame(mem, a, v, freeLists, lists);
      mem := mem[a := v];
    }
  }

  lemma ListsAreThere(h: Heap)
    requires h.Valid()
    ensures |h.freeLists| == NUM_BUCKETS
  {
  }

  lemma EnoughPages(bytes: int, page: int)
    requires bytes > 0 && page > 0
    ensures bytes <= (bytes + page - 1) / page * page < bytes + page
  {
    var n := bytes + page - 1;
    assert n == n / page * page + n % page;
  }

  lemma HomeBucket(b: nat)
    requires b < NUM_BUCKETS
    ensures IsBucket(BucketSize(b), b) && HDR_SIZE <= BucketSize(b) <= LARGEST
  {
    BucketOfSize(b);
    LargestBucket();
    hide BucketSize;
    BucketSizeLow(b);
    if b < 15 { BucketSizeMono(b, 15); }
  }

  // ---------- Whole programs ----------

  /** What a program asks for; `willing` is whether the kernel has pages at that moment. */
  datatype Op =
    | Alloc(size: Size, willing: bool)
    | Release(p: int)
    | Store(p: int, a: int, v: int)

  /**
   What a program can know from the calls it made and the pointers it got: the pointers it
   holds with their usable sizes, the words it stored last, and through which pointer.
   */
  datatype View = View(held: map<int, int>, written: map<int, int>, home: map<int, int>)

  const NOTHING := View(map[], map[], map[])

  /** The program gives back and stores through pointers it holds only. */
  predicate Lawful(view: View, op: Op) {
    match op
    case Alloc(_, _) => true
    case Release(p) => p == 0 || p in view.held
    case Store(p, a, _) => p in view.held && p <= a && a + 8 <= p + view.held[p]
  }

  function Released(view: View, p: int): View {
    View(view.held - {p}, map a | a in view.written && a in view.home && view.home[a] != p :: view.written[a],
         view.home)
  }

  /** One operation; `got` is the pointer an allocation returned.  An unlawful one is not carried out. */
  function Next(view: View, op: Op, got: int): View {
    if !Lawful(view, op) then view else
    match op
    case Alloc(size, _) => if got == 0 then view else view.(held := view.held[got := Room(size)])
    case Release(p) => if p == 0 then view else Released(view, p)
    case Store(p, a, v) => view.(written := view.written[a := v], home := view.home[a := p])
  }

  function Replay(ops: seq<Op>, got: seq<int>): View
    requires |got| == |ops|
  {
    if ops == [] then NOTHING else
    var n := |ops| - 1;
    Next(Replay(ops[..n], got[..n]), ops[n], got[n])
  }

  /**
   Memory is as the program expects: no two blocks it holds overlap, header or payload, and
   every word it stored in a block it still holds is there.
   */
  ghost predicate Sound(mem: Memory, view: View) {
    && (forall p, q :: p in view.held && q in view.held && p != q ==>
        Apart(p - HDR_SIZE, view.held[p] + HDR_SIZE, q - HDR_SIZE, view.held[q] + HDR_SIZE))
    && (forall a :: a in view.written ==> a in mem && mem[a] == view.written[a] && StoredInside(view, a))
  }

  ghost predicate StoredInside(view: View, a: int) {
    && a in view.home && view.home[a] in view.held
    && view.home[a] <= a && a + 8 <= view.home[a] + view.held[view.home[a]]
  }

  /** An allocation fails only for want of pages or of addresses, and never hands out a pointer in use. */
  ghost predicate Answered(page: int, before: nat, view: View, op: Op, got: int) {
    op.Alloc? ==>
      if got == 0 then !op.willing || HEAP_BASE + (before + 1) * (LARGEST + page) >= WORD
      else got !in view.held
  }

  /** The live blocks are the held pointers, with their usable sizes. */
  ghost predicate Held(blocks: Blocks, live: set<int>, held: map<int, int>) {
    && (forall x :: x in live ==> x + HDR_SIZE in held)
    && (forall p :: p in held ==>
        && p - HDR_SIZE in live && p - HDR_SIZE in blocks
        && held[p] == BucketSize(blocks[p - HDR_SIZE]) - HDR_SIZE)
  }

  /** Every stored word is in memory, inside the payload of a held block. */
  ghost predicate Intact(mem: Memory, view: View) {
    forall a :: a in view.written ==> a in mem && mem[a] == view.written[a] && StoredInside(view, a)
  }

  lemma HeldIsSound(mem: Memory, blocks: Blocks, live: set<int>, top: int, view: View)
    requires Layout(blocks, top) && Held(blocks, live, view.held) && Intact(mem, view)
    ensures Sound(mem, view)
  {
    hide BucketSize, Apart, StoredInside, Layout, Held;
    forall p, q | p in view.held && q in view.held && p != q
      ensures Apart(p - HDR_SIZE, view.held[p] + HDR_SIZE, q - HDR_SIZE, view.held[q] + HDR_SIZE)
    {
      HeldApart(blocks, live, top, view.held, p, q);
    }
  }

  lemma HeldApart(blocks: Blocks, live: set<int>, top: int, held: map<int, int>, p: int, q: int)
    requires Layout(blocks, top) && Held(blocks, live, held) && p in held && q in held && p != q
    ensures Apart(p - HDR_SIZE, held[p] + HDR_SIZE, q - HDR_SIZE, held[q] + HDR_SIZE)
  {
    hide BucketSize, Layout;
    BlocksApart(blocks, top, p - HDR_SIZE, q - HDR_SIZE);
  }

  lemma BlocksApart(blocks: Blocks, top: int, x: int, y: int)
    requires Layout(blocks, top) && x in blocks && y in blocks && x != y
    ensures Apart(x, BucketSize(blocks[x]), y, BucketSize(blocks[y]))
  {
    hide BucketSize, Apart;
  }

  /** A stored word is no block's first word. */
  lemma StoredIsNoHeader(mem: Memory, blocks: Blocks, live: set<int>, top: int, view: View, y: int)
    requires Layout(blocks, top) && Held(blocks, live, view.held) && Intact(mem, view) && y in blocks
    ensures y !in view.written
  {
    hide Layout, BucketSize;
    if y in view.written {
      PayloadIsNoHeader(blocks, top, view.home[y] - HDR_SIZE, y, y);
    }
  }

  /** No stored word is the first word of the block malloc has just returned. */
  lemma StoredIsNotNew(mem: Memory, blocks: Blocks, blocks': Blocks, live: set<int>, top: int, view: View, y: int)
    requires Held(blocks, live, view.held) && Intact(mem, view)
    requires Layout(blocks', top) && y in blocks'
    requires forall x :: x in blocks ==> x in blocks' && blocks'[x] == blocks[x]
    ensures y !in view.written
  {
    hide Layout, BucketSize;
    if y in view.written {
      PayloadIsNoHeader(blocks', top, view.home[y] - HDR_SIZE, y, y);
    }
  }

  lemma HeldAfterMalloc(blocks: Blocks, blocks': Blocks, live: set<int>, held: map<int, int>, p: int, room: int)
    requires Held(blocks, live, held) && p - HDR_SIZE !in live
    requires forall x :: x in blocks ==> x in blocks' && blocks'[x] == blocks[x]
    requires p - HDR_SIZE in blocks' && room == BucketSize(blocks'[p - HDR_SIZE]) - HDR_SIZE
    ensures p !in held && Held(blocks', live + {p - HDR_SIZE}, held[p := room])
  {
    hide BucketSize;
  }

  lemma HeldAfterFree(blocks: Blocks, live: set<int>, held: map<int, int>, p: int)
    requires Held(blocks, live, held)
    ensures Held(blocks, live - {p - HDR_SIZE}, held - {p})
  {
    hide BucketSize;
  }

  lemma IntactAfterMalloc(mem: Memory, mem': Memory, view: View, p: int, room: int)
    requires Intact(mem, view) && p !in view.held && p - HDR_SIZE !in view.written
    requires forall a :: a != p - HDR_SIZE && a in mem ==> a in mem' && mem'[a] == mem[a]
    ensures Intact(mem', view.(held := view.held[p := room]))
  {
  }

  lemma IntactAfterFree(mem: Memory, mem': Memory, view: View, p: int)
    requires Intact(mem, view) && p - HDR_SIZE !in view.written
    requires forall a :: a != p - HDR_SIZE && a in mem ==> a in mem' && mem'[a] == mem[a]
    ensures Intact(mem', Released(view, p))
  {
  }

  lemma IntactAfterStore(mem: Memory, view: View, p: int, a: int, v: int)
    requires Intact(mem, view) && Lawful(view, Store(p, a, v))
    ensures Intact(mem[a := v], view.(written := view.written[a := v], home := view.home[a := p]))
  {
  }

  class Program {
    const heap: Heap
    var view: View

    ghost predicate Valid()
      reads this, heap
    {
      && heap.Valid() && Held(heap.blocks, heap.live, view.held) && Intact(heap.mem, view)
    }

    constructor (page: int)
      requires 0 < page < 0x8000_0000
      ensures Valid() && view == NOTHING && fresh(heap)
      ensures heap.pageSize == page && heap.heapTop == HEAP_BASE && heap.mem == map[]
    {
      heap := new Heap(page);
      view := NOTHING;
    }

    method Allocate(size: Size, willing: bool) returns (p: int)
      requires Valid()
      modifies this, heap
      ensures Valid() && view == Next(old(view), Alloc(size, willing), p)
      ensures heap.heapTop <= old(heap.heapTop) + LARGEST + heap.pageSize
      ensures p == 0 ==> !willing || old(heap.heapTop) + LARGEST + heap.pageSize >= WORD
      ensures p != 0 ==> p !in old(view).held
    {
      hide Chains, Places, Headers, Layout, BucketSize, Intact, Held, Room;
      ghost var mem, blocks, live := heap.mem, heap.blocks, heap.live;
      p := heap.Malloc(size, willing);
      if p != 0 {
        ghost var x := p - HDR_SIZE;
        LiveIsBlock(heap, x);
        StoredIsNotNew(mem, blocks, heap.blocks, live, heap.heapTop, view, x);
        HeldAfterMalloc(blocks, heap.blocks, live, view.held, p, Room(size));
        IntactAfterMalloc(mem, heap.mem, view, p, Room(size));
        view := view.(held := view.held[p := Room(size)]);
      }
    }

    method GiveBack(p: int)
      requires Valid() && Lawful(view, Release(p))
      modifies this, heap
      ensures Valid() && view == Next(old(view), Release(p), 0) && heap.heapTop == old(heap.heapTop)
    {
      hide Chains, Places, Headers, Layout, BucketSize, Intact, Released;
      if p == 0 { return; }
      ghost var x := p - HDR_SIZE;
      ghost var mem, live := heap.mem, heap.live;
      LiveIsBlock(heap, x);
      StoredIsNoHeader(mem, heap.blocks, live, heap.heapTop, view, x);
      HeldAfterFree(heap.blocks, live, view.held, p);
      hide Held;
      heap.Free(p);
      IntactAfterFree(mem, heap.mem, view, p);
      ReleasedHeld(view, p);
      view := Released(view, p);
    }

    method Put(p: int, a: int, v: int)
      requires Valid() && Lawful(view, Store(p, a, v))
      modifies this, heap
      ensures Valid() && view == Next(old(view), Store(p, a, v), 0) && heap.heapTop == old(heap.heapTop)
    {
      hide Chains, Places, Layout, BucketSize, Intact;
      ghost var mem := heap.mem;
      assert p - HDR_SIZE in heap.live && heap.mem[p - HDR_SIZE] == view.held[p];
      hide Headers, Held;
      heap.UserWrite(p, a, v);
      IntactAfterStore(mem, view, p, a, v);
      view := view.(written := view.written[a := v], home := view.home[a := p]);
    }
  }

  lemma ReleasedHeld(view: View, p: int)
    ensures Released(view, p).held == view.held - {p}
  {
  }

  lemma LiveIsBlock(h: Heap, x: int)
    requires h.Valid() && x in h.live
    ensures x in h.blocks && x >= HEAP_BASE && x in h.mem && h.mem[x] == BucketSize(h.blocks[x]) - HDR_SIZE
  {
    hide BucketSize, Chain;
  }

  /**
   What a run gives the program.  `got` are the pointers malloc returned and `memories` the
   memory before and after every operation: at every point no two held blocks overlap and
   every word stored in a block still held is the one stored last; and an allocation fails
   only when it has to.
   */
  ghost predicate Served(page: int, ops: seq<Op>, got: seq<int>, memories: seq<Memory>) {
    && |got| == |ops| && |memories| == |ops| + 1
    && (forall i :: 0 <= i <= |ops| ==> Sound(memories[i], Replay(ops[..i], got[..i])))
    && (forall i :: 0 <= i < |ops| ==> Answered(page, i, Replay(ops[..i], got[..i]), ops[i], got[i]))
  }

  lemma ServedMore(page: int, ops: seq<Op>, got: seq<int>, memories: seq<Memory>, op: Op, p: int, mem: Memory)
    requires Served(page, ops, got, memories)
    requires Answered(page, |ops|, Replay(ops, got), op, p) && Sound(mem, Next(Replay(ops, got), op, p))
    ensures Served(page, ops + [op], got + [p], memories + [mem])
    ensures Replay(ops + [op], got + [p]) == Next(Replay(ops, got), op, p)
  {
    hide Sound, Answered, Next;
    var n, ops', got', memories' := |ops|, ops + [op], got + [p], memories + [mem];
    ReplaySnoc(ops, got, op, p);
    hide Replay;
    forall i | 0 <= i <= n + 1
      ensures Sound(memories'[i], Replay(ops'[..i], got'[..i]))
    {
      if i == n + 1 {
        assert ops'[..i] == ops' && got'[..i] == got';
      } else {
        assert ops'[..i] == ops[..i] && got'[..i] == got[..i];
      }
    }
    forall i | 0 <= i <= n
      ensures Answered(page, i, Replay(ops'[..i], got'[..i]), ops'[i], got'[i])
    {
      assert ops'[..i] == ops[..i] && got'[..i] == got[..i];
      if i == n { assert ops[..n] == ops && got[..n] == got; }
    }
  }

  lemma ReplaySnoc(ops: seq<Op>, got: seq<int>, op: Op, p: int)
    requires |got| == |ops|
    ensures Replay(ops + [op], got + [p]) == Next(Replay(ops, got), op, p)
  {
    hide Next;
    var n := |ops|;
    assert (ops + [op])[..n] == ops && (got + [p])[..n] == got;
  }

  /** Every run of every program that uses its own pointers. */
  method Run(page: int, ops: seq<Op>) returns (prog: Program, got: seq<int>, ghost memories: seq<Memory>)
    requires 0 < page < 0x8000_0000
    ensures Served(page, ops, got, memories)
    ensures prog.Valid() && prog.view == Replay(ops, got) && prog.heap.mem == memories[|ops|]
  {
    hide Chains, Places, Headers, Layout, BucketSize, Intact, Held, Next, Lawful, Answered;
    prog := new Program(page);
    got := [];
    memories := [prog.heap.mem];
    hide Sound, Replay;
    for i := 0 to |ops|
      invariant prog.Valid() && fresh(prog) && fresh(prog.heap)
      invariant Served(page, ops[..i], got, memories) && prog.heap.mem == memories[i]
      invariant prog.view == Replay(ops[..i], got)
      invariant prog.heap.pageSize == page && prog.heap.heapTop <= HEAP_BASE + i * (LARGEST + page)
      modifies prog, prog.heap
    {
      hide Served;
      var p := Perform(prog, ops[i], page, i);
      SoundNow(prog);
      ServedMore(page, ops[..i], got, memories, ops[i], p, prog.heap.mem);
      assert ops[..i + 1] == ops[..i] + [ops[i]];
      got, memories := got + [p], memories + [prog.heap.mem];
    }
    assert ops[..|ops|] == ops;
  }

  method Perform(prog: Program, op: Op, page: int, before: nat) returns (p: int)
    requires prog.Valid() && prog.heap.pageSize == page && page > 0
    requires prog.heap.heapTop <= HEAP_BASE + before * (LARGEST + page)
    modifies prog, prog.heap
    ensures prog.Valid() && prog.view == Next(old(prog.view), op, p)
    ensures prog.heap.heapTop <= HEAP_BASE + (before + 1) * (LARGEST + page)
    ensures Answered(page, before, old(prog.view), op, p)
  {
    hide Chains, Places, Headers, Layout, BucketSize, Intact, Held, Room, Released;
    assert (before + 1) * (LARGEST + page) == before * (LARGEST + page) + LARGEST + page;
    p := 0;
    if Lawful(prog.view, op) {
      match op {
        case Alloc(size, willing) => p := prog.Allocate(size, willing);
        case Release(q) => prog.GiveBack(q);
        case Store(q, a, v) => prog.Put(q, a, v);
      }
    }
  }

  lemma SoundNow(prog: Program)
    requires prog.Valid()
    ensures Sound(prog.heap.mem, prog.view)
  {
    hide Chains, Places, Headers, BucketSize, Intact, Held, Sound;
    HeldIsSound(prog.heap.mem, prog.heap.blocks, prog.heap.live, prog.heap.heapTop, prog.view);
  }
}
