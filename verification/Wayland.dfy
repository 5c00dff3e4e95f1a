/**
 The compositor's object table: shared-memory pools are reference counted by their own table
 entry and by every buffer cut from them, and own the file descriptor they were made from.
 */
module WaylandObjects {
  import Words

  const MAX_CLIENT_OBJS := 1024
  const MAX_FDS := 16

  /** A table entry.  Objects that hold no pool are all alike here. */
  datatype Entry = None | Other | ShmPool(pool: nat) | Buffer(pool: nat, geo: Geometry)

  type Int32 = x: int | -0x8000_0000 <= x < 0x8000_0000

  /** Where the pixels of a buffer are in its pool. */
  datatype Geometry = Geometry(off: Int32, w: Int32, h: Int32, stride: Int32)

  /** A pool as allocated; it stays in the list when it has been freed. */
  datatype Pool = Pool(fd: nat, size: int, refcount: int, freed: bool)

  ghost predicate RefersTo(e: Entry, p: nat) { (e.ShmPool? || e.Buffer?) && e.pool == p }

  /** How many entries refer to pool p. */
  ghost function Refs(objs: seq<Entry>, p: nat): nat {
    if objs == [] then 0 else (if RefersTo(objs[0], p) then 1 else 0) + Refs(objs[1..], p)
  }

  /** The descriptors held open by pools. */
  ghost function PoolFds(pools: seq<Pool>): multiset<nat> {
    if pools == [] then multiset{}
    else (if pools[0].freed then multiset{} else multiset{pools[0].fd}) + PoolFds(pools[1..])
  }

  // ---------- Counting ----------

  lemma {:induction false} RefsUpdate(objs: seq<Entry>, i: nat, e: Entry, p: nat)
    requires i < |objs|
    ensures Refs(objs[i := e], p) + (if RefersTo(objs[i], p) then 1 else 0)
         == Refs(objs, p) + (if RefersTo(e, p) then 1 else 0)
  {
    hide RefersTo;
    if i > 0 {
      assert objs[i := e][1..] == objs[1..][i - 1 := e];
      RefsUpdate(objs[1..], i - 1, e, p);
    } else {
      assert objs[i := e][1..] == objs[1..];
    }
  }

  lemma {:induction false} RefsPositive(objs: seq<Entry>, i: nat, p: nat)
    requires i < |objs| && RefersTo(objs[i], p)
    ensures Refs(objs, p) >= 1
  {
    hide RefersTo;
    if i > 0 { RefsPositive(objs[1..], i - 1, p); }
  }

  lemma {:induction false} RefsNone(objs: seq<Entry>, p: nat)
    requires forall i :: 0 <= i < |objs| ==> !RefersTo(objs[i], p)
    ensures Refs(objs, p) == 0
  {
    hide RefersTo;
    if objs != [] { RefsNone(objs[1..], p); }
  }

  lemma {:induction false} FdsSame(pools: seq<Pool>, i: nat, q: Pool)
    requires i < |pools| && q.fd == pools[i].fd && q.freed == pools[i].freed
    ensures PoolFds(pools[i := q]) == PoolFds(pools)
  {
    if i > 0 {
      assert pools[i := q][1..] == pools[1..][i - 1 := q];
      FdsSame(pools[1..], i - 1, q);
    } else {
      assert pools[i := q][1..] == pools[1..];
    }
  }

  lemma {:induction false} FdsFree(pools: seq<Pool>, i: nat, q: Pool)
    requires i < |pools| && !pools[i].freed && q.freed
    ensures PoolFds(pools) == PoolFds(pools[i := q]) + multiset{pools[i].fd}
  {
    if i > 0 {
      assert pools[i := q][1..] == pools[1..][i - 1 := q];
      FdsFree(pools[1..], i - 1, q);
    } else {
      assert pools[i := q][1..] == pools[1..];
    }
  }

  lemma {:induction false} FdsAppend(pools: seq<Pool>, q: Pool)
    requires !q.freed
    ensures PoolFds(pools + [q]) == PoolFds(pools) + multiset{q.fd}
  {
    if pools == [] {
      assert pools + [q] == [q];
    } else {
      assert (pools + [q])[1..] == pools[1..] + [q];
      FdsAppend(pools[1..], q);
    }
  }

  lemma {:induction false} FdsAllFreed(pools: seq<Pool>)
    requires forall i :: 0 <= i < |pools| ==> pools[i].freed
    ensures PoolFds(pools) == multiset{}
  {
    if pools != [] { FdsAllFreed(pools[1..]); }
  }

  // ---------- The invariant ----------

  /** One more reference to pool `held` is in a local variable; -1 for none. */
  ghost function Held(held: int, p: nat): nat { if held == p then 1 else 0 }

  /** Every entry names a pool that exists. */
  ghost predicate Named(objs: seq<Entry>, n: nat) {
    forall i :: 0 <= i < |objs| && (objs[i].ShmPool? || objs[i].Buffer?) ==> objs[i].pool < n
  }

  /**
   The count of a pool is the number of references to it, and it has been freed exactly when
   that number is zero.  So no entry refers to a freed pool.
   */
  ghost predicate Counted(objs: seq<Entry>, pools: seq<Pool>, held: int) {
    && Named(objs, |pools|)
    && forall p :: 0 <= p < |pools| ==>
      && pools[p].refcount == Refs(objs, p) + Held(held, p)
      && (pools[p].freed <==> Refs(objs, p) + Held(held, p) == 0)
  }

  lemma CountedMeansAlive(objs: seq<Entry>, pools: seq<Pool>, held: int, i: nat)
    requires Counted(objs, pools, held) && i < |objs| && (objs[i].ShmPool? || objs[i].Buffer?)
    ensures objs[i].pool < |pools| && !pools[objs[i].pool].freed && pools[objs[i].pool].refcount >= 1
  {
    RefsPositive(objs, i, objs[i].pool);
  }

  /** Emptying an entry that holds no pool. */
  lemma ClearPlain(objs: seq<Entry>, pools: seq<Pool>, held: int, i: nat)
    requires Counted(objs, pools, held) && i < |objs| && (objs[i].None? || objs[i].Other?)
    ensures Counted(objs[i := None], pools, held)
  {
    forall p | 0 <= p < |pools|
      ensures Refs(objs[i := None], p) == Refs(objs, p)
    {
      RefsUpdate(objs, i, None, p);
    }
  }

  /** Emptying an entry that holds a pool, and counting the pool down. */
  lemma ClearRef(objs: seq<Entry>, pools: seq<Pool>, held: int, i: nat, q: Pool)
    requires Counted(objs, pools, held) && i < |objs| && (objs[i].ShmPool? || objs[i].Buffer?)
    requires objs[i].pool < |pools|
    requires q.refcount == pools[objs[i].pool].refcount - 1 && (q.freed <==> q.refcount <= 0)
    ensures Counted(objs[i := None], pools[objs[i].pool := q], held)
  {
    var p0 := objs[i].pool;
    hide Refs;
    forall p | 0 <= p < |pools|
      ensures Refs(objs[i := None], p) == Refs(objs, p) - (if p == p0 then 1 else 0)
    {
      RefsUpdate(objs, i, None, p);
    }
  }

  /** A held reference moves into an empty entry. */
  lemma StoreHeld(objs: seq<Entry>, pools: seq<Pool>, p0: nat, i: nat, e: Entry)
    requires Counted(objs, pools, p0) && i < |objs| && objs[i].None? && p0 < |pools| && RefersTo(e, p0)
    ensures Counted(objs[i := e], pools, -1)
  {
    hide Refs;
    forall p | 0 <= p < |pools|
      ensures Refs(objs[i := e], p) == Refs(objs, p) + Held(p0, p)
    {
      RefsUpdate(objs, i, e, p);
    }
  }

  lemma StorePlain(objs: seq<Entry>, pools: seq<Pool>, i: nat)
    requires Counted(objs, pools, -1) && i < |objs| && objs[i].None?
    ensures Counted(objs[i := Other], pools, -1)
  {
    forall p | 0 <= p < |pools|
      ensures Refs(objs[i := Other], p) == Refs(objs, p)
    {
      RefsUpdate(objs, i, Other, p);
    }
  }

  /** A new pool, held by its creator only. */
  lemma NewPool(objs: seq<Entry>, pools: seq<Pool>, q: Pool)
    requires Counted(objs, pools, -1) && q.refcount == 1 && !q.freed
    ensures Counted(objs, pools + [q], |pools|)
  {
    RefsNone(objs, |pools|);
    hide Refs;
    var pools' := pools + [q];
    assert forall p :: 0 <= p < |pools| ==> pools'[p] == pools[p];
  }

  /** Counting a live pool up, for a reference its caller holds. */
  lemma Hold(objs: seq<Entry>, pools: seq<Pool>, p0: nat, q: Pool)
    requires Counted(objs, pools, -1) && p0 < |pools| && !pools[p0].freed
    requires q == pools[p0].(refcount := pools[p0].refcount + 1)
    ensures Counted(objs, pools[p0 := q], p0)
  {
    hide Refs;
  }

  // ---------- Descriptors ----------

  /** A received descriptor is closed, queued, or owned by a pool that is not freed: exactly one of them. */
  ghost predicate Accounts(received: multiset<nat>, closed: multiset<nat>, rfds: seq<nat>, pools: seq<Pool>) {
    received == closed + multiset(rfds) + PoolFds(pools)
  }

  lemma AcceptFd(r: multiset<nat>, c: multiset<nat>, rfds: seq<nat>, pools: seq<Pool>, fd: nat)
    requires Accounts(r, c, rfds, pools)
    ensures Accounts(r + multiset{fd}, c, rfds + [fd], pools)
    ensures Accounts(r + multiset{fd}, c + multiset{fd}, rfds, pools)
  {
    hide PoolFds;
  }

  lemma CloseFirst(r: multiset<nat>, c: multiset<nat>, rfds: seq<nat>, pools: seq<Pool>)
    requires Accounts(r, c, rfds, pools) && rfds != []
    ensures Accounts(r, c + multiset{rfds[0]}, rfds[1..], pools)
  {
    hide PoolFds;
    assert rfds == [rfds[0]] + rfds[1..];
  }

  lemma FirstToPool(r: multiset<nat>, c: multiset<nat>, rfds: seq<nat>, pools: seq<Pool>, q: Pool)
    requires Accounts(r, c, rfds, pools) && rfds != [] && q.fd == rfds[0] && !q.freed
    ensures Accounts(r, c, rfds[1..], pools + [q])
  {
    FdsAppend(pools, q);
    hide PoolFds;
    assert rfds == [rfds[0]] + rfds[1..];
  }

  lemma AccountsSame(r: multiset<nat>, c: multiset<nat>, rfds: seq<nat>, pools: seq<Pool>, i: nat, q: Pool)
    requires Accounts(r, c, rfds, pools) && i < |pools| && q.fd == pools[i].fd && q.freed == pools[i].freed
    ensures Accounts(r, c, rfds, pools[i := q])
  {
    FdsSame(pools, i, q);
  }

  // ---------- The client ----------

  /** The pixels of a buffer lie inside its pool. */
  predicate Inside(g: Geometry, size: int) {
    g.off >= 0 && g.w > 0 && g.h > 0 && g.stride >= g.w * 4 && g.off + g.stride * g.h <= size
  }

  /** The test create_buffer makes, in 32-bit arithmetic; a negative end is a huge size_t. */
  predicate Accepted(g: Geometry, size: int) {
    && g.off >= 0 && g.w > 0 && g.h > 0 && g.stride >= Words.Signed32(g.w * 4)
    && 0 <= Words.Signed32(g.off + Words.Signed32(g.stride * g.h)) <= size
  }

  /** Neither the width in bytes nor the end of the buffer leaves the range of an int. */
  predicate InRange(g: Geometry) { g.w * 4 < 0x8000_0000 && g.off + g.stride * g.h < 0x8000_0000 }

  /**
   The test accepts every buffer inside its pool, and a buffer it accepts is inside if and
   only if its width in bytes and its end fit an int.
   */
  lemma AcceptedExactly(g: Geometry, size: Int32)
    ensures Inside(g, size) ==> Accepted(g, size) && InRange(g)
    ensures Accepted(g, size) ==> (Inside(g, size) <==> InRange(g))
  {
    if g.h > 0 && g.stride > 0 { assert 0 < g.stride * g.h; }
  }

  /** A stride of 2^30 and four rows: the end wraps to 0. */
  lemma WrappedEndIsAccepted(size: Int32)
    requires size >= 0
    ensures var g := Geometry(0, 1, 4, 0x4000_0000); Accepted(g, size) && !Inside(g, size)
  {
  }

  /** What a pool was made from; its count and its end follow from the table. */
  datatype Owned = Owned(fd: nat, size: int)

  ghost function OwnedOf(pools: seq<Pool>): (os: seq<Owned>)
    ensures |os| == |pools|
    ensures forall p :: 0 <= p < |pools| ==> os[p] == Owned(pools[p].fd, pools[p].size)
  {
    if pools == [] then [] else OwnedOf(pools[..|pools| - 1]) + [Owned(pools[|pools| - 1].fd, pools[|pools| - 1].size)]
  }

  lemma OwnedAppend(pools: seq<Pool>, q: Pool)
    ensures OwnedOf(pools + [q]) == OwnedOf(pools) + [Owned(q.fd, q.size)]
  {
    assert (pools + [q])[..|pools|] == pools;
  }

  /** A number no entry refers to yet. */
  lemma NotYetNamed(objs: seq<Entry>, pools: seq<Pool>, i: nat)
    requires Counted(objs, pools, -1) && i < |objs|
    ensures objs[i].ShmPool? || objs[i].Buffer? ==> objs[i].pool < |pools|
  {
  }

  /** How many of n more descriptors fit behind a queue of this length. */
  function Room(queued: nat, n: nat): (k: nat)
    requires queued <= MAX_FDS
    ensures k <= n
  {
    if n <= MAX_FDS - queued then n else MAX_FDS - queued
  }

  /** The queue after i of these descriptors have arrived. */
  ghost function Queued(queue: seq<nat>, fds: seq<nat>, i: nat): seq<nat>
    requires |queue| <= MAX_FDS && i <= |fds|
  {
    queue + fds[..Room(|queue|, i)]
  }

  /** What has been received when i of these descriptors have arrived. */
  ghost function Gathered(r: multiset<nat>, fds: seq<nat>, i: nat): multiset<nat>
    requires i <= |fds|
  {
    r + multiset(fds[..i])
  }

  lemma QueueStart(queue: seq<nat>, r: multiset<nat>, fds: seq<nat>)
    requires |queue| <= MAX_FDS
    ensures Queued(queue, fds, 0) == queue && Gathered(r, fds, 0) == r
    ensures Gathered(r, fds, |fds|) == r + multiset(fds)
  {
    assert fds[..|fds|] == fds;
  }

  lemma QueueStep(queue: seq<nat>, r: multiset<nat>, fds: seq<nat>, i: nat)
    requires |queue| <= MAX_FDS && i < |fds|
    ensures var now := Queued(queue, fds, i);
      Queued(queue, fds, i + 1) == if |now| < MAX_FDS then now + [fds[i]] else now
    ensures Gathered(r, fds, i + 1) == Gathered(r, fds, i) + multiset{fds[i]}
  {
    assert fds[..i + 1] == fds[..i] + [fds[i]];
  }

  class Client {
    /** objs, rfds and the pools behind the entries. */
    var objs: seq<Entry>
    var rfds: seq<nat>
    var pools: seq<Pool>
    /** Every descriptor ever received, and every descriptor ever closed. */
    ghost var received: multiset<nat>
    ghost var closed: multiset<nat>

    ghost predicate Counting(held: int)
      reads this
    {
      |objs| == MAX_CLIENT_OBJS && |rfds| <= MAX_FDS && Counted(objs, pools, held)
    }

    ghost predicate Conserved()
      reads this
    {
      Accounts(received, closed, rfds, pools)
    }

    ghost predicate Valid()
      reads this
    {
      Counting(-1) && Conserved()
    }

    constructor ()
      ensures Valid() && received == multiset{}
      ensures objs == Start().objs && rfds == [] && pools == [] && closed == multiset{}
    {
      objs := seq(MAX_CLIENT_OBJS, i => if i == 1 then Other else None);
      rfds := [];
      pools := [];
      received := multiset{};
      closed := multiset{};
    }

    /** close */
    method Close(fd: nat)
      modifies `closed
      ensures closed == old(closed) + multiset{fd}
    {
      closed := closed + multiset{fd};
    }

    /** The descriptor part of client_recv: queued in order, and closed when the queue is full. */
    method RecvFds(fds: seq<nat>)
      requires Valid()
      modifies `rfds, `received, `closed
      ensures Valid() && received == old(received) + multiset(fds) && objs == old(objs) && pools == old(pools)
      ensures |old(rfds)| <= MAX_FDS && rfds == Queued(old(rfds), fds, |fds|)
    {
      QueueStart(rfds, received, fds);
      hide *;
      for i := 0 to |fds|
        invariant Valid() && received == Gathered(old(received), fds, i)
        invariant rfds == Queued(old(rfds), fds, i)
      {
        QueueStep(old(rfds), old(received), fds, i);
        RecvFd(fds[i]);
      }
    }

    method RecvFd(fd: nat)
      requires Valid()
      modifies `rfds, `received, `closed
      ensures Valid() && received == old(received) + multiset{fd}
      ensures rfds == if |old(rfds)| < MAX_FDS then old(rfds) + [fd] else old(rfds)
    {
      hide Counted, Accounts;
      AcceptFd(received, closed, rfds, pools, fd);
      received := received + multiset{fd};
      if |rfds| < MAX_FDS {
        rfds := rfds + [fd];
      } else {
        Close(fd);
      }
    }

    /** Counts a pool down; at zero its descriptor is closed and it is freed. */
    method Unref(p: nat)
      requires p < |pools| && !pools[p].freed && Conserved()
      modifies `pools, `closed
      ensures Conserved() && |pools| == |old(pools)|
      ensures pools == old(pools)[p := pools[p]]
      ensures pools[p].refcount == old(pools[p].refcount) - 1 && (pools[p].freed <==> pools[p].refcount <= 0)
      ensures pools[p].fd == old(pools[p].fd) && pools[p].size == old(pools[p].size)
    {
      var q := pools[p].(refcount := pools[p].refcount - 1);
      if q.refcount <= 0 {
        FdsFree(pools, p, q.(freed := true));
        Close(q.fd);
        q := q.(freed := true);
      } else {
        FdsSame(pools, p, q);
      }
      pools := pools[p := q];
    }

    /** obj_clear: the entry is emptied, and its reference given back. */
    method ObjClear(id: nat, ghost held: int)
      requires Counting(held) && Conserved()
      modifies `objs, `pools, `closed
      ensures Counting(held) && Conserved()
      ensures objs == if id < MAX_CLIENT_OBJS then old(objs)[id := None] else old(objs)
      ensures OwnedOf(pools) == OwnedOf(old(pools))
      ensures forall p :: 0 <= p < |pools| && !(id < MAX_CLIENT_OBJS && RefersTo(old(objs)[id], p)) ==>
        pools[p] == old(pools)[p]
    {
      hide Counted, Accounts;
      if id >= MAX_CLIENT_OBJS { return; }
      match objs[id] {
        case ShmPool(p) =>
          CountedMeansAlive(objs, pools, held, id);
          Unref(p);
          ClearRef(objs, old(pools), held, id, pools[p]);
        case Buffer(p, _) =>
          CountedMeansAlive(objs, pools, held, id);
          Unref(p);
          ClearRef(objs, old(pools), held, id, pools[p]);
        case _ =>
          ClearPlain(objs, pools, held, id);
      }
      objs := objs[id := None];
    }

    /** wl_shm.create_pool; `mapped` and `enough` are the outcomes of mmap and calloc. */
    method CreatePool(newId: nat, size: int, mapped: bool, enough: bool)
      requires Valid()
      modifies `objs, `rfds, `pools, `closed
      ensures Valid() && rfds == if old(rfds) == [] then [] else old(rfds)[1..]
      ensures if old(rfds) != [] && newId < MAX_CLIENT_OBJS && size > 0 && mapped && enough
        then objs == old(objs)[newId := ShmPool(|old(pools)|)]
          && OwnedOf(pools) == OwnedOf(old(pools)) + [Owned(old(rfds)[0], size)]
          && pools[|old(pools)|] == Pool(old(rfds)[0], size, 1, false)
        else objs == old(objs) && pools == old(pools)
    {
      hide Counted, Accounts, OwnedOf;
      if |rfds| <= 0 { return; }
      var fd := rfds[0];
      if newId >= MAX_CLIENT_OBJS || size <= 0 || !mapped || !enough {
        CloseFirst(received, closed, rfds, pools);
        rfds := rfds[1..];
        Close(fd);
        return;
      }
      var p := Pool(fd, size, 1, false);
      NewPool(objs, pools, p);
      NotYetNamed(objs, pools, newId);
      OwnedAppend(pools, p);
      FirstToPool(received, closed, rfds, pools, p);
      ghost var n := |pools|;
      rfds := rfds[1..];
      pools := pools + [p];
      ObjClear(newId, n);
      StoreHeld(objs, pools, n, newId, ShmPool(n)) by { assert RefersTo(ShmPool(n), n); }
      objs := objs[newId := ShmPool(|pools| - 1)];
    }

    /**
     wl_shm_pool.create_buffer on the pool at entry id; newId may be id itself, or any live
     entry.  `enough` is the outcome of calloc.
     */
    method CreateBuffer(id: nat, newId: nat, g: Geometry, enough: bool)
      requires Valid() && id < MAX_CLIENT_OBJS && objs[id].ShmPool? && objs[id].pool < |pools|
      modifies `objs, `pools, `closed
      ensures Valid() && rfds == old(rfds) && OwnedOf(pools) == OwnedOf(old(pools))
      ensures var p := old(objs[id].pool);
        if Accepted(g, old(pools[p].size)) && newId < MAX_CLIENT_OBJS && enough
        then objs == old(objs)[newId := Buffer(p, g)]
        else objs == old(objs) && pools == old(pools)
    {
      hide Counted, Accounts, Accepted, OwnedOf;
      var p := objs[id].pool;
      CountedMeansAlive(objs, pools, -1, id);
      if !Accepted(g, pools[p].size) { return; }
      if newId >= MAX_CLIENT_OBJS { return; }
      if !enough { return; }
      var q := pools[p].(refcount := pools[p].refcount + 1);
      Hold(objs, pools, p, q);
      AccountsSame(received, closed, rfds, pools, p, q);
      pools := pools[p := q];
      ObjClear(newId, p);
      StoreHeld(objs, pools, p, newId, Buffer(p, g)) by { assert RefersTo(Buffer(p, g), p); }
      objs := objs[newId := Buffer(p, g)];
    }

    /** wl_shm_pool.resize; `remapped` is the outcome of mremap. */
    method Resize(id: nat, size: int, remapped: bool)
      requires Valid() && id < MAX_CLIENT_OBJS && objs[id].ShmPool? && objs[id].pool < |pools|
      modifies `pools
      ensures Valid()
      ensures objs == old(objs) && rfds == old(rfds)
      ensures var p := objs[id].pool;
        pools == if size > 0 && size > old(pools[p].size) && remapped
          then old(pools)[p := old(pools[p]).(size := size)] else old(pools)
    {
      hide PoolFds, Refs, Accounts;
      var p := objs[id].pool;
      if size <= 0 || size <= pools[p].size || !remapped { return; }
      var q := pools[p].(size := size);
      AccountsSame(received, closed, rfds, pools, p, q);
      pools := pools[p := q];
    }

    /** Any request that destroys the object it is sent to. */
    method Destroy(id: nat)
      requires Valid() && id < MAX_CLIENT_OBJS
      modifies `objs, `pools, `closed
      ensures Valid() && rfds == old(rfds) && objs == old(objs)[id := None] && OwnedOf(pools) == OwnedOf(old(pools))
    {
      hide Counted, Accounts;
      ObjClear(id, -1);
    }

    /** Any request that makes an object without a pool, over whatever the id was. */
    method CreateOther(newId: nat)
      requires Valid() && newId < MAX_CLIENT_OBJS
      modifies `objs, `pools, `closed
      ensures Valid() && rfds == old(rfds) && objs == old(objs)[newId := Other] && OwnedOf(pools) == OwnedOf(old(pools))
    {
      hide Counted, Accounts;
      ObjClear(newId, -1);
      StorePlain(objs, pools, newId);
      objs := objs[newId := Other];
    }

    /** The cleanup of serve_client: every pool is freed, and every descriptor received has been closed once. */
    method Cleanup()
      requires Valid()
      modifies this
      ensures closed == received == old(received)
      ensures forall i :: 0 <= i < |objs| ==> objs[i] == None
      ensures forall p :: 0 <= p < |pools| ==> pools[p].freed
    {
      hide Counted, Accounts, PoolFds;
      ghost var queue := rfds;
      assert queue[0..] == queue;
      for i := 0 to |rfds|
        invariant unchanged(`objs, `pools, `rfds, `received)
        invariant Accounts(received, closed, queue[i..], pools)
      {
        CloseFirst(received, closed, queue[i..], pools);
        assert queue[i..][1..] == queue[i + 1..];
        Close(rfds[i]);
      }
      rfds := [];
      for i := 0 to MAX_CLIENT_OBJS
        invariant Valid() && rfds == [] && received == old(received)
        invariant forall k :: 0 <= k < i ==> objs[k] == None
      {
        ObjClear(i, -1);
      }
      NothingLeft(objs, pools);
      AllClosed(received, closed, pools);
    }
  }

  lemma AllClosed(r: multiset<nat>, c: multiset<nat>, pools: seq<Pool>)
    requires Accounts(r, c, [], pools) && PoolFds(pools) == multiset{}
    ensures c == r
  {
  }

  lemma NothingLeft(objs: seq<Entry>, pools: seq<Pool>)
    requires Counted(objs, pools, -1) && forall i :: 0 <= i < |objs| ==> objs[i] == None
    ensures forall p :: 0 <= p < |pools| ==> pools[p].freed
    ensures PoolFds(pools) == multiset{}
  {
    forall p | 0 <= p < |pools|
      ensures pools[p].freed
    {
      RefsNone(objs, p);
    }
    FdsAllFreed(pools);
  }

  // ---------- Whole runs ----------

  /** What a client can make the server do to its table. */
  datatype Event =
    | Fds(fds: seq<nat>)
    | MakePool(newId: nat, size: Int32, mapped: bool, enough: bool)
    | MakeBuffer(id: nat, newId: nat, geo: Geometry, enough: bool)
    | Grow(id: nat, size: Int32, remapped: bool)
    | Kill(id: nat)
    | MakeOther(newId: nat)

  ghost function Received(events: seq<Event>): multiset<nat> {
    if events == [] then multiset{}
    else
      var e := events[|events| - 1];
      Received(events[..|events| - 1]) + if e.Fds? then multiset(e.fds) else multiset{}
  }

  /** The table without counts: entries, what each pool was made from, and the queued descriptors. */
  datatype View = View(objs: seq<Entry>, owned: seq<Owned>, queue: seq<nat>)

  /** Only the display exists. */
  function Start(): View { View(seq(MAX_CLIENT_OBJS, i => if i == 1 then Other else None), [], []) }

  predicate IsPool(v: View, id: nat) { id < |v.objs| && v.objs[id].ShmPool? && v.objs[id].pool < |v.owned| }

  /** What one event does to the table. */
  function After(v: View, e: Event): View {
    match e
    case Fds(fds) => if |v.queue| <= MAX_FDS then v.(queue := v.queue + fds[..Room(|v.queue|, |fds|)]) else v
    case MakePool(newId, size, mapped, enough) =>
      if v.queue == [] then v
      else if newId < |v.objs| && size > 0 && mapped && enough
      then View(v.objs[newId := ShmPool(|v.owned|)], v.owned + [Owned(v.queue[0], size)], v.queue[1..])
      else v.(queue := v.queue[1..])
    case MakeBuffer(id, newId, g, enough) =>
      if IsPool(v, id) && Accepted(g, v.owned[v.objs[id].pool].size) && newId < |v.objs| && enough
      then v.(objs := v.objs[newId := Buffer(v.objs[id].pool, g)]) else v
    case Grow(id, size, remapped) =>
      if IsPool(v, id) && size > 0 && size > v.owned[v.objs[id].pool].size && remapped
      then v.(owned := v.owned[v.objs[id].pool := v.owned[v.objs[id].pool].(size := size)]) else v
    case Kill(id) => if id < |v.objs| then v.(objs := v.objs[id := None]) else v
    case MakeOther(newId) => if newId < |v.objs| then v.(objs := v.objs[newId := Other]) else v
  }

  function Replay(events: seq<Event>): View {
    if events == [] then Start() else After(Replay(events[..|events| - 1]), events[|events| - 1])
  }

  /** The table with its counts, and the descriptors closed so far. */
  datatype Table = Table(objs: seq<Entry>, pools: seq<Pool>, rfds: seq<nat>, closed: multiset<nat>)

  /**
   The table is the one the events call for; every pool has the count of the references to
   it and is freed exactly at none; and every descriptor received is closed, queued or owned
   by a live pool.
   */
  ghost predicate Correct(t: Table, events: seq<Event>) {
    && View(t.objs, OwnedOf(t.pools), t.rfds) == Replay(events)
    && Counted(t.objs, t.pools, -1)
    && Accounts(Received(events), t.closed, t.rfds, t.pools)
  }

  method Perform(c: Client, e: Event)
    requires c.Valid()
    modifies c
    ensures c.Valid() && c.received == old(c.received) + if e.Fds? then multiset(e.fds) else multiset{}
    ensures View(c.objs, OwnedOf(c.pools), c.rfds) == After(old(View(c.objs, OwnedOf(c.pools), c.rfds)), e)
  {
    hide Counted, Accounts, Accepted;
    match e {
      case Fds(fds) => c.RecvFds(fds);
      case MakePool(newId, size, mapped, enough) => c.CreatePool(newId, size, mapped, enough);
      case MakeBuffer(id, newId, g, enough) =>
        if id < MAX_CLIENT_OBJS && c.objs[id].ShmPool? {
          CountedMeansAlive(c.objs, c.pools, -1, id);
          c.CreateBuffer(id, newId, g, enough);
        }
      case Grow(id, size, remapped) =>
        if id < MAX_CLIENT_OBJS && c.objs[id].ShmPool? {
          CountedMeansAlive(c.objs, c.pools, -1, id);
          c.Resize(id, size, remapped);
        }
      case Kill(id) =>
        if id < MAX_CLIENT_OBJS { c.Destroy(id); }
      case MakeOther(newId) =>
        if newId < MAX_CLIENT_OBJS { c.CreateOther(newId); }
    }
  }

  ghost predicate AllCorrect(tables: seq<Table>, events: seq<Event>) {
    |tables| == |events| + 1 && forall i :: 0 <= i <= |events| ==> Correct(tables[i], events[..i])
  }

  lemma OneMore(tables: seq<Table>, events: seq<Event>, t: Table, e: Event)
    requires AllCorrect(tables, events) && Correct(t, events + [e])
    ensures AllCorrect(tables + [t], events + [e])
  {
    hide Correct;
    var n, tables', events' := |events|, tables + [t], events + [e];
    forall i | 0 <= i <= n + 1
      ensures Correct(tables'[i], events'[..i])
    {
      if i <= n {
        assert events'[..i] == events[..i];
      } else {
        assert events'[..i] == events';
      }
    }
  }

  lemma ReplaySnoc(events: seq<Event>, e: Event)
    ensures Replay(events + [e]) == After(Replay(events), e)
    ensures Received(events + [e]) == Received(events) + if e.Fds? then multiset(e.fds) else multiset{}
  {
    hide After;
    assert (events + [e])[..|events|] == events;
  }

  ghost function TableOf(c: Client): Table
    reads c
  {
    Table(c.objs, c.pools, c.rfds, c.closed)
  }

  lemma FirstTable(c: Client)
    requires c.Valid() && c.received == multiset{} && c.objs == Start().objs && c.rfds == [] && c.pools == []
    ensures c.received == Received([]) && View(c.objs, OwnedOf(c.pools), c.rfds) == Replay([])
    ensures AllCorrect([TableOf(c)], [])
  {
    hide Counted, Accounts;
  }

  lemma CorrectNow(c: Client, events: seq<Event>)
    requires c.Valid() && c.received == Received(events) && View(c.objs, OwnedOf(c.pools), c.rfds) == Replay(events)
    ensures Correct(TableOf(c), events)
  {
    hide Counted, Accounts, Replay, Received;
  }

  /**
   The loop of serve_client, for every sequence of requests: `tables` are the table before
   and after each of them, the last one being the client's.
   */
  method Requests(events: seq<Event>) returns (c: Client, ghost tables: seq<Table>)
    ensures fresh(c) && c.Valid() && c.received == Received(events)
    ensures AllCorrect(tables, events) && |tables| > 0 && tables[|tables| - 1] == TableOf(c)
  {
    hide *;
    c := new Client();
    FirstTable(c);
    tables := [TableOf(c)];
    assert events[..0] == [];
    for i := 0 to |events|
      invariant c.Valid() && c.received == Received(events[..i]) && fresh(c)
      invariant View(c.objs, OwnedOf(c.pools), c.rfds) == Replay(events[..i])
      invariant AllCorrect(tables, events[..i]) && |tables| > 0 && tables[|tables| - 1] == TableOf(c)
      modifies c
    {
      assert events[..i + 1] == events[..i] + [events[i]];
      ReplaySnoc(events[..i], events[i]);
      Perform(c, events[i]);
      CorrectNow(c, events[..i + 1]);
      OneMore(tables, events[..i], TableOf(c), events[i]);
      tables := tables + [TableOf(c)];
    }
    assert events[..|events|] == events;
  }

  /**
   serve_client: at the end exactly the received descriptors have been closed, each as often
   as received, and every pool is freed.
   */
  method Serve(events: seq<Event>) returns (c: Client, ghost tables: seq<Table>)
    ensures AllCorrect(tables, events)
    ensures c.closed == c.received == Received(events)
    ensures forall p :: 0 <= p < |c.pools| ==> c.pools[p].freed
  {
    c, tables := Requests(events);
    c.Cleanup();
  }

  // ---------- Buffers in every run ----------

  predicate Sized(v: View) { forall p :: 0 <= p < |v.owned| ==> 0 < v.owned[p].size < 0x8000_0000 }

  /** Every buffer in the table lies inside its pool exactly when its geometry fits an int. */
  ghost predicate Fits(v: View) {
    forall i :: 0 <= i < |v.objs| && v.objs[i].Buffer? ==>
      && v.objs[i].pool < |v.owned|
      && (Inside(v.objs[i].geo, v.owned[v.objs[i].pool].size) <==> InRange(v.objs[i].geo))
  }

  lemma GrowKeepsInside(g: Geometry, size: int, more: Int32)
    requires size <= more && (Inside(g, size) <==> InRange(g))
    ensures Inside(g, more) <==> InRange(g)
  {
    AcceptedExactly(g, more);
  }

  lemma FitsAfter(v: View, e: Event)
    requires Sized(v) && Fits(v)
    ensures Sized(After(v, e)) && Fits(After(v, e))
  {
    hide Inside, InRange, Accepted, Room;
    match e
    case MakeBuffer(id, newId, g, enough) =>
      if IsPool(v, id) { AcceptedExactly(g, v.owned[v.objs[id].pool].size); }
    case Grow(id, size, remapped) =>
      var v' := After(v, e);
      forall i | 0 <= i < |v'.objs| && v'.objs[i].Buffer?
        ensures Inside(v'.objs[i].geo, v'.owned[v'.objs[i].pool].size) <==> InRange(v'.objs[i].geo)
      {
        GrowKeepsInside(v.objs[i].geo, v.owned[v.objs[i].pool].size, v'.owned[v.objs[i].pool].size);
      }
    case _ =>
  }

  /**
   After every sequence of requests, whatever pools have grown since: a live buffer lies
   inside its pool if and only if its width in bytes and its end fit an int.
   */
  lemma {:induction false} BuffersInsideExactly(events: seq<Event>)
    ensures Sized(Replay(events)) && Fits(Replay(events))
  {
    if events != [] {
      hide Fits, Sized, After;
      BuffersInsideExactly(events[..|events| - 1]);
      FitsAfter(Replay(events[..|events| - 1]), events[|events| - 1]);
    }
  }
}

/**
 The compositor's receive loop: messages are cut from a buffer that is refilled with however
 many bytes the socket delivers.
 */
module WaylandStream {
  import opened Words

  const RBUF := 8192

  type Bytes = seq<Byte>

  /** The length in a message header: the upper half of its second word. */
  function Total(s: Bytes): nat
    requires |s| >= 8
  {
    Le32(s[4..]) / 0x1_0000
  }

  /** The header is complete and can never lead to a message: too short, or longer than the buffer. */
  predicate Blocked(s: Bytes) { |s| >= 8 && (Total(s) < 8 || Total(s) > RBUF) }

  /** A whole message is at the front. */
  predicate Ready(s: Bytes) { |s| >= 8 && 8 <= Total(s) <= RBUF && Total(s) <= |s| }

  /** A request: the object it is for, what it asks, and its arguments. */
  datatype Message = Message(id: Word32, opcode: nat, args: Bytes)

  /** Section "Wire Format" of the Wayland protocol: object, opcode and length in two words, arguments. */
  function Frame(x: Message): Bytes {
    PutLe(x.id, 4) + PutLe(x.opcode + 0x1_0000 * (8 + |x.args|), 4) + x.args
  }

  predicate Fits(x: Message) { x.opcode < 0x1_0000 && 8 + |x.args| <= RBUF }

  function Parsed(m: Bytes): Message
    requires |m| >= 8
  {
    Message(Le32(m), Le32(m[4..]) % 0x1_0000, m[8..])
  }

  datatype Frames = Frames(msgs: seq<Message>, rest: Bytes)

  /** The messages of a byte stream, and what is left. */
  function Split(s: Bytes): Frames
    decreases |s|
  {
    if !Ready(s) then Frames([], s)
    else var f := Split(s[Total(s)..]); Frames([Parsed(s[..Total(s)])] + f.msgs, f.rest)
  }

  // ---------- The specification ----------

  lemma SplitStep(s: Bytes)
    requires Ready(s)
    ensures Split(s).msgs == [Parsed(s[..Total(s)])] + Split(s[Total(s)..]).msgs
    ensures Split(s).rest == Split(s[Total(s)..]).rest
  {
    hide Total, Parsed;
  }

  lemma SplitIdle(s: Bytes)
    requires !Ready(s)
    ensures Split(s) == Frames([], s)
  {
    hide Ready, Total;
  }

  lemma MoveMessage(done: seq<Message>, m: Message, rest: seq<Message>)
    ensures done + [m] + rest == done + ([m] + rest)
  {
  }

  lemma HeaderPrefix(s: Bytes, t: Bytes)
    requires |s| >= 8
    ensures Total(s + t) == Total(s)
  {
    hide Le32;
    assert (s + t)[4..][..4] == s[4..][..4];
  }

  /** Cutting can be resumed: nothing depends on where the stream was interrupted. */
  lemma {:induction false} SplitConcat(s: Bytes, t: Bytes)
    ensures var f, g := Split(s), Split(Split(s).rest + t);
      Split(s + t) == Frames(f.msgs + g.msgs, g.rest)
    decreases |s|
  {
    hide Total;
    if Ready(s) {
      var n := Total(s);
      HeaderPrefix(s, t);
      assert (s + t)[..n] == s[..n] && (s + t)[n..] == s[n..] + t;
      SplitConcat(s[n..], t);
      var f, g := Split(s[n..]), Split(Split(s[n..]).rest + t);
      MoveMessage([], Parsed(s[..n]), f.msgs + g.msgs);
      assert [Parsed(s[..n])] + (f.msgs + g.msgs) == [Parsed(s[..n])] + f.msgs + g.msgs;
    } else {
      assert [] + Split(s + t).msgs == Split(s + t).msgs;
    }
  }

  lemma {:induction false} RestIsNotReady(s: Bytes)
    ensures !Ready(Split(s).rest)
    decreases |s|
  {
    hide Total;
    if Ready(s) { RestIsNotReady(s[Total(s)..]); }
  }

  /** The stream of a list of messages. */
  ghost function Flat(msgs: seq<Message>): Bytes {
    if msgs == [] then [] else Frame(msgs[0]) + Flat(msgs[1..])
  }

  /** A word and what follows it. */
  lemma WordThen(v: Word32, rest: Bytes)
    ensures Le32(PutLe(v, 4) + rest) == v
  {
    hide PutLe;
    Pow2Consts();
    var s := PutLe(v, 4) + rest;
    assert s[..4] == PutLe(v, 4);
    LePut(v, 4);
  }

  /** A framed message is read back, and says how long it is. */
  lemma ParsedFrame(x: Message, rest: Bytes)
    requires Fits(x)
    ensures var s, n := Frame(x) + rest, |Frame(x)|;
      n == 8 + |x.args| && Total(s) == n && Parsed(s[..n]) == x && s[n..] == rest
  {
    hide PutLe, Le32;
    var s, n := Frame(x) + rest, |Frame(x)|;
    var w := x.opcode + 0x1_0000 * (8 + |x.args|);
    WordThen(x.id, x.args);
    assert s[4..] == PutLe(w, 4) + (x.args + rest);
    WordThen(w, x.args + rest);
    assert s[..n] == Frame(x) && Frame(x)[4..] == PutLe(w, 4) + x.args && Frame(x)[8..] == x.args;
    WordThen(w, x.args);
    assert Frame(x) == PutLe(x.id, 4) + (PutLe(w, 4) + x.args);
    WordThen(x.id, PutLe(w, 4) + x.args);
    DivModUnique(w, 0x1_0000, 8 + |x.args|, x.opcode);
  }

  ghost predicate Whole(m: Bytes) { 8 <= |m| <= RBUF && Total(m) == |m| }

  /** Conversely, a message that has the length it says is the frame of what is read from it. */
  lemma FrameParsed(m: Bytes)
    requires Whole(m)
    ensures Fits(Parsed(m)) && Frame(Parsed(m)) == m
  {
    hide PutLe, Le;
    var x := Parsed(m);
    PutLe32(m[..4]);
    PutLe32(m[4..8]);
    assert m[4..][..4] == m[4..8];
    assert m == m[..4] + m[4..8] + m[8..];
  }

  lemma PutLe32(s: Bytes)
    requires |s| == 4
    ensures PutLe(Le(s), 4) == s
  {
    hide PutLe, Le;
    Pow2Consts();
    LePut(Le(s), 4);
    LeBound(s);
    LeInjective(PutLe(Le(s), 4), s);
  }

  /** Every byte of the stream is in one message or in the rest, in order. */
  lemma {:induction false} SplitLossless(s: Bytes)
    ensures Flat(Split(s).msgs) + Split(s).rest == s
    ensures forall x :: x in Split(s).msgs ==> Fits(x)
    decreases |s|
  {
    hide Total, Frame, Parsed;
    if Ready(s) {
      var n := Total(s);
      var f := Split(s[n..]);
      SplitLossless(s[n..]);
      assert s == s[..n] + s[n..];
      HeaderPrefix(s[..n], s[n..]);
      FrameParsed(s[..n]);
      assert ([Parsed(s[..n])] + f.msgs)[1..] == f.msgs;
      assert s[..n] + (Flat(f.msgs) + f.rest) == s[..n] + Flat(f.msgs) + f.rest;
    }
  }

  /** Messages have the length they say. */
  lemma MessagesAreWhole(s: Bytes)
    ensures forall x :: x in Split(s).msgs ==> Fits(x) && Whole(Frame(x))
  {
    hide Split, Frame, Total, Parsed;
    SplitLossless(s);
    forall x | x in Split(s).msgs
      ensures Fits(x) && Whole(Frame(x))
    {
      ParsedFrame(x, []);
      assert Frame(x) + [] == Frame(x);
    }
  }

  lemma Regroup<T>(a: seq<T>, b: seq<T>, c: seq<T>)
    ensures a + b + c == a + (b + c)
  {
  }

  lemma FrontFrame(x: Message, tail: Bytes)
    requires Fits(x)
    ensures Split(Frame(x) + tail) == Frames([x] + Split(tail).msgs, Split(tail).rest)
  {
    hide Frame, Parsed, Total, Split;
    ParsedFrame(x, tail);
    SplitStep(Frame(x) + tail);
  }

  /** Messages that a client frames one after the other are cut apart again, whatever follows them. */
  lemma {:induction false} SplitFramed(msgs: seq<Message>, rest: Bytes)
    requires forall x :: x in msgs ==> Fits(x)
    ensures Split(Flat(msgs) + rest) == Frames(msgs + Split(rest).msgs, Split(rest).rest)
    decreases |msgs|
  {
    hide Frame, Parsed, Total, Split, Fits;
    if msgs == [] {
      assert [] + rest == rest && [] + Split(rest).msgs == Split(rest).msgs;
    } else {
      var x, tail := msgs[0], Flat(msgs[1..]) + rest;
      SplitFramed(msgs[1..], rest);
      FrontFrame(x, tail);
      Regroup(Frame(x), Flat(msgs[1..]), rest);
      Regroup([x], msgs[1..], Split(rest).msgs);
      assert [x] + msgs[1..] == msgs;
    }
  }

  lemma BlockedForever(s: Bytes, t: Bytes)
    requires Blocked(s)
    ensures Split(s + t).msgs == []
  {
    HeaderPrefix(s, t);
  }

  /** After the loop the buffer has room, unless its message is longer than the buffer itself. */
  lemma RoomToGoOn(s: Bytes)
    requires |s| <= RBUF && !Ready(s) && !Blocked(s)
    ensures |s| < RBUF
  {
  }

  // ---------- The code ----------

  lemma HeaderWords(s: Bytes)
    requires |s| >= 8
    ensures Le32(s) == Le32(s[..4]) && Le32(s[4..]) == Le32(s[4..8])
  {
    assert s[..4][..4] == s[..4] && s[4..][..4] == s[4..8] == s[4..8][..4];
  }

  lemma HeaderOf(s: Bytes, n: nat)
    requires 8 <= n <= |s|
    ensures Le32(s[..n]) == Le32(s[..4]) && Le32(s[..n][4..]) == Le32(s[4..8])
  {
    assert s[..n][..4] == s[..4] && s[..n][4..8] == s[4..8];
    HeaderWords(s[..n]);
  }

  class Receiver {
    const rbuf: array<Byte>
    var rlen: nat
    /** The messages handed to the handlers, in order. */
    var dispatched: seq<Message>

    ghost predicate Valid()
      reads this, rbuf
    {
      rbuf.Length == RBUF && rlen <= RBUF
    }

    ghost function Content(): Bytes
      requires Valid()
      reads this, rbuf
    {
      rbuf[..rlen]
    }

    constructor ()
      ensures Valid() && Content() == [] && dispatched == [] && fresh(rbuf)
    {
      rbuf := new Byte[RBUF](_ => 0);
      rlen := 0;
      dispatched := [];
    }

    /** dispatch_one: the length of the message handled, 0 for more data, -1 for a protocol error. */
    method DispatchOne() returns (used: int)
      requires Valid()
      modifies `dispatched
      ensures var s := Content();
        if |s| < 8 then used == 0
        else if Total(s) < 8 then used == -1
        else if |s| < Total(s) then used == 0
        else used == Total(s)
      ensures dispatched == if used > 0 then old(dispatched) + [Parsed(Content()[..used])] else old(dispatched)
    {
      hide Le32;
      if rlen < 8 { return 0; }
      ghost var s := Content();
      var objectId := Le32(rbuf[..4]);
      var szop := Le32(rbuf[4..8]);
      var total := szop / 0x1_0000;
      var opcode := szop % 0x1_0000;
      assert s[..4] == rbuf[..4] && s[4..8] == rbuf[4..8];
      HeaderWords(s);
      if total < 8 { return -1; }
      if rlen < total { return 0; }
      HeaderOf(s, total);
      assert s[..total][8..] == rbuf[8..total];
      dispatched := dispatched + [Message(objectId, opcode, rbuf[8..total])];
      return total;
    }

    /** The memmove that drops a handled message. */
    method Drop(used: nat)
      requires Valid() && used <= rlen
      modifies this`rlen, rbuf
      ensures Valid() && Content() == old(Content())[used..]
    {
      if used < rlen {
        forall i | 0 <= i < rlen - used { rbuf[i] := rbuf[i + used]; }
      }
      rlen := rlen - used;
    }

    /** The inner loop: everything complete is dispatched.  False on a protocol error. */
    method Drain() returns (ok: bool)
      requires Valid()
      modifies this, rbuf
      ensures Valid() && Content() == Split(old(Content())).rest
      ensures dispatched == old(dispatched) + Split(old(Content())).msgs
      ensures ok <==> !(|Content()| >= 8 && Total(Content()) < 8)
    {
      hide Total, Split;
      ghost var all := Split(Content());
      ok := true;
      while true
        invariant Valid() && ok
        invariant old(dispatched) + all.msgs == dispatched + Split(Content()).msgs
        invariant all.rest == Split(Content()).rest
        decreases rlen
      {
        ghost var s, sent := Content(), dispatched;
        var used := DispatchOne();
        if used <= 0 {
          ok := used == 0;
          SplitIdle(s);
          break;
        }
        Drop(used);
        SplitStep(s);
        MoveMessage(sent, Parsed(s[..used]), Split(s[used..]).msgs);
      }
    }

    /** client_recv: n bytes of the stream arrive. */
    method Fill(chunk: Bytes)
      requires Valid() && |chunk| <= RBUF - rlen
      modifies this`rlen, rbuf
      ensures Valid() && Content() == old(Content()) + chunk
    {
      forall i | 0 <= i < |chunk| { rbuf[rlen + i] := chunk[i]; }
      rlen := rlen + |chunk|;
    }
  }

  lemma StartOfStream(stream: Bytes)
    ensures Split(stream[..0]) == Frames([], []) && !Ready([])
  {
    assert stream[..0] == [];
  }

  lemma NextChunk(stream: Bytes, pos: nat, n: nat, sent: seq<Message>, left: Bytes)
    requires pos + n <= |stream| && Split(stream[..pos]) == Frames(sent, left)
    ensures var g := Split(left + stream[pos..pos + n]);
      Split(stream[..pos + n]) == Frames(sent + g.msgs, g.rest)
  {
    hide Split;
    assert stream[..pos + n] == stream[..pos] + stream[pos..pos + n];
    SplitConcat(stream[..pos], stream[pos..pos + n]);
  }

  lemma BlockedStops(stream: Bytes, pos: nat, sent: seq<Message>, left: Bytes)
    requires pos <= |stream| && Split(stream[..pos]) == Frames(sent, left) && Blocked(left)
    ensures Split(stream).msgs == sent
  {
    hide Split, Blocked;
    assert stream == stream[..pos] + stream[pos..];
    SplitConcat(stream[..pos], stream[pos..]);
    BlockedForever(left, stream[pos..]);
  }

  lemma EndOfStream(stream: Bytes, pos: nat, sent: seq<Message>, left: Bytes)
    requires pos <= |stream| && Split(stream[..pos]) == Frames(sent, left)
    requires pos == |stream| || |left| == RBUF
    requires !Ready(left)
    ensures Split(stream).msgs == sent
  {
    hide Split, Total;
    if pos == |stream| {
      assert stream[..pos] == stream;
    } else {
      BlockedStops(stream, pos, sent, left);
    }
  }

  /**
   serve_client's receive loop over a whole connection.  The socket returns any number of
   bytes between one and what fits; nothing when the stream has ended or the buffer is full.
   The messages dispatched are those of the stream, however it was split.
   */
  method Receive(stream: Bytes) returns (c: Receiver)
    ensures c.dispatched == Split(stream).msgs
  {
    hide Split, Total;
    c := new Receiver();
    var pos := 0;
    StartOfStream(stream);
    while true
      invariant 0 <= pos <= |stream| && fresh(c) && fresh(c.rbuf) && c.Valid()
      invariant Split(stream[..pos]) == Frames(c.dispatched, c.Content())
      invariant !Ready(c.Content()) && !(|c.Content()| >= 8 && Total(c.Content()) < 8)
      modifies c, c.rbuf
      decreases |stream| - pos
    {
      var room := RBUF - c.rlen;
      if pos == |stream| || room == 0 {
        EndOfStream(stream, pos, c.dispatched, c.Content());
        return;
      }
      var n: nat :| 1 <= n <= room && n <= |stream| - pos;
      ghost var before := c.Content();
      c.Fill(stream[pos..pos + n]);
      ghost var sent, full := c.dispatched, c.Content();
      var ok := c.Drain();
      NextChunk(stream, pos, n, sent, before);
      pos := pos + n;
      RestIsNotReady(full);
      if !ok {
        BlockedStops(stream, pos, c.dispatched, c.Content());
        return;
      }
    }
  }

  /** What a client sends is what the handlers get: message for message, however the stream is cut up. */
  method ReceiveFramed(msgs: seq<Message>) returns (c: Receiver)
    requires forall x :: x in msgs ==> Fits(x)
    ensures c.dispatched == msgs
  {
    hide Split, Fits, Frame;
    var stream := Join(msgs);
    SplitFramed(msgs, []);
    assert stream + [] == stream;
    SplitNothing();
    c := Receive(stream);
  }

  lemma SplitNothing()
    ensures Split([]) == Frames([], [])
  {
  }

  method Join(msgs: seq<Message>) returns (s: Bytes)
    ensures s == Flat(msgs)
  {
    hide Frame;
    s := [];
    var i := |msgs|;
    while i > 0
      invariant 0 <= i <= |msgs| && s == Flat(msgs[i..])
    {
      i := i - 1;
      assert msgs[i..][1..] == msgs[i + 1..];
      s := Frame(msgs[i]) + s;
    }
    assert msgs[0..] == msgs;
  }
}
