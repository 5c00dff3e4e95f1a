/**
 The scheduler's run queue: an implicit 4-ary min-heap of virtual deadlines, in place in a
 fixed array, with every thread's position in the heap written back to the thread.
 */
module Heap4 {
  import opened Words

  const CAPACITY := 512
  const U64_MAX := 0xFFFF_FFFF_FFFF_FFFF
  const U32 := 0x1_0000_0000

  type Tid = nat
  type Key = k: int | 0 <= k <= U64_MAX

  datatype Entry = Entry(tid: Tid, key: Key)

  // ---------- Indices ----------

  function Parent(i: nat): nat
    requires i > 0
  {
    (i - 1) / 4
  }

  lemma ParentOfChild(p: nat, c: nat)
    requires c > 0
    ensures Parent(c) == p <==> 4 * p + 1 <= c <= 4 * p + 4
    ensures Parent(c) < c
  {
  }

  // ---------- The heap property ----------

  predicate Ordered(s: seq<Entry>, i: nat)
    requires 0 < i < |s|
  {
    s[Parent(i)].key <= s[i].key
  }

  predicate IsHeap(s: seq<Entry>) { forall i :: 0 < i < |s| ==> Ordered(s, i) }

  /** A heap except that the entry at pos may be too small for its parent. */
  predicate UpAt(s: seq<Entry>, pos: nat) {
    && pos < |s|
    && (forall i :: 0 < i < |s| && i != pos ==> Ordered(s, i))
    && (forall i :: 0 < i < |s| && pos > 0 && Parent(i) == pos ==> s[Parent(pos)].key <= s[i].key)
  }

  /** A heap except that the entry at pos may be too large for its children. */
  predicate DownAt(s: seq<Entry>, pos: nat) {
    && pos < |s|
    && (forall i :: 0 < i < |s| && Parent(i) != pos ==> Ordered(s, i))
    && (forall i :: 0 < i < |s| && pos > 0 && Parent(i) == pos ==> s[Parent(pos)].key <= s[i].key)
  }

  function Swapped(s: seq<Entry>, a: nat, b: nat): seq<Entry>
    requires a < |s| && b < |s|
  {
    s[a := s[b]][b := s[a]]
  }

  lemma UpDone(s: seq<Entry>, pos: nat)
    requires UpAt(s, pos) && (pos == 0 || Ordered(s, pos))
    ensures IsHeap(s)
  {
  }

  lemma UpStep(s: seq<Entry>, pos: nat)
    requires UpAt(s, pos) && pos > 0 && !Ordered(s, pos)
    ensures UpAt(Swapped(s, pos, Parent(pos)), Parent(pos))
  {
    var p, t := Parent(pos), Swapped(s, pos, Parent(pos));
    ParentOfChild(p, pos);
    forall i | 0 < i < |t| && i != p
      ensures Ordered(t, i)
    {
      ParentOfChild(p, i);
      ParentOfChild(pos, i);
      if i != pos { assert Ordered(s, i); }
    }
    forall i | 0 < i < |t| && p > 0 && Parent(i) == p
      ensures t[Parent(p)].key <= t[i].key
    {
      assert Ordered(s, p);
      if i != pos { assert Ordered(s, i); }
    }
  }

  lemma DownDone(s: seq<Entry>, pos: nat)
    requires DownAt(s, pos) && forall i :: 0 < i < |s| && Parent(i) == pos ==> Ordered(s, i)
    ensures IsHeap(s)
  {
  }

  lemma DownStep(s: seq<Entry>, pos: nat, m: nat)
    requires DownAt(s, pos) && 0 < m < |s| && Parent(m) == pos && s[m].key < s[pos].key
    requires forall i :: 0 < i < |s| && Parent(i) == pos ==> s[m].key <= s[i].key
    ensures DownAt(Swapped(s, pos, m), m)
  {
    var t := Swapped(s, pos, m);
    ParentOfChild(pos, m);
    forall i | 0 < i < |t| && Parent(i) != m
      ensures Ordered(t, i)
    {
      ParentOfChild(pos, i);
      if i == pos {
        assert s[Parent(pos)].key <= s[m].key;
      } else if Parent(i) != pos {
        assert Ordered(s, i);
      }
    }
    forall i | 0 < i < |t| && Parent(i) == m
      ensures t[Parent(m)].key <= t[i].key
    {
      ParentOfChild(m, i);
      assert Ordered(s, i);
    }
  }

  lemma {:induction false} RootIsLeast(s: seq<Entry>, i: nat)
    requires IsHeap(s) && i < |s|
    ensures s[0].key <= s[i].key
  {
    if i > 0 {
      ParentOfChild(Parent(i), i);
      assert Ordered(s, i);
      RootIsLeast(s, Parent(i));
    }
  }

  /** Changing one key of a heap downwards, or upwards. */
  lemma KeyLowered(s: seq<Entry>, pos: nat, e: Entry)
    requires IsHeap(s) && pos < |s| && e.key <= s[pos].key
    ensures UpAt(s[pos := e], pos)
  {
    var t := s[pos := e];
    forall i | 0 < i < |t| && i != pos
      ensures Ordered(t, i)
    {
      assert Ordered(s, i);
    }
    forall i | 0 < i < |t| && pos > 0 && Parent(i) == pos
      ensures t[Parent(pos)].key <= t[i].key
    {
      ParentOfChild(pos, i);
      ParentOfChild(Parent(pos), pos);
      assert Ordered(s, i) && Ordered(s, pos);
    }
  }

  lemma KeyRaised(s: seq<Entry>, pos: nat, e: Entry)
    requires IsHeap(s) && pos < |s| && s[pos].key <= e.key
    ensures DownAt(s[pos := e], pos)
  {
    var t := s[pos := e];
    forall i | 0 < i < |t| && Parent(i) != pos
      ensures Ordered(t, i)
    {
      assert Ordered(s, i);
    }
    forall i | 0 < i < |t| && pos > 0 && Parent(i) == pos
      ensures t[Parent(pos)].key <= t[i].key
    {
      ParentOfChild(pos, i);
      ParentOfChild(Parent(pos), pos);
      assert Ordered(s, i) && Ordered(s, pos);
    }
  }

  lemma Appended(s: seq<Entry>, e: Entry)
    requires IsHeap(s)
    ensures UpAt(s + [e], |s|)
  {
    var t := s + [e];
    forall i | 0 < i < |t| && i != |s|
      ensures Ordered(t, i)
    {
      ParentOfChild(Parent(i), i);
      assert Ordered(s, i);
    }
    forall i | 0 < i < |t| && |s| > 0 && Parent(i) == |s|
      ensures false
    {
      ParentOfChild(|s|, i);
    }
  }

  /** The last entry leaves. */
  lemma Shortened(s: seq<Entry>)
    requires IsHeap(s) && s != []
    ensures IsHeap(s[..|s| - 1])
  {
    var t := s[..|s| - 1];
    forall i | 0 < i < |t|
      ensures Ordered(t, i)
    {
      ParentOfChild(Parent(i), i);
      assert Ordered(s, i);
    }
  }

  // ---------- What the heap holds ----------

  type Positions = map<Tid, nat>
  type Contents = map<Tid, Key>

  /**
   The array holds each thread of `contents` once, with its key, and `pos` says where.  A
   thread that is not in `pos` is not in the heap.
   */
  ghost predicate Placed(s: seq<Entry>, pos: Positions, contents: Contents) {
    && (forall i :: 0 <= i < |s| ==> s[i].tid in pos && pos[s[i].tid] == i)
    && (forall i :: 0 <= i < |s| ==> s[i].tid in contents && contents[s[i].tid] == s[i].key)
    && (forall t :: t in contents ==> t in pos)
    && (forall t :: t in pos ==> pos[t] < |s| && s[pos[t]].tid == t)
  }

  lemma PlacedSwap(s: seq<Entry>, pos: Positions, contents: Contents, a: nat, b: nat)
    requires Placed(s, pos, contents) && a < |s| && b < |s|
    ensures Placed(Swapped(s, a, b), pos[s[b].tid := a][s[a].tid := b], contents)
  {
  }

  lemma PlacedAppend(s: seq<Entry>, pos: Positions, contents: Contents, e: Entry)
    requires Placed(s, pos, contents) && e.tid !in pos
    ensures Placed(s + [e], pos[e.tid := |s|], contents[e.tid := e.key])
  {
  }

  lemma PlacedRekey(s: seq<Entry>, pos: Positions, contents: Contents, i: nat, k: Key)
    requires Placed(s, pos, contents) && i < |s|
    ensures Placed(s[i := s[i].(key := k)], pos, contents[s[i].tid := k])
  {
  }

  lemma PlacedDropLast(s: seq<Entry>, pos: Positions, contents: Contents)
    requires Placed(s, pos, contents) && s != []
    ensures var t := s[|s| - 1].tid; Placed(s[..|s| - 1], pos - {t}, contents - {t})
  {
  }

  /** The last entry moves into the gap at i. */
  lemma PlacedFill(s: seq<Entry>, pos: Positions, contents: Contents, i: nat)
    requires Placed(s, pos, contents) && i < |s| - 1
    ensures var n, t, u := |s| - 1, s[i].tid, s[|s| - 1].tid;
      t != u && Placed(s[..n][i := s[n]], (pos - {t})[u := i], contents - {t})
  {
    var n, t, u := |s| - 1, s[i].tid, s[|s| - 1].tid;
    assert pos[t] == i && pos[u] == n;
    var s', pos', contents' := s[..n][i := s[n]], (pos - {t})[u := i], contents - {t};
    forall j | 0 <= j < n
      ensures s'[j].tid in pos' && pos'[s'[j].tid] == j
      ensures s'[j].tid in contents' && contents'[s'[j].tid] == s'[j].key
    {
      if j != i {
        assert s'[j] == s[j] && pos[s[j].tid] == j;
      } else {
        assert s'[j] == s[n];
      }
    }
    forall x | x in pos'
      ensures pos'[x] < n && s'[pos'[x]].tid == x
    {
      if x != u {
        assert s[pos[x]].tid == x && pos[x] != i && pos[x] != n;
        assert s'[pos[x]] == s[pos[x]];
      }
    }
  }

  lemma Present(s: seq<Entry>, pos: Positions, contents: Contents, i: nat)
    requires Placed(s, pos, contents) && i < |s|
    ensures s[i].tid in contents && contents[s[i].tid] == s[i].key && s[i].tid in pos && pos[s[i].tid] == i
  {
  }

  /** Where a thread of the heap is. */
  lemma Located(s: seq<Entry>, pos: Positions, contents: Contents, t: Tid)
    requires Placed(s, pos, contents) && t in contents
    ensures t in pos && pos[t] < |s| && s[pos[t]] == Entry(t, contents[t])
  {
  }

  lemma NotPlaced(s: seq<Entry>, pos: Positions, contents: Contents, t: Tid)
    requires Placed(s, pos, contents) && t !in contents
    ensures t !in pos
  {
  }

  lemma NoChildren(s: seq<Entry>, p: nat)
    requires DownAt(s, p) && 4 * p + 1 >= |s|
    ensures IsHeap(s)
  {
    forall i | 0 < i < |s|
      ensures Parent(i) != p
    {
      ParentOfChild(p, i);
    }
    DownDone(s, p);
  }

  lemma ParentIsBelow(s: seq<Entry>, p: nat)
    requires IsHeap(s) && 0 < p < |s|
    ensures s[Parent(p)].key <= s[p].key
  {
    assert Ordered(s, p);
  }

  lemma UpIsDown(s: seq<Entry>, p: nat)
    requires UpAt(s, p) && (p == 0 || Ordered(s, p))
    ensures DownAt(s, p)
  {
    UpDone(s, p);
  }

  // ---------- Ties ----------

  /** All keys are equal. */
  ghost predicate Level(s: seq<Entry>) { forall i, j :: 0 <= i < |s| && 0 <= j < |s| ==> s[i].key == s[j].key }

  lemma LevelAt(s: seq<Entry>, i: nat, j: nat)
    requires i < |s| && j < |s|
    ensures Level(s) ==> s[i].key == s[j].key
  {
  }

  lemma NotLevel(s: seq<Entry>, i: nat, j: nat)
    requires i < |s| && j < |s| && s[i].key < s[j].key
    ensures !Level(s)
  {
  }

  /** The entry at i leaves and the last one takes its place. */
  function Without(s: seq<Entry>, i: nat): seq<Entry>
    requires i < |s|
  {
    var n := |s| - 1;
    if i < n then s[..n][i := s[n]] else s[..n]
  }

  lemma WithoutIsLevel(s: seq<Entry>, i: nat)
    requires i < |s|
    ensures Level(s) ==> Level(Without(s, i))
  {
  }

  ghost predicate Leaves(s: seq<Entry>, e: Entry, s': seq<Entry>) {
    exists i: nat :: i < |s| && s[i] == e && s' == Without(s, i)
  }

  // ---------- What a pick promises ----------

  /** e is a thread of the heap with the least key. */
  ghost predicate Earliest(contents: Contents, e: Entry) {
    && e.tid in contents && contents[e.tid] == e.key
    && forall t :: t in contents ==> e.key <= contents[t]
  }

  predicate Eligible(vruntime: map<Tid, Key>, max: Key, t: Tid) { t in vruntime && vruntime[t] <= max }

  ghost predicate EarliestEligible(contents: Contents, vruntime: map<Tid, Key>, max: Key, e: Entry) {
    && e.tid in contents && contents[e.tid] == e.key && Eligible(vruntime, max, e.tid)
    && forall t :: t in contents && Eligible(vruntime, max, t) ==> e.key <= contents[t]
  }

  /** Some eligible thread has a deadline the scan's strict comparison can accept. */
  ghost predicate SomePickable(contents: Contents, vruntime: map<Tid, Key>, max: Key) {
    exists t :: t in contents && Eligible(vruntime, max, t) && contents[t] < U64_MAX
  }

  lemma RootIsEarliest(s: seq<Entry>, pos: Positions, contents: Contents)
    requires Placed(s, pos, contents) && IsHeap(s) && s != []
    ensures Earliest(contents, s[0])
  {
    hide IsHeap;
    forall t | t in contents
      ensures s[0].key <= contents[t]
    {
      Located(s, pos, contents, t);
      RootIsLeast(s, pos[t]);
    }
  }

  lemma EmptyContents(s: seq<Entry>, pos: Positions, contents: Contents)
    requires Placed(s, pos, contents)
    ensures s == [] <==> contents == map[]
  {
    if s != [] { assert s[0].tid in contents; }
    if contents != map[] {
      var t :| t in contents;
      Located(s, pos, contents, t);
    }
  }

  /**
   When the scan finds nothing and the root is picked instead, the root is an earliest
   eligible thread if and only if it is eligible at all.
   */
  lemma FallbackExactly(contents: Contents, vruntime: map<Tid, Key>, max: Key, root: Entry)
    requires !SomePickable(contents, vruntime, max) && Earliest(contents, root)
    ensures EarliestEligible(contents, vruntime, max, root) <==> Eligible(vruntime, max, root.tid)
  {
  }

  // ---------- The rotating scan ----------

  /** The j-th position visited when the scan starts at `start`. */
  function Rotated(start: nat, n: nat, j: nat): (i: nat)
    requires start < n && j < n
    ensures i < n
  {
    if start + j < n then start + j else start + j - n
  }

  lemma RotatedIsMod(start: nat, n: nat, j: nat)
    requires start < n && j < n
    ensures (start + j) % n == Rotated(start, n, j)
  {
    var q := if start + j < n then 0 else 1;
    DivModUnique(start + j, n, q, start + j - q * n);
  }

  /** The scan visits every position. */
  lemma RotatedCovers(start: nat, n: nat, i: nat) returns (j: nat)
    requires start < n && i < n
    ensures j < n && Rotated(start, n, j) == i
  {
    j := if i >= start then i - start else i + n - start;
  }

  /** e is the entry the scan reaches first among the eligible entries with the least key. */
  ghost predicate FirstInTurn(s: seq<Entry>, start: nat, vruntime: map<Tid, Key>, max: Key, e: Entry) {
    start < |s| && exists k: nat :: k < |s| && FirstAt(s, start, vruntime, max, e, k)
  }

  ghost predicate FirstAt(s: seq<Entry>, start: nat, vruntime: map<Tid, Key>, max: Key, e: Entry, k: nat)
    requires start < |s| && k < |s|
  {
    && s[Rotated(start, |s|, k)] == e && Eligible(vruntime, max, e.tid)
    && forall j :: 0 <= j < k ==> Worse(s[Rotated(start, |s|, j)], vruntime, max, e.key)
  }

  predicate Worse(e: Entry, vruntime: map<Tid, Key>, max: Key, k: int) { Eligible(vruntime, max, e.tid) ==> k < e.key }

  /** What the rotating origin is for: an earliest eligible thread at the origin is the one picked. */
  lemma OriginWins(s: seq<Entry>, pos: Positions, contents: Contents, start: nat,
                   vruntime: map<Tid, Key>, max: Key, e: Entry)
    requires Placed(s, pos, contents) && FirstInTurn(s, start, vruntime, max, e)
    requires EarliestEligible(contents, vruntime, max, s[start])
    ensures e == s[start]
  {
    var k: nat :| k < |s| && FirstAt(s, start, vruntime, max, e, k);
    Present(s, pos, contents, Rotated(start, |s|, k));
    assert s[Rotated(start, |s|, 0)] == s[start];
  }

  predicate NotBetter(e: Entry, vruntime: map<Tid, Key>, max: Key, k: int) {
    Eligible(vruntime, max, e.tid) ==> k <= e.key
  }

  lemma ScanIsEarliest(s: seq<Entry>, pos: Positions, contents: Contents, vruntime: map<Tid, Key>, max: Key,
                       best: nat, found: bool, k: int)
    requires Placed(s, pos, contents)
    requires forall i :: 0 <= i < |s| ==> NotBetter(s[i], vruntime, max, k)
    requires found ==> best < |s| && Eligible(vruntime, max, s[best].tid) && s[best].key == k < U64_MAX
    requires !found ==> k == U64_MAX
    ensures found <==> SomePickable(contents, vruntime, max)
    ensures found ==> EarliestEligible(contents, vruntime, max, s[best])
  {
    if found { Present(s, pos, contents, best); }
    forall t | t in contents && Eligible(vruntime, max, t)
      ensures k <= contents[t]
    {
      Located(s, pos, contents, t);
      assert NotBetter(s[pos[t]], vruntime, max, k);
    }
  }

  // ---------- The code ----------

  class RunQueue {
    const entries: array<Entry>
    var len: nat
    var scanStart: nat
    /** eevdf_heap_pos of every thread that has one. */
    var pos: Positions
    /** The keys of the threads in the heap. */
    ghost var contents: Contents

    ghost predicate Sized()
      reads this, entries
    {
      entries.Length == CAPACITY && len <= CAPACITY && scanStart < U32
    }

    ghost function Slots(): seq<Entry>
      requires Sized()
      reads this, entries
    {
      entries[..len]
    }

    /** Everything but the heap order. */
    ghost predicate Consistent()
      reads this, entries
    {
      Sized() && Placed(Slots(), pos, contents)
    }

    ghost predicate Valid()
      reads this, entries
    {
      Consistent() && IsHeap(Slots())
    }

    constructor ()
      ensures Valid() && contents == map[] && len == 0 && scanStart == 0 && fresh(entries)
    {
      entries := new Entry[CAPACITY](_ => Entry(0, 0));
      len := 0;
      scanStart := 0;
      pos := map[];
      contents := map[];
    }

    /** swap: both entries and both threads' positions. */
    method Swap(a: nat, b: nat)
      requires Consistent() && a < len && b < len
      modifies entries, `pos
      ensures Consistent() && Slots() == Swapped(old(Slots()), a, b)
    {
      PlacedSwap(Slots(), pos, contents, a, b);
      hide Placed;
      ghost var s := Slots();
      entries[a], entries[b] := entries[b], entries[a];
      pos := pos[entries[a].tid := a][entries[b].tid := b];
      assert Slots() == Swapped(s, a, b);
    }

    /** One turn of sift_up: the heap is in order, or the entry rises one level. */
    method Rise(p: nat) returns (done: bool, next: nat)
      requires Consistent() && UpAt(Slots(), p) && p > 0
      modifies entries, `pos
      ensures Consistent()
      ensures done ==> IsHeap(Slots()) && Slots() == old(Slots())
      ensures !done ==> next < p && UpAt(Slots(), next) && !Level(old(Slots()))
    {
      assert p < len;
      hide Placed, UpAt, IsHeap, Swapped, Level;
      var par := Parent(p);
      ParentOfChild(par, p);
      done, next := true, p;
      if entries[p].key < entries[par].key {
        NotLevel(Slots(), p, par);
        UpStep(Slots(), p);
        Swap(p, par);
        done, next := false, par;
      } else {
        UpDone(Slots(), p);
      }
    }

    /** sift_up */
    method SiftUp(start: nat)
      requires Consistent() && UpAt(Slots(), start)
      modifies entries, `pos
      ensures Valid()
      ensures old(Level(Slots())) ==> Slots() == old(Slots())
    {
      assert start < len;
      hide Placed, UpAt, IsHeap, Level;
      ghost var was := Slots();
      var p: nat := start;
      while p > 0
        invariant Consistent() && p < len && UpAt(Slots(), p)
        invariant Level(was) ==> Slots() == was
      {
        var done, next := Rise(p);
        if done { return; }
        p := next;
      }
      UpDone(Slots(), 0);
    }

    /** The child of p with the smallest key. */
    method LeastChild(p: nat) returns (m: nat)
      requires Sized() && 4 * p + 1 < len
      ensures 0 < m < len && Parent(m) == p
      ensures forall i :: 0 < i < len && Parent(i) == p ==> entries[m].key <= entries[i].key
    {
      var first := 4 * p + 1;
      var last := if first + 4 < len then first + 4 else len;
      m := first;
      for c := first + 1 to last
        invariant first <= m < c
        invariant forall i :: first <= i < c ==> entries[m].key <= entries[i].key
      {
        if entries[c].key < entries[m].key { m := c; }
      }
      ParentOfChild(p, m);
      forall i | 0 < i < len && Parent(i) == p
        ensures entries[m].key <= entries[i].key
      {
        ParentOfChild(p, i);
      }
    }

    /** One turn of sift_down: the heap is in order, or the entry sinks one level. */
    method Sink(p: nat) returns (done: bool, next: nat)
      requires Consistent() && DownAt(Slots(), p)
      modifies entries, `pos
      ensures Consistent()
      ensures done ==> IsHeap(Slots()) && Slots() == old(Slots())
      ensures !done ==> p < next < len && DownAt(Slots(), next) && !Level(old(Slots()))
    {
      assert p < len;
      hide Placed, DownAt, IsHeap, Swapped, Parent, Level;
      done, next := true, p;
      if 4 * p + 1 >= len {
        NoChildren(Slots(), p);
        return;
      }
      var m := LeastChild(p);
      ParentOfChild(p, m);
      if entries[m].key < entries[p].key {
        NotLevel(Slots(), m, p);
        DownStep(Slots(), p, m);
        Swap(p, m);
        done, next := false, m;
      } else {
        DownDone(Slots(), p);
      }
    }

    /** sift_down */
    method SiftDown(start: nat)
      requires Consistent() && DownAt(Slots(), start)
      modifies entries, `pos
      ensures Valid()
      ensures old(Level(Slots())) ==> Slots() == old(Slots())
    {
      assert start < len;
      hide Placed, DownAt, IsHeap, Level;
      ghost var was := Slots();
      var p: nat := start;
      while true
        invariant Consistent() && p < len && DownAt(Slots(), p)
        invariant Level(was) ==> Slots() == was
        decreases len - p
      {
        var done, next := Sink(p);
        if done { return; }
        p := next;
      }
    }

    /** insert: false and nothing changes when the heap is full. */
    method Insert(tid: Tid, key: Key) returns (ok: bool)
      requires Valid() && tid !in pos
      modifies this, entries
      ensures Valid() && scanStart == old(scanStart)
      ensures (ok <==> old(len) < CAPACITY) && len == old(len) + if ok then 1 else 0
      ensures contents == if ok then old(contents)[tid := key] else old(contents)
      ensures ok && Level(old(Slots()) + [Entry(tid, key)]) ==> Slots() == old(Slots()) + [Entry(tid, key)]
    {
      hide Placed, IsHeap, UpAt, Level;
      if len >= CAPACITY { return false; }
      var e := Entry(tid, key);
      ghost var s := Slots();
      PlacedAppend(s, pos, contents, e);
      Appended(s, e);
      entries[len] := e;
      pos := pos[tid := len];
      contents := contents[tid := key];
      len := len + 1;
      assert Slots() == s + [e];
      SiftUp(len - 1);
      ok := true;
    }

    /** remove: the entry at p leaves, whatever it is; the last entry takes its place. */
    method Remove(p: nat) returns (e: Entry)
      requires Valid() && p < len
      modifies `len, `pos, `contents, entries
      ensures Valid() && e == old(entries[p])
      ensures e.tid in old(contents) && old(contents)[e.tid] == e.key
      ensures contents == old(contents) - {e.tid} && e.tid !in pos && len == old(len) - 1
      ensures old(Level(Slots())) ==> Slots() == Without(old(Slots()), p)
    {
      hide Placed, IsHeap, UpAt, DownAt, Level;
      e := entries[p];
      ghost var s := Slots();
      WithoutIsLevel(s, p);
      Present(s, pos, contents, p);
      Shortened(s);
      var n := len - 1;
      assert s[..n] == entries[..n];
      if p < n {
        PlacedFill(s, pos, contents, p);
        var moved := entries[n];
        if e.key <= moved.key { KeyRaised(s[..n], p, moved); }
        if moved.key <= e.key { KeyLowered(s[..n], p, moved); }
        pos := (pos - {e.tid})[moved.tid := p];
        contents := contents - {e.tid};
        entries[p] := moved;
        len := n;
        assert Slots() == s[..n][p := moved];
        if p > 0 && moved.key < entries[Parent(p)].key {
          ParentIsBelow(s, p);
          SiftUp(p);
        } else {
          if moved.key < e.key { UpIsDown(Slots(), p); }
          SiftDown(p);
        }
        assert e.tid !in contents;
      } else {
        PlacedDropLast(s, pos, contents);
        pos := pos - {e.tid};
        contents := contents - {e.tid};
        len := n;
      }
      NotPlaced(Slots(), pos, contents, e.tid);
    }

    /** pop_min: an entry with the least key, or None exactly when there is none. */
    method PopMin() returns (r: Option<Entry>)
      requires Valid()
      modifies `len, `pos, `contents, entries
      ensures Valid() && (r == None <==> old(contents) == map[])
      ensures r == None ==> contents == old(contents)
      ensures r.Some? ==>
        && Earliest(old(contents), r.value)
        && contents == old(contents) - {r.value.tid} && r.value.tid !in pos
      ensures r.Some? ==> old(len) > 0 && r.value == old(entries[0])
    {
      hide Placed, IsHeap, DownAt;
      EmptyContents(Slots(), pos, contents);
      if len == 0 { return None; }
      var root := entries[0];
      ghost var s := Slots();
      RootIsEarliest(s, pos, contents);
      Shortened(s);
      var n := len - 1;
      assert s[..n] == entries[..n];
      if n > 0 {
        PlacedFill(s, pos, contents, 0);
        var moved := entries[n];
        RootIsLeast(s, n);
        KeyRaised(s[..n], 0, moved);
        pos := (pos - {root.tid})[moved.tid := 0];
        contents := contents - {root.tid};
        entries[0] := moved;
        len := n;
        assert Slots() == s[..n][0 := moved];
        SiftDown(0);
      } else {
        PlacedDropLast(s, pos, contents);
        pos := pos - {root.tid};
        contents := contents - {root.tid};
        len := n;
      }
      NotPlaced(Slots(), pos, contents, root.tid);
      r := Some(root);
    }

    /** decrease_key and update_key: one thread's key changes, nothing else. */
    method UpdateKey(p: nat, key: Key) returns (old_key: Key)
      requires Valid() && p < len
      modifies `pos, `contents, entries
      ensures Valid() && old_key == old(entries[p].key)
      ensures contents == old(contents)[old(entries[p].tid) := key]
    {
      hide Placed, IsHeap, UpAt, DownAt;
      ghost var s := Slots();
      old_key := entries[p].key;
      var e := entries[p].(key := key);
      PlacedRekey(s, pos, contents, p, key);
      if key <= old_key { KeyLowered(s, p, e); }
      if old_key <= key { KeyRaised(s, p, e); }
      entries[p] := e;
      contents := contents[e.tid := key];
      assert Slots() == s[p := e];
      if key < old_key {
        SiftUp(p);
      } else if key > old_key {
        SiftDown(p);
      } else {
        assert s[p := e] == s;
      }
    }

    /**
     pick_eligible: scans from a rotating origin for the earliest deadline among the threads
     whose virtual runtime is at most `max`, and falls back on the earliest of all.
     */
    method PickEligible(vruntime: map<Tid, Key>, max: Key) returns (r: Option<Entry>)
      requires Valid() && forall t :: t in contents ==> t in vruntime
      modifies this, entries
      ensures Valid() && (r == None <==> old(contents) == map[]) && (r.Some? ==> old(len) > 0)
      ensures r.Some? ==> contents == old(contents) - {r.value.tid}
      ensures r.Some? && SomePickable(old(contents), vruntime, max) ==>
        EarliestEligible(old(contents), vruntime, max, r.value)
      ensures r.Some? && SomePickable(old(contents), vruntime, max) ==>
        FirstInTurn(old(Slots()), old(scanStart) % old(len), vruntime, max, r.value)
      ensures r.Some? && !SomePickable(old(contents), vruntime, max) ==>
        Earliest(old(contents), r.value) && r.value == old(entries[0])
      ensures r.Some? ==>
        (EarliestEligible(old(contents), vruntime, max, r.value) <==>
         SomePickable(old(contents), vruntime, max) || Eligible(vruntime, max, old(entries[0].tid)))
      ensures scanStart == if r == None then old(scanStart) else (old(scanStart) + 1) % U32
      ensures r.Some? && SomePickable(old(contents), vruntime, max) && old(Level(Slots())) ==>
        len == old(len) - 1 && r.value.tid !in pos && Leaves(old(Slots()), r.value, Slots())
    {
      hide Placed, IsHeap, EarliestEligible, Earliest, SomePickable, FirstInTurn, Eligible, Level, Without;
      EmptyContents(Slots(), pos, contents);
      if len == 0 { return None; }
      ghost var was, root := contents, entries[0];
      var best, found := Scan(vruntime, max);
      scanStart := if scanStart + 1 < U32 then scanStart + 1 else 0;
      if found {
        ghost var s := Slots();
        var e := Remove(best);
        assert Level(s) ==> Leaves(s, e, Slots());
        r := Some(e);
      } else {
        r := PopMin();
        FallbackExactly(was, vruntime, max, root);
      }
    }

    /** pick_eligible on a tie, and the thread goes back with the deadline it had. */
    method PickAndRequeue(vruntime: map<Tid, Key>, max: Key) returns (e: Entry)
      requires Valid() && Tied(Slots(), vruntime, max) && forall t :: t in contents ==> t in vruntime
      modifies this, entries
      ensures Valid() && contents == old(contents) && len == old(len) > 0
      ensures scanStart == (old(scanStart) + 1) % U32
      ensures e == old(Slots())[Origin(old(scanStart), old(len))]
      ensures Slots() == Turned(old(Slots()), Origin(old(scanStart), old(len))) && Tied(Slots(), vruntime, max)
    {
      hide *;
      QueueFacts(this);
      ghost var s, places, was, n, scan := Slots(), pos, contents, len, scanStart;
      TiedFacts(s, vruntime, max);
      ghost var start := Origin(scan, n);
      OriginIs(scan, n);
      TieGoesToOrigin(s, places, was, start, vruntime, max);
      Present(s, places, was, start);
      assert s[start].tid in contents;
      var r := PickEligible(vruntime, max);
      e := r.value;
      QueueFacts(this);
      PickIsOrigin(s, places, was, start, vruntime, max, e, Slots());
      NotPlaced(Slots(), pos, contents, e.tid);
      TurnedIsTied(s, start, vruntime, max);
      var ok := Insert(e.tid, e.key);
      QueueFacts(this);
      RemoveAdd(was, e);
    }

    /** So many picks in a row, before the rotating counter wraps. */
    method Picks(vruntime: map<Tid, Key>, max: Key, n: nat) returns (picks: seq<Entry>)
      requires Valid() && Tied(Slots(), vruntime, max) && forall t :: t in contents ==> t in vruntime
      requires scanStart + n <= U32
      modifies this, entries
      ensures Valid() && contents == old(contents) && len == old(len) > 0 && Tied(Slots(), vruntime, max)
      ensures scanStart == (old(scanStart) + n) % U32
      ensures picks == PickList(old(Slots()), Origin(old(scanStart), old(len)), n)
      decreases n
    {
      hide *;
      QueueFacts(this);
      TiedFacts(Slots(), vruntime, max);
      ghost var s, start := Slots(), Origin(scanStart, len);
      PickListStep(s, start, n);
      if n == 0 { return []; }
      NextOrigin(scanStart, len);
      CounterStep(scanStart, n);
      var e := PickAndRequeue(vruntime, max);
      QueueFacts(this);
      PickListStep(Slots(), Succ(start, len), 0);
      picks := [];
      if n > 1 { picks := Picks(vruntime, max, n - 1); }
      picks := [e] + picks;
    }

    /**
     Every thread of a tie has its turn: within one pick more than there are threads, or within
     one more than twice as many if the rotating counter wraps on the way.
     */
    method TurnsForAll(vruntime: map<Tid, Key>, max: Key) returns (picks: seq<Entry>)
      requires Valid() && Tied(Slots(), vruntime, max) && forall t :: t in contents ==> t in vruntime
      modifies this, entries
      ensures Valid() && contents == old(contents) && len == old(len)
      ensures |picks| <= 2 * len + 1 && (old(scanStart) + len + 1 <= U32 ==> |picks| == len + 1)
      ensures forall t :: t in contents ==> Entry(t, contents[t]) in picks
    {
      hide *;
      QueueFacts(this);
      var early := [];
      if scanStart + len + 1 > U32 {
        early := Picks(vruntime, max, U32 - scanStart);
        CounterWraps();
        assert scanStart == 0;
      }
      QueueFacts(this);
      TiedFacts(Slots(), vruntime, max);
      ghost var s, places, start := Slots(), pos, Origin(scanStart, len);
      TieGoesToOrigin(s, places, contents, start, vruntime, max);
      NobodyStarves(s, start);
      AllArePicked(s, places, contents, start);
      var late := Picks(vruntime, max, len + 1);
      picks := early + late;
    }

    /** The scan: the least eligible key below 2^64 - 1, first in rotated order. */
    method Scan(vruntime: map<Tid, Key>, max: Key) returns (best: nat, found: bool)
      requires Valid() && len > 0 && forall t :: t in contents ==> t in vruntime
      ensures found <==> SomePickable(contents, vruntime, max)
      ensures found ==> best < len && EarliestEligible(contents, vruntime, max, entries[best])
      ensures found ==> FirstInTurn(Slots(), scanStart % len, vruntime, max, entries[best])
    {
      hide IsHeap, Placed, Ordered;
      var n := len;
      var start := scanStart % n;
      var bestKey := U64_MAX;
      best, found := 0, false;
      ghost var turn: nat := 0;
      for k := 0 to n
        invariant found ==> turn < k && best == Rotated(start, n, turn)
        invariant found ==> forall j :: 0 <= j < turn ==> Worse(entries[Rotated(start, n, j)], vruntime, max, bestKey)
        invariant found ==>
          best < n && Eligible(vruntime, max, entries[best].tid) && entries[best].key == bestKey < U64_MAX
        invariant !found ==> bestKey == U64_MAX
        invariant forall j :: 0 <= j < k ==> NotBetter(entries[Rotated(start, n, j)], vruntime, max, bestKey)
      {
        var i := (start + k) % n;
        RotatedIsMod(start, n, k);
        var e := entries[i];
        Present(Slots(), pos, contents, i);
        if vruntime[e.tid] <= max && e.key < bestKey {
          bestKey := e.key;
          best, found := i, true;
          turn := k;
        }
      }
      forall i | 0 <= i < n
        ensures NotBetter(entries[i], vruntime, max, bestKey)
      {
        var j := RotatedCovers(start, n, i);
      }
      ScanIsEarliest(Slots(), pos, contents, vruntime, max, best, found, bestKey);
      if found { assert FirstAt(Slots(), start, vruntime, max, entries[best], turn); }
    }
  }

  // ---------- Nobody starves on a tie ----------

  /** Every thread of a non-empty queue is eligible, all with one deadline that the scan accepts. */
  ghost predicate Tied(s: seq<Entry>, vruntime: map<Tid, Key>, max: Key) {
    s != [] && Level(s) && s[0].key < U64_MAX && forall i :: 0 <= i < |s| ==> Eligible(vruntime, max, s[i].tid)
  }

  /** The entry at i is picked and put back at the end. */
  function Turned(s: seq<Entry>, i: nat): (t: seq<Entry>)
    requires i < |s|
    ensures |t| == |s| && t[|s| - 1] == s[i]
    ensures forall j :: 0 <= j < |s| - 1 && j != i ==> t[j] == s[j]
    ensures i < |s| - 1 ==> t[i] == s[|s| - 1]
  {
    Without(s, i) + [s[i]]
  }

  /** The origin after i. */
  function Succ(i: nat, n: nat): (k: nat)
    requires i < n
    ensures k < n
  {
    if i + 1 < n then i + 1 else 0
  }

  /** The entry that the pick after k others gets, when each goes back with the key it had. */
  function Picked(s: seq<Entry>, i: nat, k: nat): Entry
    requires i < |s|
    decreases k
  {
    if k == 0 then s[i] else Picked(Turned(s, i), Succ(i, |s|), k - 1)
  }

  /** How many picks before the origin, now at i, comes to j. */
  function Distance(i: nat, j: nat, n: nat): nat
    requires i < n && j < n
  {
    if i <= j then j - i else j + n - i
  }

  ghost predicate Distinct(s: seq<Entry>) { forall i, j :: 0 <= i < j < |s| ==> s[i] != s[j] }

  lemma TurnedIsDistinct(s: seq<Entry>, i: nat)
    requires Distinct(s) && i < |s|
    ensures Distinct(Turned(s, i))
  {
    hide Turned;
    var n, t := |s| - 1, Turned(s, i);
    forall a, b | 0 <= a < b < |t|
      ensures t[a] != t[b]
    {
      assert t[a] == s[if a == i then n else a];
      assert t[b] == s[if b == n then i else if b == i then n else b];
    }
  }

  /** An entry that is not the last stays where it is until the origin comes to it, and is picked then. */
  lemma {:induction false} TurnComes(s: seq<Entry>, i: nat, j: nat, k: nat)
    requires i < |s| && j < |s| - 1 && k <= Distance(i, j, |s|)
    ensures k == Distance(i, j, |s|) ==> Picked(s, i, k) == s[j]
    ensures k < Distance(i, j, |s|) && Distinct(s) ==> Picked(s, i, k) != s[j]
    decreases k
  {
    if k > 0 {
      if Distinct(s) { TurnedIsDistinct(s, i); }
      TurnComes(Turned(s, i), Succ(i, |s|), j, k - 1);
    }
  }

  /** When the entry at j is picked for the first time. */
  function FirstTurn(i: nat, j: nat, n: nat): nat
    requires i < n && j < n
  {
    if j < n - 1 || i == n - 1 then Distance(i, j, n) else n
  }

  /** The last entry first moves to where the first pick leaves a gap, just behind the origin. */
  lemma EveryTurn(s: seq<Entry>, i: nat, j: nat, k: nat)
    requires i < |s| && j < |s| && k <= FirstTurn(i, j, |s|)
    ensures k == FirstTurn(i, j, |s|) ==> Picked(s, i, k) == s[j]
    ensures k < FirstTurn(i, j, |s|) && Distinct(s) ==> Picked(s, i, k) != s[j]
  {
    if j < |s| - 1 {
      TurnComes(s, i, j, k);
    } else if i < |s| - 1 && k > 0 {
      if Distinct(s) { TurnedIsDistinct(s, i); }
      TurnComes(Turned(s, i), Succ(i, |s|), i, k - 1);
    }
  }

  /** e is picked among the first m picks. */
  ghost predicate PickedIn(s: seq<Entry>, i: nat, m: nat, e: Entry)
    requires i < |s|
  {
    exists k: nat :: k < m && Picked(s, i, k) == e
  }

  /** Every entry is picked among the first m picks. */
  ghost predicate AllPicked(s: seq<Entry>, i: nat, m: nat)
    requires i < |s|
  {
    forall j :: 0 <= j < |s| ==> PickedIn(s, i, m, s[j])
  }

  lemma PickedWithin(s: seq<Entry>, i: nat, m: nat)
    requires i < |s| && (m == |s| + 1 || (m == |s| && i == |s| - 1))
    ensures AllPicked(s, i, m)
  {
    forall j | 0 <= j < |s|
      ensures PickedIn(s, i, m, s[j])
    {
      EveryTurn(s, i, j, FirstTurn(i, j, |s|));
    }
  }

  lemma LastIsMissed(s: seq<Entry>, i: nat)
    requires i < |s| - 1 && Distinct(s)
    ensures !AllPicked(s, i, |s|)
  {
    var n := |s| - 1;
    if PickedIn(s, i, |s|, s[n]) {
      var k: nat :| k < |s| && Picked(s, i, k) == s[n];
      EveryTurn(s, i, n, k);
    }
  }

  /**
   However many threads are tied and wherever the origin is, one pick more than there are
   threads gives every thread a turn; as many picks as threads do if and only if the origin
   is at the last position.
   */
  lemma NobodyStarves(s: seq<Entry>, i: nat)
    requires i < |s| && Distinct(s)
    ensures AllPicked(s, i, |s| + 1)
    ensures AllPicked(s, i, |s|) <==> i == |s| - 1
  {
    hide *;
    PickedWithin(s, i, |s| + 1);
    if i == |s| - 1 {
      PickedWithin(s, i, |s|);
    } else {
      LastIsMissed(s, i);
    }
  }

  /** With a tie, the thread at the origin is the one that is picked, and it leaves from there. */
  lemma TieGoesToOrigin(s: seq<Entry>, pos: Positions, contents: Contents, start: nat,
                        vruntime: map<Tid, Key>, max: Key)
    requires Placed(s, pos, contents) && Tied(s, vruntime, max) && start < |s|
    ensures SomePickable(contents, vruntime, max) && EarliestEligible(contents, vruntime, max, s[start])
    ensures forall s' :: Leaves(s, s[start], s') ==> s' == Without(s, start)
    ensures Distinct(s)
  {
    hide Without;
    Present(s, pos, contents, start);
    LevelAt(s, 0, start);
    forall t | t in contents
      ensures s[start].key <= contents[t]
    {
      Located(s, pos, contents, t);
      LevelAt(s, start, pos[t]);
    }
  }

  lemma QueueFacts(q: RunQueue)
    requires q.Valid()
    ensures q.Sized() && |q.Slots()| == q.len <= CAPACITY && q.scanStart < U32
    ensures Placed(q.Slots(), q.pos, q.contents) && q.Slots() == q.entries[..q.len]
  {
    hide IsHeap, Placed;
  }

  lemma TiedFacts(s: seq<Entry>, vruntime: map<Tid, Key>, max: Key)
    requires Tied(s, vruntime, max)
    ensures |s| > 0 && Level(s)
  {
  }

  /** The position the scan of a queue of n starts from. */
  function Origin(scan: nat, n: nat): (i: nat)
    requires n > 0
    ensures i < n
  {
    scan % n
  }

  lemma OriginIs(scan: nat, n: nat)
    requires n > 0
    ensures Origin(scan, n) == scan % n
  {
  }

  lemma RemoveAdd(contents: Contents, e: Entry)
    requires e.tid in contents && contents[e.tid] == e.key
    ensures (contents - {e.tid})[e.tid := e.key] == contents
  {
  }

  lemma CounterStep(scan: nat, n: nat)
    requires n > 0 && scan + n <= U32
    ensures n > 1 ==> (scan + 1) % U32 == scan + 1 && scan + 1 + (n - 1) == scan + n
    ensures n == 1 ==> (scan + 1) % U32 == (scan + n) % U32
  {
  }

  lemma CounterWraps()
    ensures U32 % U32 == 0 && CAPACITY + 1 <= U32
  {
  }

  /** What the picks of a row get, in order. */
  function PickList(s: seq<Entry>, i: nat, n: nat): (picks: seq<Entry>)
    requires i < |s|
    ensures |picks| == n && forall k :: 0 <= k < n ==> picks[k] == Picked(s, i, k)
  {
    seq(n, k requires 0 <= k < n => Picked(s, i, k))
  }

  lemma PickListStep(s: seq<Entry>, i: nat, n: nat)
    requires i < |s|
    ensures PickList(s, i, n) == if n == 0 then [] else [s[i]] + PickList(Turned(s, i), Succ(i, |s|), n - 1)
  {
    hide Turned, Succ;
  }

  lemma AllArePicked(s: seq<Entry>, pos: Positions, contents: Contents, i: nat)
    requires Placed(s, pos, contents) && i < |s| && AllPicked(s, i, |s| + 1)
    ensures forall t :: t in contents ==> Entry(t, contents[t]) in PickList(s, i, |s| + 1)
  {
    hide Placed;
    forall t | t in contents
      ensures Entry(t, contents[t]) in PickList(s, i, |s| + 1)
    {
      Located(s, pos, contents, t);
      assert PickedIn(s, i, |s| + 1, s[pos[t]]);
      var k: nat :| k < |s| + 1 && Picked(s, i, k) == s[pos[t]];
      assert PickList(s, i, |s| + 1)[k] == Entry(t, contents[t]);
    }
  }

  lemma PickIsOrigin(s: seq<Entry>, pos: Positions, contents: Contents, start: nat,
                     vruntime: map<Tid, Key>, max: Key, e: Entry, s': seq<Entry>)
    requires Placed(s, pos, contents) && Tied(s, vruntime, max) && start < |s|
    requires FirstInTurn(s, start, vruntime, max, e) && Leaves(s, e, s')
    ensures e == s[start] && s' == Without(s, start) && e.tid in contents && contents[e.tid] == e.key
  {
    hide FirstInTurn, EarliestEligible, SomePickable, Without, Eligible;
    TieGoesToOrigin(s, pos, contents, start, vruntime, max);
    OriginWins(s, pos, contents, start, vruntime, max, e);
    Present(s, pos, contents, start);
  }

  lemma TurnedIsTied(s: seq<Entry>, i: nat, vruntime: map<Tid, Key>, max: Key)
    requires Tied(s, vruntime, max) && i < |s|
    ensures Tied(Turned(s, i), vruntime, max) && Turned(s, i) == Without(s, i) + [s[i]] && Level(Turned(s, i))
  {
    hide Turned, Eligible;
    var n, t := |s| - 1, Turned(s, i);
    assert t == Without(s, i) + [s[i]] by { TurnedIs(s, i); }
    forall j | 0 <= j < |t|
      ensures t[j] == s[if j == n then i else if j == i then n else j]
    {
    }
  }

  lemma TurnedIs(s: seq<Entry>, i: nat)
    requires i < |s|
    ensures Turned(s, i) == Without(s, i) + [s[i]]
  {
  }

  /** The counter moves the origin by one position. */
  lemma NextOrigin(start: nat, n: nat)
    requires n > 0
    ensures Origin(start + 1, n) == Succ(Origin(start, n), n)
  {
    var q, i := start / n, start % n;
    assert start == q * n + i;
    if i + 1 < n {
      DivModUnique(start + 1, n, q, i + 1);
    } else {
      DivModUnique(start + 1, n, q + 1, 0);
    }
  }

  /** Two threads and the origin at the first: two picks get the first thread twice. */
  lemma LenPicksMissOne(a: Entry, b: Entry)
    ensures Picked([a, b], 0, 0) == a && Picked([a, b], 0, 1) == a && Picked([a, b], 0, 2) == b
  {
    assert Turned([a, b], 0) == [b, a] && Turned([b, a], 1) == [b, a];
    assert Picked([b, a], 1, 0) == a && Picked([b, a], 0, 0) == b;
    assert Picked([b, a], 1, 1) == b;
  }

  const RUNTIMES: map<Tid, Key> := map[0 := 3, 1 := 9]

  /** The two threads of the example: the first is eligible at 4, the second is not. */
  lemma PassedOver(root: Entry)
    requires Earliest(map[0 := U64_MAX, 1 := 5], root)
    ensures root == Entry(1, 5) && Eligible(RUNTIMES, 4, 0) && !Eligible(RUNTIMES, 4, 1)
    ensures !SomePickable(map[0 := U64_MAX, 1 := 5], RUNTIMES, 4)
  {
    var contents: Contents := map[0 := U64_MAX, 1 := 5];
    assert 0 in contents && 1 in contents && contents[0] == U64_MAX && contents[1] == 5;
  }

  /** A queue built by insertions. */
  method TwoThreads() returns (q: RunQueue)
    ensures fresh(q) && fresh(q.entries) && q.Valid() && q.contents == map[0 := U64_MAX, 1 := 5] && q.len == 2
  {
    hide IsHeap;
    q := new RunQueue();
    NotPlaced(q.Slots(), q.pos, q.contents, 0);
    var ok := q.Insert(0, U64_MAX);
    NotPlaced(q.Slots(), q.pos, q.contents, 1);
    ok := q.Insert(1, 5);
  }

  /**
   An eligible thread whose deadline is 2^64 - 1 is passed over for an ineligible one, and is
   still in the queue afterwards: the scan starts from that value and compares strictly.
   */
  method LastDeadlineIsPassedOver() returns (q: RunQueue, picked: Entry)
    ensures picked == Entry(1, 5) && !Eligible(RUNTIMES, 4, picked.tid)
    ensures q.Valid() && q.contents == map[0 := U64_MAX] && Eligible(RUNTIMES, 4, 0)
  {
    hide IsHeap, Placed, SomePickable, Earliest;
    q := TwoThreads();
    RootIsEarliest(q.Slots(), q.pos, q.contents);
    PassedOver(q.entries[0]);
    assert 0 in q.contents && q.contents != map[];
    var r := q.PickEligible(RUNTIMES, 4);
    picked := r.value;
  }

  /** Two threads with one deadline, both eligible: three picks get to both of them. */
  method TwoTied() returns (q: RunQueue, picks: seq<Entry>)
    ensures q.Valid() && q.contents == map[0 := 5, 1 := 5]
    ensures |picks| == 3 && Entry(0, 5) in picks && Entry(1, 5) in picks
  {
    hide IsHeap, Earliest;
    q := new RunQueue();
    NotPlaced(q.Slots(), q.pos, q.contents, 0);
    var ok := q.Insert(0, 5);
    NotPlaced(q.Slots(), q.pos, q.contents, 1);
    ok := q.Insert(1, 5);
    AreTied(q.Slots(), q.pos, q.contents);
    hide Placed, Tied, Level;
    assert q.contents[0] == 5 && q.contents[1] == 5;
    picks := q.TurnsForAll(RUNTIMES, 9);
  }

  lemma AreTied(s: seq<Entry>, pos: Positions, contents: Contents)
    requires Placed(s, pos, contents) && contents == map[0 := 5, 1 := 5]
    ensures Tied(s, RUNTIMES, 9)
  {
    Located(s, pos, contents, 0);
    assert contents[0] == 5 && contents[1] == 5;
    forall i | 0 <= i < |s|
      ensures s[i].key == 5 && Eligible(RUNTIMES, 9, s[i].tid)
    {
      Present(s, pos, contents, i);
    }
  }
}
