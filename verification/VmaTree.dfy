/**
 The address-space index: a B+ tree of mappings keyed by start address, split on insertion,
 never merged on removal, and searched for the mapping that contains an address.
 */
module VmaTree {
  import opened Words

  const ORDER := 24
  const LEAF_CAP := 24
  const TOP := 0x1_0000_0000_0000_0000

  datatype Vma = Vma(start: nat, len: nat, mapping: nat)

  predicate Contains(v: Vma, va: int) { v.start <= va < v.start + v.len }

  /** A node: a leaf, or a first child followed by separator keys with a child after each. */
  datatype Tree = Leaf(es: seq<Vma>) | Node(first: Tree, rest: Kids)
  datatype Kids = End | More(key: nat, child: Tree, next: Kids)

  // ---------- Order ----------

  predicate Sorted(es: seq<Vma>) { forall i, j :: 0 <= i < j < |es| ==> es[i].start < es[j].start }

  predicate Within(es: seq<Vma>, lo: int, hi: int) { forall i :: 0 <= i < |es| ==> lo <= es[i].start < hi }

  function FirstKey(k: Kids, hi: int): int { if k.More? then k.key else hi }

  function KeyCount(k: Kids): nat { if k.More? then 1 + KeyCount(k.next) else 0 }

  /** All starts below t are in [lo, hi), in order, and separated by the keys; no node is overfull. */
  predicate Ordered(t: Tree, lo: int, hi: int) {
    match t
    case Leaf(es) => |es| <= LEAF_CAP && Sorted(es) && Within(es, lo, hi)
    case Node(first, rest) =>
      KeyCount(rest) <= ORDER && Ordered(first, lo, FirstKey(rest, hi)) && OrderedKids(rest, lo, hi)
  }

  predicate OrderedKids(k: Kids, lo: int, hi: int) {
    match k
    case End => true
    case More(key, child, next) =>
      lo < key < FirstKey(next, hi) && Ordered(child, key, FirstKey(next, hi)) && OrderedKids(next, key, hi)
  }

  // ---------- Contents ----------

  /** The leaves from left to right, as the sibling links chain them. */
  function Leaves(t: Tree): (ls: seq<seq<Vma>>)
    ensures |ls| > 0
  {
    match t
    case Leaf(es) => [es]
    case Node(first, rest) => Leaves(first) + LeavesOf(rest)
  }

  function LeavesOf(k: Kids): seq<seq<Vma>> {
    match k
    case End => []
    case More(_, child, next) => Leaves(child) + LeavesOf(next)
  }

  function Entries(t: Tree): seq<Vma> {
    match t
    case Leaf(es) => es
    case Node(first, rest) => Entries(first) + EntriesOf(rest)
  }

  function EntriesOf(k: Kids): seq<Vma> {
    match k
    case End => []
    case More(_, child, next) => Entries(child) + EntriesOf(next)
  }

  function Flat(ls: seq<seq<Vma>>): seq<Vma> { if ls == [] then [] else ls[0] + Flat(ls[1..]) }

  lemma {:induction false} FlatConcat(a: seq<seq<Vma>>, b: seq<seq<Vma>>)
    ensures Flat(a + b) == Flat(a) + Flat(b)
    decreases |a|
  {
    if a == [] {
      assert a + b == b;
    } else {
      assert (a + b)[1..] == a[1..] + b;
      FlatConcat(a[1..], b);
    }
  }

  /** Walking the leaf chain visits every mapping. */
  lemma {:induction false} ChainIsEntries(t: Tree)
    ensures Flat(Leaves(t)) == Entries(t)
  {
    match t
    case Leaf(es) => assert [es][1..] == [];
    case Node(first, rest) =>
      ChainIsEntries(first);
      ChainIsEntriesOf(rest);
      FlatConcat(Leaves(first), LeavesOf(rest));
  }

  lemma {:induction false} ChainIsEntriesOf(k: Kids)
    ensures Flat(LeavesOf(k)) == EntriesOf(k)
  {
    match k
    case End =>
    case More(_, child, next) =>
      ChainIsEntries(child);
      ChainIsEntriesOf(next);
      FlatConcat(Leaves(child), LeavesOf(next));
  }

  lemma {:induction false} EntriesOrdered(t: Tree, lo: int, hi: int)
    requires Ordered(t, lo, hi) && lo <= hi
    ensures Sorted(Entries(t)) && Within(Entries(t), lo, hi)
  {
    match t
    case Leaf(es) =>
    case Node(first, rest) =>
      var mid := FirstKey(rest, hi);
      EntriesOrdered(first, lo, mid);
      EntriesOfOrdered(rest, lo, hi);
      JoinOrdered(Entries(first), EntriesOf(rest), lo, mid, hi);
  }

  lemma {:induction false} EntriesOfOrdered(k: Kids, lo: int, hi: int)
    requires OrderedKids(k, lo, hi) && lo <= hi
    ensures Sorted(EntriesOf(k)) && Within(EntriesOf(k), FirstKey(k, hi), hi) && lo <= FirstKey(k, hi) <= hi
  {
    match k
    case End =>
    case More(key, child, next) =>
      KeysBelow(k, lo, hi);
      EntriesOfOrdered(next, key, hi);
      EntriesOrdered(child, key, FirstKey(next, hi));
      JoinOrdered(Entries(child), EntriesOf(next), key, FirstKey(next, hi), hi);
  }

  lemma {:induction false} KeysBelow(k: Kids, lo: int, hi: int)
    requires OrderedKids(k, lo, hi) && k.More?
    ensures k.key < hi
  {
    if k.next.More? { KeysBelow(k.next, k.key, hi); }
  }

  lemma JoinOrdered(a: seq<Vma>, b: seq<Vma>, lo: int, mid: int, hi: int)
    requires Sorted(a) && Sorted(b) && Within(a, lo, mid) && Within(b, mid, hi) && lo <= mid <= hi
    ensures Sorted(a + b) && Within(a + b, lo, hi)
  {
  }

  // ---------- Insertion ----------

  /** The place of a new start: before the first larger one. */
  function Place(es: seq<Vma>, start: int): (p: nat)
    ensures p <= |es| && (forall i :: 0 <= i < p ==> es[i].start <= start) && (p < |es| ==> start < es[p].start)
  {
    if es == [] || start < es[0].start then 0 else 1 + Place(es[1..], start)
  }

  function Inserted(es: seq<Vma>, v: Vma): seq<Vma> { es[..Place(es, v.start)] + [v] + es[Place(es, v.start)..] }

  /** What an insertion into a node leaves: one node, or two and the key between them. */
  datatype Grown = One(t: Tree) | Two(left: Tree, key: nat, right: Tree)

  /** A leaf that has become too large is cut in the middle. */
  function GrownLeaf(es: seq<Vma>): Grown {
    if |es| <= LEAF_CAP then One(Leaf(es))
    else var mid := |es| / 2; Two(Leaf(es[..mid]), es[mid].start, Leaf(es[mid..]))
  }

  /** The first n keys with their children. */
  function TakeKids(k: Kids, n: nat): Kids {
    if n == 0 || k.End? then End else More(k.key, k.child, TakeKids(k.next, n - 1))
  }

  function DropKids(k: Kids, n: nat): Kids {
    if n == 0 || k.End? then k else DropKids(k.next, n - 1)
  }

  /** An inner node that has become too large gives its middle key to its parent. */
  function GrownNode(first: Tree, rest: Kids): Grown {
    if KeyCount(rest) <= ORDER then One(Node(first, rest))
    else
      var mid := KeyCount(rest) / 2;
      var m := DropKids(rest, mid);
      if m.End? then One(Node(first, rest))
      else Two(Node(first, TakeKids(rest, mid)), m.key, Node(m.child, m.next))
  }

  function Insert(t: Tree, v: Vma): Grown {
    match t
    case Leaf(es) => GrownLeaf(Inserted(es, v))
    case Node(first, rest) =>
      if rest.End? || v.start < rest.key then
        GrowFirst(Insert(first, v), rest)
      else GrownNode(first, InsertKids(rest, v))
  }

  /** The parent takes up what its first child has become. */
  function GrowFirst(g: Grown, rest: Kids): Grown {
    match g
    case One(f) => GrownNode(f, rest)
    case Two(l, key, r) => GrownNode(l, More(key, r, rest))
  }

  function InsertKids(k: Kids, v: Vma): Kids
    requires k.More?
  {
    if k.next.End? || v.start < k.next.key then GrowKid(k.key, Insert(k.child, v), k.next)
    else More(k.key, k.child, InsertKids(k.next, v))
  }

  /** The list takes up what one of its children has become. */
  function GrowKid(key: nat, g: Grown, next: Kids): Kids {
    match g
    case One(c) => More(key, c, next)
    case Two(l, middle, r) => More(key, l, More(middle, r, next))
  }

  /** insert: a new root when the old one was cut. */
  function InsertRoot(t: Tree, v: Vma): Tree {
    match Insert(t, v)
    case One(t') => t'
    case Two(l, key, r) => Node(l, More(key, r, End))
  }

  function EntriesGrown(g: Grown): seq<Vma> {
    match g
    case One(t) => Entries(t)
    case Two(l, _, r) => Entries(l) + Entries(r)
  }

  predicate OrderedGrown(g: Grown, lo: int, hi: int) {
    match g
    case One(t) => Ordered(t, lo, hi)
    case Two(l, key, r) => lo < key < hi && Ordered(l, lo, key) && Ordered(r, key, hi)
  }

  // ---------- Insertion keeps order and adds one mapping ----------

  lemma InsertedRight(a: seq<Vma>, b: seq<Vma>, v: Vma)
    requires forall i :: 0 <= i < |a| ==> a[i].start <= v.start
    ensures Inserted(a + b, v) == a + Inserted(b, v)
  {
    PlaceRight(a, b, v.start);
    hide Place;
    var p := Place(b, v.start);
    assert (a + b)[..|a| + p] == a + b[..p] && (a + b)[|a| + p..] == b[p..];
    Regroup(a, b[..p] + [v], b[p..]);
    Regroup(a, b[..p], [v]);
  }

  lemma {:induction false} PlaceRight(a: seq<Vma>, b: seq<Vma>, start: int)
    requires forall i :: 0 <= i < |a| ==> a[i].start <= start
    ensures Place(a + b, start) == |a| + Place(b, start)
    decreases |a|
  {
    if a == [] {
      assert a + b == b;
    } else {
      assert (a + b)[1..] == a[1..] + b;
      PlaceRight(a[1..], b, start);
    }
  }

  lemma InsertedLeft(a: seq<Vma>, b: seq<Vma>, v: Vma)
    requires b == [] || v.start < b[0].start
    ensures Inserted(a + b, v) == Inserted(a, v) + b
  {
    PlaceLeft(a, b, v.start);
    hide Place;
    var p := Place(a, v.start);
    TakeDrop(a, b, p);
    Regroup(a[..p] + [v], a[p..], b);
  }

  lemma TakeDrop(a: seq<Vma>, b: seq<Vma>, p: nat)
    requires p <= |a|
    ensures (a + b)[..p] == a[..p] && (a + b)[p..] == a[p..] + b
  {
  }

  lemma Regroup(a: seq<Vma>, b: seq<Vma>, c: seq<Vma>)
    ensures a + (b + c) == a + b + c
  {
  }

  lemma {:induction false} PlaceLeft(a: seq<Vma>, b: seq<Vma>, start: int)
    requires b == [] || start < b[0].start
    ensures Place(a + b, start) == Place(a, start)
    decreases |a|
  {
    if a == [] {
      assert a + b == b;
    } else {
      assert (a + b)[1..] == a[1..] + b;
      PlaceLeft(a[1..], b, start);
    }
  }

  lemma InsertedOrdered(es: seq<Vma>, v: Vma, lo: int, hi: int)
    requires Sorted(es) && Within(es, lo, hi) && lo <= v.start < hi && Absent(es, v.start)
    ensures Sorted(Inserted(es, v)) && Within(Inserted(es, v), lo, hi) && |Inserted(es, v)| == |es| + 1
  {
  }

  lemma GrownLeafOrdered(es: seq<Vma>, lo: int, hi: int)
    requires Sorted(es) && Within(es, lo, hi) && |es| <= LEAF_CAP + 1
    ensures OrderedGrown(GrownLeaf(es), lo, hi) && EntriesGrown(GrownLeaf(es)) == es
  {
    if |es| > LEAF_CAP {
      var mid := |es| / 2;
      assert es[..mid] + es[mid..] == es;
      assert es[0].start < es[mid].start;
    }
  }

  lemma {:induction false} CutCounts(k: Kids, n: nat)
    requires n < KeyCount(k)
    ensures DropKids(k, n).More? && KeyCount(TakeKids(k, n)) == n && KeyCount(DropKids(k, n)) == KeyCount(k) - n
  {
    if n > 0 { CutCounts(k.next, n - 1); }
  }

  lemma {:induction false} CutEntries(k: Kids, n: nat)
    ensures EntriesOf(k) == EntriesOf(TakeKids(k, n)) + EntriesOf(DropKids(k, n))
  {
    if n > 0 && k.More? {
      CutEntries(k.next, n - 1);
      Regroup(Entries(k.child), EntriesOf(TakeKids(k.next, n - 1)), EntriesOf(DropKids(k, n)));
    }
  }

  /** Cutting a list of children at a key. */
  lemma {:induction false} CutOrdered(k: Kids, n: nat, lo: int, hi: int)
    requires OrderedKids(k, lo, hi) && n < KeyCount(k) && DropKids(k, n).More?
    ensures var m := DropKids(k, n);
      && lo < m.key < hi && OrderedKids(TakeKids(k, n), lo, m.key) && OrderedKids(m, lo, hi)
      && (if n > 0 then FirstKey(TakeKids(k, n), m.key) == k.key < m.key else m == k)
  {
    hide Ordered;
    KeysBelow(k, lo, hi);
    if n > 0 { CutOrdered(k.next, n - 1, k.key, hi); }
  }

  lemma GrownNodeOrdered(first: Tree, rest: Kids, lo: int, hi: int)
    requires Ordered(first, lo, FirstKey(rest, hi)) && OrderedKids(rest, lo, hi) && KeyCount(rest) <= ORDER + 1
    ensures OrderedGrown(GrownNode(first, rest), lo, hi)
    ensures EntriesGrown(GrownNode(first, rest)) == Entries(first) + EntriesOf(rest)
  {
    if KeyCount(rest) > ORDER {
      var mid := KeyCount(rest) / 2;
      CutCounts(rest, mid);
      CutEntries(rest, mid);
      CutOrdered(rest, mid, lo, hi);
      var m := DropKids(rest, mid);
      hide DropKids, TakeKids;
      Regroup(Entries(first), EntriesOf(TakeKids(rest, mid)), EntriesOf(m));
    }
  }

  predicate Absent(es: seq<Vma>, start: int) { forall i :: 0 <= i < |es| ==> es[i].start != start }

  lemma {:induction false} InsertOrdered(t: Tree, v: Vma, lo: int, hi: int)
    requires Ordered(t, lo, hi) && lo <= v.start < hi && Absent(Entries(t), v.start)
    ensures OrderedGrown(Insert(t, v), lo, hi) && EntriesGrown(Insert(t, v)) == Inserted(Entries(t), v)
    decreases t, 0
  {
    match t
    case Leaf(es) =>
      InsertedOrdered(es, v, lo, hi);
      GrownLeafOrdered(Inserted(es, v), lo, hi);
    case Node(first, rest) =>
      AbsentParts(Entries(first), EntriesOf(rest), v.start);
      if rest.End? || v.start < rest.key {
        InsertFirst(first, rest, v, lo, hi);
      } else {
        InsertRest(first, rest, v, lo, hi);
      }
  }

  lemma AbsentParts(a: seq<Vma>, b: seq<Vma>, start: int)
    requires Absent(a + b, start)
    ensures Absent(a, start) && Absent(b, start)
  {
    assert forall i :: 0 <= i < |a| ==> (a + b)[i] == a[i];
    assert forall i :: 0 <= i < |b| ==> (a + b)[|a| + i] == b[i];
  }

  lemma GrowFirstOrdered(g: Grown, rest: Kids, lo: int, hi: int)
    requires OrderedGrown(g, lo, FirstKey(rest, hi)) && OrderedKids(rest, lo, hi) && KeyCount(rest) <= ORDER
    ensures OrderedGrown(GrowFirst(g, rest), lo, hi)
    ensures EntriesGrown(GrowFirst(g, rest)) == EntriesGrown(g) + EntriesOf(rest)
  {
    hide GrownNode;
    match g
    case One(f) => GrownNodeOrdered(f, rest, lo, hi);
    case Two(l, key, r) =>
      OrderedTail(rest, lo, key, hi);
      GrownNodeOrdered(l, More(key, r, rest), lo, hi);
      Regroup(Entries(l), Entries(r), EntriesOf(rest));
  }

  lemma {:induction false} InsertFirst(first: Tree, rest: Kids, v: Vma, lo: int, hi: int)
    requires Ordered(Node(first, rest), lo, hi) && lo <= v.start < FirstKey(rest, hi) && Absent(Entries(first), v.start)
    ensures OrderedGrown(Insert(Node(first, rest), v), lo, hi)
    ensures EntriesGrown(Insert(Node(first, rest), v)) == Inserted(Entries(first) + EntriesOf(rest), v)
    decreases first, 1
  {
    hide Inserted, Absent, GrowFirst, EntriesGrown, OrderedGrown;
    InsertOrdered(first, v, lo, FirstKey(rest, hi));
    if rest.More? { KeysBelow(rest, lo, hi); }
    EntriesOfOrdered(rest, lo, hi);
    InsertedLeft(Entries(first), EntriesOf(rest), v);
    GrowFirstOrdered(Insert(first, v), rest, lo, hi);
  }

  /** A list of children may follow any key below its first. */
  lemma OrderedTail(k: Kids, lo: int, lo': int, hi: int)
    requires OrderedKids(k, lo, hi) && lo' < FirstKey(k, hi)
    ensures OrderedKids(k, lo', hi)
  {
  }

  lemma {:induction false} InsertRest(first: Tree, rest: Kids, v: Vma, lo: int, hi: int)
    requires Ordered(Node(first, rest), lo, hi) && rest.More? && rest.key <= v.start < hi
    requires Absent(EntriesOf(rest), v.start)
    ensures OrderedGrown(Insert(Node(first, rest), v), lo, hi)
    ensures EntriesGrown(Insert(Node(first, rest), v)) == Inserted(Entries(first) + EntriesOf(rest), v)
    decreases rest, 1
  {
    InsertKidsOrdered(rest, v, lo, hi);
    GrownNodeOrdered(first, InsertKids(rest, v), lo, hi);
    EntriesOrdered(first, lo, rest.key);
    InsertedRight(Entries(first), EntriesOf(rest), v);
  }

  lemma {:induction false} InsertKidsOrdered(k: Kids, v: Vma, lo: int, hi: int)
    requires OrderedKids(k, lo, hi) && k.More? && k.key <= v.start < hi && Absent(EntriesOf(k), v.start)
    ensures var k' := InsertKids(k, v);
      && k'.More? && k'.key == k.key && OrderedKids(k', lo, hi) && KeyCount(k') <= KeyCount(k) + 1
      && EntriesOf(k') == Inserted(EntriesOf(k), v)
    decreases k, 0
  {
    AbsentParts(Entries(k.child), EntriesOf(k.next), v.start);
    if k.next.End? || v.start < k.next.key {
      InsertHere(k, v, lo, hi);
    } else {
      hide Inserted, Absent, Sorted;
      InsertKidsOrdered(k.next, v, k.key, hi);
      EntriesOrdered(k.child, k.key, k.next.key);
      InsertedRight(Entries(k.child), EntriesOf(k.next), v);
    }
  }

  lemma GrowKidOrdered(key: nat, g: Grown, next: Kids, lo: int, hi: int)
    requires lo < key < FirstKey(next, hi) && OrderedGrown(g, key, FirstKey(next, hi)) && OrderedKids(next, key, hi)
    ensures var k' := GrowKid(key, g, next);
      && k'.More? && k'.key == key && OrderedKids(k', lo, hi) && KeyCount(k') <= KeyCount(next) + 2
      && EntriesOf(k') == EntriesGrown(g) + EntriesOf(next)
  {
    match g
    case One(c) =>
    case Two(l, middle, r) =>
      OrderedTail(next, key, middle, hi);
      hide Ordered;
      Regroup(Entries(l), Entries(r), EntriesOf(next));
  }

  lemma {:induction false} InsertHere(k: Kids, v: Vma, lo: int, hi: int)
    requires OrderedKids(k, lo, hi) && k.More? && k.key <= v.start < FirstKey(k.next, hi)
    requires Absent(Entries(k.child), v.start)
    ensures var k' := InsertKids(k, v);
      && k'.More? && k'.key == k.key && OrderedKids(k', lo, hi) && KeyCount(k') <= KeyCount(k) + 1
      && EntriesOf(k') == Inserted(EntriesOf(k), v)
    decreases k.child, 1
  {
    hide Inserted, Absent, GrowKid, EntriesGrown, OrderedGrown;
    InsertOrdered(k.child, v, k.key, FirstKey(k.next, hi));
    if k.next.More? { KeysBelow(k.next, k.key, hi); }
    EntriesOfOrdered(k.next, k.key, hi);
    InsertedLeft(Entries(k.child), EntriesOf(k.next), v);
    GrowKidOrdered(k.key, Insert(k.child, v), k.next, lo, hi);
  }

  /** insert: the tree stays in order with no node overfull, and holds exactly one mapping more, in its place. */
  lemma InsertIsInserted(t: Tree, v: Vma)
    requires Ordered(t, 0, TOP) && v.start < TOP && Absent(Entries(t), v.start)
    ensures Ordered(InsertRoot(t, v), 0, TOP) && Entries(InsertRoot(t, v)) == Inserted(Entries(t), v)
  {
    hide Insert, Absent, Inserted;
    InsertOrdered(t, v, 0, TOP);
    match Insert(t, v)
    case One(_) =>
    case Two(l, key, r) =>
      assert EntriesOf(More(key, r, End)) == Entries(r) + [] == Entries(r);
      assert OrderedKids(End, key, TOP) && KeyCount(More(key, r, End)) == 1;
  }

  // ---------- Removal ----------

  function Removed(es: seq<Vma>, start: int): seq<Vma> {
    if es == [] then [] else if es[0].start == start then es[1..] else [es[0]] + Removed(es[1..], start)
  }

  /** remove: the entry leaves its leaf; nodes are not merged. */
  function Remove(t: Tree, start: int): Tree {
    match t
    case Leaf(es) => Leaf(Removed(es, start))
    case Node(first, rest) =>
      if rest.End? || start < rest.key then Node(Remove(first, start), rest)
      else Node(first, RemoveKids(rest, start))
  }

  function RemoveKids(k: Kids, start: int): Kids
    requires k.More?
  {
    if k.next.End? || start < k.next.key then More(k.key, Remove(k.child, start), k.next)
    else More(k.key, k.child, RemoveKids(k.next, start))
  }

  lemma {:induction false} RemovedOrdered(es: seq<Vma>, start: int, lo: int, hi: int)
    requires Sorted(es) && Within(es, lo, hi)
    ensures Sorted(Removed(es, start)) && Within(Removed(es, start), lo, hi) && |Removed(es, start)| <= |es|
    decreases |es|
  {
    if es != [] {
      var low := es[0].start + 1;
      SortedTail(es, hi);
      RemovedOrdered(es[1..], start, low, hi);
      SortedCons(es[0], Removed(es[1..], start), hi);
      hide Sorted;
    }
  }

  lemma SortedTail(es: seq<Vma>, hi: int)
    requires Sorted(es) && es != [] && Within(es, 0, hi)
    ensures Sorted(es[1..]) && Within(es[1..], es[0].start + 1, hi)
  {
    var t := es[1..];
    assert forall i :: 0 <= i < |t| ==> t[i] == es[i + 1];
  }

  lemma SortedCons(x: Vma, es: seq<Vma>, hi: int)
    requires Sorted(es) && Within(es, x.start + 1, hi)
    ensures Sorted([x] + es)
  {
  }

  lemma {:induction false} RemovedAbsent(es: seq<Vma>, start: int)
    requires Absent(es, start)
    ensures Removed(es, start) == es
  {
    if es != [] {
      var tail := es[1..];
      assert forall i :: 0 <= i < |tail| ==> tail[i] == es[i + 1];
      RemovedAbsent(tail, start);
      assert es[0].start != start;
    }
  }

  lemma {:induction false} RemovedLeft(a: seq<Vma>, b: seq<Vma>, start: int)
    requires Absent(b, start)
    ensures Removed(a + b, start) == Removed(a, start) + b
    decreases |a|
  {
    if a == [] {
      assert a + b == b;
      RemovedAbsent(b, start);
    } else {
      assert (a + b)[1..] == a[1..] + b;
      RemovedLeft(a[1..], b, start);
      Regroup([a[0]], Removed(a[1..], start), b);
    }
  }

  lemma {:induction false} RemovedRight(a: seq<Vma>, b: seq<Vma>, start: int)
    requires Absent(a, start)
    ensures Removed(a + b, start) == a + Removed(b, start)
    decreases |a|
  {
    if a == [] {
      assert a + b == b;
    } else {
      assert (a + b)[1..] == a[1..] + b;
      var tail := a[1..];
      assert forall i :: 0 <= i < |tail| ==> tail[i] == a[i + 1];
      RemovedRight(tail, b, start);
      assert a[0].start != start;
      Regroup([a[0]], tail, Removed(b, start));
      assert [a[0]] + tail == a;
    }
  }

  lemma OutOfRange(es: seq<Vma>, lo: int, hi: int, start: int)
    requires Within(es, lo, hi) && !(lo <= start < hi)
    ensures Absent(es, start)
  {
  }

  /** remove: the tree stays in order and loses exactly the mapping that starts there. */
  lemma {:induction false} RemoveIsRemoved(t: Tree, start: int, lo: int, hi: int)
    requires Ordered(t, lo, hi) && lo <= start < hi
    ensures Ordered(Remove(t, start), lo, hi) && Entries(Remove(t, start)) == Removed(Entries(t), start)
    decreases t
  {
    match t
    case Leaf(es) => RemovedOrdered(es, start, lo, hi);
    case Node(first, rest) =>
      hide Removed, Absent, Sorted, Within;
      if rest.More? { KeysBelow(rest, lo, hi); }
      if rest.End? || start < rest.key {
        EntriesOfOrdered(rest, lo, hi);
        OutOfRange(EntriesOf(rest), FirstKey(rest, hi), hi, start);
        RemovedLeft(Entries(first), EntriesOf(rest), start);
        RemoveIsRemoved(first, start, lo, FirstKey(rest, hi));
      } else {
        EntriesOrdered(first, lo, rest.key);
        OutOfRange(Entries(first), lo, rest.key, start);
        RemovedRight(Entries(first), EntriesOf(rest), start);
        RemoveKidsIsRemoved(rest, start, lo, hi);
      }
  }

  lemma {:induction false} RemoveKidsIsRemoved(k: Kids, start: int, lo: int, hi: int)
    requires OrderedKids(k, lo, hi) && k.More? && k.key <= start < hi
    ensures var k' := RemoveKids(k, start);
      && k'.More? && k'.key == k.key && OrderedKids(k', lo, hi) && KeyCount(k') == KeyCount(k)
      && EntriesOf(k') == Removed(EntriesOf(k), start)
    decreases k
  {
    hide Removed, Absent, Sorted, Within;
    if k.next.More? { KeysBelow(k.next, k.key, hi); }
    if k.next.End? || start < k.next.key {
      EntriesOfOrdered(k.next, k.key, hi);
      OutOfRange(EntriesOf(k.next), FirstKey(k.next, hi), hi, start);
      RemovedLeft(Entries(k.child), EntriesOf(k.next), start);
      RemoveIsRemoved(k.child, start, k.key, FirstKey(k.next, hi));
    } else {
      EntriesOrdered(k.child, k.key, k.next.key);
      OutOfRange(Entries(k.child), k.key, k.next.key, start);
      RemovedRight(Entries(k.child), EntriesOf(k.next), start);
      RemoveKidsIsRemoved(k.next, start, k.key, hi);
    }
  }

  // ---------- Search ----------

  /** The position in the chain of the leaf the keys lead to. */
  function Route(t: Tree, va: int): (i: nat)
    ensures i < |Leaves(t)|
  {
    match t
    case Leaf(_) => 0
    case Node(first, rest) =>
      if rest.End? || va < rest.key then Route(first, va) else |Leaves(first)| + RouteKids(rest, va)
  }

  function RouteKids(k: Kids, va: int): (i: nat)
    requires k.More?
    ensures i < |LeavesOf(k)|
  {
    if k.next.End? || va < k.next.key then Route(k.child, va) else |Leaves(k.child)| + RouteKids(k.next, va)
  }

  /** The last entry that starts at or before va. */
  function Candidate(es: seq<Vma>, va: int): Option<Vma> {
    if es == [] || va < es[0].start then None
    else match Candidate(es[1..], va)
      case None => Some(es[0])
      case Some(v) => Some(v)
  }

  /** find_mut: the candidate in the leaf, or else the last entry of the leaf before it. */
  function FindIn(ls: seq<seq<Vma>>, i: nat, va: int): Option<Vma>
    requires i < |ls|
  {
    var c := Candidate(ls[i], va);
    if c.Some? && Contains(c.value, va) then c
    else if i > 0 && ls[i - 1] != [] && Contains(ls[i - 1][|ls[i - 1]| - 1], va) then Some(ls[i - 1][|ls[i - 1]| - 1])
    else None
  }

  function Find(t: Tree, va: int): Option<Vma> { FindIn(Leaves(t), Route(t, va), va) }

  // ---------- The search is right, except behind an empty leaf ----------

  /** Everything in the leaves before i starts at or before va, and everything after i later. */
  predicate Around(ls: seq<seq<Vma>>, i: nat, va: int) {
    && i < |ls|
    && (forall j, x :: 0 <= j < i && 0 <= x < |ls[j]| ==> ls[j][x].start <= va)
    && (forall j, x :: i < j < |ls| && 0 <= x < |ls[j]| ==> va < ls[j][x].start)
  }

  predicate AllBelow(ls: seq<seq<Vma>>, va: int) {
    forall j, x :: 0 <= j < |ls| && 0 <= x < |ls[j]| ==> ls[j][x].start <= va
  }

  predicate AllAbove(ls: seq<seq<Vma>>, va: int) {
    forall j, x :: 0 <= j < |ls| && 0 <= x < |ls[j]| ==> va < ls[j][x].start
  }

  lemma AroundLeft(a: seq<seq<Vma>>, b: seq<seq<Vma>>, i: nat, va: int)
    requires Around(a, i, va) && AllAbove(b, va)
    ensures Around(a + b, i, va)
  {
  }

  lemma AroundRight(a: seq<seq<Vma>>, b: seq<seq<Vma>>, i: nat, va: int)
    requires AllBelow(a, va) && Around(b, i, va)
    ensures Around(a + b, |a| + i, va)
  {
  }

  /** The bounds of a tree bound its leaves. */
  lemma {:induction false} LeavesWithin(t: Tree, lo: int, hi: int)
    requires Ordered(t, lo, hi)
    ensures forall j, x :: 0 <= j < |Leaves(t)| && 0 <= x < |Leaves(t)[j]| ==> lo <= Leaves(t)[j][x].start < hi
  {
    match t
    case Leaf(es) =>
    case Node(first, rest) =>
      if rest.More? { KeysBelow(rest, lo, hi); }
      LeavesWithin(first, lo, FirstKey(rest, hi));
      LeavesOfWithin(rest, lo, hi);
  }

  lemma {:induction false} LeavesOfWithin(k: Kids, lo: int, hi: int)
    requires OrderedKids(k, lo, hi)
    ensures forall j, x :: 0 <= j < |LeavesOf(k)| && 0 <= x < |LeavesOf(k)[j]| ==>
      lo <= LeavesOf(k)[j][x].start < hi && FirstKey(k, hi) <= LeavesOf(k)[j][x].start
  {
    match k
    case End =>
    case More(key, child, next) =>
      if next.More? { KeysBelow(next, key, hi); }
      LeavesWithin(child, key, FirstKey(next, hi));
      LeavesOfWithin(next, key, hi);
  }

  lemma {:induction false} RouteIsAround(t: Tree, va: int, lo: int, hi: int)
    requires Ordered(t, lo, hi)
    ensures Around(Leaves(t), Route(t, va), va)
  {
    match t
    case Leaf(es) =>
    case Node(first, rest) =>
      if rest.End? || va < rest.key {
        RouteIsAround(first, va, lo, FirstKey(rest, hi));
        LeavesOfWithin(rest, lo, hi);
        hide Ordered, OrderedKids;
        AroundLeft(Leaves(first), LeavesOf(rest), Route(first, va), va);
      } else {
        LeavesWithin(first, lo, rest.key);
        RouteKidsIsAround(rest, va, lo, hi);
        hide Ordered, OrderedKids;
        AroundRight(Leaves(first), LeavesOf(rest), RouteKids(rest, va), va);
      }
  }

  lemma {:induction false} RouteKidsIsAround(k: Kids, va: int, lo: int, hi: int)
    requires OrderedKids(k, lo, hi) && k.More? && k.key <= va
    ensures Around(LeavesOf(k), RouteKids(k, va), va)
  {
    if k.next.End? || va < k.next.key {
      RouteIsAround(k.child, va, k.key, FirstKey(k.next, hi));
      LeavesOfWithin(k.next, k.key, hi);
      hide Ordered, OrderedKids;
      AroundLeft(Leaves(k.child), LeavesOf(k.next), Route(k.child, va), va);
    } else {
      LeavesWithin(k.child, k.key, k.next.key);
      RouteKidsIsAround(k.next, va, k.key, hi);
      hide Ordered, OrderedKids;
      AroundRight(Leaves(k.child), LeavesOf(k.next), RouteKids(k.next, va), va);
    }
  }

  /** Mappings do not overlap. */
  predicate Disjoint(ls: seq<seq<Vma>>) {
    forall i, x, j, y ::
      0 <= i < |ls| && 0 <= x < |ls[i]| && 0 <= j < |ls| && 0 <= y < |ls[j]| && ls[i][x] != ls[j][y] ==>
      ls[i][x].start + ls[i][x].len <= ls[j][y].start || ls[j][y].start + ls[j][y].len <= ls[i][x].start
  }

  ghost predicate Holds(ls: seq<seq<Vma>>, j: nat, x: nat, va: int) {
    j < |ls| && x < |ls[j]| && Contains(ls[j][x], va)
  }

  lemma {:induction false} CandidateIsLast(es: seq<Vma>, va: int)
    requires Sorted(es)
    ensures Candidate(es, va).None? ==> forall x :: 0 <= x < |es| ==> va < es[x].start
    ensures Candidate(es, va).Some? ==> exists x ::
      && 0 <= x < |es| && Candidate(es, va).value == es[x] && es[x].start <= va
      && (forall y :: x < y < |es| ==> va < es[y].start)
  {
    if es != [] && es[0].start <= va {
      var t := es[1..];
      assert forall i :: 0 <= i < |t| ==> t[i] == es[i + 1];
      CandidateIsLast(t, va);
      if Candidate(t, va).Some? {
        var x :| 0 <= x < |t| && Candidate(t, va).value == t[x] && t[x].start <= va
          && (forall y :: x < y < |t| ==> va < t[y].start);
        assert es[x + 1] == t[x];
        forall y | x + 1 < y < |es|
          ensures va < es[y].start
        {
          assert es[y] == t[y - 1];
        }
      } else {
        forall y | 0 < y < |es|
          ensures va < es[y].start
        {
          assert es[y] == t[y - 1];
        }
      }
    }
  }

  /** Every leaf is sorted, and so is the chain. */
  predicate LeafOrder(ls: seq<seq<Vma>>) {
    && (forall j :: 0 <= j < |ls| ==> Sorted(ls[j]))
    && (forall j, x, k, y ::
        0 <= j < k < |ls| && 0 <= x < |ls[j]| && 0 <= y < |ls[k]| ==> ls[j][x].start < ls[k][y].start)
  }

  lemma LeafOrderJoin(a: seq<seq<Vma>>, b: seq<seq<Vma>>, mid: int)
    requires LeafOrder(a) && LeafOrder(b)
    requires forall j, x :: 0 <= j < |a| && 0 <= x < |a[j]| ==> a[j][x].start < mid
    requires forall j, x :: 0 <= j < |b| && 0 <= x < |b[j]| ==> mid <= b[j][x].start
    ensures LeafOrder(a + b)
  {
    hide Sorted;
  }

  lemma {:induction false} LeavesOrdered(t: Tree, lo: int, hi: int)
    requires Ordered(t, lo, hi)
    ensures LeafOrder(Leaves(t))
  {
    match t
    case Leaf(es) =>
    case Node(first, rest) =>
      LeavesOrdered(first, lo, FirstKey(rest, hi));
      LeavesOfOrdered(rest, lo, hi);
      LeavesWithin(first, lo, FirstKey(rest, hi));
      LeavesOfWithin(rest, lo, hi);
      hide Ordered, OrderedKids, LeafOrder;
      LeafOrderJoin(Leaves(first), LeavesOf(rest), FirstKey(rest, hi));
  }

  lemma {:induction false} LeavesOfOrdered(k: Kids, lo: int, hi: int)
    requires OrderedKids(k, lo, hi)
    ensures LeafOrder(LeavesOf(k))
  {
    match k
    case End =>
    case More(key, child, next) =>
      LeavesOrdered(child, key, FirstKey(next, hi));
      LeavesOfOrdered(next, key, hi);
      LeavesWithin(child, key, FirstKey(next, hi));
      LeavesOfWithin(next, key, hi);
      hide Ordered, OrderedKids, LeafOrder;
      LeafOrderJoin(Leaves(child), LeavesOf(next), FirstKey(next, hi));
  }

  /** The mapping is not in the leaf the keys lead to, and the leaf before that has been emptied. */
  predicate Missed(ls: seq<seq<Vma>>, i: nat, va: int)
    requires i < |ls|
  {
    i > 0 && ls[i - 1] == [] && forall x :: 0 <= x < |ls[i]| ==> !Contains(ls[i][x], va)
  }

  lemma FoundInLeaf(ls: seq<seq<Vma>>, i: nat, x: nat, va: int)
    requires LeafOrder(ls) && Disjoint(ls) && Holds(ls, i, x, va)
    ensures FindIn(ls, i, va) == Some(ls[i][x])
  {
    assert Sorted(ls[i]);
    CandidateIsLast(ls[i], va);
    hide Candidate;
    var c :| 0 <= c < |ls[i]| && Candidate(ls[i], va).value == ls[i][c] && ls[i][c].start <= va
      && (forall y :: c < y < |ls[i]| ==> va < ls[i][y].start);
    assert x <= c;
    assert ls[i][x].start <= ls[i][c].start;
  }

  lemma FoundBefore(ls: seq<seq<Vma>>, i: nat, j: nat, x: nat, va: int)
    requires LeafOrder(ls) && Disjoint(ls) && Around(ls, i, va) && Holds(ls, j, x, va) && j < i
    ensures FindIn(ls, i, va) == if Missed(ls, i, va) then None else Some(ls[j][x])
    ensures forall y :: 0 <= y < |ls[i]| ==> !Contains(ls[i][y], va)
  {
    var w := ls[j][x];
    forall y | 0 <= y < |ls[i]|
      ensures !Contains(ls[i][y], va)
    {
      assert w.start < ls[i][y].start;
    }
    assert Sorted(ls[i]);
    CandidateIsLast(ls[i], va);
    hide Candidate;
    if ls[i - 1] != [] {
      var y := |ls[i - 1]| - 1;
      var l := ls[i - 1][y];
      assert l.start <= va;
      LastIsLater(ls, i, j, x);
    }
  }

  lemma LastIsLater(ls: seq<seq<Vma>>, i: nat, j: nat, x: nat)
    requires LeafOrder(ls) && 0 < i <= |ls| && ls[i - 1] != [] && j < i && x < |ls[j]|
    ensures ls[j][x].start <= ls[i - 1][|ls[i - 1]| - 1].start
  {
    if j == i - 1 { assert Sorted(ls[j]); }
  }

  lemma NothingFound(ls: seq<seq<Vma>>, i: nat, va: int)
    requires i < |ls| && LeafOrder(ls) && forall j: nat, x: nat :: !Holds(ls, j, x, va)
    ensures FindIn(ls, i, va) == None
  {
    assert Sorted(ls[i]);
    CandidateIsLast(ls[i], va);
    hide Candidate;
    if Candidate(ls[i], va).Some? {
      var c :| 0 <= c < |ls[i]| && Candidate(ls[i], va).value == ls[i][c];
      assert !Holds(ls, i, c, va);
    }
    if i > 0 && ls[i - 1] != [] { assert !Holds(ls, i - 1, |ls[i - 1]| - 1, va); }
  }

  /**
   find_mut: None when no mapping contains the address; otherwise the mapping that does,
   except exactly when it is not in the leaf the keys lead to and the leaf before is empty.
   */
  lemma FindExactly(t: Tree, va: int)
    requires Ordered(t, 0, TOP) && Disjoint(Leaves(t))
    ensures var ls, i := Leaves(t), Route(t, va);
      && ((forall j: nat, x: nat :: !Holds(ls, j, x, va)) ==> Find(t, va) == None)
      && (forall j: nat, x: nat :: Holds(ls, j, x, va) ==>
          Find(t, va) == if Missed(ls, i, va) then None else Some(ls[j][x]))
  {
    var ls, i := Leaves(t), Route(t, va);
    LeavesOrdered(t, 0, TOP);
    RouteIsAround(t, va, 0, TOP);
    hide Ordered, Leaves, Route, LeafOrder, Disjoint, FindIn;
    forall j: nat, x: nat | Holds(ls, j, x, va)
      ensures Find(t, va) == if Missed(ls, i, va) then None else Some(ls[j][x])
    {
      assert j <= i;
      if j == i {
        FoundInLeaf(ls, i, x, va);
        assert Contains(ls[i][x], va);
      } else {
        FoundBefore(ls, i, j, x, va);
      }
    }
    if forall j: nat, x: nat :: !Holds(ls, j, x, va) { NothingFound(ls, i, va); }
  }

  // ---------- The index of an address space ----------

  /** The root pointer, null or a tree, and the number of mappings. */
  datatype Index = Index(root: Option<Tree>, count: nat)

  const EMPTY := Index(None, 0)

  function Contents(x: Index): seq<Vma> { if x.root.None? then [] else Entries(x.root.value) }

  predicate Valid(x: Index) {
    match x.root
    case None => x.count == 0
    case Some(t) => Ordered(t, 0, TOP) && x.count == |Entries(t)| > 0
  }

  /** insert, with its own case for the first mapping. */
  function MapIn(x: Index, v: Vma): Index {
    match x.root
    case None => Index(Some(Leaf([v])), 1)
    case Some(t) => Index(Some(InsertRoot(t, v)), x.count + 1)
  }

  /** remove: looks in one leaf only, and gives the whole tree back with the last mapping. */
  function UnmapFrom(x: Index, start: int): (Index, bool) {
    match x.root
    case None => (x, false)
    case Some(t) =>
      if Absent(Leaves(t)[Route(t, start)], start) then (x, false)
      else if x.count <= 1 then (EMPTY, true)
      else (Index(Some(Remove(t, start)), x.count - 1), true)
  }

  function Lookup(x: Index, va: int): Option<Vma> { if x.root.None? then None else Find(x.root.value, va) }

  lemma InsertedCount(es: seq<Vma>, v: Vma)
    ensures |Inserted(es, v)| == |es| + 1
  {
  }

  lemma MapIsInserted(x: Index, v: Vma)
    requires Valid(x) && v.start < TOP && Absent(Contents(x), v.start)
    ensures Valid(MapIn(x, v)) && Contents(MapIn(x, v)) == Inserted(Contents(x), v)
  {
    match x.root
    case None =>
    case Some(t) =>
      InsertIsInserted(t, v);
      InsertedCount(Entries(t), v);
  }

  lemma {:induction false} RemovedCount(es: seq<Vma>, start: int)
    requires !Absent(es, start)
    ensures |Removed(es, start)| == |es| - 1
  {
    if es[0].start != start {
      var i :| 0 <= i < |es| && es[i].start == start;
      assert es[1..][i - 1] == es[i];
      RemovedCount(es[1..], start);
    }
  }

  lemma AbsentJoin(a: seq<Vma>, b: seq<Vma>, start: int)
    ensures Absent(a + b, start) <==> Absent(a, start) && Absent(b, start)
  {
    if Absent(a + b, start) { AbsentParts(a, b, start); }
  }

  /** A mapping with that start can only be in the leaf the keys lead to. */
  lemma {:induction false} LeafDecides(t: Tree, start: int, lo: int, hi: int)
    requires Ordered(t, lo, hi) && lo <= start < hi
    ensures Absent(Leaves(t)[Route(t, start)], start) <==> Absent(Entries(t), start)
    decreases t
  {
    match t
    case Leaf(_) =>
    case Node(first, rest) =>
      hide Absent, Sorted, Within;
      AbsentJoin(Entries(first), EntriesOf(rest), start);
      if rest.More? { KeysBelow(rest, lo, hi); }
      if rest.End? || start < rest.key {
        EntriesOfOrdered(rest, lo, hi);
        OutOfRange(EntriesOf(rest), FirstKey(rest, hi), hi, start);
        LeafDecides(first, start, lo, FirstKey(rest, hi));
      } else {
        EntriesOrdered(first, lo, rest.key);
        OutOfRange(Entries(first), lo, rest.key, start);
        LeafOfDecides(rest, start, lo, hi);
      }
  }

  lemma {:induction false} LeafOfDecides(k: Kids, start: int, lo: int, hi: int)
    requires OrderedKids(k, lo, hi) && k.More? && k.key <= start < hi
    ensures Absent(LeavesOf(k)[RouteKids(k, start)], start) <==> Absent(EntriesOf(k), start)
    decreases k
  {
    hide Absent, Sorted, Within;
    AbsentJoin(Entries(k.child), EntriesOf(k.next), start);
    if k.next.More? { KeysBelow(k.next, k.key, hi); }
    if k.next.End? || start < k.next.key {
      EntriesOfOrdered(k.next, k.key, hi);
      OutOfRange(EntriesOf(k.next), FirstKey(k.next, hi), hi, start);
      LeafDecides(k.child, start, k.key, FirstKey(k.next, hi));
    } else {
      EntriesOrdered(k.child, k.key, k.next.key);
      OutOfRange(Entries(k.child), k.key, k.next.key, start);
      LeafOfDecides(k.next, start, k.key, hi);
    }
  }

  /** remove: true exactly when a mapping starts there, which is then gone; the index stays valid. */
  lemma UnmapIsRemoved(x: Index, start: int)
    requires Valid(x) && 0 <= start < TOP
    ensures var (x', found) := UnmapFrom(x, start);
      && Valid(x') && Contents(x') == Removed(Contents(x), start) && (found <==> !Absent(Contents(x), start))
  {
    match x.root
    case None =>
    case Some(t) =>
      hide Ordered, Leaves, Route, Absent, Removed;
      LeafDecides(t, start, 0, TOP);
      if Absent(Entries(t), start) {
        RemovedAbsent(Entries(t), start);
      } else {
        RemoveIsRemoved(t, start, 0, TOP);
        RemovedCount(Entries(t), start);
      }
  }

  // ---------- Runs ----------

  datatype Op = Map(v: Vma) | Unmap(start: nat)

  function Step(x: Index, op: Op): Index {
    match op
    case Map(v) => MapIn(x, v)
    case Unmap(start) => UnmapFrom(x, start).0
  }

  function Exec(ops: seq<Op>): Index {
    if ops == [] then EMPTY else Step(Exec(ops[..|ops| - 1]), ops[|ops| - 1])
  }

  /** What the index stands for: the mappings in address order. */
  function SpecStep(es: seq<Vma>, op: Op): seq<Vma> {
    match op
    case Map(v) => Inserted(es, v)
    case Unmap(start) => Removed(es, start)
  }

  function Spec(ops: seq<Op>): seq<Vma> {
    if ops == [] then [] else SpecStep(Spec(ops[..|ops| - 1]), ops[|ops| - 1])
  }

  predicate Apart(v: Vma, w: Vma) { v.start + v.len <= w.start || w.start + w.len <= v.start }

  /** The callers map only free ranges of the address space. */
  predicate Lawful(es: seq<Vma>, op: Op) {
    match op
    case Map(v) => v.len > 0 && v.start + v.len <= TOP && forall i :: 0 <= i < |es| ==> Apart(es[i], v)
    case Unmap(start) => start < TOP
  }

  predicate LawfulRun(ops: seq<Op>) {
    ops == [] || (LawfulRun(ops[..|ops| - 1]) && Lawful(Spec(ops[..|ops| - 1]), ops[|ops| - 1]))
  }

  /** No mapping is empty and no two overlap. */
  ghost predicate Proper(es: seq<Vma>) {
    && (forall i :: 0 <= i < |es| ==> es[i].len > 0)
    && (forall i, j :: 0 <= i < j < |es| ==> Apart(es[i], es[j]))
  }

  lemma ProperInserted(es: seq<Vma>, v: Vma)
    requires Proper(es) && Lawful(es, Map(v))
    ensures Proper(Inserted(es, v)) && Absent(es, v.start)
  {
  }

  lemma {:induction false} RemovedProper(es: seq<Vma>, start: int)
    requires Proper(es)
    ensures Proper(Removed(es, start))
    ensures forall v :: v in Removed(es, start) ==> v in es
  {
    if es != [] {
      var tail := es[1..];
      assert forall i :: 0 <= i < |tail| ==> tail[i] == es[i + 1];
      assert Proper(tail);
      RemovedProper(tail, start);
      var rest := Removed(tail, start);
      assert forall i :: 0 <= i < |rest| ==> rest[i] in tail;
      ProperCons(es[0], rest);
    }
  }

  lemma ProperCons(v: Vma, es: seq<Vma>)
    requires Proper(es) && v.len > 0 && forall i :: 0 <= i < |es| ==> Apart(v, es[i])
    ensures Proper([v] + es)
  {
  }

  /** In every lawful run the index is a valid tree of exactly the mappings that are there. */
  lemma {:induction false} RunIsSpec(ops: seq<Op>)
    requires LawfulRun(ops)
    ensures Valid(Exec(ops)) && Contents(Exec(ops)) == Spec(ops) && Proper(Spec(ops))
  {
    if ops != [] {
      var n := |ops| - 1;
      RunIsSpec(ops[..n]);
      var x, es := Exec(ops[..n]), Spec(ops[..n]);
      hide Valid, Contents, Inserted, Removed, Proper, MapIn, UnmapFrom;
      match ops[n]
      case Map(v) =>
        assert Lawful(es, Map(v));
        ProperInserted(es, v);
        MapIsInserted(x, v);
      case Unmap(start) =>
        RemovedProper(es, start);
        UnmapIsRemoved(x, start);
    }
  }

  // ---------- Lookup in every run ----------

  lemma {:induction false} FlatMembers(ls: seq<seq<Vma>>, v: Vma)
    ensures v in Flat(ls) <==> exists j, i :: 0 <= j < |ls| && 0 <= i < |ls[j]| && ls[j][i] == v
  {
    if ls != [] {
      var tail := ls[1..];
      FlatMembers(tail, v);
      if v in ls[0] {
        var i :| 0 <= i < |ls[0]| && ls[0][i] == v;
      } else if v in Flat(tail) {
        var j, i :| 0 <= j < |tail| && 0 <= i < |tail[j]| && tail[j][i] == v;
        assert ls[j + 1][i] == v;
      }
      if j, i :| 0 <= j < |ls| && 0 <= i < |ls[j]| && ls[j][i] == v {
        if j > 0 { assert tail[j - 1][i] == v; }
      }
    }
  }

  lemma ProperDisjoint(t: Tree)
    requires Proper(Entries(t))
    ensures Disjoint(Leaves(t))
  {
    var ls, es := Leaves(t), Entries(t);
    hide Leaves, Entries;
    ChainIsEntries(t);
    forall i, x, j, y | 0 <= i < |ls| && 0 <= x < |ls[i]| && 0 <= j < |ls| && 0 <= y < |ls[j]| && ls[i][x] != ls[j][y]
      ensures Apart(ls[i][x], ls[j][y])
    {
      FlatMembers(ls, ls[i][x]);
      FlatMembers(ls, ls[j][y]);
      ProperMembers(es, ls[i][x], ls[j][y]);
    }
  }

  lemma ProperMembers(es: seq<Vma>, v: Vma, w: Vma)
    requires Proper(es) && v in es && w in es && v != w
    ensures Apart(v, w)
  {
    var i :| 0 <= i < |es| && es[i] == v;
    var j :| 0 <= j < |es| && es[j] == w;
    if i < j { assert Apart(es[i], es[j]); } else { assert Apart(es[j], es[i]); }
  }

  /** The address is not in the leaf the keys lead to, and the leaf before that is empty. */
  predicate MissedAt(x: Index, va: int) { x.root.Some? && Missed(Leaves(x.root.value), Route(x.root.value, va), va) }

  /**
   Lookup after every lawful run: what is found contains the address and is mapped; and
   nothing is found if and only if no mapping contains the address, or the leaf before the
   one the keys lead to has been emptied and the mapping is not in the latter.
   */
  lemma LookupExactly(ops: seq<Op>, va: int)
    requires LawfulRun(ops)
    ensures var r := Lookup(Exec(ops), va);
      && (r.Some? ==> r.value in Spec(ops) && 0 <= va - r.value.start < r.value.len)
      && (r.None? <==> MissedAt(Exec(ops), va) || forall v :: v in Spec(ops) ==> !(0 <= va - v.start < v.len))
  {
    RunIsSpec(ops);
    var x, es := Exec(ops), Spec(ops);
    hide Exec, Spec, LawfulRun, Proper;
    match x.root
    case None =>
    case Some(t) =>
      ProperDisjoint(t);
      FindExactly(t, va);
      ChainIsEntries(t);
      hide Ordered, Disjoint, Entries, Find;
      var ls, i := Leaves(t), Route(t, va);
      hide Leaves, Route, Missed;
      if v :| v in es && Contains(v, va) {
        var j, y := HeldAt(ls, v, va);
      } else {
        NothingHeld(ls, va);
      }
  }

  lemma HeldAt(ls: seq<seq<Vma>>, v: Vma, va: int) returns (j: nat, y: nat)
    requires v in Flat(ls) && Contains(v, va)
    ensures Holds(ls, j, y, va) && ls[j][y] == v
  {
    FlatMembers(ls, v);
    j, y :| 0 <= j < |ls| && 0 <= y < |ls[j]| && ls[j][y] == v;
  }

  lemma NothingHeld(ls: seq<seq<Vma>>, va: int)
    requires forall v :: v in Flat(ls) ==> !Contains(v, va)
    ensures forall j: nat, y: nat :: !Holds(ls, j, y, va)
  {
    forall j: nat, y: nat
      ensures !Holds(ls, j, y, va)
    {
      if Holds(ls, j, y, va) { FlatMembers(ls, ls[j][y]); }
    }
  }

  // ---------- Without removals nothing is missed ----------

  /** No leaf is empty. */
  predicate NoneEmpty(t: Tree) {
    match t
    case Leaf(es) => es != []
    case Node(first, rest) => NoneEmpty(first) && NoneEmptyOf(rest)
  }

  predicate NoneEmptyOf(k: Kids) { k.End? || (NoneEmpty(k.child) && NoneEmptyOf(k.next)) }

  predicate NoneEmptyGrown(g: Grown) {
    match g
    case One(t) => NoneEmpty(t)
    case Two(l, _, r) => NoneEmpty(l) && NoneEmpty(r)
  }

  lemma {:induction false} CutNoneEmpty(k: Kids, n: nat)
    requires NoneEmptyOf(k)
    ensures NoneEmptyOf(TakeKids(k, n)) && NoneEmptyOf(DropKids(k, n))
  {
    if n > 0 && k.More? { CutNoneEmpty(k.next, n - 1); }
  }

  lemma GrownNodeNoneEmpty(first: Tree, rest: Kids)
    requires NoneEmpty(first) && NoneEmptyOf(rest)
    ensures NoneEmptyGrown(GrownNode(first, rest))
  {
    CutNoneEmpty(rest, KeyCount(rest) / 2);
  }

  lemma {:induction false} InsertNoneEmpty(t: Tree, v: Vma)
    requires NoneEmpty(t)
    ensures NoneEmptyGrown(Insert(t, v))
  {
    match t
    case Leaf(es) => InsertedCount(es, v);
    case Node(first, rest) =>
      hide GrownNode;
      if rest.End? || v.start < rest.key {
        InsertNoneEmpty(first, v);
        match Insert(first, v)
        case One(f) => GrownNodeNoneEmpty(f, rest);
        case Two(l, key, r) => GrownNodeNoneEmpty(l, More(key, r, rest));
      } else {
        InsertKidsNoneEmpty(rest, v);
        GrownNodeNoneEmpty(first, InsertKids(rest, v));
      }
  }

  lemma {:induction false} InsertKidsNoneEmpty(k: Kids, v: Vma)
    requires k.More? && NoneEmptyOf(k)
    ensures NoneEmptyOf(InsertKids(k, v))
  {
    if k.next.End? || v.start < k.next.key {
      InsertNoneEmpty(k.child, v);
    } else {
      InsertKidsNoneEmpty(k.next, v);
    }
  }

  lemma {:induction false} LeavesNoneEmpty(t: Tree)
    requires NoneEmpty(t)
    ensures forall j :: 0 <= j < |Leaves(t)| ==> Leaves(t)[j] != []
  {
    match t
    case Leaf(_) =>
    case Node(first, rest) =>
      LeavesNoneEmpty(first);
      LeavesOfNoneEmpty(rest);
  }

  lemma {:induction false} LeavesOfNoneEmpty(k: Kids)
    requires NoneEmptyOf(k)
    ensures forall j :: 0 <= j < |LeavesOf(k)| ==> LeavesOf(k)[j] != []
  {
    if k.More? {
      LeavesNoneEmpty(k.child);
      LeavesOfNoneEmpty(k.next);
    }
  }

  predicate MapsOnly(ops: seq<Op>) { forall i :: 0 <= i < |ops| ==> ops[i].Map? }

  lemma {:induction false} MapsOnlyNoneEmpty(ops: seq<Op>)
    requires MapsOnly(ops)
    ensures Exec(ops).root.Some? ==> NoneEmpty(Exec(ops).root.value)
  {
    if ops != [] {
      var n := |ops| - 1;
      MapsOnlyNoneEmpty(ops[..n]);
      var x := Exec(ops[..n]);
      assert ops[n].Map?;
      hide InsertRoot;
      assert Exec(ops) == MapIn(x, ops[n].v);
      if x.root.Some? { InsertRootNoneEmpty(x.root.value, ops[n].v); }
    }
  }

  lemma InsertRootNoneEmpty(t: Tree, v: Vma)
    requires NoneEmpty(t)
    ensures NoneEmpty(InsertRoot(t, v))
  {
    hide Insert;
    InsertNoneEmpty(t, v);
    match Insert(t, v)
    case One(_) =>
    case Two(l, key, r) => assert NoneEmptyOf(End) && NoneEmptyOf(More(key, r, End));
  }

  /** As long as nothing has been unmapped, lookup finds every mapping. */
  lemma MapsOnlyFindsAll(ops: seq<Op>, va: int)
    requires LawfulRun(ops) && MapsOnly(ops)
    ensures Lookup(Exec(ops), va).None? <==> forall v :: v in Spec(ops) ==> !Contains(v, va)
  {
    LookupExactly(ops, va);
    MapsOnlyNoneEmpty(ops);
    hide Exec, Spec, LawfulRun, Lookup, NoneEmpty;
    var x := Exec(ops);
    if x.root.Some? { LeavesNoneEmpty(x.root.value); }
  }

  // ---------- A run in which a live mapping is not found ----------

  const PAGE := 4096

  function Page(i: nat): Vma { Vma(i * PAGE, PAGE, i) }

  function Pages(a: nat, b: nat): (es: seq<Vma>)
    requires a <= b
    ensures |es| == b - a && forall i :: 0 <= i < b - a ==> es[i] == Page(a + i)
    decreases b - a
  {
    if a == b then [] else [Page(a)] + Pages(a + 1, b)
  }

  lemma PagesSnoc(a: nat, b: nat)
    requires a <= b
    ensures Pages(a, b) + [Page(b)] == Pages(a, b + 1)
  {
  }

  lemma PagesCut(a: nat, m: nat, b: nat)
    requires a <= m <= b
    ensures Pages(a, b)[..m - a] == Pages(a, m) && Pages(a, b)[m - a..] == Pages(m, b)
  {
  }

  lemma InsertedLast(a: nat, b: nat)
    requires a <= b
    ensures Inserted(Pages(a, b), Page(b)) == Pages(a, b + 1)
  {
    PagesSnoc(a, b);
    var es := Pages(a, b);
    PlaceRight(es, [], b * PAGE);
    assert es + [] == es;
  }

  lemma RemovedFirst(a: nat, b: nat)
    requires a < b
    ensures Removed(Pages(a, b), a * PAGE) == Pages(a + 1, b) && !Absent(Pages(a, b), a * PAGE)
  {
    assert Pages(a, b)[0] == Page(a);
    assert Pages(a, b)[1..] == Pages(a + 1, b);
  }

  function TwoLeaves(n: nat): Tree
    requires n >= 12
  {
    Node(Leaf(Pages(0, 12)), More(12 * PAGE, Leaf(Pages(12, n)), End))
  }

  function Three(a: seq<Vma>, b: seq<Vma>, c: seq<Vma>): Tree {
    Node(Leaf(a), More(12 * PAGE, Leaf(b), More(24 * PAGE, Leaf(c), End)))
  }

  function ThreeLeaves(a: nat, b: nat, c: nat): Tree
    requires a <= 12 && b <= 24 && c <= 37
  {
    Three(Pages(a, 12), Pages(b, 24), Pages(c, 37))
  }

  /** Thirty-seven pages are mapped in order, and the first n of them unmapped again. */
  function Fill(n: nat): seq<Op> { if n == 0 then [] else Fill(n - 1) + [Map(Page(n - 1))] }

  function Drain(n: nat): seq<Op> { if n == 0 then Fill(37) else Drain(n - 1) + [Unmap((n - 1) * PAGE)] }

  lemma ExecSnoc(ops: seq<Op>, op: Op)
    ensures Exec(ops + [op]) == Step(Exec(ops), op)
    ensures Spec(ops + [op]) == SpecStep(Spec(ops), op)
    ensures LawfulRun(ops + [op]) <==> LawfulRun(ops) && Lawful(Spec(ops), op)
  {
    assert (ops + [op])[..|ops|] == ops;
  }

  lemma {:induction false} FillSpec(n: nat)
    requires n <= 37
    ensures LawfulRun(Fill(n)) && Spec(Fill(n)) == Pages(0, n)
  {
    if n > 0 {
      FillSpec(n - 1);
      hide Exec, Step;
      ExecSnoc(Fill(n - 1), Map(Page(n - 1)));
      InsertedLast(0, n - 1);
    }
  }

  lemma {:induction false} DrainSpec(n: nat)
    requires n <= 25
    ensures LawfulRun(Drain(n)) && Spec(Drain(n)) == Pages(n, 37)
  {
    if n == 0 {
      FillSpec(37);
    } else {
      DrainSpec(n - 1);
      hide Exec, Step;
      ExecSnoc(Drain(n - 1), Unmap((n - 1) * PAGE));
      RemovedFirst(n - 1, 37);
    }
  }

  lemma {:induction false} FillOne(n: nat)
    requires 1 <= n <= 24
    ensures Exec(Fill(n)) == Index(Some(Leaf(Pages(0, n))), n)
  {
    hide Inserted;
    ExecSnoc(Fill(n - 1), Map(Page(n - 1)));
    if n > 1 {
      FillOne(n - 1);
      InsertedLast(0, n - 1);
    } else {
      assert Fill(0) == [] && Pages(0, 1) == [Page(0)];
    }
  }

  /** What an insertion at the right end does to a leaf, and to two leaves. */
  lemma SplitRoot(es: seq<Vma>, v: Vma)
    requires |es| == LEAF_CAP
    ensures var all := Inserted(es, v);
      |all| == 25 && InsertRoot(Leaf(es), v) == Node(Leaf(all[..12]), More(all[12].start, Leaf(all[12..]), End))
  {
    InsertedCount(es, v);
    hide Inserted;
    assert Insert(Leaf(es), v) == GrownLeaf(Inserted(es, v));
  }

  lemma GrowRight(first: Tree, key: nat, es: seq<Vma>, v: Vma)
    requires |es| < LEAF_CAP && key <= v.start
    ensures InsertRoot(Node(first, More(key, Leaf(es), End)), v) == Node(first, More(key, Leaf(Inserted(es, v)), End))
  {
    InsertedCount(es, v);
    hide Inserted;
    assert Insert(Leaf(es), v) == One(Leaf(Inserted(es, v)));
    assert KeyCount(End) == 0;
    assert InsertKids(More(key, Leaf(es), End), v) == More(key, Leaf(Inserted(es, v)), End);
  }

  lemma SplitRight(first: Tree, key: nat, es: seq<Vma>, v: Vma)
    requires |es| == LEAF_CAP && key <= v.start
    ensures var all := Inserted(es, v);
      && |all| == 25
      && InsertRoot(Node(first, More(key, Leaf(es), End)), v)
         == Node(first, More(key, Leaf(all[..12]), More(all[12].start, Leaf(all[12..]), End)))
  {
    InsertedCount(es, v);
    hide Inserted;
    var all := Inserted(es, v);
    assert Insert(Leaf(es), v) == GrownLeaf(all) == Two(Leaf(all[..12]), all[12].start, Leaf(all[12..]));
    var k2 := More(all[12].start, Leaf(all[12..]), End);
    var k1 := More(key, Leaf(all[..12]), k2);
    assert KeyCount(End) == 0 && KeyCount(k2) == 1 && KeyCount(k1) == 2;
    assert InsertKids(More(key, Leaf(es), End), v) == k1;
  }

  lemma FirstSplit()
    ensures InsertRoot(Leaf(Pages(0, 24)), Page(24)) == TwoLeaves(25)
  {
    hide InsertRoot, Inserted;
    InsertedLast(0, 24);
    PagesCut(0, 12, 25);
    SplitRoot(Pages(0, 24), Page(24));
    hide Pages;
  }

  lemma TwoLeavesGrow(n: nat)
    requires 12 <= n < 36
    ensures InsertRoot(TwoLeaves(n), Page(n)) == TwoLeaves(n + 1)
  {
    hide InsertRoot, Inserted;
    InsertedLast(12, n);
    GrowRight(Leaf(Pages(0, 12)), 12 * PAGE, Pages(12, n), Page(n));
  }

  lemma {:induction false} FillTwo(n: nat)
    requires 25 <= n <= 36
    ensures Exec(Fill(n)) == Index(Some(TwoLeaves(n)), n)
  {
    hide Exec, InsertRoot, Spec, LawfulRun, TwoLeaves, Pages;
    ExecSnoc(Fill(n - 1), Map(Page(n - 1)));
    if n == 25 {
      FillOne(24);
      FirstSplit();
    } else {
      FillTwo(n - 1);
      TwoLeavesGrow(n - 1);
    }
  }

  lemma FillThree()
    ensures Exec(Fill(37)) == Index(Some(ThreeLeaves(0, 12, 24)), 37)
  {
    hide Exec, InsertRoot, Spec, LawfulRun, Inserted;
    assert Fill(37) == Fill(36) + [Map(Page(36))];
    hide Fill;
    ExecSnoc(Fill(36), Map(Page(36)));
    FillTwo(36);
    InsertedLast(12, 36);
    PagesCut(12, 24, 37);
    SplitRight(Leaf(Pages(0, 12)), 12 * PAGE, Pages(12, 36), Page(36));
    hide Pages;
  }

  function Least(a: nat, b: nat): nat { if a < b then a else b }

  /** Where each leaf begins after n removals. */
  function Drained(n: nat): Tree
    requires n <= 25
  {
    ThreeLeaves(Least(n, 12), if n < 12 then 12 else Least(n, 24), if n < 24 then 24 else n)
  }

  lemma RemoveNext(n: nat)
    requires n < 25
    ensures Remove(Drained(n), n * PAGE) == Drained(n + 1)
    ensures !Absent(Leaves(Drained(n))[Route(Drained(n), n * PAGE)], n * PAGE)
  {
    var t := Drained(n);
    RemoveThree(t.first.es, t.rest.child.es, t.rest.next.child.es, n * PAGE);
    ThreeChain(t.first.es, t.rest.child.es, t.rest.next.child.es);
    RemovedFirst(n, if n < 12 then 12 else if n < 24 then 24 else 37);
    hide Pages, Removed, Absent, Remove, Route, Leaves;
  }

  /** Which of three leaves an address leads to. */
  lemma RemoveThree(a: seq<Vma>, b: seq<Vma>, c: seq<Vma>, start: nat)
    ensures var t := Three(a, b, c);
      if start < 12 * PAGE then Route(t, start) == 0 && Remove(t, start) == Three(Removed(a, start), b, c)
      else if start < 24 * PAGE then Route(t, start) == 1 && Remove(t, start) == Three(a, Removed(b, start), c)
      else Route(t, start) == 2 && Remove(t, start) == Three(a, b, Removed(c, start))
  {
    hide Removed;
    var t := Three(a, b, c);
    var k1, k2 := t.rest, t.rest.next;
    assert Leaves(Leaf(a)) == [a] && Leaves(Leaf(b)) == [b];
    assert Route(Leaf(a), start) == Route(Leaf(b), start) == Route(Leaf(c), start) == 0;
    assert RouteKids(k2, start) == 0 && RemoveKids(k2, start) == More(24 * PAGE, Leaf(Removed(c, start)), End);
    if start < 24 * PAGE {
      assert RouteKids(k1, start) == 0 && RemoveKids(k1, start) == More(12 * PAGE, Leaf(Removed(b, start)), k2);
    } else {
      assert RouteKids(k1, start) == 1 && RemoveKids(k1, start) == More(12 * PAGE, Leaf(b), RemoveKids(k2, start));
    }
  }

  lemma ThreeChain(a: seq<Vma>, b: seq<Vma>, c: seq<Vma>)
    ensures Leaves(Three(a, b, c)) == [a, b, c]
  {
    var k2 := More(24 * PAGE, Leaf(c), End);
    var k1 := More(12 * PAGE, Leaf(b), k2);
    assert LeavesOf(End) == [];
    assert LeavesOf(k2) == [c] + [] == [c];
    assert LeavesOf(k1) == [b] + [c] == [b, c];
    assert Leaves(Node(Leaf(a), k1)) == [a] + [b, c];
  }

  lemma {:induction false} DrainTree(n: nat)
    requires n <= 25
    ensures Exec(Drain(n)) == Index(Some(Drained(n)), 37 - n)
  {
    if n == 0 {
      FillThree();
    } else {
      DrainTree(n - 1);
      ExecSnoc(Drain(n - 1), Unmap((n - 1) * PAGE));
      RemoveNext(n - 1);
      hide Drained, Remove, Leaves, Route, Absent, Exec, Spec, LawfulRun;
    }
  }

  /** The long mapping that is put where the first twenty-five pages were. */
  const LONG := Vma(0, 25 * PAGE, 99)

  const MISSED_RUN := Drain(25) + [Map(LONG)]

  /**
   After these sixty-three calls the long mapping covers page 24, and lookup does not find
   it: the keys lead to the third leaf, the second is empty, and the mapping is in the first.
   */
  lemma MissedRun()
    ensures LawfulRun(MISSED_RUN) && LONG in Spec(MISSED_RUN) && Contains(LONG, 24 * PAGE)
    ensures Lookup(Exec(MISSED_RUN), 24 * PAGE) == None
  {
    hide Exec, Spec, LawfulRun, Drain;
    ExecSnoc(Drain(25), Map(LONG));
    DrainSpec(25);
    DrainTree(25);
    LongTree();
    var es := Pages(25, 37);
    assert Inserted(es, LONG)[Place(es, 0)] == LONG;
    RunIsSpec(MISSED_RUN);
    hide Pages, Inserted, InsertRoot;
  }

  lemma LongTree()
    ensures var t := InsertRoot(Drained(25), LONG); Find(t, 24 * PAGE) == None
  {
    var t := Drained(25);
    assert Pages(12, 12) == [] && Pages(24, 24) == [];
    assert Inserted([], LONG) == [LONG];
    assert Insert(Leaf([]), LONG) == One(Leaf([LONG]));
    var c := Pages(25, 37);
    var k2 := More(24 * PAGE, Leaf(c), End);
    var k1 := More(12 * PAGE, Leaf([]), k2);
    assert t == Node(Leaf([]), k1);
    assert KeyCount(End) == 0 && KeyCount(k2) == 1 && KeyCount(k1) == 2;
    var t' := Node(Leaf([LONG]), k1);
    assert InsertRoot(t, LONG) == t';
    ThreeChain([LONG], [], c);
    RemoveThree([LONG], [], c, 24 * PAGE);
    assert c[0] == Page(25);
    assert Candidate(c, 24 * PAGE) == None;
  }
}
