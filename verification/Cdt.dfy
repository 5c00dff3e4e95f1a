/**
 The capability derivation tree: nodes in a growing array, linked by parent, first-child and
 next-sibling indices, with the unused nodes on a free list.
 */
module Cdt {
  const NONE: nat := 0xFFFF_FFFF

  /** What a node stands for, and where the capability is held. */
  datatype Cap = Cap(kind: nat, obj: nat, task: nat, slot: nat)

  const NULL_CAP := Cap(0, 0, 0, 0)

  datatype Node = Node(parent: nat, firstChild: nat, nextSibling: nat, active: bool, cap: Cap)

  // ---------- Forests ----------

  /** A sibling list: the first tree, and the trees after it. */
  datatype Forest = Nil | Cons(id: nat, kids: Forest, rest: Forest)

  ghost function Ids(f: Forest): set<nat> {
    match f
    case Nil => {}
    case Cons(id, kids, rest) => {id} + Ids(kids) + Ids(rest)
  }

  ghost function Size(f: Forest): nat {
    match f
    case Nil => 0
    case Cons(_, kids, rest) => 1 + Size(kids) + Size(rest)
  }

  ghost predicate NoRepeat(f: Forest) {
    match f
    case Nil => true
    case Cons(id, kids, rest) =>
      id !in Ids(kids) && id !in Ids(rest) && Ids(kids) !! Ids(rest) && NoRepeat(kids) && NoRepeat(rest)
  }

  /** The sibling list that starts at index `head` is f, under the given parent. */
  ghost predicate Linked(nodes: seq<Node>, head: nat, parent: nat, f: Forest)
    decreases f
  {
    match f
    case Nil => head == NONE
    case Cons(id, kids, rest) =>
      && head == id < |nodes| && id != NONE && nodes[id].active && nodes[id].parent == parent
      && Linked(nodes, nodes[id].firstChild, id, kids)
      && Linked(nodes, nodes[id].nextSibling, parent, rest)
  }

  /** The roots are not linked to one another. */
  ghost predicate Rooted(nodes: seq<Node>, f: Forest)
    decreases f
  {
    match f
    case Nil => true
    case Cons(id, kids, rest) =>
      && id < |nodes| && id != NONE && nodes[id].active && nodes[id].parent == NONE
      && Linked(nodes, nodes[id].firstChild, id, kids) && Rooted(nodes, rest)
  }

  /** Two arrays have the same nodes at these indices. */
  ghost predicate Agree(a: seq<Node>, b: seq<Node>, s: set<nat>) {
    forall x :: x in s && x < |a| ==> x < |b| && b[x] == a[x]
  }

  lemma AgreeLess(a: seq<Node>, b: seq<Node>, s: set<nat>, t: set<nat>)
    requires Agree(a, b, s) && t <= s
    ensures Agree(a, b, t)
  {
  }

  lemma {:induction false} LinkedFrame(a: seq<Node>, b: seq<Node>, head: nat, parent: nat, f: Forest)
    requires Linked(a, head, parent, f) && Agree(a, b, Ids(f))
    ensures Linked(b, head, parent, f)
    decreases f
  {
    match f
    case Nil =>
    case Cons(id, kids, rest) =>
      AgreeLess(a, b, Ids(f), Ids(kids));
      AgreeLess(a, b, Ids(f), Ids(rest));
      hide Agree;
      LinkedFrame(a, b, a[id].firstChild, id, kids);
      LinkedFrame(a, b, a[id].nextSibling, parent, rest);
  }

  lemma {:induction false} RootedFrame(a: seq<Node>, b: seq<Node>, f: Forest)
    requires Rooted(a, f) && Agree(a, b, Ids(f))
    ensures Rooted(b, f)
    decreases f
  {
    match f
    case Nil =>
    case Cons(id, kids, rest) =>
      LinkedFrame(a, b, a[id].firstChild, id, kids);
      RootedFrame(a, b, rest);
  }

  lemma {:induction false} LinkedIds(nodes: seq<Node>, head: nat, parent: nat, f: Forest)
    requires Linked(nodes, head, parent, f)
    ensures forall x :: x in Ids(f) ==> x < |nodes| && nodes[x].active && x != NONE
    decreases f
  {
    match f
    case Nil =>
    case Cons(id, kids, rest) =>
      LinkedIds(nodes, nodes[id].firstChild, id, kids);
      LinkedIds(nodes, nodes[id].nextSibling, parent, rest);
  }

  lemma {:induction false} RootedIds(nodes: seq<Node>, f: Forest)
    requires Rooted(nodes, f)
    ensures forall x :: x in Ids(f) ==> x < |nodes| && nodes[x].active && x != NONE
    decreases f
  {
    match f
    case Nil =>
    case Cons(id, kids, rest) =>
      LinkedIds(nodes, nodes[id].firstChild, id, kids);
      RootedIds(nodes, rest);
  }

  // ---------- Below a node ----------

  /** The forest under node p. */
  ghost function Below(f: Forest, p: nat): Forest {
    match f
    case Nil => Nil
    case Cons(id, kids, rest) =>
      if id == p then kids else if p in Ids(kids) then Below(kids, p) else Below(rest, p)
  }

  /** f without what is under p. */
  ghost function Prune(f: Forest, p: nat): Forest {
    match f
    case Nil => Nil
    case Cons(id, kids, rest) =>
      if id == p then Cons(id, Nil, rest)
      else if p in Ids(kids) then Cons(id, Prune(kids, p), rest)
      else Cons(id, kids, Prune(rest, p))
  }

  /** f with x as the new first child of p. */
  ghost function AddChild(f: Forest, p: nat, x: nat): Forest {
    match f
    case Nil => Nil
    case Cons(id, kids, rest) =>
      if id == p then Cons(id, Cons(x, Nil, kids), rest)
      else if p in Ids(kids) then Cons(id, AddChild(kids, p, x), rest)
      else Cons(id, kids, AddChild(rest, p, x))
  }

  lemma {:induction false} BelowFacts(f: Forest, p: nat)
    requires NoRepeat(f) && p in Ids(f)
    ensures NoRepeat(Below(f, p)) && p !in Ids(Below(f, p)) && Ids(Below(f, p)) <= Ids(f)
    ensures Ids(Prune(f, p)) == Ids(f) - Ids(Below(f, p)) && NoRepeat(Prune(f, p))
    decreases f
  {
    match f
    case Cons(id, kids, rest) =>
      if id == p {
      } else if p in Ids(kids) {
        BelowFacts(kids, p);
      } else {
        BelowFacts(rest, p);
      }
  }

  lemma {:induction false} AddChildFacts(f: Forest, p: nat, x: nat)
    requires NoRepeat(f) && p in Ids(f) && x !in Ids(f)
    ensures Ids(AddChild(f, p, x)) == Ids(f) + {x} && NoRepeat(AddChild(f, p, x))
    decreases f
  {
    match f
    case Cons(id, kids, rest) =>
      if id == p {
        assert Ids(Cons(x, Nil, kids)) == {x} + Ids(kids);
      } else if p in Ids(kids) {
        AddChildFacts(kids, p, x);
      } else {
        AddChildFacts(rest, p, x);
      }
  }

  lemma {:induction false} LinkedBelow(nodes: seq<Node>, head: nat, parent: nat, f: Forest, p: nat)
    requires Linked(nodes, head, parent, f) && p in Ids(f)
    ensures p < |nodes| && Linked(nodes, nodes[p].firstChild, p, Below(f, p))
    decreases f
  {
    match f
    case Cons(id, kids, rest) =>
      if id == p {
      } else if p in Ids(kids) {
        LinkedBelow(nodes, nodes[id].firstChild, id, kids, p);
      } else {
        LinkedBelow(nodes, nodes[id].nextSibling, parent, rest, p);
      }
  }

  lemma {:induction false} RootedBelow(nodes: seq<Node>, f: Forest, p: nat)
    requires Rooted(nodes, f) && p in Ids(f)
    ensures p < |nodes| && Linked(nodes, nodes[p].firstChild, p, Below(f, p))
    decreases f
  {
    match f
    case Cons(id, kids, rest) =>
      if id == p {
      } else if p in Ids(kids) {
        LinkedBelow(nodes, nodes[id].firstChild, id, kids, p);
      } else {
        RootedBelow(nodes, rest, p);
      }
  }

  lemma AgreeAt(a: seq<Node>, b: seq<Node>, s: set<nat>, x: nat)
    requires Agree(a, b, s) && x in s && x < |a|
    ensures x < |b| && b[x] == a[x]
  {
  }

  /** What changes when p loses its children: its first-child link only. */
  ghost predicate Cut(a: seq<Node>, b: seq<Node>, p: nat) {
    p < |a| && p < |b| && b[p] == a[p].(firstChild := NONE)
  }

  lemma {:induction false} LinkedPrune(a: seq<Node>, b: seq<Node>, head: nat, parent: nat, f: Forest, p: nat)
    requires Linked(a, head, parent, f) && NoRepeat(f) && p in Ids(f)
    requires Cut(a, b, p) && Agree(a, b, Ids(Prune(f, p)) - {p})
    ensures Linked(b, head, parent, Prune(f, p))
    decreases f
  {
    hide Agree;
    var keep := Ids(Prune(f, p)) - {p};
    match f
    case Cons(id, kids, rest) =>
      if id == p {
        AgreeLess(a, b, keep, Ids(rest));
        LinkedFrame(a, b, a[id].nextSibling, parent, rest);
      } else if p in Ids(kids) {
        AgreeAt(a, b, keep, id);
        AgreeLess(a, b, keep, Ids(Prune(kids, p)) - {p});
        AgreeLess(a, b, keep, Ids(rest));
        LinkedPrune(a, b, a[id].firstChild, id, kids, p);
        LinkedFrame(a, b, a[id].nextSibling, parent, rest);
      } else {
        AgreeAt(a, b, keep, id);
        AgreeLess(a, b, keep, Ids(kids));
        AgreeLess(a, b, keep, Ids(Prune(rest, p)) - {p});
        LinkedFrame(a, b, a[id].firstChild, id, kids);
        LinkedPrune(a, b, a[id].nextSibling, parent, rest, p);
      }
  }

  lemma {:induction false} RootedPrune(a: seq<Node>, b: seq<Node>, f: Forest, p: nat)
    requires Rooted(a, f) && NoRepeat(f) && p in Ids(f)
    requires Cut(a, b, p) && Agree(a, b, Ids(Prune(f, p)) - {p})
    ensures Rooted(b, Prune(f, p))
    decreases f
  {
    hide Agree;
    var keep := Ids(Prune(f, p)) - {p};
    match f
    case Cons(id, kids, rest) =>
      if id == p {
        AgreeLess(a, b, keep, Ids(rest));
        RootedFrame(a, b, rest);
      } else if p in Ids(kids) {
        AgreeAt(a, b, keep, id);
        AgreeLess(a, b, keep, Ids(Prune(kids, p)) - {p});
        AgreeLess(a, b, keep, Ids(rest));
        LinkedPrune(a, b, a[id].firstChild, id, kids, p);
        RootedFrame(a, b, rest);
      } else {
        AgreeAt(a, b, keep, id);
        AgreeLess(a, b, keep, Ids(kids));
        AgreeLess(a, b, keep, Ids(Prune(rest, p)) - {p});
        LinkedFrame(a, b, a[id].firstChild, id, kids);
        RootedPrune(a, b, rest, p);
      }
  }

  /** What changes when x becomes the first child of p. */
  ghost predicate Adopted(a: seq<Node>, b: seq<Node>, p: nat, x: nat) {
    && p < |a| && p < |b| && x < |b| && x != p && x != NONE
    && b[p] == a[p].(firstChild := x)
    && b[x].parent == p && b[x].firstChild == NONE && b[x].nextSibling == a[p].firstChild && b[x].active
  }

  lemma {:induction false} LinkedAdd(a: seq<Node>, b: seq<Node>, head: nat, parent: nat, f: Forest, p: nat, x: nat)
    requires Linked(a, head, parent, f) && NoRepeat(f) && p in Ids(f)
    requires Adopted(a, b, p, x) && Agree(a, b, Ids(f) - {p})
    ensures Linked(b, head, parent, AddChild(f, p, x))
    decreases f
  {
    hide Agree;
    var keep := Ids(f) - {p};
    match f
    case Cons(id, kids, rest) =>
      if id == p {
        AgreeLess(a, b, keep, Ids(kids));
        AgreeLess(a, b, keep, Ids(rest));
        LinkedFrame(a, b, a[id].firstChild, id, kids);
        LinkedFrame(a, b, a[id].nextSibling, parent, rest);
        assert Linked(b, x, id, Cons(x, Nil, kids));
      } else if p in Ids(kids) {
        AgreeAt(a, b, keep, id);
        AgreeLess(a, b, keep, Ids(kids) - {p});
        AgreeLess(a, b, keep, Ids(rest));
        LinkedAdd(a, b, a[id].firstChild, id, kids, p, x);
        LinkedFrame(a, b, a[id].nextSibling, parent, rest);
      } else {
        AgreeAt(a, b, keep, id);
        AgreeLess(a, b, keep, Ids(kids));
        AgreeLess(a, b, keep, Ids(rest) - {p});
        LinkedFrame(a, b, a[id].firstChild, id, kids);
        LinkedAdd(a, b, a[id].nextSibling, parent, rest, p, x);
      }
  }

  lemma {:induction false} RootedAdd(a: seq<Node>, b: seq<Node>, f: Forest, p: nat, x: nat)
    requires Rooted(a, f) && NoRepeat(f) && p in Ids(f)
    requires Adopted(a, b, p, x) && Agree(a, b, Ids(f) - {p})
    ensures Rooted(b, AddChild(f, p, x))
    decreases f
  {
    hide Agree;
    var keep := Ids(f) - {p};
    match f
    case Cons(id, kids, rest) =>
      if id == p {
        AgreeLess(a, b, keep, Ids(kids));
        AgreeLess(a, b, keep, Ids(rest));
        LinkedFrame(a, b, a[id].firstChild, id, kids);
        RootedFrame(a, b, rest);
        assert Linked(b, x, id, Cons(x, Nil, kids));
      } else if p in Ids(kids) {
        AgreeAt(a, b, keep, id);
        AgreeLess(a, b, keep, Ids(kids) - {p});
        AgreeLess(a, b, keep, Ids(rest));
        LinkedAdd(a, b, a[id].firstChild, id, kids, p, x);
        RootedFrame(a, b, rest);
      } else {
        AgreeAt(a, b, keep, id);
        AgreeLess(a, b, keep, Ids(kids));
        AgreeLess(a, b, keep, Ids(rest) - {p});
        LinkedFrame(a, b, a[id].firstChild, id, kids);
        RootedAdd(a, b, rest, p, x);
      }
  }

  // ---------- Descendants, by parent links alone ----------

  /** The k-th ancestor of x. */
  ghost function Up(nodes: seq<Node>, x: nat, k: nat): nat
    decreases k
  {
    if k == 0 then x else if x < |nodes| then Up(nodes, nodes[x].parent, k - 1) else NONE
  }

  ghost predicate Descends(nodes: seq<Node>, x: nat, p: nat) { exists k: nat :: k >= 1 && Up(nodes, x, k) == p }

  lemma {:induction false} UpMore(nodes: seq<Node>, x: nat, k: nat, y: nat)
    requires Up(nodes, x, k) == y && y < |nodes| <= NONE
    ensures Up(nodes, x, k + 1) == nodes[y].parent
    decreases k
  {
    if k > 0 {
      if x < |nodes| {
        UpMore(nodes, nodes[x].parent, k - 1, y);
      }
    } else {
      assert Up(nodes, nodes[x].parent, 0) == nodes[x].parent;
    }
  }

  /** Everything in a sibling list descends from its parent. */
  lemma {:induction false} ListDescends(nodes: seq<Node>, head: nat, parent: nat, f: Forest, x: nat)
    requires Linked(nodes, head, parent, f) && x in Ids(f) && |nodes| <= NONE
    ensures Descends(nodes, x, parent)
    decreases f
  {
    match f
    case Cons(id, kids, rest) =>
      if x == id {
        assert Up(nodes, x, 0) == x;
        UpMore(nodes, x, 0, x);
        assert Up(nodes, x, 1) == parent;
      } else if x in Ids(kids) {
        ListDescends(nodes, nodes[id].firstChild, id, kids, x);
        var k: nat :| k >= 1 && Up(nodes, x, k) == id;
        UpMore(nodes, x, k, id);
      } else {
        ListDescends(nodes, nodes[id].nextSibling, parent, rest, x);
      }
  }

  /** A node of a sibling list is one of the siblings, or under its own parent. */
  lemma {:induction false} UnderItsParent(nodes: seq<Node>, head: nat, parent: nat, f: Forest, x: nat)
    requires Linked(nodes, head, parent, f) && NoRepeat(f) && x in Ids(f)
    ensures x < |nodes|
    ensures nodes[x].parent == parent || (nodes[x].parent in Ids(f) && x in Ids(Below(f, nodes[x].parent)))
    decreases f
  {
    match f
    case Cons(id, kids, rest) =>
      if x == id {
      } else if x in Ids(kids) {
        UnderItsParent(nodes, nodes[id].firstChild, id, kids, x);
      } else {
        UnderItsParent(nodes, nodes[id].nextSibling, parent, rest, x);
      }
  }

  lemma {:induction false} UnderItsRoot(nodes: seq<Node>, f: Forest, x: nat)
    requires Rooted(nodes, f) && NoRepeat(f) && x in Ids(f)
    ensures x < |nodes|
    ensures nodes[x].parent == NONE || (nodes[x].parent in Ids(f) && x in Ids(Below(f, nodes[x].parent)))
    decreases f
  {
    match f
    case Cons(id, kids, rest) =>
      if x == id {
      } else if x in Ids(kids) {
        UnderItsParent(nodes, nodes[id].firstChild, id, kids, x);
      } else {
        UnderItsRoot(nodes, rest, x);
      }
  }

  /** Being below is transitive. */
  lemma {:induction false} BelowBelow(f: Forest, p: nat, q: nat)
    requires NoRepeat(f) && p in Ids(f) && q in Ids(Below(f, p))
    ensures q in Ids(f) && Ids(Below(f, q)) <= Ids(Below(f, p))
    decreases f
  {
    match f
    case Cons(id, kids, rest) =>
      if id == p {
        BelowFacts(kids, q);
      } else if p in Ids(kids) {
        BelowFacts(kids, p);
        BelowBelow(kids, p, q);
      } else {
        BelowFacts(rest, p);
        BelowBelow(rest, p, q);
      }
  }

  lemma {:induction false} ClimbIsBelow(nodes: seq<Node>, f: Forest, x: nat, p: nat, k: nat)
    requires Rooted(nodes, f) && NoRepeat(f) && |nodes| <= NONE && x in Ids(f) && p in Ids(f)
    requires k >= 1 && Up(nodes, x, k) == p
    ensures x in Ids(Below(f, p))
    decreases k
  {
    RootedIds(nodes, f);
    UnderItsRoot(nodes, f, x);
    var q := nodes[x].parent;
    assert Up(nodes, q, k - 1) == p;
    if k == 1 {
      assert q == p;
    } else {
      ClimbIsBelow(nodes, f, q, p, k - 1);
      BelowBelow(f, p, q);
    }
  }

  /** The forest under p is what the parent links say. */
  lemma BelowIsDescendants(nodes: seq<Node>, f: Forest, x: nat, p: nat)
    requires Rooted(nodes, f) && NoRepeat(f) && |nodes| <= NONE && x in Ids(f) && p in Ids(f)
    ensures x in Ids(Below(f, p)) <==> Descends(nodes, x, p)
  {
    if x in Ids(Below(f, p)) {
      RootedBelow(nodes, f, p);
      ListDescends(nodes, nodes[p].firstChild, p, Below(f, p), x);
    }
    if Descends(nodes, x, p) {
      var k: nat :| k >= 1 && Up(nodes, x, k) == p;
      ClimbIsBelow(nodes, f, x, p, k);
    }
  }

  // ---------- The free list ----------

  /** The free list from `head` on is l. */
  ghost predicate FreeChain(nodes: seq<Node>, head: nat, l: seq<nat>)
    decreases |l|
  {
    if l == [] then head == NONE
    else
      && head == l[0] < |nodes| && head != NONE && !nodes[head].active
      && FreeChain(nodes, nodes[head].nextSibling, l[1..])
  }

  ghost predicate Distinct(l: seq<nat>) { forall i, j :: 0 <= i < j < |l| ==> l[i] != l[j] }

  ghost function Elems(l: seq<nat>): set<nat> { set x | x in l }

  lemma {:induction false} ChainFrame(a: seq<Node>, b: seq<Node>, head: nat, l: seq<nat>)
    requires FreeChain(a, head, l) && Agree(a, b, Elems(l))
    ensures FreeChain(b, head, l)
    decreases |l|
  {
    if l != [] {
      assert l[0] in Elems(l);
      assert Elems(l[1..]) <= Elems(l);
      AgreeLess(a, b, Elems(l), Elems(l[1..]));
      ChainFrame(a, b, a[head].nextSibling, l[1..]);
    }
  }

  lemma {:induction false} ChainIds(nodes: seq<Node>, head: nat, l: seq<nat>)
    requires FreeChain(nodes, head, l)
    ensures forall x :: x in l ==> x < |nodes| && !nodes[x].active
    decreases |l|
  {
    if l != [] {
      ChainIds(nodes, nodes[head].nextSibling, l[1..]);
      assert l == [l[0]] + l[1..];
    }
  }

  lemma PopDistinct(l: seq<nat>)
    requires Distinct(l) && l != []
    ensures Distinct(l[1..]) && l[0] !in l[1..] && Elems(l) == {l[0]} + Elems(l[1..])
  {
    var t := l[1..];
    assert forall i :: 0 <= i < |t| ==> t[i] == l[i + 1];
    assert l == [l[0]] + t;
  }

  lemma PushDistinct(x: nat, l: seq<nat>)
    requires Distinct(l) && x !in l
    ensures Distinct([x] + l) && Elems([x] + l) == {x} + Elems(l)
  {
  }

  lemma AgreeUpdate(a: seq<Node>, x: nat, n: Node, s: set<nat>)
    requires x < |a| && x !in s
    ensures Agree(a, a[x := n], s)
  {
  }

  lemma AgreeTrans(a: seq<Node>, b: seq<Node>, c: seq<Node>, s: set<nat>)
    requires Agree(a, b, s) && Agree(b, c, s)
    ensures Agree(a, c, s)
  {
  }

  /** A freed node goes to the front of the list. */
  lemma PushChain(nodes: seq<Node>, head: nat, l: seq<nat>, x: nat, n: Node)
    requires FreeChain(nodes, head, l) && x < |nodes| && x !in l && x != NONE && !n.active && n.nextSibling == head
    ensures FreeChain(nodes[x := n], x, [x] + l)
  {
    AgreeUpdate(nodes, x, n, Elems(l));
    ChainFrame(nodes, nodes[x := n], head, l);
    assert ([x] + l)[1..] == l;
  }

  // ---------- The code ----------

  /** Only nodes in s differ. */
  ghost predicate OnlyIn(a: seq<Node>, b: seq<Node>, s: set<nat>) {
    |a| == |b| && forall x :: 0 <= x < |a| && x !in s ==> b[x] == a[x]
  }

  lemma OnlyInAgree(a: seq<Node>, b: seq<Node>, s: set<nat>, t: set<nat>)
    requires OnlyIn(a, b, s) && s !! t
    ensures Agree(a, b, t)
  {
  }

  lemma OnlyInTrans(a: seq<Node>, b: seq<Node>, c: seq<Node>, s: set<nat>, t: set<nat>)
    requires OnlyIn(a, b, s) && OnlyIn(b, c, t)
    ensures OnlyIn(a, c, s + t)
  {
  }

  lemma ForestStep(f: Forest)
    requires f.Cons? && NoRepeat(f)
    ensures Ids(f) == {f.id} + Ids(f.kids) + Ids(f.rest) && Size(f) == 1 + Size(f.kids) + Size(f.rest)
    ensures ({f.id} + Ids(f.kids)) !! Ids(f.rest) && f.id !in Ids(f.kids) && NoRepeat(f.kids) && NoRepeat(f.rest)
  {
  }

  // ---------- Growing ----------

  ghost function Range(i: nat, n: nat): seq<nat>
    requires i <= n
  {
    seq(n - i, k requires 0 <= k < n - i => i + k)
  }

  /** The nodes from i to n are free, each linked to the next. */
  ghost predicate Strung(nodes: seq<Node>, i: nat, n: nat) {
    && n <= |nodes|
    && forall k :: i <= k < n ==> !nodes[k].active && nodes[k].nextSibling == if k + 1 < n then k + 1 else NONE
  }

  lemma {:induction false} StrungIsChain(nodes: seq<Node>, i: nat, n: nat)
    requires i <= n <= NONE && Strung(nodes, i, n)
    ensures FreeChain(nodes, if i < n then i else NONE, Range(i, n))
    decreases n - i
  {
    if i < n {
      StrungIsChain(nodes, i + 1, n);
      assert Range(i, n)[1..] == Range(i + 1, n);
    }
  }

  lemma RangeFacts(i: nat, n: nat)
    requires i <= n
    ensures Distinct(Range(i, n)) && forall x :: x in Range(i, n) <==> i <= x < n
  {
    forall x: nat | i <= x < n
      ensures x in Range(i, n)
    {
      assert Range(i, n)[x - i] == x;
    }
  }

  // ---------- Counting ----------

  lemma {:induction false} SizeIsCardinality(f: Forest)
    requires NoRepeat(f)
    ensures Size(f) == |Ids(f)|
  {
    match f
    case Nil =>
    case Cons(id, kids, rest) =>
      SizeIsCardinality(kids);
      SizeIsCardinality(rest);
      assert id !in Ids(kids) && id !in Ids(rest) && Ids(kids) !! Ids(rest);
      assert Ids(f) == {id} + (Ids(kids) + Ids(rest));
      hide Ids, NoRepeat;
      DisjointSize(Ids(kids), Ids(rest));
      DisjointSize({id}, Ids(kids) + Ids(rest));
  }

  lemma DisjointSize(a: set<nat>, b: set<nat>)
    requires a !! b
    ensures |a + b| == |a| + |b|
  {
  }

  /** The active nodes that descend from p. */
  ghost function Descendants(nodes: seq<Node>, p: nat): set<nat> {
    set x | 0 <= x < |nodes| && nodes[x].active && Descends(nodes, x, p)
  }

  /** Exactly the descendants of p have become inactive, and nothing else changed but p's first-child link. */
  ghost predicate Revocation(a: seq<Node>, b: seq<Node>, p: nat) {
    && |a| == |b| && p < |a| && b[p] == a[p].(firstChild := NONE)
    && (forall x :: x in Descendants(a, p) ==> x < |b| && !b[x].active)
    && (forall x :: 0 <= x < |b| && x !in Descendants(a, p) && x != p ==> b[x] == a[x])
  }

  ghost predicate Covered(nodes: seq<Node>, f: Forest, free: seq<nat>) {
    forall x :: 0 <= x < |nodes| ==> x in Ids(f) || x in free
  }

  /** A node is active exactly when it is in the forest. */
  lemma ActiveIds(nodes: seq<Node>, f: Forest, head: nat, free: seq<nat>)
    requires Rooted(nodes, f) && FreeChain(nodes, head, free) && Covered(nodes, f, free)
    ensures forall x :: 0 <= x < |nodes| ==> (nodes[x].active <==> x in Ids(f)) && (nodes[x].active <==> x !in free)
    ensures Ids(f) !! Elems(free) && forall x :: x in Ids(f) ==> x < |nodes|
  {
    RootedIds(nodes, f);
    ChainIds(nodes, head, free);
  }

  lemma DescendantsAreBelow(nodes: seq<Node>, f: Forest, head: nat, free: seq<nat>, p: nat)
    requires Rooted(nodes, f) && NoRepeat(f) && |nodes| <= NONE
    requires FreeChain(nodes, head, free) && Covered(nodes, f, free)
    requires p in Ids(f)
    ensures Descendants(nodes, p) == Ids(Below(f, p)) && Size(Below(f, p)) == |Descendants(nodes, p)|
  {
    ActiveIds(nodes, f, head, free);
    BelowFacts(f, p);
    SizeIsCardinality(Below(f, p));
    hide Rooted, NoRepeat, FreeChain, Descends;
    forall x | 0 <= x < |nodes| && nodes[x].active
      ensures x in Ids(Below(f, p)) <==> Descends(nodes, x, p)
    {
      BelowIsDescendants(nodes, f, x, p);
    }
  }

  class Tree {
    var nodes: seq<Node>
    var freeHead: nat
    /** The trees of capabilities in use, and the free list. */
    ghost var forest: Forest
    ghost var free: seq<nat>

    ghost predicate Listed()
      reads this
    {
      |nodes| <= NONE && FreeChain(nodes, freeHead, free) && Distinct(free)
    }

    /** Every node is in one tree, or free. */
    ghost predicate Valid()
      reads this
    {
      && Listed() && Rooted(nodes, forest) && NoRepeat(forest)
      && Covered(nodes, forest, free)
    }

    constructor ()
      ensures Valid() && forest == Nil
    {
      nodes := [];
      freeHead := NONE;
      forest := Nil;
      free := [];
    }

    /** The chaining loop of init and of alloc_node, over `more` zeroed nodes that have just been appended. */
    method StringUp(more: nat)
      requires Valid() && free == [] && more > 0 && |nodes| + more <= NONE
      modifies `nodes, `freeHead, `free
      ensures Valid() && |nodes| == |old(nodes)| + more
      ensures nodes[..|old(nodes)|] == old(nodes) && freeHead == |old(nodes)|
      ensures free == Range(|old(nodes)|, |nodes|)
    {
      hide FreeChain, Rooted, NoRepeat, Distinct;
      var oldCap, newCap := |nodes|, |nodes| + more;
      ghost var was := nodes;
      nodes := nodes + seq(more, _ => Node(0, 0, 0, false, NULL_CAP));
      for i := oldCap to newCap
        invariant |nodes| == newCap && nodes[..oldCap] == was
        invariant forall k :: i <= k < newCap ==> !nodes[k].active
        invariant forall k :: oldCap <= k < i ==>
          !nodes[k].active && nodes[k].nextSibling == if k + 1 < newCap then k + 1 else NONE
      {
        nodes := nodes[i := nodes[i].(nextSibling := if i + 1 < newCap then i + 1 else NONE)];
      }
      StrungIsChain(nodes, oldCap, newCap);
      RangeFacts(oldCap, newCap);
      PrefixAgrees(was, nodes, Ids(forest));
      RootedFrame(was, nodes, forest);
      freeHead := oldCap;
      free := Range(oldCap, newCap);
    }

    /** Valid but for one node, which is neither in a tree nor free. */
    ghost predicate ValidBut(idx: nat)
      reads this
    {
      && Listed() && Rooted(nodes, forest) && NoRepeat(forest)
      && idx < |nodes| && idx !in Ids(forest) && idx !in free
      && forall x :: 0 <= x < |nodes| && x != idx ==> x in Ids(forest) || x in free
    }

    /**
     alloc_node: the head of the free list, which grows by `more` nodes when it is empty;
     NONE when it cannot grow.  No node in use is touched.
     */
    method AllocNode(more: nat) returns (idx: nat)
      requires Valid()
      modifies `nodes, `freeHead, `free
      ensures idx == NONE <==> old(free) == [] && (more == 0 || |old(nodes)| + more > NONE)
      ensures idx == NONE ==> Valid() && nodes == old(nodes)
      ensures idx != NONE ==> ValidBut(idx) && |old(nodes)| <= |nodes| && Agree(old(nodes), nodes, Ids(forest))
      ensures idx != NONE ==> forall x :: x in Ids(forest) ==> x < |old(nodes)|
    {
      hide FreeChain, Rooted, NoRepeat, Distinct, Agree;
      ActiveIds(nodes, forest, freeHead, free);
      EmptyChain(nodes, freeHead, free);
      ghost var was := nodes;
      if freeHead == NONE {
        if more == 0 || |nodes| + more > NONE { return NONE; }
        StringUp(more);
        RangeFacts(|was|, |nodes|);
        EmptyChain(nodes, freeHead, free);
      } else {
        assert nodes[..|was|] == was;
      }
      PrefixAgrees(was, nodes, Ids(forest));
      idx := freeHead;
      var n := Node(NONE, NONE, NONE, false, NULL_CAP);
      ghost var mid := nodes;
      Popped(nodes, forest, freeHead, free, n);
      freeHead := nodes[idx].nextSibling;
      nodes := nodes[idx := n];
      free := free[1..];
      AgreeTrans(was, mid, nodes, Ids(forest));
    }

    /** insert_root: a new tree of one node. */
    method InsertRoot(cap: Cap, more: nat) returns (idx: nat)
      requires Valid()
      modifies this
      ensures Valid() && (idx == NONE ==> nodes == old(nodes) && forest == old(forest))
      ensures idx == NONE <==> old(free) == [] && (more == 0 || |old(nodes)| + more > NONE)
      ensures idx != NONE ==> forest == Cons(idx, Nil, old(forest)) && Agree(old(nodes), nodes, Ids(old(forest)))
      ensures idx != NONE ==>
        idx < |nodes| && idx !in Ids(old(forest)) && nodes[idx] == Node(NONE, NONE, NONE, true, cap)
    {
      hide FreeChain, Rooted, NoRepeat, Distinct;
      idx := AllocNode(more);
      if idx == NONE { return; }
      ghost var mid := nodes;
      var n := Node(NONE, NONE, NONE, true, cap);
      InsertedRoot(nodes, forest, freeHead, free, idx, n);
      nodes := nodes[idx := n];
      AgreeTrans(old(nodes), mid, nodes, Ids(forest));
      forest := Cons(idx, Nil, forest);
    }

    /** insert_derived: the new node becomes the first child of an active parent. */
    method InsertDerived(parent: nat, cap: Cap, more: nat) returns (idx: nat)
      requires Valid()
      modifies this
      ensures Valid() && (idx == NONE ==> nodes == old(nodes) && forest == old(forest))
      ensures idx == NONE <==>
        (parent >= |old(nodes)| || !old(nodes)[parent].active
         || (old(free) == [] && (more == 0 || |old(nodes)| + more > NONE)))
      ensures idx != NONE ==> forest == AddChild(old(forest), parent, idx) && idx !in Ids(old(forest))
      ensures idx != NONE ==> Agree(old(nodes), nodes, Ids(old(forest)) - {parent})
      ensures idx != NONE ==> idx < |nodes| && nodes[idx].parent == parent && nodes[idx].cap == cap && nodes[idx].active
    {
      hide FreeChain, Rooted, NoRepeat, Distinct;
      if parent >= |nodes| || !nodes[parent].active { return NONE; }
      ActiveIds(nodes, forest, freeHead, free);
      idx := AllocNode(more);
      if idx == NONE { return; }
      ghost var mid := nodes;
      AgreeAt(old(nodes), nodes, Ids(forest), parent);
      var n := Node(parent, NONE, nodes[parent].firstChild, true, cap);
      InsertedChild(nodes, forest, freeHead, free, parent, idx, n);
      nodes := nodes[idx := n];
      nodes := nodes[parent := nodes[parent].(firstChild := idx)];
      AgreeLess(old(nodes), mid, Ids(forest), Ids(forest) - {parent});
      AgreeTrans(old(nodes), mid, nodes, Ids(forest) - {parent});
      forest := AddChild(forest, parent, idx);
    }

    /**
     revoke_children: exactly the descendants of the node become inactive, whatever their
     number and depth; every other node keeps its links and capability, but for the
     first-child link of the node itself.
     */
    method RevokeChildren(p: nat) returns (count: nat)
      requires Valid()
      modifies this
      ensures Valid() && |nodes| == |old(nodes)|
      ensures p >= |nodes| || !old(nodes)[p].active ==> count == 0 && nodes == old(nodes)
      ensures p < |nodes| && old(nodes)[p].active ==>
        Revocation(old(nodes), nodes, p) && count == |Descendants(old(nodes), p)|
    {
      hide FreeChain, Rooted, NoRepeat, Distinct, Linked, Below, Prune;
      hide Descendants, Covered, OnlyIn, Ids, Elems, Size, Revocation;
      if p >= |nodes| || !nodes[p].active { return 0; }
      ghost var was, oldFree := nodes, free;
      BeforeRevoke(nodes, forest, freeHead, free, p);
      count := RevokeList(nodes[p].firstChild, p, Below(forest, p));
      AfterRevoke(was, nodes, forest, oldFree, freeHead, free, p);
      nodes := nodes[p := nodes[p].(firstChild := NONE)];
      forest := Prune(forest, p);
    }

    /** free_node */
    method FreeNode(idx: nat)
      requires Listed() && idx < |nodes| && idx !in free
      modifies `nodes, `freeHead, `free
      ensures Listed() && Elems(free) == old(Elems(free)) + {idx} && OnlyIn(old(nodes), nodes, {idx})
    {
      hide FreeChain, Distinct;
      var n := Node(NONE, NONE, freeHead, false, NULL_CAP);
      PushChain(nodes, freeHead, free, idx, n);
      PushDistinct(idx, free);
      nodes := nodes[idx := n];
      freeHead := idx;
      free := [idx] + free;
    }

    /** revoke_subtree: idx and everything under it is freed, and nothing else changes. */
    method RevokeSubtree(idx: nat, ghost kids: Forest) returns (count: nat)
      requires Listed() && idx < |nodes| && Linked(nodes, nodes[idx].firstChild, idx, kids)
      requires NoRepeat(kids) && idx !in Ids(kids) && ({idx} + Ids(kids)) !! Elems(free)
      modifies `nodes, `freeHead, `free
      ensures Listed() && count == 1 + Size(kids)
      ensures Elems(free) == old(Elems(free)) + {idx} + Ids(kids)
      ensures OnlyIn(old(nodes), nodes, {idx} + Ids(kids))
      decreases Size(kids), 1
    {
      hide FreeChain, Distinct, Linked, NoRepeat, OnlyIn;
      count := RevokeList(nodes[idx].firstChild, idx, kids);
      ghost var mid := nodes;
      assert idx !in Elems(free);
      SameLength(old(nodes), mid, Ids(kids));
      FreeNode(idx);
      OnlyInTrans(old(nodes), mid, nodes, Ids(kids), {idx});
      assert Ids(kids) + {idx} == {idx} + Ids(kids);
      count := count + 1;
    }

    /** The loop over a sibling list, in revoke_subtree and in revoke_children. */
    method RevokeList(head: nat, ghost parent: nat, ghost f: Forest) returns (count: nat)
      requires Listed() && Linked(nodes, head, parent, f) && NoRepeat(f) && Ids(f) !! Elems(free)
      modifies `nodes, `freeHead, `free
      ensures Listed() && count == Size(f)
      ensures Elems(free) == old(Elems(free)) + Ids(f)
      ensures OnlyIn(old(nodes), nodes, Ids(f))
      decreases Size(f), 0
    {
      hide FreeChain, Distinct, NoRepeat, OnlyIn;
      count := 0;
      var child := head;
      ghost var r := f;
      SameNodes(nodes);
      assert Ids(f) - Ids(r) == {};
      while child != NONE
        invariant Listed() && Linked(nodes, child, parent, r) && NoRepeat(r)
        invariant Ids(r) <= Ids(f) && Size(r) <= Size(f) && count + Size(r) == Size(f)
        invariant Elems(free) == old(Elems(free)) + (Ids(f) - Ids(r)) && Ids(r) !! Elems(free)
        invariant OnlyIn(old(nodes), nodes, Ids(f) - Ids(r))
        decreases Size(r)
      {
        ForestStep(r);
        hide Ids, Size;
        var next := nodes[child].nextSibling;
        ghost var before, gone := nodes, {r.id} + Ids(r.kids);
        var n := RevokeSubtree(child, r.kids);
        hide Linked;
        OnlyInAgree(before, nodes, gone, Ids(r.rest));
        LinkedFrame(before, nodes, next, parent, r.rest);
        OnlyInTrans(old(nodes), before, nodes, Ids(f) - Ids(r), gone);
        assert Ids(f) - Ids(r) + gone == Ids(f) - Ids(r.rest);
        count := count + n;
        r := r.rest;
        child := next;
      }
    }
  }

  lemma SameLength(a: seq<Node>, b: seq<Node>, s: set<nat>)
    requires OnlyIn(a, b, s)
    ensures |a| == |b|
  {
  }

  lemma SameNodes(a: seq<Node>)
    ensures OnlyIn(a, a, {})
  {
  }

  lemma PrefixAgrees(a: seq<Node>, b: seq<Node>, s: set<nat>)
    requires |a| <= |b| && b[..|a|] == a
    ensures Agree(a, b, s)
  {
    assert forall x :: 0 <= x < |a| ==> b[..|a|][x] == b[x];
  }

  lemma InsertedRoot(nodes: seq<Node>, f: Forest, head: nat, free: seq<nat>, x: nat, n: Node)
    requires Rooted(nodes, f) && NoRepeat(f) && FreeChain(nodes, head, free) && x < |nodes| <= NONE
    requires x !in Ids(f) && x !in free && n.active && n.parent == NONE && n.firstChild == NONE
    ensures var b := nodes[x := n];
      Rooted(b, Cons(x, Nil, f)) && NoRepeat(Cons(x, Nil, f)) && FreeChain(b, head, free) && Agree(nodes, b, Ids(f))
  {
    AgreeUpdate(nodes, x, n, Ids(f));
    AgreeUpdate(nodes, x, n, Elems(free));
    RootedFrame(nodes, nodes[x := n], f);
    ChainFrame(nodes, nodes[x := n], head, free);
  }

  lemma InsertedChild(nodes: seq<Node>, f: Forest, head: nat, free: seq<nat>, p: nat, x: nat, n: Node)
    requires Rooted(nodes, f) && NoRepeat(f) && FreeChain(nodes, head, free) && x < |nodes| <= NONE
    requires p in Ids(f) && p < |nodes| && x !in Ids(f) && x !in free
    requires n.active && n.parent == p && n.firstChild == NONE && n.nextSibling == nodes[p].firstChild
    ensures var b := nodes[x := n][p := nodes[p].(firstChild := x)];
      && Rooted(b, AddChild(f, p, x)) && NoRepeat(AddChild(f, p, x)) && FreeChain(b, head, free)
      && Ids(AddChild(f, p, x)) == Ids(f) + {x} && Agree(nodes, b, Ids(f) - {p})
  {
    var b := nodes[x := n][p := nodes[p].(firstChild := x)];
    AddChildFacts(f, p, x);
    RootedIds(nodes, f);
    ChainIds(nodes, head, free);
    assert p !in free;
    assert Agree(nodes, b, Ids(f) - {p});
    assert Agree(nodes, b, Elems(free));
    RootedAdd(nodes, b, f, p, x);
    ChainFrame(nodes, b, head, free);
  }

  lemma Revoked(was: seq<Node>, mid: seq<Node>, f: Forest, p: nat, head: nat, free: seq<nat>)
    requires Rooted(was, f) && NoRepeat(f) && p in Ids(f) && p < |was|
    requires OnlyIn(was, mid, Ids(Below(f, p))) && FreeChain(mid, head, free) && p !in free
    requires Ids(Prune(f, p)) == Ids(f) - Ids(Below(f, p)) && p !in Ids(Below(f, p))
    ensures var b := mid[p := mid[p].(firstChild := NONE)];
      Rooted(b, Prune(f, p)) && FreeChain(b, head, free)
  {
    var b := mid[p := mid[p].(firstChild := NONE)];
    assert Agree(was, b, Ids(Prune(f, p)) - {p});
    RootedPrune(was, b, f, p);
    AgreeUpdate(mid, p, mid[p].(firstChild := NONE), Elems(free));
    ChainFrame(mid, b, head, free);
  }

  lemma EmptyChain(nodes: seq<Node>, head: nat, free: seq<nat>)
    requires FreeChain(nodes, head, free)
    ensures head == NONE <==> free == []
  {
  }

  /** The head of the free list is taken off it. */
  lemma Popped(nodes: seq<Node>, f: Forest, head: nat, free: seq<nat>, n: Node)
    requires Rooted(nodes, f) && FreeChain(nodes, head, free) && Distinct(free) && Covered(nodes, f, free)
    requires free != []
    ensures head < |nodes| && head !in Ids(f) && head !in free[1..] && Distinct(free[1..])
    ensures var b := nodes[head := n];
      Rooted(b, f) && FreeChain(b, nodes[head].nextSibling, free[1..]) && Agree(nodes, b, Ids(f))
    ensures forall x :: 0 <= x < |nodes| && x != head ==> x in Ids(f) || x in free[1..]
  {
    ActiveIds(nodes, f, head, free);
    PopDistinct(free);
    assert head in free;
    assert free == [head] + free[1..];
    AgreeUpdate(nodes, head, n, Elems(free[1..]));
    AgreeUpdate(nodes, head, n, Ids(f));
    ChainFrame(nodes, nodes[head := n], nodes[head].nextSibling, free[1..]);
    RootedFrame(nodes, nodes[head := n], f);
  }

  lemma OnlyInAt(a: seq<Node>, b: seq<Node>, s: set<nat>, x: nat)
    requires OnlyIn(a, b, s) && x < |a| && x !in s
    ensures |b| == |a| && b[x] == a[x]
  {
  }

  lemma RevokedMeaning(was: seq<Node>, mid: seq<Node>, gone: set<nat>, p: nat, head: nat, free: seq<nat>)
    requires OnlyIn(was, mid, gone) && p < |was| && p !in gone && gone <= Elems(free)
    requires p < |mid| && FreeChain(mid[p := mid[p].(firstChild := NONE)], head, free)
    ensures var b := mid[p := mid[p].(firstChild := NONE)];
      && |b| == |was| && b[p] == was[p].(firstChild := NONE)
      && (forall x :: x in gone ==> x < |b| && !b[x].active)
      && (forall x :: 0 <= x < |b| && x !in gone && x != p ==> b[x] == was[x])
  {
    ChainIds(mid[p := mid[p].(firstChild := NONE)], head, free);
  }

  lemma RevokedCovered(was: seq<Node>, mid: seq<Node>, f: Forest, old_free: seq<nat>, free: seq<nat>, p: nat)
    requires Covered(was, f, old_free) && OnlyIn(was, mid, Ids(Below(f, p))) && p < |mid|
    requires Elems(free) == Elems(old_free) + Ids(Below(f, p)) && Ids(Prune(f, p)) == Ids(f) - Ids(Below(f, p))
    ensures Covered(mid[p := mid[p].(firstChild := NONE)], Prune(f, p), free)
  {
    forall x | 0 <= x < |was|
      ensures x in Ids(Prune(f, p)) || x in free
    {
      assert x in Ids(f) || x in Elems(old_free);
      assert x in Ids(Prune(f, p)) || x in Elems(free);
    }
  }

  lemma BeforeRevoke(nodes: seq<Node>, f: Forest, head: nat, free: seq<nat>, p: nat)
    requires Rooted(nodes, f) && NoRepeat(f) && |nodes| <= NONE
    requires FreeChain(nodes, head, free) && Covered(nodes, f, free)
    requires p < |nodes| && nodes[p].active
    ensures p in Ids(f) && p !in Ids(Below(f, p)) && p !in free
    ensures Linked(nodes, nodes[p].firstChild, p, Below(f, p))
    ensures NoRepeat(Below(f, p)) && Ids(Below(f, p)) !! Elems(free)
    ensures Descendants(nodes, p) == Ids(Below(f, p)) && Size(Below(f, p)) == |Descendants(nodes, p)|
  {
    ActiveIds(nodes, f, head, free);
    DescendantsAreBelow(nodes, f, head, free, p);
    RootedBelow(nodes, f, p);
    BelowFacts(f, p);
  }

  lemma AfterRevoke(was: seq<Node>, mid: seq<Node>, f: Forest, old_free: seq<nat>, head: nat, free: seq<nat>, p: nat)
    requires Rooted(was, f) && NoRepeat(f) && Covered(was, f, old_free) && p < |was| && p in Ids(f) && p !in old_free
    requires OnlyIn(was, mid, Ids(Below(f, p))) && FreeChain(mid, head, free)
    requires Elems(free) == Elems(old_free) + Ids(Below(f, p))
    ensures |mid| == |was|
    ensures var b, gone := mid[p := mid[p].(firstChild := NONE)], Ids(Below(f, p));
      && Rooted(b, Prune(f, p)) && NoRepeat(Prune(f, p)) && FreeChain(b, head, free) && Covered(b, Prune(f, p), free)
      && (gone == Descendants(was, p) ==> Revocation(was, b, p))
  {
    BelowFacts(f, p);
    var gone := Ids(Below(f, p));
    hide Rooted, NoRepeat, FreeChain, Below, Prune, Ids;
    OnlyInAt(was, mid, gone, p);
    assert p !in Elems(free);
    Revoked(was, mid, f, p, head, free);
    RevokedMeaning(was, mid, gone, p, head, free);
    RevokedCovered(was, mid, f, old_free, free, p);
  }
}
