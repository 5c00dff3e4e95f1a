/**
 The kernel's read-copy-update: readers hold references only between two quiescent states of
 their CPU, every CPU counts its own quiescent states, and a removed object is freed when the
 counters say that all readers that could hold it are gone.
 */
module KernelRcu {
  import opened Words

  type Cpu = nat
  type Obj = nat
  type Gens = map<Cpu, nat>

  const U64_MAX := 0xFFFF_FFFF_FFFF_FFFF

  /** Objects to be freed together, once every counter has passed the epoch. */
  datatype Batch = Batch(epoch: nat, objs: seq<Obj>)

  /** The callback queue of one CPU: full batches, and the one being filled. */
  datatype Queue = Queue(pending: seq<Batch>, current: Option<Batch>)

  // ---------- One CPU's callbacks ----------

  /** Every counter in the snapshot has passed the epoch. */
  predicate Passed(epoch: nat, snap: Gens) { forall c :: c in snap ==> epoch < snap[c] }

  function Kept(bs: seq<Batch>, snap: Gens): seq<Batch> {
    if bs == [] then [] else (if Passed(bs[0].epoch, snap) then [] else [bs[0]]) + Kept(bs[1..], snap)
  }

  /** The objects of the batches whose epoch every counter has passed, each as often as it is there. */
  ghost function Expired(bs: seq<Batch>, snap: Gens): multiset<Obj> {
    if bs == [] then multiset{}
    else (if Passed(bs[0].epoch, snap) then multiset(bs[0].objs) else multiset{}) + Expired(bs[1..], snap)
  }

  /** All objects of the batches, each as often as it is there. */
  ghost function Contents(bs: seq<Batch>): multiset<Obj> {
    if bs == [] then multiset{} else multiset(bs[0].objs) + Contents(bs[1..])
  }

  function CurrentBatch(q: Queue): seq<Batch> { if q.current.Some? then [q.current.value] else [] }

  /** rcu_defer_free, with a page for a new batch when one is needed. */
  function Deferred(q: Queue, o: Obj, gen: nat, cap: nat): Queue {
    var b := if q.current.Some? then q.current.value else Batch(gen, []);
    var b' := b.(objs := b.objs + [o]);
    if |b'.objs| >= cap then Queue([b'] + q.pending, None) else Queue(q.pending, Some(b'))
  }

  /** rcu_process_callbacks on a queue, when the CPU's own counter is gen. */
  function Processed(q: Queue, snap: Gens, gen: nat): Queue {
    Queue(Kept(q.pending, snap),
          if q.current.Some? && Passed(q.current.value.epoch, snap) && q.current.value.objs != []
          then Some(Batch(gen, [])) else q.current)
  }

  function Batches(q: Queue): seq<Batch> { q.pending + CurrentBatch(q) }

  ghost function FreedBy(q: Queue, snap: Gens): multiset<Obj> { Expired(Batches(q), snap) }

  /** The least counter, as the source computes it. */
  method LeastGen(snap: Gens, order: seq<Cpu>, start: nat) returns (least: nat)
    requires forall c :: c in order ==> c in snap
    ensures least <= start && (forall c :: c in order ==> least <= snap[c])
    ensures least == start || exists c :: c in order && least == snap[c]
  {
    least := start;
    for i := 0 to |order|
      invariant least <= start && forall k :: 0 <= k < i ==> least <= snap[order[k]]
      invariant least == start || exists c :: c in order && least == snap[c]
    {
      if snap[order[i]] < least { least := snap[order[i]]; }
    }
  }

  lemma {:induction false} KeptConcat(a: seq<Batch>, b: Batch, snap: Gens)
    ensures Kept(a + [b], snap) == Kept(a, snap) + if Passed(b.epoch, snap) then [] else [b]
    decreases |a|
  {
    hide Passed;
    if a == [] {
      assert a + [b] == [b] && [b][1..] == [];
    } else {
      assert (a + [b])[1..] == a[1..] + [b] && (a + [b])[0] == a[0];
      KeptConcat(a[1..], b, snap);
      var h := if Passed(a[0].epoch, snap) then [] else [a[0]];
      var x := if Passed(b.epoch, snap) then [] else [b];
      assert h + (Kept(a[1..], snap) + x) == h + Kept(a[1..], snap) + x;
    }
  }

  lemma {:induction false} KeptMembers(bs: seq<Batch>, snap: Gens)
    ensures forall b :: b in Kept(bs, snap) <==> b in bs && !Passed(b.epoch, snap)
  {
    hide Passed;
    if bs != [] {
      KeptMembers(bs[1..], snap);
      assert bs == [bs[0]] + bs[1..];
    }
  }

  /** The least counter has passed exactly when all have. */
  lemma LeastDecides(epoch: nat, snap: Gens, order: seq<Cpu>, least: nat)
    requires (forall c :: c in snap <==> c in order) && snap != map[]
    requires (forall c :: c in order ==> least <= snap[c]) && exists c :: c in order && least == snap[c]
    ensures epoch < least <==> Passed(epoch, snap)
  {
  }

  /** The loop over the full batches. */
  method ProcessPending(pending: seq<Batch>, snap: Gens, least: nat) returns (kept: seq<Batch>, freed: seq<Obj>)
    requires forall epoch: nat :: epoch < least <==> Passed(epoch, snap)
    ensures kept == Kept(pending, snap) && multiset(freed) == Expired(pending, snap)
    ensures Size(kept) + |freed| == Size(pending)
  {
    kept, freed := [], [];
    assert pending[..0] == [];
    hide Passed, Kept, Expired, Size;
    NoBatches(snap);
    for i := 0 to |pending|
      invariant kept == Kept(pending[..i], snap) && Size(kept) + |freed| == Size(pending[..i])
      invariant multiset(freed) == Expired(pending[..i], snap)
    {
      var b := pending[i];
      assert pending[..i + 1] == pending[..i] + [b];
      KeptConcat(pending[..i], b, snap);
      ExpiredConcat(pending[..i], b, snap);
      SizeSnoc(pending[..i], b);
      SizeSnoc(kept, b);
      if b.epoch < least {
        freed := freed + b.objs;
      } else {
        kept := kept + [b];
      }
    }
    assert pending[..|pending|] == pending;
  }

  lemma NoBatches(snap: Gens)
    ensures Kept([], snap) == [] && Expired([], snap) == multiset{} && Size([]) == 0
  {
  }

  /** The two loops over the batches: those whose epoch every counter has passed are freed, the others stay in order. */
  method Process(q: Queue, snap: Gens, least: nat, gen: nat) returns (q': Queue, freed: seq<Obj>)
    requires forall epoch: nat :: epoch < least <==> Passed(epoch, snap)
    ensures q' == Processed(q, snap, gen) && Size(Batches(q')) + |freed| == Size(Batches(q))
    ensures multiset(freed) == FreedBy(q, snap)
  {
    hide Passed, Kept, Expired, Size;
    var kept;
    kept, freed := ProcessPending(q.pending, snap, least);
    q' := Queue(kept, q.current);
    if q.current.Some? {
      var b := q.current.value;
      ExpiredConcat(q.pending, b, snap);
      SizeSnoc(q.pending, b);
      SizeSnoc(kept, b);
      SizeSnoc(kept, Batch(gen, []));
      if b.epoch < least && |b.objs| > 0 {
        freed := freed + b.objs;
        q' := Queue(kept, Some(Batch(gen, [])));
      }
    } else {
      assert Batches(q) == q.pending && Batches(q') == kept;
    }
  }

  lemma SizeSnoc(a: seq<Batch>, b: Batch)
    ensures Size(a + [b]) == Size(a) + |b.objs|
  {
    SizeConcat(a, [b]);
    assert [b][1..] == [];
  }

  lemma {:induction false} ExpiredConcat(a: seq<Batch>, b: Batch, snap: Gens)
    ensures Expired(a + [b], snap)
         == Expired(a, snap) + if Passed(b.epoch, snap) then multiset(b.objs) else multiset{}
    decreases |a|
  {
    hide Passed;
    if a == [] {
      assert a + [b] == [b] && [b][1..] == [];
    } else {
      assert (a + [b])[1..] == a[1..] + [b] && (a + [b])[0] == a[0];
      ExpiredConcat(a[1..], b, snap);
    }
  }

  /** Which objects those are. */
  lemma {:induction false} ExpiredMembers(bs: seq<Batch>, snap: Gens, o: Obj)
    ensures o in Expired(bs, snap) <==> exists b :: b in bs && Passed(b.epoch, snap) && o in b.objs
  {
    hide Passed;
    if bs != [] {
      ExpiredMembers(bs[1..], snap, o);
      assert bs == [bs[0]] + bs[1..];
    }
  }

  // ---------- Nothing is lost, and nothing is added ----------

  lemma {:induction false} ContentsConcat(a: seq<Batch>, b: seq<Batch>)
    ensures Contents(a + b) == Contents(a) + Contents(b)
    decreases |a|
  {
    if a == [] {
      assert a + b == b;
    } else {
      assert (a + b)[1..] == a[1..] + b;
      ContentsConcat(a[1..], b);
    }
  }

  lemma ContentsOne(b: Batch)
    ensures Contents([b]) == multiset(b.objs) && Contents([]) == multiset{}
  {
    assert [b][1..] == [];
  }

  lemma ContentsOfQueue(q: Queue)
    ensures Contents(Batches(q)) == Contents(q.pending) + CurrentContents(q)
  {
    ContentsConcat(q.pending, CurrentBatch(q));
    if q.current.Some? { ContentsOne(q.current.value); }
  }

  ghost function CurrentContents(q: Queue): multiset<Obj> {
    if q.current.Some? then multiset(q.current.value.objs) else multiset{}
  }

  /** A deferral adds exactly the object it was given, whatever batch it ends up in. */
  lemma DeferredContents(q: Queue, o: Obj, gen: nat, cap: nat)
    ensures Contents(Batches(Deferred(q, o, gen, cap))) == Contents(Batches(q)) + multiset{o}
  {
    ContentsOfQueue(q);
    ContentsOfQueue(Deferred(q, o, gen, cap));
    hide Batches, Contents;
    var b := if q.current.Some? then q.current.value else Batch(gen, []);
    var b' := b.(objs := b.objs + [o]);
    ContentsOne(b');
    ContentsConcat([b'], q.pending);
  }

  lemma {:induction false} KeptContents(bs: seq<Batch>, snap: Gens)
    ensures Contents(Kept(bs, snap)) + Expired(bs, snap) == Contents(bs)
  {
    hide Passed;
    if bs != [] {
      KeptContents(bs[1..], snap);
      var h := if Passed(bs[0].epoch, snap) then [] else [bs[0]];
      ContentsConcat(h, Kept(bs[1..], snap));
      ContentsOne(bs[0]);
    }
  }

  lemma ExpiredOfQueue(q: Queue, snap: Gens)
    ensures FreedBy(q, snap) == Expired(q.pending, snap) + ExpiredCurrent(q, snap)
  {
    if q.current.Some? {
      ExpiredConcat(q.pending, q.current.value, snap);
    } else {
      assert Batches(q) == q.pending;
    }
  }

  ghost function ExpiredCurrent(q: Queue, snap: Gens): multiset<Obj> {
    if q.current.Some? && Passed(q.current.value.epoch, snap) then multiset(q.current.value.objs) else multiset{}
  }

  /** A callback pass frees exactly what leaves the queue. */
  lemma ProcessedContents(q: Queue, snap: Gens, gen: nat)
    ensures Contents(Batches(Processed(q, snap, gen))) + FreedBy(q, snap) == Contents(Batches(q))
  {
    hide Passed, Contents, Batches, FreedBy, Expired, Kept;
    ContentsOfQueue(q);
    ContentsOfQueue(Processed(q, snap, gen));
    ExpiredOfQueue(q, snap);
    KeptContents(q.pending, snap);
  }

  /** Batches are put on the list when they are full, and only then. */
  predicate AllFull(q: Queue, cap: nat) {
    && (forall i :: 0 <= i < |q.pending| ==> |q.pending[i].objs| == cap)
    && (q.current.Some? ==> |q.current.value.objs| < cap)
  }

  lemma AllFullKept(q: Queue, o: Obj, gen: nat, cap: nat, snap: Gens)
    requires AllFull(q, cap) && cap > 0
    ensures AllFull(Deferred(q, o, gen, cap), cap) && AllFull(Processed(q, snap, gen), cap)
  {
    hide Passed;
    KeptMembers(q.pending, snap);
    var kept := Kept(q.pending, snap);
    forall i | 0 <= i < |kept|
      ensures |kept[i].objs| == cap
    {
      assert kept[i] in kept;
    }
  }

  function Size(bs: seq<Batch>): nat { if bs == [] then 0 else |bs[0].objs| + Size(bs[1..]) }

  /** Only the batch being filled can be empty. */
  predicate Filled(q: Queue) { forall i :: 0 <= i < |q.pending| ==> q.pending[i].objs != [] }

  lemma {:induction false} SizeConcat(a: seq<Batch>, b: seq<Batch>)
    ensures Size(a + b) == Size(a) + Size(b)
    decreases |a|
  {
    if a == [] {
      assert a + b == b;
    } else {
      assert (a + b)[1..] == a[1..] + b;
      SizeConcat(a[1..], b);
    }
  }

  /** Nothing is pending when the count is 0, and a pass would change nothing. */
  lemma NothingPending(q: Queue, snap: Gens, gen: nat)
    requires Filled(q) && Size(Batches(q)) == 0
    ensures Processed(q, snap, gen) == q && FreedBy(q, snap) == multiset{}
  {
    SizeConcat(q.pending, CurrentBatch(q));
    if q.current.Some? { assert CurrentBatch(q)[1..] == []; }
    if o :| o in FreedBy(q, snap) { ExpiredMembers(Batches(q), snap, o); }
  }

  lemma FilledKept(q: Queue, snap: Gens, gen: nat)
    requires Filled(q)
    ensures Filled(Processed(q, snap, gen))
  {
    KeptMembers(q.pending, snap);
    var kept := Kept(q.pending, snap);
    forall i | 0 <= i < |kept|
      ensures kept[i].objs != []
    {
      assert kept[i] in kept;
    }
  }

  lemma FilledDeferred(q: Queue, o: Obj, gen: nat, cap: nat)
    requires Filled(q)
    ensures Filled(Deferred(q, o, gen, cap)) && Size(Batches(Deferred(q, o, gen, cap))) == Size(Batches(q)) + 1
  {
    var b := if q.current.Some? then q.current.value else Batch(gen, []);
    var b' := b.(objs := b.objs + [o]);
    SizeConcat(q.pending, CurrentBatch(q));
    SizeConcat([b'], q.pending);
    SizeConcat(q.pending, [b']);
    SizeConcat([b'] + q.pending, []);
    assert [b'][1..] == [] && [b][1..] == [];
  }

  /**
   rcu_process_callbacks on the counters as they are read: exactly the objects of the batches
   whose epoch every online CPU has passed are freed, and the pending count goes down by as
   many.
   */
  method ProcessCallbacks(q: Queue, count: nat, snap: Gens, online: seq<Cpu>, gen: nat)
    returns (q': Queue, freed: seq<Obj>, count': nat)
    requires Filled(q) && count == Size(Batches(q)) && snap != map[]
    requires forall c :: c in snap <==> c in online
    requires forall c :: c in snap ==> snap[c] <= U64_MAX
    ensures q' == Processed(q, snap, gen) && Filled(q') && count' == Size(Batches(q')) == count - |freed|
    ensures multiset(freed) == FreedBy(q, snap)
  {
    hide Processed, FreedBy, Batches, Filled, Passed;
    if count == 0 {
      NothingPending(q, snap, gen);
      return q, [], 0;
    }
    var least := LeastGen(snap, online, U64_MAX);
    LeastIsLeast(snap, online, least);
    forall epoch: nat
      ensures epoch < least <==> Passed(epoch, snap)
    {
      LeastDecides(epoch, snap, online, least);
    }
    q', freed := Process(q, snap, least, gen);
    FilledKept(q, snap, gen);
    count' := count - |freed|;
  }

  /** A start value that no counter exceeds does not matter. */
  lemma LeastIsLeast(snap: Gens, online: seq<Cpu>, least: nat)
    requires (forall c :: c in snap <==> c in online) && snap != map[]
    requires forall c :: c in snap ==> least <= snap[c] <= U64_MAX
    requires least == U64_MAX || exists c :: c in online && least == snap[c]
    ensures exists c :: c in online && least == snap[c]
  {
    if least == U64_MAX {
      var c :| c in snap;
      assert c in online && least == snap[c];
    }
  }

  // ---------- The system ----------

  /**
   `gone` remembers every object that has been taken out of sight, with the counters at that
   moment; `owner` and `epoch` remember where and under which epoch it was queued.  A CPU is
   ticking between the increment of its counter and the end of its callback pass.
   */
  datatype State = State(
    gens: Gens, refs: map<Cpu, set<Obj>>, visible: set<Obj>, gone: map<Obj, Gens>,
    queues: map<Cpu, Queue>, owner: map<Obj, Cpu>, epoch: map<Obj, nat>, freed: multiset<Obj>, ticking: set<Cpu>)

  ghost predicate WellFormed(s: State) { s.refs.Keys == s.gens.Keys && s.queues.Keys == s.gens.Keys }

  ghost predicate Init(s: State) {
    && WellFormed(s) && s.visible == {} && s.gone == map[] && s.owner == map[] && s.epoch == map[]
    && s.freed == multiset{} && s.ticking == {}
    && forall c :: c in s.gens ==> s.refs[c] == {} && s.queues[c] == Queue([], None)
  }

  datatype Action =
    | Publish(o: Obj)
    | Read(c: Cpu, o: Obj)
    | Remove(o: Obj)
    | Defer(c: Cpu, o: Obj, cap: nat)
    | Quiesce(c: Cpu)
    | Collect(c: Cpu, snap: Gens)
    | Skip(c: Cpu)               // the tick came in the middle of a deferral

  /** What a CPU can have read of the counters, one after the other, by now. */
  ghost predicate Seen(snap: Gens, gens: Gens) {
    snap.Keys == gens.Keys && forall c :: c in snap ==> snap[c] <= gens[c]
  }

  ghost predicate Enabled(s: State, a: Action) {
    match a
    case Publish(o) => o !in s.visible && o !in s.gone
    case Read(c, o) => c in s.gens && c !in s.ticking && o in s.visible
    case Remove(o) => o in s.visible
    case Defer(c, o, cap) => c in s.gens && c !in s.ticking && o in s.gone && o !in s.owner
    case Quiesce(c) => c in s.gens && c !in s.ticking
    case Collect(c, snap) => c in s.gens && c in s.ticking && Seen(snap, s.gens)
    case Skip(c) => c in s.ticking
  }

  /** The epoch of the batch an object deferred now on c gets into. */
  function EpochOf(q: Queue, gen: nat): nat { if q.current.Some? then q.current.value.epoch else gen }

  ghost function Apply(s: State, a: Action): State
    requires WellFormed(s) && Enabled(s, a)
  {
    match a
    case Publish(o) => s.(visible := s.visible + {o})
    case Read(c, o) => s.(refs := s.refs[c := s.refs[c] + {o}])
    case Remove(o) => s.(visible := s.visible - {o}, gone := s.gone[o := s.gens])
    case Defer(c, o, cap) =>
      s.(queues := s.queues[c := Deferred(s.queues[c], o, s.gens[c], cap)],
         owner := s.owner[o := c], epoch := s.epoch[o := EpochOf(s.queues[c], s.gens[c])])
    case Quiesce(c) => s.(gens := s.gens[c := s.gens[c] + 1], refs := s.refs[c := {}], ticking := s.ticking + {c})
    case Collect(c, snap) =>
      s.(queues := s.queues[c := Processed(s.queues[c], snap, s.gens[c])],
         freed := s.freed + FreedBy(s.queues[c], snap), ticking := s.ticking - {c})
    case Skip(c) => s.(ticking := s.ticking - {c})
  }

  // ---------- The invariant ----------

  /** A reader that holds a removed object has not passed a quiescent state since it was removed. */
  ghost predicate Stamped(s: State)
    requires WellFormed(s)
  {
    forall c, o :: c in s.gens && o in s.refs[c] ==>
      o in s.visible || (o in s.gone && c in s.gone[o] && s.gone[o][c] == s.gens[c])
  }

  ghost predicate Sorted(s: State) {
    && (forall o :: o in s.visible ==> o !in s.gone)
    && (forall o :: o in s.gone ==> s.gone[o].Keys == s.gens.Keys)
    && (forall o :: o in s.owner ==> o in s.gone && o in s.epoch && s.owner[o] in s.gens)
    && (forall o :: o in s.freed ==> o in s.owner)
  }

  /** A queued object is in a batch of its owner, with its epoch. */
  ghost predicate Filed(s: State)
    requires WellFormed(s)
  {
    forall c :: c in s.gens ==> FiledAt(s, c, Batches(s.queues[c]))
  }

  ghost predicate FiledAt(s: State, c: Cpu, bs: seq<Batch>) {
    forall b, o :: b in bs && o in b.objs ==> o in s.owner && s.owner[o] == c && o in s.epoch && s.epoch[o] == b.epoch
  }

  /** c owns the object's queue, or was not past its epoch when it was removed. */
  ghost predicate Timely(s: State, o: Obj, c: Cpu) {
    && o in s.gone && o in s.owner && o in s.epoch
    && (c == s.owner[o] || (c in s.gone[o] && s.gone[o][c] <= s.epoch[o]))
  }

  ghost predicate Holds(s: State, c: Cpu, o: Obj) { c in s.gens && c in s.refs && o in s.refs[c] }

  ghost predicate TimelyAreSafe(s: State) { forall o, c :: o in s.freed && Timely(s, o, c) ==> !Holds(s, c, o) }

  /** A CPU holds nothing while it is ticking. */
  ghost predicate Resting(s: State) { forall c :: c in s.ticking ==> c in s.gens && c in s.refs && s.refs[c] == {} }

  ghost predicate Inv(s: State) {
    WellFormed(s) && Stamped(s) && Sorted(s) && Filed(s) && TimelyAreSafe(s) && Resting(s)
  }

  // ---------- Every step keeps it ----------

  /** What a deferral adds: the object under its epoch; every other batch entry was there before. */
  lemma DeferredEntries(q: Queue, o: Obj, gen: nat, cap: nat, b: Batch, x: Obj) returns (was: Batch)
    requires b in Batches(Deferred(q, o, gen, cap)) && x in b.objs
    ensures (x == o && b.epoch == EpochOf(q, gen)) || (was in Batches(q) && x in was.objs && was.epoch == b.epoch)
  {
    was := if q.current.Some? && b !in q.pending then q.current.value else b;
  }

  /** What processing leaves was there before. */
  lemma ProcessedEntries(q: Queue, snap: Gens, gen: nat, b: Batch, x: Obj)
    requires b in Batches(Processed(q, snap, gen)) && x in b.objs
    ensures b in Batches(q)
  {
    KeptMembers(q.pending, snap);
  }

  lemma StampedStep(s: State, a: Action)
    requires WellFormed(s) && Stamped(s) && Sorted(s) && Enabled(s, a)
    ensures WellFormed(Apply(s, a)) && Stamped(Apply(s, a))
  {
    hide Stamped, Sorted, Deferred, Processed, FreedBy, Seen, EpochOf;
    match a {
      case Publish(o) => StampedPublish(s, o);
      case Read(c, o) => StampedRead(s, c, o);
      case Remove(o) => StampedRemove(s, o);
      case Quiesce(c) => StampedQuiesce(s, c);
      case _ => StampedSame(s, Apply(s, a));
    }
  }

  lemma StampedSame(s: State, s': State)
    requires WellFormed(s) && Stamped(s) && WellFormed(s')
    requires s'.gens == s.gens && s'.refs == s.refs && s'.visible == s.visible && s'.gone == s.gone
    ensures Stamped(s')
  {
  }

  lemma StampedPublish(s: State, o: Obj)
    requires WellFormed(s) && Stamped(s) && Enabled(s, Publish(o))
    ensures WellFormed(Apply(s, Publish(o))) && Stamped(Apply(s, Publish(o)))
  {
  }

  lemma StampedRead(s: State, c: Cpu, o: Obj)
    requires WellFormed(s) && Stamped(s) && Enabled(s, Read(c, o))
    ensures WellFormed(Apply(s, Read(c, o))) && Stamped(Apply(s, Read(c, o)))
  {
  }

  lemma StampedRemove(s: State, o: Obj)
    requires WellFormed(s) && Stamped(s) && Sorted(s) && Enabled(s, Remove(o))
    ensures WellFormed(Apply(s, Remove(o))) && Stamped(Apply(s, Remove(o)))
  {
  }

  lemma StampedQuiesce(s: State, c: Cpu)
    requires WellFormed(s) && Stamped(s) && Enabled(s, Quiesce(c))
    ensures WellFormed(Apply(s, Quiesce(c))) && Stamped(Apply(s, Quiesce(c)))
  {
  }

  lemma SortedStep(s: State, a: Action)
    requires WellFormed(s) && Sorted(s) && Filed(s) && Enabled(s, a)
    ensures WellFormed(Apply(s, a)) && Sorted(Apply(s, a))
  {
    if a.Collect? { SortedCollect(s, a.c, a.snap); } else { SortedOther(s, a); }
  }

  lemma SortedOther(s: State, a: Action)
    requires WellFormed(s) && Sorted(s) && Enabled(s, a) && !a.Collect?
    ensures WellFormed(Apply(s, a)) && Sorted(Apply(s, a))
  {
    hide Sorted, Deferred, EpochOf;
    if a.Publish? {
      SortedPublish(s, a.o);
    } else if a.Remove? {
      SortedRemove(s, a.o);
    } else if a.Defer? {
      SortedDefer(s, a.c, a.o, a.cap);
    } else {
      SortedSame(s, Apply(s, a));
    }
  }

  lemma SortedSame(s: State, s': State)
    requires Sorted(s) && s'.gens.Keys == s.gens.Keys && s'.visible == s.visible && s'.gone == s.gone
    requires s'.owner == s.owner && s'.epoch == s.epoch && s'.freed == s.freed
    ensures Sorted(s')
  {
  }

  lemma SortedPublish(s: State, o: Obj)
    requires WellFormed(s) && Sorted(s) && Enabled(s, Publish(o))
    ensures Sorted(Apply(s, Publish(o)))
  {
  }

  lemma SortedRemove(s: State, o: Obj)
    requires WellFormed(s) && Sorted(s) && Enabled(s, Remove(o))
    ensures Sorted(Apply(s, Remove(o)))
  {
  }

  lemma SortedDefer(s: State, c: Cpu, o: Obj, cap: nat)
    requires WellFormed(s) && Sorted(s) && Enabled(s, Defer(c, o, cap))
    ensures Sorted(Apply(s, Defer(c, o, cap)))
  {
    hide Deferred, EpochOf;
  }

  lemma SortedCollect(s: State, c: Cpu, snap: Gens)
    requires WellFormed(s) && Sorted(s) && Filed(s) && Enabled(s, Collect(c, snap))
    ensures WellFormed(Apply(s, Collect(c, snap))) && Sorted(Apply(s, Collect(c, snap)))
  {
    hide Processed, Seen, FreedBy, Filed;
    FreedAreOwned(s, c, snap);
  }

  lemma FreedAreOwned(s: State, c: Cpu, snap: Gens)
    requires WellFormed(s) && Filed(s) && c in s.gens
    ensures forall o :: o in FreedBy(s.queues[c], snap) ==> o in s.owner && s.owner[o] == c
  {
    assert FiledAt(s, c, Batches(s.queues[c]));
    hide Batches, Passed, Expired;
    forall o | o in FreedBy(s.queues[c], snap)
      ensures o in s.owner && s.owner[o] == c
    {
      ExpiredMembers(Batches(s.queues[c]), snap, o);
    }
  }

  lemma FiledStep(s: State, a: Action)
    requires WellFormed(s) && Sorted(s) && Filed(s) && Enabled(s, a)
    ensures WellFormed(Apply(s, a)) && Filed(Apply(s, a))
  {
    hide Deferred, Processed, Seen, FreedBy, Batches, Sorted, EpochOf, FiledAt;
    var s' := Apply(s, a);
    forall c | c in s'.gens
      ensures FiledAt(s', c, Batches(s'.queues[c]))
    {
      assert FiledAt(s, c, Batches(s.queues[c]));
      if a.Defer? {
        FiledDefer(s, a.c, a.o, a.cap, c);
      } else if a.Collect? && c == a.c {
        FiledCollect(s, a.c, a.snap);
      } else {
        FiledSame(s, s', c, Batches(s.queues[c]));
      }
    }
  }

  lemma FiledSame(s: State, s': State, c: Cpu, bs: seq<Batch>)
    requires FiledAt(s, c, bs) && s'.owner == s.owner && s'.epoch == s.epoch
    ensures FiledAt(s', c, bs)
  {
  }

  lemma FiledDefer(s: State, c0: Cpu, o: Obj, cap: nat, c: Cpu)
    requires WellFormed(s) && Sorted(s) && Filed(s) && Enabled(s, Defer(c0, o, cap)) && c in s.gens
    ensures var s' := Apply(s, Defer(c0, o, cap)); FiledAt(s', c, Batches(s'.queues[c]))
  {
    hide Deferred, Batches, Sorted, EpochOf;
    var s' := Apply(s, Defer(c0, o, cap));
    assert FiledAt(s, c, Batches(s.queues[c]));
    assert s'.owner == s.owner[o := c0] && s'.epoch == s.epoch[o := EpochOf(s.queues[c0], s.gens[c0])] && o !in s.owner;
    assert s'.queues[c] == if c == c0 then Deferred(s.queues[c], o, s.gens[c], cap) else s.queues[c];
    hide Apply, Enabled, Filed;
    forall b, x | b in Batches(s'.queues[c]) && x in b.objs
      ensures x in s'.owner && s'.owner[x] == c && x in s'.epoch && s'.epoch[x] == b.epoch
    {
      if c == c0 {
        var was := DeferredEntries(s.queues[c], o, s.gens[c], cap, b, x);
      }
    }
  }

  lemma FiledCollect(s: State, c: Cpu, snap: Gens)
    requires WellFormed(s) && Filed(s) && Enabled(s, Collect(c, snap))
    ensures var s' := Apply(s, Collect(c, snap)); FiledAt(s', c, Batches(s'.queues[c]))
  {
    hide Processed, Batches, FreedBy;
    var s' := Apply(s, Collect(c, snap));
    assert FiledAt(s, c, Batches(s.queues[c]));
    forall b, x | b in Batches(s'.queues[c]) && x in b.objs
      ensures x in s'.owner && s'.owner[x] == c && x in s'.epoch && s'.epoch[x] == b.epoch
    {
      ProcessedEntries(s.queues[c], snap, s.gens[c], b, x);
    }
  }

  /** The heart of the matter: what a callback pass frees is not held by a CPU it is timely for. */
  lemma FreedInTime(s: State, c: Cpu, snap: Gens, o: Obj, d: Cpu)
    requires Inv(s) && Enabled(s, Collect(c, snap))
    requires o in FreedBy(s.queues[c], snap) && Timely(s, o, d) && d in s.gens && d != c
    ensures o !in s.refs[d]
  {
    assert FiledAt(s, c, Batches(s.queues[c]));
    ExpiredMembers(Batches(s.queues[c]), snap, o);
    var b :| b in Batches(s.queues[c]) && Passed(b.epoch, snap) && o in b.objs;
    assert s.owner[o] == c && s.epoch[o] == b.epoch;
    assert s.gone[o][d] <= s.epoch[o] < snap[d] <= s.gens[d];
  }

  lemma SafeCollect(s: State, c: Cpu, snap: Gens, o: Obj, d: Cpu)
    requires Inv(s) && Enabled(s, Collect(c, snap))
    requires o in s.freed + FreedBy(s.queues[c], snap) && Timely(s, o, d)
    ensures !Holds(Apply(s, Collect(c, snap)), d, o)
  {
    hide Stamped, Sorted, Filed, FreedBy, Timely, Seen;
    if d == c {
      assert s.refs[c] == {};
    } else if d in s.gens {
      if o in s.freed {
        assert !Holds(s, d, o);
      } else {
        FreedInTime(s, c, snap, o, d);
      }
    }
  }

  /** Nothing else reaches a freed object, or changes when it was removed. */
  lemma SafeOther(s: State, a: Action, o: Obj, d: Cpu)
    requires WellFormed(s) && Sorted(s) && Enabled(s, a) && !a.Collect? && o in s.freed
    ensures Timely(Apply(s, a), o, d) ==> Timely(s, o, d)
    ensures Holds(Apply(s, a), d, o) ==> Holds(s, d, o)
  {
    hide Deferred, EpochOf;
    assert o in s.owner && o in s.gone && o !in s.visible;
  }

  lemma SafeStep(s: State, a: Action)
    requires Inv(s) && Enabled(s, a)
    ensures WellFormed(Apply(s, a)) && TimelyAreSafe(Apply(s, a))
  {
    hide Deferred, Processed, Filed, Stamped, Sorted, Seen, FreedBy, EpochOf, Holds;
    var s' := Apply(s, a);
    forall o, c | o in s'.freed && Timely(s', o, c)
      ensures !Holds(s', c, o)
    {
      if a.Collect? {
        assert Timely(s, o, c);
        SafeCollect(s, a.c, a.snap, o, c);
      } else {
        SafeOther(s, a, o, c);
      }
    }
  }

  lemma RestingStep(s: State, a: Action)
    requires WellFormed(s) && Resting(s) && Enabled(s, a)
    ensures Resting(Apply(s, a))
  {
    hide Deferred, Processed, FreedBy, Seen, EpochOf;
  }

  lemma StepInv(s: State, a: Action)
    requires Inv(s) && Enabled(s, a)
    ensures Inv(Apply(s, a))
  {
    hide Stamped, Sorted, Filed, TimelyAreSafe, Enabled, Resting;
    RestingStep(s, a);
    StampedStep(s, a);
    SortedStep(s, a);
    FiledStep(s, a);
    SafeStep(s, a);
  }

  // ---------- Every run ----------

  ghost predicate IsRun(states: seq<State>, actions: seq<Action>) {
    && |states| == |actions| + 1 && Init(states[0])
    && (forall i :: 0 <= i < |states| ==> WellFormed(states[i]))
    && forall i :: 0 <= i < |actions| ==>
      Enabled(states[i], actions[i]) && states[i + 1] == Apply(states[i], actions[i])
  }

  lemma InitInv(s: State)
    requires Init(s)
    ensures Inv(s)
  {
  }

  lemma {:induction false} RunInv(states: seq<State>, actions: seq<Action>, i: nat)
    requires IsRun(states, actions) && i < |states|
    ensures Inv(states[i])
  {
    hide Inv, Init, Enabled, Apply;
    if i == 0 {
      InitInv(states[0]);
    } else {
      RunInv(states, actions, i - 1);
      StepInv(states[i - 1], actions[i - 1]);
    }
  }

  /** In every run, an object is never freed while a CPU it is timely for holds it. */
  lemma TimelyReadersAreSafe(states: seq<State>, actions: seq<Action>, i: nat, o: Obj, c: Cpu)
    requires IsRun(states, actions) && i < |states| && Timely(states[i], o, c) && o in states[i].freed
    ensures !Holds(states[i], c, o)
  {
    hide Init, Enabled, Apply, Stamped, Sorted, Filed, Timely, Holds;
    RunInv(states, actions, i);
  }

  // ---------- Every deferral is accounted for ----------

  ghost predicate OwnedBy(s: State, c: Cpu, o: Obj) { o in s.owner && s.owner[o] == c }

  /** How often an object waits in a queue. */
  ghost function Waits(q: Queue, o: Obj): nat { Contents(Batches(q))[o] }

  lemma DeferredWaits(q: Queue, o: Obj, gen: nat, cap: nat, x: Obj)
    ensures Waits(Deferred(q, o, gen, cap), x) == Waits(q, x) + if x == o then 1 else 0
  {
    hide Deferred, Batches, Contents;
    DeferredContents(q, o, gen, cap);
  }

  lemma ProcessedWaits(q: Queue, snap: Gens, gen: nat, x: Obj)
    ensures Waits(Processed(q, snap, gen), x) + FreedBy(q, snap)[x] == Waits(q, x)
  {
    hide Processed, Batches, Contents, FreedBy;
    ProcessedContents(q, snap, gen);
  }

  /**
   If the object was deferred it waits once, in its owner's queue, or has been freed once; if
   not, it neither waits nor has been freed.
   */
  ghost predicate OnceOf(s: State, o: Obj)
    requires WellFormed(s)
  {
    && (forall c :: c in s.gens ==> Waits(s.queues[c], o) == if OwnedBy(s, c, o) && s.freed[o] == 0 then 1 else 0)
    && s.freed[o] <= 1 && (o !in s.owner ==> s.freed[o] == 0)
  }

  lemma OnceDefer(s: State, c: Cpu, o: Obj, cap: nat, x: Obj)
    requires WellFormed(s) && OnceOf(s, x) && Enabled(s, Defer(c, o, cap))
    ensures WellFormed(Apply(s, Defer(c, o, cap))) && OnceOf(Apply(s, Defer(c, o, cap)), x)
  {
    hide Deferred, Waits, EpochOf;
    DeferredWaits(s.queues[c], o, s.gens[c], cap, x);
  }

  lemma OnceCollect(s: State, c: Cpu, snap: Gens, x: Obj)
    requires WellFormed(s) && OnceOf(s, x) && Enabled(s, Collect(c, snap))
    ensures WellFormed(Apply(s, Collect(c, snap))) && OnceOf(Apply(s, Collect(c, snap)), x)
  {
    hide Processed, Waits, FreedBy, Seen;
    ProcessedWaits(s.queues[c], snap, s.gens[c], x);
    var s' := Apply(s, Collect(c, snap));
    assert s'.freed[x] == s.freed[x] + FreedBy(s.queues[c], snap)[x];
  }

  lemma OnceStep(s: State, a: Action, x: Obj)
    requires WellFormed(s) && OnceOf(s, x) && Enabled(s, a)
    ensures WellFormed(Apply(s, a)) && OnceOf(Apply(s, a), x)
  {
    hide Waits;
    match a {
      case Defer(c, o, cap) => OnceDefer(s, c, o, cap, x);
      case Collect(c, snap) => OnceCollect(s, c, snap, x);
      case _ =>
    }
  }

  /** How often an object has been handed to rcu_defer_free. */
  ghost function Deferrals(actions: seq<Action>, o: Obj): nat {
    if actions == [] then 0
    else
      var last := actions[|actions| - 1];
      Deferrals(actions[..|actions| - 1], o) + if last.Defer? && last.o == o then 1 else 0
  }

  lemma {:induction false} OnceRun(states: seq<State>, actions: seq<Action>, i: nat, o: Obj)
    requires IsRun(states, actions) && i < |states|
    ensures OnceOf(states[i], o)
    ensures Deferrals(actions[..i], o) == if o in states[i].owner then 1 else 0
    ensures o in states[i].owner ==> states[i].owner[o] in states[i].gens
  {
    if i == 0 {
      OnceInit(states[0], o);
    } else {
      OnceRun(states, actions, i - 1, o);
      OnceStep(states[i - 1], actions[i - 1], o);
      OwnerStep(states[i - 1], actions[i - 1], o);
      assert actions[..i][..i - 1] == actions[..i - 1] && actions[..i][i - 1] == actions[i - 1];
    }
  }

  lemma OnceInit(s: State, o: Obj)
    requires Init(s)
    ensures OnceOf(s, o)
  {
    assert Batches(Queue([], None)) == [];
  }

  lemma OwnerStep(s: State, a: Action, o: Obj)
    requires WellFormed(s) && Enabled(s, a) && (o in s.owner ==> s.owner[o] in s.gens)
    ensures var s' := Apply(s, a);
      && (o in s'.owner <==> o in s.owner || (a.Defer? && a.o == o)) && (a.Defer? && a.o == o ==> o !in s.owner)
      && (o in s'.owner ==> s'.owner[o] in s'.gens)
  {
    hide Deferred, Processed, FreedBy, EpochOf, Seen;
  }

  /** All objects that wait on these CPUs. */
  ghost function Waiting(queues: map<Cpu, Queue>, cpus: seq<Cpu>): multiset<Obj>
    requires forall c :: c in cpus ==> c in queues
  {
    if cpus == [] then multiset{} else Contents(Batches(queues[cpus[0]])) + Waiting(queues, cpus[1..])
  }

  ghost predicate NoRepeat(cpus: seq<Cpu>) { forall i, j :: 0 <= i < j < |cpus| ==> cpus[i] != cpus[j] }

  lemma {:induction false} WaitsOnOne(s: State, cpus: seq<Cpu>, o: Obj)
    requires WellFormed(s) && OnceOf(s, o) && NoRepeat(cpus) && forall c :: c in cpus ==> c in s.gens
    ensures Waiting(s.queues, cpus)[o] == if o in s.owner && s.owner[o] in cpus && s.freed[o] == 0 then 1 else 0
  {
    if cpus != [] {
      var rest := cpus[1..];
      assert cpus == [cpus[0]] + rest;
      assert cpus[0] !in rest;
      WaitsOnOne(s, rest, o);
      assert Waiting(s.queues, cpus)[o] == Waits(s.queues[cpus[0]], o) + Waiting(s.queues, rest)[o];
    }
  }

  /**
   In every state of every run, over all CPUs: how often an object waits plus how often it has
   been freed is how often it was deferred, which is at most once.  So nothing is freed twice,
   nothing that was not deferred is freed, and nothing deferred is forgotten.
   */
  lemma DeferralsAreConserved(states: seq<State>, actions: seq<Action>, i: nat, o: Obj, cpus: seq<Cpu>)
    requires IsRun(states, actions) && i < |states|
    requires NoRepeat(cpus) && forall c :: c in cpus <==> c in states[i].gens
    ensures Waiting(states[i].queues, cpus)[o] + states[i].freed[o] == Deferrals(actions[..i], o) <= 1
  {
    hide Init, Enabled, Apply;
    OnceRun(states, actions, i, o);
    WaitsOnOne(states[i], cpus, o);
  }

  // ---------- synchronize_rcu ----------

  /**
   synchronize_rcu: it reads every counter after it is called, and returns when it has read a
   larger one for every CPU.  An object removed before the call is then held by nobody.
   */
  lemma SynchronizeWaits(states: seq<State>, actions: seq<Action>, call: nat, back: nat, snap: Gens, o: Obj, c: Cpu)
    requires IsRun(states, actions) && call <= back < |states| && o in states[call].gone
    requires snap.Keys == states[call].gens.Keys && forall d :: d in snap ==> states[call].gens[d] <= snap[d]
    requires forall d :: d in snap ==> d in states[back].gens && snap[d] < states[back].gens[d]
    ensures !Holds(states[back], c, o)
  {
    hide Init, Enabled, Apply, Filed, TimelyAreSafe;
    RunInv(states, actions, call);
    RunInv(states, actions, back);
    GoneStays(states, actions, call, back, o);
    StampIsPast(states, actions, call);
  }

  lemma {:induction false} GoneStays(states: seq<State>, actions: seq<Action>, i: nat, j: nat, o: Obj)
    requires IsRun(states, actions) && i <= j < |states| && o in states[i].gone
    ensures o in states[j].gone && states[j].gone[o] == states[i].gone[o] && o !in states[j].visible
    ensures states[j].gens.Keys == states[i].gens.Keys
    decreases j
  {
    hide Inv, Init;
    if i == j {
      RunInv(states, actions, i);
      SortedGone(states[i], o);
    } else {
      GoneStays(states, actions, i, j - 1, o);
      GoneStep(states[j - 1], actions[j - 1], o);
    }
  }

  lemma SortedGone(s: State, o: Obj)
    requires Inv(s) && o in s.gone
    ensures o !in s.visible
  {
  }

  lemma GoneStep(s: State, a: Action, o: Obj)
    requires WellFormed(s) && Enabled(s, a) && o in s.gone && o !in s.visible
    ensures var s' := Apply(s, a);
      o in s'.gone && s'.gone[o] == s.gone[o] && o !in s'.visible && s'.gens.Keys == s.gens.Keys
  {
    hide Deferred, Processed, FreedBy, EpochOf, Seen;
  }

  ghost predicate Past(s: State) {
    forall o, c :: o in s.gone && c in s.gone[o] ==> c in s.gens && s.gone[o][c] <= s.gens[c]
  }

  lemma {:induction false} StampIsPast(states: seq<State>, actions: seq<Action>, i: nat)
    requires IsRun(states, actions) && i < |states|
    ensures Past(states[i])
  {
    hide Inv;
    if i > 0 {
      StampIsPast(states, actions, i - 1);
      PastStep(states[i - 1], actions[i - 1]);
    }
  }

  lemma PastStep(s: State, a: Action)
    requires WellFormed(s) && Enabled(s, a) && Past(s)
    ensures Past(Apply(s, a))
  {
    hide Deferred, Processed, FreedBy, EpochOf, Seen;
  }

  // ---------- Why the condition is needed ----------

  ghost predicate Leads(s: State, actions: seq<Action>, t: State)
    decreases |actions|
  {
    if actions == [] then s == t
    else WellFormed(s) && Enabled(s, actions[0]) && Leads(Apply(s, actions[0]), actions[1..], t)
  }

  lemma LeadsOn(s: State, a: Action, actions: seq<Action>, t: State)
    requires WellFormed(s) && Enabled(s, a) && Leads(Apply(s, a), actions, t)
    ensures Leads(s, [a] + actions, t)
  {
    hide Apply, Enabled;
    assert ([a] + actions)[1..] == actions;
  }

  lemma {:induction false} LeadsConcat(s: State, a: seq<Action>, t: State, b: seq<Action>, u: State)
    requires Leads(s, a, t) && Leads(t, b, u)
    ensures Leads(s, a + b, u)
    decreases |a|
  {
    hide Enabled, Apply;
    if a == [] {
      assert a + b == b;
    } else {
      assert (a + b)[1..] == a[1..] + b;
      LeadsConcat(Apply(s, a[0]), a[1..], t, b, u);
    }
  }

  /**
   An object waits in a's queue under epoch e while some CPUs, which were already past e when
   the object was removed, still hold it.
   */
  ghost predicate Late(s: State, o: Obj, a: Cpu, e: nat, hold: set<Cpu>) {
    && WellFormed(s) && a in s.gens && a !in hold && e <= s.gens[a] && HeldPast(s, o, e, hold)
    && exists b :: b in Batches(s.queues[a]) && b.epoch == e && o in b.objs
  }

  ghost predicate HeldPast(s: State, o: Obj, e: nat, hold: set<Cpu>) {
    forall c :: c in hold ==> Holds(s, c, o) && e < s.gens[c]
  }

  ghost function Behind(s: State, a: Cpu, e: nat): set<Cpu> { set d | d in s.gens && d != a && s.gens[d] <= e }

  lemma LeadsOne(s: State, a: Action)
    requires WellFormed(s) && Enabled(s, a)
    ensures Leads(s, [a], Apply(s, a))
  {
    hide Apply, Enabled;
    assert Leads(Apply(s, a), [], Apply(s, a));
    assert [a][1..] == [];
  }

  /** A counter can always go on; when every tick finds the CPU in the middle of a deferral, nothing is freed. */
  lemma CounterCanGoOn(s: State, c: Cpu) returns (actions: seq<Action>, t: State)
    requires WellFormed(s) && c in s.gens
    ensures Leads(s, actions, t) && c in t.gens && t.gens[c] == s.gens[c] + 1
    ensures t.freed == s.freed && t.queues == s.queues
  {
    var s1 := s;
    actions := [];
    if c in s.ticking {
      s1 := Apply(s, Skip(c));
      LeadsOne(s, Skip(c));
      actions := [Skip(c)];
    }
    t := Apply(s1, Quiesce(c));
    LeadsOne(s1, Quiesce(c));
    LeadsConcat(s, actions, s1, [Quiesce(c)], t);
    actions := actions + [Quiesce(c)];
  }

  /** Another CPU begins a tick, or ends one with the counters as they are. */
  lemma BeginOther(s: State, o: Obj, a: Cpu, e: nat, hold: set<Cpu>, d: Cpu)
    requires Late(s, o, a, e, hold) && d in s.gens && d != a && d !in hold && d !in s.ticking
    ensures Enabled(s, Quiesce(d))
    ensures var t := Apply(s, Quiesce(d));
      Late(t, o, a, e, hold) && t.gens == s.gens[d := s.gens[d] + 1] && d in t.ticking
  {
    hide Batches;
  }

  lemma EndOther(s: State, o: Obj, a: Cpu, e: nat, hold: set<Cpu>, d: Cpu)
    requires Late(s, o, a, e, hold) && d in s.gens && d != a && d !in hold && d in s.ticking
    ensures Enabled(s, Collect(d, s.gens))
    ensures var t := Apply(s, Collect(d, s.gens)); Late(t, o, a, e, hold) && t.gens == s.gens && d !in t.ticking
  {
    hide Processed, FreedBy, Batches;
  }

  /** Only counters and callback passes. */
  predicate Ticks(actions: seq<Action>) { forall a :: a in actions ==> a.Quiesce? || a.Collect? }

  lemma OneTick(s: State, o: Obj, a: Cpu, e: nat, hold: set<Cpu>, d: Cpu) returns (actions: seq<Action>, t: State)
    requires Late(s, o, a, e, hold) && d in s.gens && d != a && d !in hold
    ensures Leads(s, actions, t) && Ticks(actions) && Late(t, o, a, e, hold) && t.gens == s.gens[d := s.gens[d] + 1]
  {
    LateFacts(s, o, a, e, hold);
    hide Late, Apply, Enabled;
    var s1 := s;
    actions := [];
    if d in s.ticking {
      EndOther(s, o, a, e, hold, d);
      s1 := Apply(s, Collect(d, s.gens));
      LeadsOne(s, Collect(d, s.gens));
      actions := [Collect(d, s.gens)];
    }
    LateFacts(s1, o, a, e, hold);
    BeginOther(s1, o, a, e, hold, d);
    t := Apply(s1, Quiesce(d));
    LeadsOne(s1, Quiesce(d));
    LeadsConcat(s, actions, s1, [Quiesce(d)], t);
    actions := actions + [Quiesce(d)];
  }

  /** A CPU that is behind ticks until it is past the epoch. */
  lemma {:induction false} CatchUp(s: State, o: Obj, a: Cpu, e: nat, hold: set<Cpu>, d: Cpu)
    returns (actions: seq<Action>, t: State)
    requires Late(s, o, a, e, hold) && d in Behind(s, a, e)
    ensures Leads(s, actions, t) && Ticks(actions) && Late(t, o, a, e, hold) && Behind(t, a, e) == Behind(s, a, e) - {d}
    decreases e - s.gens[d]
  {
    LateFacts(s, o, a, e, hold);
    hide Late, Apply, Enabled;
    var first, s1 := OneTick(s, o, a, e, hold, d);
    if s1.gens[d] > e {
      actions, t := first, s1;
      assert Behind(t, a, e) == Behind(s, a, e) - {d};
    } else {
      assert Behind(s1, a, e) == Behind(s, a, e);
      var rest;
      rest, t := CatchUp(s1, o, a, e, hold, d);
      hide Leads;
      LeadsConcat(s, first, s1, rest, t);
      actions := first + rest;
    }
  }

  lemma LateFacts(s: State, o: Obj, a: Cpu, e: nat, hold: set<Cpu>)
    requires Late(s, o, a, e, hold)
    ensures WellFormed(s) && a in s.gens && a !in hold && HeldPast(s, o, e, hold)
  {
  }

  lemma {:induction false} AllCatchUp(s: State, o: Obj, a: Cpu, e: nat, hold: set<Cpu>)
    returns (actions: seq<Action>, t: State)
    requires Late(s, o, a, e, hold)
    ensures Leads(s, actions, t) && Ticks(actions) && Late(t, o, a, e, hold) && Behind(t, a, e) == {}
    decreases Behind(s, a, e)
  {
    hide Late, Apply, Enabled;
    if Behind(s, a, e) == {} {
      actions, t := [], s;
    } else {
      var d :| d in Behind(s, a, e);
      var first, mid := CatchUp(s, o, a, e, hold, d);
      var rest;
      rest, t := AllCatchUp(mid, o, a, e, hold);
      LeadsConcat(s, first, mid, rest, t);
      actions := first + rest;
    }
  }

  lemma NobodyBehind(s: State, a: Cpu, e: nat)
    requires a in s.gens && e < s.gens[a] && Behind(s, a, e) == {}
    ensures Passed(e, s.gens)
  {
    forall d | d in s.gens
      ensures e < s.gens[d]
    {
      if d != a { assert d !in Behind(s, a, e); }
    }
  }

  /** When everybody is past the epoch, the owner's callback pass frees the object. */
  lemma LastPass(s: State, o: Obj, a: Cpu, e: nat, hold: set<Cpu>)
    requires Late(s, o, a, e, hold) && Behind(s, a, e) == {} && e < s.gens[a] && a in s.ticking
    ensures Enabled(s, Collect(a, s.gens))
    ensures var t := Apply(s, Collect(a, s.gens)); o in t.freed && HeldPast(t, o, e, hold)
  {
    NobodyBehind(s, a, e);
    hide Processed, Batches, Passed, Behind;
    var b :| b in Batches(s.queues[a]) && b.epoch == e && o in b.objs;
    ExpiredMembers(Batches(s.queues[a]), s.gens, o);
    assert o in FreedBy(s.queues[a], s.gens);
    hide FreedBy;
  }

  /** The owner begins a tick. */
  lemma OwnerBegins(s: State, o: Obj, a: Cpu, e: nat, hold: set<Cpu>)
    requires Late(s, o, a, e, hold) && a !in s.ticking
    ensures Enabled(s, Quiesce(a))
    ensures var t := Apply(s, Quiesce(a));
      Late(t, o, a, e, hold) && Behind(t, a, e) == Behind(s, a, e) && e < t.gens[a] && a in t.ticking
  {
    hide Batches;
    var t := Apply(s, Quiesce(a));
    assert t.gens == s.gens[a := s.gens[a] + 1];
  }

  /** The owner ends a tick in which its own counter had not passed the epoch yet. */
  lemma OwnerEnds(s: State, o: Obj, a: Cpu, e: nat, hold: set<Cpu>)
    requires Late(s, o, a, e, hold) && a in s.ticking && s.gens[a] <= e
    ensures Enabled(s, Collect(a, s.gens))
    ensures var t := Apply(s, Collect(a, s.gens));
      Late(t, o, a, e, hold) && Behind(t, a, e) == Behind(s, a, e) && a !in t.ticking
  {
    hide Processed, FreedBy, Batches;
    var b :| b in Batches(s.queues[a]) && b.epoch == e && o in b.objs;
    assert !Passed(e, s.gens);
    UnpassedStays(s.queues[a], s.gens, s.gens[a], b);
    var t := Apply(s, Collect(a, s.gens));
    assert t.gens == s.gens && t.refs == s.refs && t.queues[a] == Processed(s.queues[a], s.gens, s.gens[a]);
  }

  lemma UnpassedStays(q: Queue, snap: Gens, gen: nat, b: Batch)
    requires b in Batches(q) && !Passed(b.epoch, snap)
    ensures b in Batches(Processed(q, snap, gen))
  {
    hide Passed;
    KeptMembers(q.pending, snap);
  }

  /** From there on, at most three steps of the owner. */
  lemma OwnerFrees(s: State, o: Obj, a: Cpu, e: nat, hold: set<Cpu>) returns (actions: seq<Action>, t: State)
    requires Late(s, o, a, e, hold) && Behind(s, a, e) == {}
    ensures Leads(s, actions, t) && Ticks(actions) && o in t.freed && HeldPast(t, o, e, hold)
    decreases if a !in s.ticking then 1 else if s.gens[a] <= e then 2 else 0
  {
    LateFacts(s, o, a, e, hold);
    hide Late, Apply, Enabled, Holds, Behind, Leads;
    if a !in s.ticking {
      OwnerBegins(s, o, a, e, hold);
      LeadsOne(s, Quiesce(a));
      var s1 := Apply(s, Quiesce(a));
      var rest;
      rest, t := OwnerFrees(s1, o, a, e, hold);
      LeadsConcat(s, [Quiesce(a)], s1, rest, t);
      actions := [Quiesce(a)] + rest;
    } else if s.gens[a] <= e {
      OwnerEnds(s, o, a, e, hold);
      LeadsOne(s, Collect(a, s.gens));
      var s1 := Apply(s, Collect(a, s.gens));
      var rest;
      rest, t := OwnerFrees(s1, o, a, e, hold);
      LeadsConcat(s, [Collect(a, s.gens)], s1, rest, t);
      actions := [Collect(a, s.gens)] + rest;
    } else {
      LastPass(s, o, a, e, hold);
      LeadsOne(s, Collect(a, s.gens));
      actions, t := [Collect(a, s.gens)], Apply(s, Collect(a, s.gens));
    }
  }

  lemma LateIsFreed(s: State, o: Obj, a: Cpu, e: nat, hold: set<Cpu>) returns (actions: seq<Action>, t: State)
    requires Late(s, o, a, e, hold)
    ensures Leads(s, actions, t) && Ticks(actions) && o in t.freed && HeldPast(t, o, e, hold)
  {
    hide Late, Leads, HeldPast, Behind;
    var first, mid := AllCatchUp(s, o, a, e, hold);
    var rest;
    rest, t := OwnerFrees(mid, o, a, e, hold);
    LeadsConcat(s, first, mid, rest, t);
    actions := first + rest;
  }

  /**
   The converse: whenever a reader still holds an object that was queued under an epoch its
   CPU had already passed, ticks of the other CPUs alone get it freed under the reader.
   */
  lemma LateIsFreedInUse(s: State, o: Obj, a: Cpu, e: nat, c: Cpu) returns (actions: seq<Action>, t: State)
    requires Late(s, o, a, e, {c})
    ensures Leads(s, actions, t) && Ticks(actions) && o in t.freed && Holds(t, c, o)
  {
    hide Late, Leads;
    actions, t := LateIsFreed(s, o, a, e, {c});
  }

  // ---------- Exactly when ----------

  /** A batch is never ahead of its own CPU. */
  ghost predicate OwnEpochs(s: State)
    requires WellFormed(s)
  {
    forall c :: c in s.gens ==> forall b :: b in Batches(s.queues[c]) ==> b.epoch <= s.gens[c]
  }

  lemma OwnEpochsStep(s: State, a: Action)
    requires WellFormed(s) && OwnEpochs(s) && Enabled(s, a)
    ensures WellFormed(Apply(s, a)) && OwnEpochs(Apply(s, a))
  {
    hide Deferred, Processed, Batches, FreedBy, EpochOf, Seen;
    var s' := Apply(s, a);
    forall c, b | c in s'.gens && b in Batches(s'.queues[c])
      ensures b.epoch <= s'.gens[c]
    {
      if a.Defer? && c == a.c {
        DeferredEpochs(s.queues[c], a.o, s.gens[c], a.cap, b);
      } else if a.Collect? && c == a.c {
        ProcessedEpochs(s.queues[c], a.snap, s.gens[c], b);
      }
    }
  }

  lemma DeferredEpochs(q: Queue, o: Obj, gen: nat, cap: nat, b: Batch)
    requires b in Batches(Deferred(q, o, gen, cap)) && forall x :: x in Batches(q) ==> x.epoch <= gen
    ensures b.epoch <= gen
  {
    if q.current.Some? { assert q.current.value in Batches(q); }
    assert forall x :: x in q.pending ==> x in Batches(q);
  }

  lemma ProcessedEpochs(q: Queue, snap: Gens, gen: nat, b: Batch)
    requires b in Batches(Processed(q, snap, gen)) && forall x :: x in Batches(q) ==> x.epoch <= gen
    ensures b.epoch <= gen
  {
    KeptMembers(q.pending, snap);
    if q.current.Some? { assert q.current.value in Batches(q); }
    assert forall x :: x in q.pending ==> x in Batches(q);
  }

  /** What is kept along every continuation. */
  ghost predicate Sound(s: State) { Inv(s) && OwnEpochs(s) }

  lemma {:induction false} RunSound(states: seq<State>, actions: seq<Action>, i: nat)
    requires IsRun(states, actions) && i < |states|
    ensures Sound(states[i])
  {
    hide Inv, OwnEpochs, Enabled, Apply;
    RunInv(states, actions, i);
    if i == 0 {
      InitOwnEpochs(states[0]);
    } else {
      RunSound(states, actions, i - 1);
      OwnEpochsStep(states[i - 1], actions[i - 1]);
    }
  }

  lemma InitOwnEpochs(s: State)
    requires Init(s)
    ensures OwnEpochs(s)
  {
  }

  lemma FixedStep(s: State, a: Action, o: Obj)
    requires WellFormed(s) && Sorted(s) && Enabled(s, a) && o in s.owner
    ensures var s' := Apply(s, a);
      && o in s'.owner && s'.owner[o] == s.owner[o] && o in s'.epoch && o in s.epoch && s'.epoch[o] == s.epoch[o]
      && o in s'.gone && o in s.gone && s'.gone[o] == s.gone[o]
  {
    hide Deferred, Processed, FreedBy, EpochOf, Seen;
  }

  /** Along every continuation the invariant holds, and a queued object keeps its owner, epoch and stamp. */
  lemma {:induction false} LeadsSound(s: State, actions: seq<Action>, t: State, o: Obj)
    requires Sound(s) && Leads(s, actions, t) && o in s.owner
    ensures Sound(t) && o in t.owner && t.owner[o] == s.owner[o]
    ensures o in t.epoch && o in s.epoch && t.epoch[o] == s.epoch[o]
    ensures o in t.gone && o in s.gone && t.gone[o] == s.gone[o]
    decreases |actions|
  {
    hide Stamped, Filed, TimelyAreSafe, OwnEpochs, Enabled, Apply;
    assert Sorted(s);
    if actions != [] {
      var s1 := Apply(s, actions[0]);
      StepInv(s, actions[0]);
      OwnEpochsStep(s, actions[0]);
      FixedStep(s, actions[0], o);
      LeadsSound(s1, actions[1..], t, o);
    }
  }

  ghost predicate FreedUnder(s: State, actions: seq<Action>, t: State, o: Obj, c: Cpu) {
    Leads(s, actions, t) && o in t.freed && Holds(t, c, o)
  }

  /**
   In every state of every run, for an object that waits in a's queue and a reader that holds
   it: some continuation frees it under the reader if and only if the reader is on another
   CPU, which was past the object's epoch when it was removed.
   */
  lemma FreedUnderReaderExactly(states: seq<State>, actions: seq<Action>, i: nat, o: Obj, a: Cpu, b: Batch, c: Cpu)
    requires IsRun(states, actions) && i < |states| && a in states[i].gens && a in states[i].queues
    requires b in Batches(states[i].queues[a]) && o in b.objs && Holds(states[i], c, o)
    ensures o in states[i].gone && c in states[i].gone[o]
    ensures (exists path, t :: FreedUnder(states[i], path, t, o, c)) <==> c != a && b.epoch < states[i].gone[o][c]
  {
    var s := states[i];
    RunSound(states, actions, i);
    QueuedFacts(s, o, a, b, c);
    hide Init, Enabled, Apply, Sound, Inv;
    if path, t :| FreedUnder(s, path, t, o, c) {
      LeadsSound(s, path, t, o);
      NotTimely(t, o, c);
    }
    if c != a && b.epoch < s.gone[o][c] {
      var path, t := LateIsFreedInUse(s, o, a, b.epoch, c);
      assert FreedUnder(s, path, t, o, c);
    }
  }

  /** In every state of every run, whatever waits can still be freed, by ticks alone. */
  lemma EveryDeferralCanBeFreed(states: seq<State>, actions: seq<Action>, i: nat, o: Obj, a: Cpu)
      returns (path: seq<Action>, t: State)
    requires IsRun(states, actions) && i < |states| && a in states[i].queues && Waits(states[i].queues[a], o) > 0
    ensures Leads(states[i], path, t) && Ticks(path) && o in t.freed
  {
    var s := states[i];
    RunSound(states, actions, i);
    var b := SomeBatch(Batches(s.queues[a]), o);
    assert Late(s, o, a, b.epoch, {});
    hide Late, Sound, Apply, Enabled, Leads, HeldPast;
    path, t := LateIsFreed(s, o, a, b.epoch, {});
  }

  lemma {:induction false} SomeBatch(bs: seq<Batch>, o: Obj) returns (b: Batch)
    requires o in Contents(bs)
    ensures b in bs && o in b.objs
  {
    if o in bs[0].objs {
      b := bs[0];
    } else {
      b := SomeBatch(bs[1..], o);
    }
  }

  lemma QueuedFacts(s: State, o: Obj, a: Cpu, b: Batch, c: Cpu)
    requires Sound(s) && a in s.gens && b in Batches(s.queues[a]) && o in b.objs && Holds(s, c, o)
    ensures o in s.owner && s.owner[o] == a && o in s.epoch && s.epoch[o] == b.epoch
    ensures o in s.gone && c in s.gone[o] && s.gone[o][c] == s.gens[c]
    ensures c != a && b.epoch < s.gens[c] ==> Late(s, o, a, b.epoch, {c})
  {
    assert FiledAt(s, a, Batches(s.queues[a]));
  }

  lemma NotTimely(t: State, o: Obj, c: Cpu)
    requires Sound(t) && o in t.freed && Holds(t, c, o)
    ensures !Timely(t, o, c)
  {
  }

  /** Publish, read, remove, defer. */
  ghost function Retired(s: State, o: Obj, a: Cpu, c: Cpu): State
    requires WellFormed(s) && a in s.gens && c in s.gens
  {
    s.(refs := s.refs[c := s.refs[c] + {o}], visible := s.visible + {o} - {o}, gone := s.gone[o := s.gens],
       queues := s.queues[a := Deferred(s.queues[a], o, s.gens[a], 10)],
       owner := s.owner[o := a], epoch := s.epoch[o := EpochOf(s.queues[a], s.gens[a])])
  }

  lemma RetireSteps(s: State, o: Obj, a: Cpu, c: Cpu)
    requires WellFormed(s) && a in s.gens && c in s.gens && s.ticking == {}
    requires o !in s.visible && o !in s.gone && o !in s.owner
    ensures Leads(s, [Publish(o)] + ([Read(c, o)] + ([Remove(o)] + ([Defer(a, o, 10)] + []))), Retired(s, o, a, c))
  {
    hide Deferred, EpochOf;
    var s1 := Apply(s, Publish(o));
    var s2 := Apply(s1, Read(c, o));
    var s3 := Apply(s2, Remove(o));
    var s4 := Apply(s3, Defer(a, o, 10));
    assert s4 == Retired(s, o, a, c);
    assert Leads(s4, [], s4);
    hide Leads;
    LeadsOn(s3, Defer(a, o, 10), [], s4);
    LeadsOn(s2, Remove(o), [Defer(a, o, 10)] + [], s4);
    LeadsOn(s1, Read(c, o), [Remove(o)] + ([Defer(a, o, 10)] + []), s4);
    LeadsOn(s, Publish(o), [Read(c, o)] + ([Remove(o)] + ([Defer(a, o, 10)] + [])), s4);
  }

  /** On an idle system, a CPU that is ahead of another can lose any object it reads. */
  lemma AheadIsLate(s: State, o: Obj, a: Cpu, c: Cpu)
    requires WellFormed(s) && a in s.gens && c in s.gens && a != c && s.gens[a] < s.gens[c]
    requires s.queues[a] == Queue([], None)
    ensures Late(Retired(s, o, a, c), o, a, s.gens[a], {c})
  {
    var b := Batch(s.gens[a], [o]);
    assert [] + [o] == [o];
    assert Retired(s, o, a, c).queues[a] == Queue([], Some(b));
    assert b in Batches(Queue([], Some(b)));
  }

  lemma FirstTick(s: State)
    requires Init(s) && 0 in s.gens && 1 in s.gens && s.gens[0] == s.gens[1] == 0
    ensures var s1 := s.(gens := s.gens[1 := 1], refs := s.refs[1 := {}], ticking := {1});
      var t := s1.(ticking := {}, queues := s1.queues[1 := Queue([], None)]);
      && Leads(s, [Quiesce(1)] + [Collect(1, s1.gens)], t)
      && WellFormed(t) && t.gens.Keys == s.gens.Keys && t.gens[0] == 0 && t.gens[1] == 1
      && t.queues[0] == Queue([], None)
      && t.visible == {} && t.gone == map[] && t.owner == map[]
  {
    var s1 := s.(gens := s.gens[1 := 1], refs := s.refs[1 := {}], ticking := {1});
    var t := s1.(ticking := {}, queues := s1.queues[1 := Queue([], None)]);
    LeadsOne(s, Quiesce(1));
    assert s.ticking + {1} == {1};
    assert Apply(s, Quiesce(1)) == s1;
    EmptyPass(s1.gens, 1);
    hide Processed, FreedBy;
    LeadsOne(s1, Collect(1, s1.gens));
    assert s1.ticking - {1} == {} && s1.freed + multiset{} == s1.freed;
    assert Apply(s1, Collect(1, s1.gens)) == t;
    LeadsConcat(s, [Quiesce(1)], s1, [Collect(1, s1.gens)], t);
  }

  lemma EmptyPass(snap: Gens, gen: nat)
    ensures Processed(Queue([], None), snap, gen) == Queue([], None) && FreedBy(Queue([], None), snap) == multiset{}
  {
  }

  /** A complete run on any machine with two CPUs: CPU 1 has ticked once, CPU 0 not yet. */
  lemma FreedInUseIsReachable(s: State) returns (path: seq<Action>, t: State)
    requires Init(s) && 0 in s.gens && 1 in s.gens && s.gens[0] == s.gens[1] == 0
    ensures FreedUnder(s, path, t, 7, 1)
  {
    hide Apply, Enabled, Leads, Late, Retired, Holds;
    FirstTick(s);
    var s0 := s.(gens := s.gens[1 := 1], refs := s.refs[1 := {}], ticking := {1});
    var s1 := s0.(ticking := {}, queues := s0.queues[1 := Queue([], None)]);
    hide Init;
    RetireSteps(s1, 7, 0, 1);
    AheadIsLate(s1, 7, 0, 1);
    var mid := Retired(s1, 7, 0, 1);
    path, t := LateIsFreedInUse(mid, 7, 0, 0, 1);
    var retire := [Publish(7)] + ([Read(1, 7)] + ([Remove(7)] + ([Defer(0, 7, 10)] + [])));
    LeadsConcat(s1, retire, mid, path, t);
    var first := [Quiesce(1)] + [Collect(1, s0.gens)];
    LeadsConcat(s, first, s1, retire + path, t);
    path := first + (retire + path);
  }
}
