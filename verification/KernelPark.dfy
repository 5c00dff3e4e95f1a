/**
 The kernel's park and wake handshake: a thread leaves its kernel stack with a four-state
 word, a flag that says its stack switch is still under way, and a note on the parking CPU;
 any number of wakers, of senders that hand their CPU over to it, and the parking CPU's next
 exception arbitrate who puts it back on a run queue or runs it at once.
 */
module KernelPark {
  type Cpu = nat
  type Waker = nat

  datatype Park = Nobody | Enqueued | Committed | Woken

  /** Where the parking thread is. */
  datatype Pc =
    | Running      // executing on its kernel stack
    | Saved        // frame saved, word published
    | Flagged      // stack_switch_pending set
    | Listed       // parked_tid of its CPU set
    | Switching    // committed, still on its kernel stack
    | Unwind       // woken before committing; flag still set
    | Unlist       // flag cleared again; note still set
    | Off          // off its kernel stack

  /** clear_pending_switch on a CPU that has taken the note. */
  datatype ClearPc = Swapped | Stored | Won

  /** wake_parked_thread, or a sender's direct hand-off. */
  datatype WakePc =
    | Idle
    | Early | Normal | Load | Claim | Enqueue
    | Swap         // about to swap the word of a committed thread
    | Fallback     // about to stop a thread that has not committed
    | Spin         // has the word; waits for the flag to drop
    | Resume       // about to run the thread on its own CPU

  datatype State = State(
    park: Park, flag: bool, pc: Pc, cpu: Cpu, noted: set<Cpu>,
    clears: map<Cpu, ClearPc>, wakers: map<Waker, WakePc>, queued: nat)

  /** One atomic access of one party. */
  datatype Action =
    | Save | Arm | Note | Commit | Disarm | Unnote | Switch
    | ClearStart(c: Cpu) | ClearStore(c: Cpu) | ClearCas(c: Cpu) | ClearEnqueue(c: Cpu)
    | Wake(w: Waker) | WakeEarly(w: Waker) | WakeNormal(w: Waker)
    | WakeLoad(w: Waker) | WakeClaim(w: Waker) | WakeEnqueue(w: Waker)
    | Hand(w: Waker) | HandSwap(w: Waker) | HandFallback(w: Waker) | HandSpin(w: Waker) | HandOver(w: Waker, c: Cpu)
    | Dispatch(c: Cpu)

  type Wakers = map<Waker, WakePc>
  type Clears = map<Cpu, ClearPc>

  predicate WakerAt(m: Wakers, w: Waker, p: WakePc) { w in m && m[w] == p }

  predicate ClearAt(m: Clears, c: Cpu, p: ClearPc) { c in m && m[c] == p }

  /** A CPU in the middle of parking the thread takes no exception. */
  predicate Busy(s: State, c: Cpu) { c == s.cpu && s.pc != Off }

  predicate Enabled(s: State, a: Action) {
    match a
    case Save => s.pc == Running
    case Arm => s.pc == Saved
    case Note => s.pc == Flagged
    case Commit => s.pc == Listed
    case Disarm => s.pc == Unwind
    case Unnote => s.pc == Unlist
    case Switch => s.pc == Switching
    case ClearStart(c) => c in s.noted && c !in s.clears && !Busy(s, c)
    case ClearStore(c) => ClearAt(s.clears, c, Swapped)
    case ClearCas(c) => ClearAt(s.clears, c, Stored)
    case ClearEnqueue(c) => ClearAt(s.clears, c, Won)
    case Wake(w) => WakerAt(s.wakers, w, Idle)
    case WakeEarly(w) => WakerAt(s.wakers, w, Early)
    case WakeNormal(w) => WakerAt(s.wakers, w, Normal)
    case WakeLoad(w) => WakerAt(s.wakers, w, Load)
    case WakeClaim(w) => WakerAt(s.wakers, w, Claim)
    case WakeEnqueue(w) => WakerAt(s.wakers, w, Enqueue)
    case Hand(w) => WakerAt(s.wakers, w, Idle)
    case HandSwap(w) => WakerAt(s.wakers, w, Swap)
    case HandFallback(w) => WakerAt(s.wakers, w, Fallback)
    case HandSpin(w) => WakerAt(s.wakers, w, Spin)
    case HandOver(w, c) => WakerAt(s.wakers, w, Resume) && s.pc == Off && c !in s.clears && c !in s.noted
    case Dispatch(c) => s.queued > 0 && s.pc == Off && c !in s.clears && c !in s.noted
  }

  function MoveWaker(s: State, w: Waker, p: WakePc): State { s.(wakers := s.wakers[w := p]) }

  function MoveClear(s: State, c: Cpu, p: ClearPc): State { s.(clears := s.clears[c := p]) }

  function EndClear(s: State, c: Cpu): State { s.(clears := s.clears - {c}) }

  function Apply(s: State, a: Action): State
    requires Enabled(s, a)
  {
    match a
    case Save => s.(pc := Saved, park := Enqueued)
    case Arm => s.(pc := Flagged, flag := true)
    case Note => s.(pc := Listed, noted := s.noted + {s.cpu})
    case Commit => if s.park == Enqueued then s.(pc := Switching, park := Committed) else s.(pc := Unwind)
    case Disarm => s.(pc := Unlist, flag := false)
    case Unnote => s.(pc := Running, noted := s.noted - {s.cpu})
    case Switch => s.(pc := Off)
    case ClearStart(c) => MoveClear(s, c, Swapped).(noted := s.noted - {c})
    case ClearStore(c) => MoveClear(s, c, Stored).(flag := false)
    case ClearCas(c) => if s.park == Woken then MoveClear(s, c, Won).(park := Nobody) else EndClear(s, c)
    case ClearEnqueue(c) => EndClear(s, c).(queued := s.queued + 1)
    case Wake(w) => MoveWaker(s, w, Early)
    case WakeEarly(w) => if s.park == Enqueued then MoveWaker(s, w, Idle).(park := Nobody) else MoveWaker(s, w, Normal)
    case WakeNormal(w) => if s.park == Committed then MoveWaker(s, w, Load).(park := Woken) else MoveWaker(s, w, Idle)
    case WakeLoad(w) => MoveWaker(s, w, if s.flag then Idle else Claim)
    case WakeClaim(w) => if s.park == Woken then MoveWaker(s, w, Enqueue).(park := Nobody) else MoveWaker(s, w, Idle)
    case WakeEnqueue(w) => MoveWaker(s, w, Idle).(queued := s.queued + 1)
    case Hand(w) => MoveWaker(s, w, Swap)
    case HandSwap(w) =>
      if s.park == Committed then MoveWaker(s, w, Spin).(park := Nobody) else MoveWaker(s, w, Fallback)
    case HandFallback(w) => if s.park == Enqueued then MoveWaker(s, w, Idle).(park := Nobody) else MoveWaker(s, w, Idle)
    case HandSpin(w) => MoveWaker(s, w, if s.flag then Spin else Resume)
    case HandOver(w, c) => MoveWaker(s, w, Idle).(pc := Running, cpu := c)
    case Dispatch(c) => s.(pc := Running, cpu := c, queued := s.queued - 1)
  }

  ghost predicate Init(s: State) {
    && s.park == Nobody && !s.flag && s.pc == Running && s.noted == {} && s.clears == map[] && s.queued == 0
    && forall w :: w in s.wakers ==> s.wakers[w] == Idle
  }

  ghost function WakersAt(ws: Wakers, p: WakePc): set<Waker> { set w | w in ws && ws[w] == p }

  ghost function ClearsAt(cs: Clears, p: ClearPc): set<Cpu> { set c | c in cs && cs[c] == p }

  /** A claim that is between its look at the flag and its swap of the word. */
  ghost predicate Claiming(s: State) { WakersAt(s.wakers, Claim) != {} || ClearsAt(s.clears, Stored) != {} }

  /** No claim of an earlier round is outstanding when the thread commits. */
  ghost predicate Tidy(s: State, a: Action) { a == Commit && s.park == Enqueued ==> !Claiming(s) }

  ghost predicate IsRun(states: seq<State>, actions: seq<Action>) {
    && |states| == |actions| + 1 && Init(states[0])
    && forall i :: 0 <= i < |actions| ==>
      Enabled(states[i], actions[i]) && states[i + 1] == Apply(states[i], actions[i])
  }

  ghost predicate IsTidy(states: seq<State>, actions: seq<Action>) {
    |states| == |actions| + 1 && forall i :: 0 <= i < |actions| ==> Tidy(states[i], actions[i])
  }

  // ---------- The invariant ----------

  /** A waker that has delivered its wake and has yet to look at the flag. */
  ghost predicate Loading(s: State) { WakersAt(s.wakers, Load) != {} }

  /** How many parties may run the thread or put it on a queue, or have put it there. */
  ghost function Ready(s: State): nat {
    s.queued + |WakersAt(s.wakers, Enqueue)| + |WakersAt(s.wakers, Resume)| + |ClearsAt(s.clears, Won)|
  }

  /** The same, with the sender that waits for the flag. */
  ghost function Claims(s: State): nat { Ready(s) + |WakersAt(s.wakers, Spin)| }

  /** The thread has committed and is not back. */
  predicate Away(s: State) { s.pc == Switching || s.pc == Off }

  /** The flag is up exactly while the stack switch may still be under way. */
  ghost predicate Place(s: State) {
    match s.pc
    case Running => s.park == Nobody && !s.flag && s.noted == {}
    case Saved => s.park in {Enqueued, Nobody} && !s.flag && s.noted == {}
    case Flagged => s.park in {Enqueued, Nobody} && s.flag && s.noted == {}
    case Listed => s.park in {Enqueued, Nobody} && s.flag && s.noted == {s.cpu}
    case Unwind => s.park == Nobody && s.flag && s.noted == {s.cpu}
    case Unlist => s.park == Nobody && !s.flag && s.noted == {s.cpu}
    case Switching => s.park in {Committed, Woken, Nobody} && s.flag && s.noted == {s.cpu}
    case Off =>
      && s.park in {Committed, Woken, Nobody} && s.noted <= {s.cpu}
      && (s.flag <==> s.cpu in s.noted || ClearAt(s.clears, s.cpu, Swapped))
  }

  ghost predicate Inv(s: State) {
    && Place(s)
    // Only the CPU that has taken the note of a thread that is off its stack is about to clear the flag.
    && (forall c :: c in ClearsAt(s.clears, Swapped) ==> c == s.cpu && s.pc == Off && c !in s.noted)
    // A claim looks at a flag that is down, and no committed thread has the flag up under it.
    && (s.flag && Away(s) ==> !Claiming(s))
    // The right to the thread exists once, and only while it is away and has been woken; with the
    // flag up only a spinning sender has it.
    && Claims(s) == (if Away(s) && s.park == Nobody then 1 else 0)
    && (s.flag && Away(s) ==> Ready(s) == 0)
    // A delivered wake has somebody to carry it out.
    && (s.park == Woken && !s.flag ==> Claiming(s) || Loading(s))
  }

  // ---------- What a move does to the parties ----------

  lemma WakerMoves(ws: Wakers, w: Waker, p: WakePc, q: WakePc)
    requires w in ws
    ensures WakersAt(ws[w := p], q) == if p == q then WakersAt(ws, q) + {w} else WakersAt(ws, q) - {w}
    ensures w in WakersAt(ws, q) <==> ws[w] == q
  {
  }

  lemma ClearMoves(cs: Clears, c: Cpu, p: ClearPc, q: ClearPc)
    ensures ClearsAt(cs[c := p], q) == if p == q then ClearsAt(cs, q) + {c} else ClearsAt(cs, q) - {c}
    ensures c in ClearsAt(cs, q) <==> c in cs && cs[c] == q
  {
  }

  lemma ClearEnds(cs: Clears, c: Cpu, q: ClearPc)
    ensures ClearsAt(cs - {c}, q) == ClearsAt(cs, q) - {c}
    ensures c in ClearsAt(cs, q) <==> c in cs && cs[c] == q
  {
  }

  lemma OneLess<T>(s: set<T>, x: T)
    ensures |s - {x}| == |s| - if x in s then 1 else 0
  {
    if x !in s { assert s - {x} == s; }
  }

  lemma OneMore<T>(s: set<T>, x: T)
    ensures |s + {x}| == |s| + if x in s then 0 else 1
  {
    if x in s { assert s + {x} == s; }
  }

  /** One waker moves; the clears stay. */
  lemma WakerEffect(ws: Wakers, w: Waker, p: WakePc)
    requires w in ws
    ensures WakersAt(ws[w := p], Claim) == if p == Claim then WakersAt(ws, Claim) + {w} else WakersAt(ws, Claim) - {w}
    ensures WakersAt(ws[w := p], Load) == if p == Load then WakersAt(ws, Load) + {w} else WakersAt(ws, Load) - {w}
    ensures w in WakersAt(ws, Claim) <==> ws[w] == Claim
    ensures w in WakersAt(ws, Load) <==> ws[w] == Load
  {
    hide WakersAt;
    WakerMoves(ws, w, p, Claim);
    WakerMoves(ws, w, p, Load);
  }

  ghost function One(b: bool): nat { if b then 1 else 0 }

  lemma WakerCount(ws: Wakers, w: Waker, p: WakePc, q: WakePc)
    requires w in ws
    ensures |WakersAt(ws[w := p], q)| == |WakersAt(ws, q)| - One(ws[w] == q) + One(p == q)
  {
    hide WakersAt;
    WakerMoves(ws, w, p, q);
    OneLess(WakersAt(ws, q), w);
    OneMore(WakersAt(ws, q), w);
  }

  lemma ClearEffect(cs: Clears, c: Cpu, p: ClearPc)
    ensures ClearsAt(cs[c := p], Swapped)
         == if p == Swapped then ClearsAt(cs, Swapped) + {c} else ClearsAt(cs, Swapped) - {c}
    ensures ClearsAt(cs[c := p], Stored)
         == if p == Stored then ClearsAt(cs, Stored) + {c} else ClearsAt(cs, Stored) - {c}
    ensures |ClearsAt(cs[c := p], Won)|
         == |ClearsAt(cs, Won)| - (if ClearAt(cs, c, Won) then 1 else 0) + (if p == Won then 1 else 0)
    ensures c in ClearsAt(cs, Swapped) <==> ClearAt(cs, c, Swapped)
    ensures c in ClearsAt(cs, Stored) <==> ClearAt(cs, c, Stored)
  {
    hide ClearsAt;
    ClearMoves(cs, c, p, Swapped);
    ClearMoves(cs, c, p, Stored);
    ClearMoves(cs, c, p, Won);
    OneLess(ClearsAt(cs, Won), c);
    OneMore(ClearsAt(cs, Won), c);
  }

  lemma ClearGone(cs: Clears, c: Cpu)
    ensures ClearsAt(cs - {c}, Swapped) == ClearsAt(cs, Swapped) - {c}
    ensures ClearsAt(cs - {c}, Stored) == ClearsAt(cs, Stored) - {c}
    ensures |ClearsAt(cs - {c}, Won)| == |ClearsAt(cs, Won)| - (if ClearAt(cs, c, Won) then 1 else 0)
    ensures c in ClearsAt(cs, Swapped) <==> ClearAt(cs, c, Swapped)
    ensures c in ClearsAt(cs, Stored) <==> ClearAt(cs, c, Stored)
  {
    hide ClearsAt;
    ClearEnds(cs, c, Swapped);
    ClearEnds(cs, c, Stored);
    ClearEnds(cs, c, Won);
    OneLess(ClearsAt(cs, Won), c);
  }

  /** What the move of one waker does to the claims. */
  lemma WakerClaims(s: State, t: State, w: Waker)
    requires w in s.wakers && w in t.wakers && t.wakers == s.wakers[w := t.wakers[w]] && t.clears == s.clears
    ensures Ready(t) == Ready(s) + t.queued - s.queued
                        - One(s.wakers[w] in {Enqueue, Resume}) + One(t.wakers[w] in {Enqueue, Resume})
    ensures Claims(t) - Ready(t) == Claims(s) - Ready(s) - One(s.wakers[w] == Spin) + One(t.wakers[w] == Spin)
    ensures Claiming(t) ==> Claiming(s) || t.wakers[w] == Claim
    ensures s.wakers[w] == Claim ==> Claiming(s)
    ensures t.wakers[w] == Claim || (Claiming(s) && s.wakers[w] != Claim) ==> Claiming(t)
    ensures t.wakers[w] == Load || (Loading(s) && s.wakers[w] != Load) ==> Loading(t)
  {
    WakerEffect(s.wakers, w, t.wakers[w]);
    hide WakersAt, ClearsAt;
    WakerCount(s.wakers, w, t.wakers[w], Enqueue);
    WakerCount(s.wakers, w, t.wakers[w], Resume);
    WakerCount(s.wakers, w, t.wakers[w], Spin);
  }

  lemma SaveInv(s: State)
    requires Inv(s) && Enabled(s, Save)
    ensures Inv(Apply(s, Save))
  {
    hide WakersAt, ClearsAt;
  }

  lemma ArmInv(s: State)
    requires Inv(s) && Enabled(s, Arm)
    ensures Inv(Apply(s, Arm))
  {
    hide WakersAt, ClearsAt;
  }

  lemma NoteInv(s: State)
    requires Inv(s) && Enabled(s, Note)
    ensures Inv(Apply(s, Note))
  {
    hide WakersAt, ClearsAt;
  }

  lemma CommitInv(s: State)
    requires Inv(s) && Enabled(s, Commit) && Tidy(s, Commit)
    ensures Inv(Apply(s, Commit))
  {
    hide WakersAt, ClearsAt;
  }

  lemma DisarmInv(s: State)
    requires Inv(s) && Enabled(s, Disarm)
    ensures Inv(Apply(s, Disarm))
  {
    hide WakersAt, ClearsAt;
  }

  lemma UnnoteInv(s: State)
    requires Inv(s) && Enabled(s, Unnote)
    ensures Inv(Apply(s, Unnote))
  {
    hide WakersAt, ClearsAt;
  }

  lemma SwitchInv(s: State)
    requires Inv(s) && Enabled(s, Switch)
    ensures Inv(Apply(s, Switch))
  {
    hide WakersAt, ClearsAt;
  }

  lemma ClearStartInv(s: State, c: Cpu)
    requires Inv(s) && Enabled(s, ClearStart(c))
    ensures Inv(Apply(s, ClearStart(c)))
  {
    ClearEffect(s.clears, c, Swapped);
    hide WakersAt, ClearsAt;
  }

  lemma ClearStoreInv(s: State, c: Cpu)
    requires Inv(s) && Enabled(s, ClearStore(c))
    ensures Inv(Apply(s, ClearStore(c)))
  {
    ClearEffect(s.clears, c, Stored);
    hide WakersAt, ClearsAt;
  }

  lemma ClearCasInv(s: State, c: Cpu)
    requires Inv(s) && Enabled(s, ClearCas(c))
    ensures Inv(Apply(s, ClearCas(c)))
  {
    ClearEffect(s.clears, c, Won);
    ClearGone(s.clears, c);
    hide WakersAt, ClearsAt;
  }

  lemma ClearEnqueueInv(s: State, c: Cpu)
    requires Inv(s) && Enabled(s, ClearEnqueue(c))
    ensures Inv(Apply(s, ClearEnqueue(c)))
  {
    ClearGone(s.clears, c);
    hide WakersAt, ClearsAt;
  }

  lemma WakeInv(s: State, w: Waker)
    requires Inv(s) && Enabled(s, Wake(w))
    ensures Inv(Apply(s, Wake(w)))
  {
    var t := Apply(s, Wake(w));
    hide Claims, Ready, Claiming, Loading;
    WakerClaims(s, t, w);
  }

  lemma WakeEarlyInv(s: State, w: Waker)
    requires Inv(s) && Enabled(s, WakeEarly(w))
    ensures Inv(Apply(s, WakeEarly(w)))
  {
    var t := Apply(s, WakeEarly(w));
    assert t == if s.park == Enqueued then MoveWaker(s, w, Idle).(park := Nobody) else MoveWaker(s, w, Normal);
    assert w in s.wakers && s.wakers[w] == Early;
    hide Claims, Ready, Claiming, Loading, Apply, Enabled;
    WakerClaims(s, t, w);
  }

  lemma WakeNormalInv(s: State, w: Waker)
    requires Inv(s) && Enabled(s, WakeNormal(w))
    ensures Inv(Apply(s, WakeNormal(w)))
  {
    var t := Apply(s, WakeNormal(w));
    assert t == if s.park == Committed then MoveWaker(s, w, Load).(park := Woken) else MoveWaker(s, w, Idle);
    assert w in s.wakers && s.wakers[w] == Normal;
    hide Claims, Ready, Claiming, Loading, Apply, Enabled;
    WakerClaims(s, t, w);
  }

  lemma WakeLoadInv(s: State, w: Waker)
    requires Inv(s) && Enabled(s, WakeLoad(w))
    ensures Inv(Apply(s, WakeLoad(w)))
  {
    var t := Apply(s, WakeLoad(w));
    hide Claims, Ready, Claiming, Loading;
    WakerClaims(s, t, w);
  }

  lemma WakeClaimInv(s: State, w: Waker)
    requires Inv(s) && Enabled(s, WakeClaim(w))
    ensures Inv(Apply(s, WakeClaim(w)))
  {
    var t := Apply(s, WakeClaim(w));
    assert t == if s.park == Woken then MoveWaker(s, w, Enqueue).(park := Nobody) else MoveWaker(s, w, Idle);
    assert w in s.wakers && s.wakers[w] == Claim;
    hide Claims, Ready, Claiming, Loading, Apply, Enabled;
    WakerClaims(s, t, w);
  }

  lemma WakeEnqueueInv(s: State, w: Waker)
    requires Inv(s) && Enabled(s, WakeEnqueue(w))
    ensures Inv(Apply(s, WakeEnqueue(w)))
  {
    var t := Apply(s, WakeEnqueue(w));
    hide Claims, Ready, Claiming, Loading;
    WakerClaims(s, t, w);
  }

  lemma HandInv(s: State, w: Waker)
    requires Inv(s) && Enabled(s, Hand(w))
    ensures Inv(Apply(s, Hand(w)))
  {
    var t := Apply(s, Hand(w));
    hide Claims, Ready, Claiming, Loading;
    WakerClaims(s, t, w);
  }

  lemma HandSwapInv(s: State, w: Waker)
    requires Inv(s) && Enabled(s, HandSwap(w))
    ensures Inv(Apply(s, HandSwap(w)))
  {
    var t := Apply(s, HandSwap(w));
    assert t == if s.park == Committed then MoveWaker(s, w, Spin).(park := Nobody) else MoveWaker(s, w, Fallback);
    assert w in s.wakers && s.wakers[w] == Swap;
    hide Claims, Ready, Claiming, Loading, Apply, Enabled;
    WakerClaims(s, t, w);
  }

  lemma HandFallbackInv(s: State, w: Waker)
    requires Inv(s) && Enabled(s, HandFallback(w))
    ensures Inv(Apply(s, HandFallback(w)))
  {
    var t := Apply(s, HandFallback(w));
    assert t == MoveWaker(s, w, Idle).(park := if s.park == Enqueued then Nobody else s.park);
    assert w in s.wakers && s.wakers[w] == Fallback;
    hide Claims, Ready, Claiming, Loading, Apply, Enabled;
    WakerClaims(s, t, w);
  }

  lemma HandSpinInv(s: State, w: Waker)
    requires Inv(s) && Enabled(s, HandSpin(w))
    ensures Inv(Apply(s, HandSpin(w)))
  {
    var t := Apply(s, HandSpin(w));
    hide Claims, Ready, Claiming, Loading;
    WakerClaims(s, t, w);
  }

  /** A party that may run the thread finds it off its stack, cleared up after, and with the word free. */
  lemma ReadyIsClear(s: State)
    requires Inv(s) && s.pc == Off && Ready(s) > 0
    ensures !s.flag && s.park == Nobody && s.noted == {} && ClearsAt(s.clears, Swapped) == {} && Claims(s) == 1
  {
    assert s.cpu in ClearsAt(s.clears, Swapped) <==> ClearAt(s.clears, s.cpu, Swapped);
    hide WakersAt, ClearsAt;
  }

  lemma HandOverInv(s: State, w: Waker, c: Cpu)
    requires Inv(s) && Enabled(s, HandOver(w, c))
    ensures Inv(Apply(s, HandOver(w, c)))
  {
    var t := Apply(s, HandOver(w, c));
    assert w in WakersAt(s.wakers, Resume);
    hide WakersAt, ClearsAt;
    assert Ready(s) > 0;
    ReadyIsClear(s);
    hide Claims, Ready, Claiming, Loading;
    WakerClaims(s, t, w);
  }

  lemma DispatchInv(s: State, c: Cpu)
    requires Inv(s) && Enabled(s, Dispatch(c))
    ensures Inv(Apply(s, Dispatch(c)))
  {
    hide WakersAt, ClearsAt;
    ReadyIsClear(s);
  }

  lemma StepInv(s: State, a: Action)
    requires Inv(s) && Enabled(s, a) && Tidy(s, a)
    ensures Inv(Apply(s, a))
  {
    match a
    case Save => SaveInv(s);
    case Arm => ArmInv(s);
    case Note => NoteInv(s);
    case Commit => CommitInv(s);
    case Disarm => DisarmInv(s);
    case Unnote => UnnoteInv(s);
    case Switch => SwitchInv(s);
    case ClearStart(c) => ClearStartInv(s, c);
    case ClearStore(c) => ClearStoreInv(s, c);
    case ClearCas(c) => ClearCasInv(s, c);
    case ClearEnqueue(c) => ClearEnqueueInv(s, c);
    case Wake(w) => WakeInv(s, w);
    case WakeEarly(w) => WakeEarlyInv(s, w);
    case WakeNormal(w) => WakeNormalInv(s, w);
    case WakeLoad(w) => WakeLoadInv(s, w);
    case WakeClaim(w) => WakeClaimInv(s, w);
    case WakeEnqueue(w) => WakeEnqueueInv(s, w);
    case Hand(w) => HandInv(s, w);
    case HandSwap(w) => HandSwapInv(s, w);
    case HandFallback(w) => HandFallbackInv(s, w);
    case HandSpin(w) => HandSpinInv(s, w);
    case HandOver(w, c) => HandOverInv(s, w, c);
    case Dispatch(c) => DispatchInv(s, c);
  }

  lemma InitInv(s: State)
    requires Init(s)
    ensures Inv(s)
  {
    assert WakersAt(s.wakers, Claim) == {} && WakersAt(s.wakers, Enqueue) == {} && WakersAt(s.wakers, Load) == {};
    assert WakersAt(s.wakers, Spin) == {} && WakersAt(s.wakers, Resume) == {};
    assert ClearsAt(s.clears, Swapped) == {} && ClearsAt(s.clears, Stored) == {} && ClearsAt(s.clears, Won) == {};
  }

  // ---------- Every tidy run ----------

  lemma {:induction false} RunInv(states: seq<State>, actions: seq<Action>, i: nat)
    requires IsRun(states, actions) && IsTidy(states, actions) && i < |states|
    ensures Inv(states[i])
  {
    hide Inv, Enabled, Apply, Tidy;
    if i == 0 {
      InitInv(states[0]);
    } else {
      RunInv(states, actions, i - 1);
      assert Tidy(states[i - 1], actions[i - 1]);
      StepInv(states[i - 1], actions[i - 1]);
    }
  }

  /** How many parties are about to run the thread: run queues, and senders handing over. */
  ghost function Runnable(s: State): nat { s.queued + |WakersAt(s.wakers, Resume)| }

  /** A thread that is about to be run is off its kernel stack, and is about to be run once. */
  ghost predicate SingleOwner(s: State) { Runnable(s) <= 1 && (Runnable(s) > 0 ==> s.pc == Off) }

  /** In every tidy run, with any number of wakers and rounds, no kernel stack has two owners. */
  lemma TidyRunsAreSafe(states: seq<State>, actions: seq<Action>, i: nat)
    requires IsRun(states, actions) && IsTidy(states, actions) && i < |states|
    ensures SingleOwner(states[i])
  {
    RunInv(states, actions, i);
  }

  /** Nobody is in the middle of anything. */
  ghost predicate Quiet(s: State) {
    s.noted == {} && s.clears == map[] && forall w :: w in s.wakers ==> s.wakers[w] == Idle
  }

  /**
   In every tidy run no wake is lost: when all wakes and clears have run to their ends, a
   thread off its stack is on a queue, or has not been woken since it committed.
   */
  lemma NoWakeIsLost(states: seq<State>, actions: seq<Action>, i: nat)
    requires IsRun(states, actions) && IsTidy(states, actions) && i < |states|
    requires states[i].pc == Off && Quiet(states[i])
    ensures states[i].queued == 1 || states[i].park == Committed
  {
    var s := states[i];
    RunInv(states, actions, i);
    assert WakersAt(s.wakers, Claim) == {} && WakersAt(s.wakers, Enqueue) == {} && WakersAt(s.wakers, Load) == {};
    assert WakersAt(s.wakers, Spin) == {} && WakersAt(s.wakers, Resume) == {};
    assert ClearsAt(s.clears, Stored) == {} && ClearsAt(s.clears, Won) == {};
  }

  // ---------- Every wake arrives ----------

  /** The thread has been woken, or does not park. */
  predicate Settled(s: State) { s.park == Nobody || s.park == Woken }

  /** Only the thread itself publishes its word again. */
  lemma SettledStays(s: State, a: Action)
    requires Enabled(s, a) && a != Save
    ensures Settled(s) ==> Settled(Apply(s, a))
    ensures s.park != Enqueued ==> Apply(s, a).park != Enqueued
  {
  }

  /** A wake that is on its way: it has not looked yet, or has seen that the thread is past the early word. */
  predicate Waking(s: State, w: Waker) {
    Settled(s) || WakerAt(s.wakers, w, Early) || (WakerAt(s.wakers, w, Normal) && s.park != Enqueued)
  }

  lemma WakingStep(s: State, a: Action, w: Waker)
    requires Enabled(s, a) && a != Save && Waking(s, w)
    ensures Waking(Apply(s, a), w)
  {
    SettledStays(s, a);
    hide Settled;
    if a.WakeEarly? {
      WakeEarlySettles(s, a.w);
    } else if a.WakeNormal? {
      WakeNormalSettles(s, a.w);
    } else {
      WakerStays(s, a, w);
    }
  }

  lemma WakeEarlySettles(s: State, w: Waker)
    requires Enabled(s, WakeEarly(w))
    ensures var t := Apply(s, WakeEarly(w));
      && (Settled(t) || (WakerAt(t.wakers, w, Normal) && t.park != Enqueued))
      && forall v, p :: v != w ==> (WakerAt(s.wakers, v, p) <==> WakerAt(t.wakers, v, p))
  {
  }

  lemma WakeNormalSettles(s: State, w: Waker)
    requires Enabled(s, WakeNormal(w))
    ensures var t := Apply(s, WakeNormal(w));
      && (s.park != Enqueued ==> Settled(t))
      && forall v, p :: v != w ==> (WakerAt(s.wakers, v, p) <==> WakerAt(t.wakers, v, p))
  {
  }

  /** Nobody moves a waker that is in the middle of its two swaps but itself. */
  lemma WakerStays(s: State, a: Action, w: Waker)
    requires Enabled(s, a) && !a.WakeEarly? && !a.WakeNormal?
    ensures WakerAt(s.wakers, w, Early) ==> WakerAt(Apply(s, a).wakers, w, Early)
    ensures WakerAt(s.wakers, w, Normal) ==> WakerAt(Apply(s, a).wakers, w, Normal)
  {
  }

  /** From the call of a wake on, until the thread parks again. */
  lemma {:induction false} WakeArrives(states: seq<State>, actions: seq<Action>, j: nat, i: nat, w: Waker)
    requires IsRun(states, actions) && j < i < |states| && actions[j] == Wake(w) && Save !in actions[j..i]
    ensures Waking(states[i], w)
    decreases i
  {
    hide Init, Settled;
    if i > j + 1 {
      assert actions[j..i] == actions[j..i - 1] + [actions[i - 1]];
      WakeArrives(states, actions, j, i - 1, w);
      hide Waking, Apply, Enabled;
      WakingStep(states[i - 1], actions[i - 1], w);
    }
  }

  /**
   No wake that is made while the thread is parking or parked is lost: in every tidy run, when
   a wake has been called since the thread last published its word and all parties have run to
   their ends, the thread is on a queue, or is not off its stack at all.
   */
  lemma WakesAreDelivered(states: seq<State>, actions: seq<Action>, j: nat, i: nat, w: Waker)
    requires IsRun(states, actions) && IsTidy(states, actions) && j < i < |states|
    requires actions[j] == Wake(w) && Save !in actions[j..i] && Quiet(states[i])
    ensures states[i].pc == Off ==> states[i].queued == 1
  {
    WakeArrives(states, actions, j, i, w);
    if states[i].pc == Off {
      assert w in states[i].wakers ==> states[i].wakers[w] == Idle;
      hide IsRun, IsTidy;
      NoWakeIsLost(states, actions, i);
    }
  }

  // ---------- A hand-off arrives, unless the thread commits between its two swaps ----------

  /** A hand-off on its way. */
  predicate Handing(s: State, w: Waker) {
    Settled(s) || WakerAt(s.wakers, w, Swap) || WakerAt(s.wakers, w, Fallback)
  }

  /** The second swap comes too late. */
  predicate TooLate(s: State, a: Action, w: Waker) { a == HandFallback(w) && s.park == Committed }

  lemma HandingStep(s: State, a: Action, w: Waker)
    requires Enabled(s, a) && a != Save && Handing(s, w) && !TooLate(s, a, w)
    ensures Handing(Apply(s, a), w)
  {
    SettledStays(s, a);
  }

  lemma {:induction false} HandArrives(states: seq<State>, actions: seq<Action>, j: nat, i: nat, w: Waker)
    requires IsRun(states, actions) && j < i < |states| && actions[j] == Hand(w) && Save !in actions[j..i]
    requires forall k :: j < k < i ==> !TooLate(states[k], actions[k], w)
    ensures Handing(states[i], w)
    decreases i
  {
    hide Init, Settled, TooLate;
    if i > j + 1 {
      assert actions[j..i] == actions[j..i - 1] + [actions[i - 1]];
      HandArrives(states, actions, j, i - 1, w);
      hide Handing, Apply, Enabled;
      HandingStep(states[i - 1], actions[i - 1], w);
    }
  }

  /** The same for a hand-off, unless its second swap comes too late. */
  lemma HandOffsAreDelivered(states: seq<State>, actions: seq<Action>, j: nat, i: nat, w: Waker)
    requires IsRun(states, actions) && IsTidy(states, actions) && j < i < |states|
    requires actions[j] == Hand(w) && Save !in actions[j..i] && Quiet(states[i])
    requires forall k :: j < k < i ==> !TooLate(states[k], actions[k], w)
    ensures states[i].pc == Off ==> states[i].queued == 1
  {
    HandArrives(states, actions, j, i, w);
    if states[i].pc == Off {
      assert w in states[i].wakers ==> states[i].wakers[w] == Idle;
      hide IsRun, IsTidy;
      NoWakeIsLost(states, actions, i);
    }
  }

  // ---------- Why the condition is needed ----------

  /** The states along a list of actions. */
  ghost predicate Leads(s: State, actions: seq<Action>, t: State)
    decreases |actions|
  {
    if actions == [] then s == t
    else Enabled(s, actions[0]) && Leads(Apply(s, actions[0]), actions[1..], t)
  }

  lemma LeadsOn(s: State, a: Action, actions: seq<Action>, t: State)
    requires Enabled(s, a) && Leads(Apply(s, a), actions, t)
    ensures Leads(s, [a] + actions, t)
  {
    assert ([a] + actions)[1..] == actions;
  }

  lemma LeadsLast(s: State, a: Action)
    requires Enabled(s, a)
    ensures Leads(s, [a], Apply(s, a))
  {
    hide Enabled, Apply;
    var t := Apply(s, a);
    assert Leads(t, [], t);
    LeadsOn(s, a, [], t);
    assert [a] + [] == [a];
  }

  lemma LeadsThree(s: State, a: Action, b: Action, c: Action)
    requires Enabled(s, a) && Enabled(Apply(s, a), b) && Enabled(Apply(Apply(s, a), b), c)
    ensures Leads(s, [a, b, c], Apply(Apply(Apply(s, a), b), c))
  {
    hide Enabled, Apply;
    var t := Apply(s, a);
    var u := Apply(t, b);
    LeadsLast(u, c);
    LeadsOn(t, b, [c], Apply(u, c));
    LeadsOn(s, a, [b] + [c], Apply(u, c));
    assert [a] + ([b] + [c]) == [a, b, c];
  }

  /**
   Wherever a claim of an earlier round is outstanding while the thread is switching off
   its stack again, one wake is enough to put the thread on a queue while it is still on it.
   */
  lemma StaleClaimBreaks(s: State, w: Waker) returns (actions: seq<Action>, t: State)
    requires s.pc == Switching && s.park == Committed && Claiming(s) && WakerAt(s.wakers, w, Idle)
    ensures Leads(s, actions, t) && Commit !in actions && !SingleOwner(t)
  {
    var woken := s.(park := Woken, wakers := s.wakers[w := Load]);
    WakesFirst(s, w);
    var v, c := SomeClaim(s);
    actions, t := ClaimOnStack(woken, v, c);
    hide Leads;
    LeadsConcat(s, [Wake(w), WakeEarly(w), WakeNormal(w)], woken, actions, t);
    actions := [Wake(w), WakeEarly(w), WakeNormal(w)] + actions;
  }

  /** A claim succeeds under a thread that is on its stack. */
  lemma ClaimOnStack(s: State, v: Waker, c: Cpu) returns (actions: seq<Action>, t: State)
    requires s.pc == Switching && s.park == Woken && (WakerAt(s.wakers, v, Claim) || ClearAt(s.clears, c, Stored))
    ensures Leads(s, actions, t) && Commit !in actions && !SingleOwner(t)
  {
    hide Leads;
    if WakerAt(s.wakers, v, Claim) {
      var s' := Apply(s, WakeClaim(v));
      t := Apply(s', WakeEnqueue(v));
      LeadsLast(s', WakeEnqueue(v));
      LeadsOn(s, WakeClaim(v), [WakeEnqueue(v)], t);
      actions := [WakeClaim(v)] + [WakeEnqueue(v)];
    } else {
      var s' := Apply(s, ClearCas(c));
      t := Apply(s', ClearEnqueue(c));
      LeadsLast(s', ClearEnqueue(c));
      LeadsOn(s, ClearCas(c), [ClearEnqueue(c)], t);
      actions := [ClearCas(c)] + [ClearEnqueue(c)];
    }
  }

  lemma SomeClaim(s: State) returns (v: Waker, c: Cpu)
    requires Claiming(s)
    ensures WakerAt(s.wakers, v, Claim) || ClearAt(s.clears, c, Stored)
  {
    if WakersAt(s.wakers, Claim) != {} {
      v :| v in WakersAt(s.wakers, Claim);
      c := 0;
    } else {
      c :| c in ClearsAt(s.clears, Stored);
      v := 0;
    }
  }

  lemma {:induction false} LeadsConcat(s: State, a: seq<Action>, t: State, b: seq<Action>, u: State)
    requires Leads(s, a, t) && Leads(t, b, u)
    ensures Leads(s, a + b, u)
    decreases |a|
  {
    hide Enabled, Apply;
    if a == [] {
      assert a + b == b;
    } else {
      assert (a + b)[1..] == a[1..] + b;
      LeadsConcat(Apply(s, a[0]), a[1..], t, b, u);
    }
  }

  /** The thread parks on a CPU. */
  lemma Parks(s: State)
    requires s.pc == Running
    ensures var t := s.(pc := Switching, park := Committed, flag := true, noted := s.noted + {s.cpu});
      Leads(s, [Save, Arm, Note, Commit], t)
  {
    hide Leads;
    var s1 := Apply(s, Save);
    var s2 := Apply(s1, Arm);
    var s3 := Apply(s2, Note);
    var s4 := Apply(s3, Commit);
    LeadsThree(s1, Arm, Note, Commit);
    LeadsOn(s, Save, [Arm, Note, Commit], s4);
    assert [Save] + [Arm, Note, Commit] == [Save, Arm, Note, Commit];
  }

  /** Its CPU begins to clear up after it, and stops between the flag and the word. */
  lemma ClearsHalf(s: State, c: Cpu)
    requires s.pc == Switching && s.cpu == c && c in s.noted && c !in s.clears
    ensures var t := s.(pc := Off, flag := false, noted := s.noted - {c}, clears := s.clears[c := Stored]);
      Leads(s, [Switch, ClearStart(c), ClearStore(c)], t)
  {
    hide Leads;
    var s1 := Apply(s, Switch);
    var s2 := Apply(s1, ClearStart(c));
    var s3 := Apply(s2, ClearStore(c));
    assert s3.clears == s.clears[c := Stored];
    LeadsThree(s, Switch, ClearStart(c), ClearStore(c));
  }

  /** A waker gets through meanwhile. */
  lemma WakesThrough(s: State, w: Waker)
    requires s.pc == Off && s.park == Committed && !s.flag && WakerAt(s.wakers, w, Idle)
    ensures Leads(s, [Wake(w), WakeEarly(w), WakeNormal(w)] + [WakeLoad(w), WakeClaim(w), WakeEnqueue(w)],
                  s.(park := Nobody, queued := s.queued + 1))
  {
    hide Leads;
    var t := s.(park := Woken, wakers := s.wakers[w := Load]);
    var u := t.(park := Nobody, queued := t.queued + 1, wakers := t.wakers[w := Idle]);
    WakesFirst(s, w);
    WakesThen(t, w);
    LeadsConcat(s, [Wake(w), WakeEarly(w), WakeNormal(w)], t, [WakeLoad(w), WakeClaim(w), WakeEnqueue(w)], u);
    assert u.wakers == s.wakers;
  }

  lemma WakesFirst(s: State, w: Waker)
    requires s.park == Committed && WakerAt(s.wakers, w, Idle)
    ensures Leads(s, [Wake(w), WakeEarly(w), WakeNormal(w)], s.(park := Woken, wakers := s.wakers[w := Load]))
  {
    hide Leads;
    var s1 := Apply(s, Wake(w));
    var s2 := Apply(s1, WakeEarly(w));
    var s3 := Apply(s2, WakeNormal(w));
    assert s3.wakers == s.wakers[w := Load];
    LeadsThree(s, Wake(w), WakeEarly(w), WakeNormal(w));
  }

  lemma WakesThen(s: State, w: Waker)
    requires s.park == Woken && !s.flag && WakerAt(s.wakers, w, Load)
    ensures Leads(s, [WakeLoad(w), WakeClaim(w), WakeEnqueue(w)],
                  s.(park := Nobody, queued := s.queued + 1, wakers := s.wakers[w := Idle]))
  {
    hide Leads;
    var s1 := Apply(s, WakeLoad(w));
    var s2 := Apply(s1, WakeClaim(w));
    var s3 := Apply(s2, WakeEnqueue(w));
    assert s3.wakers == s.wakers[w := Idle];
    LeadsThree(s, WakeLoad(w), WakeClaim(w), WakeEnqueue(w));
  }

  // ---------- When a hand-off is lost ----------

  /** Neither a new call of a wake or a hand-off, nor a step of a thread that runs. */
  predicate Silent(path: seq<Action>) {
    forall a :: a in path ==> !a.Wake? && !a.Hand? && a != Save && a != Commit
  }

  /** Everything comes to rest with the thread off its stack and on no queue. */
  ghost predicate Abandons(s: State, path: seq<Action>, t: State) {
    Leads(s, path, t) && Silent(path) && Quiet(t) && t.pc == Off && t.queued == 0
  }

  /** All wakers but w are idle. */
  ghost predicate Alone(s: State, w: Waker) { forall v :: v in s.wakers && v != w ==> s.wakers[v] == Idle }

  ghost predicate AtRest(s: State) {
    && s.pc == Off && s.park == Committed && ClearsAt(s.clears, Won) == {}
    && forall v :: v in s.wakers ==> s.wakers[v] == Idle
  }

  /** A clear that finds no wake ends without an effect. */
  lemma ClearEndsQuietly(s: State, c: Cpu) returns (path: seq<Action>, t: State)
    requires AtRest(s) && c in s.clears
    ensures Leads(s, path, t) && Silent(path) && AtRest(t)
    ensures t == s.(clears := s.clears - {c}, flag := t.flag)
  {
    assert c !in ClearsAt(s.clears, Won);
    if s.clears[c] == Swapped {
      var s1 := Apply(s, ClearStore(c));
      t := Apply(s1, ClearCas(c));
      assert t.clears == s.clears - {c};
      hide Leads;
      LeadsLast(s1, ClearCas(c));
      LeadsOn(s, ClearStore(c), [ClearCas(c)], t);
      path := [ClearStore(c)] + [ClearCas(c)];
    } else {
      t := Apply(s, ClearCas(c));
      hide Leads;
      LeadsLast(s, ClearCas(c));
      path := [ClearCas(c)];
    }
    ClearEnds(s.clears, c, Won);
  }

  lemma SilentConcat(a: seq<Action>, b: seq<Action>)
    requires Silent(a) && Silent(b)
    ensures Silent(a + b)
  {
  }

  lemma {:induction false} ClearsEnd(s: State) returns (path: seq<Action>, t: State)
    requires AtRest(s)
    ensures Leads(s, path, t) && Silent(path) && AtRest(t) && t == s.(clears := map[], flag := t.flag)
    decreases |s.clears|
  {
    if s.clears == map[] {
      path, t := [], s;
    } else {
      var c :| c in s.clears;
      var first, mid := ClearEndsQuietly(s, c);
      assert |mid.clears| < |s.clears| by { FewerKeys(s.clears, c); }
      var rest;
      rest, t := ClearsEnd(mid);
      hide Leads, AtRest, Silent;
      LeadsConcat(s, first, mid, rest, t);
      SilentConcat(first, rest);
      path := first + rest;
    }
  }

  lemma FewerKeys(cs: Clears, c: Cpu)
    requires c in cs
    ensures |cs - {c}| < |cs|
  {
    assert (cs - {c}).Keys == cs.Keys - {c};
    assert |(cs - {c}).Keys| == |cs - {c}|;
  }

  /** The CPU clears up after a thread that nobody has woken. */
  lemma LastClear(s: State, c: Cpu)
    requires AtRest(s) && s.clears == map[] && s.noted == {c}
    ensures Leads(s, [ClearStart(c), ClearStore(c), ClearCas(c)], s.(flag := false, noted := {}))
  {
    hide Leads;
    var s1 := Apply(s, ClearStart(c));
    var s2 := Apply(s1, ClearStore(c));
    var s3 := Apply(s2, ClearCas(c));
    assert s3.clears == map[] && s3.noted == {};
    LeadsThree(s, ClearStart(c), ClearStore(c), ClearCas(c));
  }

  /** A parked thread that nobody wakes stays as it is, whatever is left to clear up after it. */
  lemma RestsAbandoned(s: State) returns (path: seq<Action>, t: State)
    requires AtRest(s) && s.queued == 0 && s.noted <= {s.cpu}
    ensures Abandons(s, path, t)
  {
    path, t := ClearsEnd(s);
    if t.noted != {} {
      var c, mid := s.cpu, t;
      assert mid.noted == {c};
      hide Leads, Apply, Enabled;
      LastClear(mid, c);
      t := mid.(flag := false, noted := {});
      LeadsConcat(s, path, mid, [ClearStart(c), ClearStore(c), ClearCas(c)], t);
      path := path + [ClearStart(c), ClearStore(c), ClearCas(c)];
    }
  }

  /** The second swap of a hand-off finds the thread committed: nobody is left to wake it. */
  lemma TooLateAbandons(s: State, w: Waker) returns (path: seq<Action>, t: State)
    requires Inv(s) && Away(s) && s.park == Committed && WakerAt(s.wakers, w, Fallback) && Alone(s, w)
    ensures Abandons(s, path, t)
  {
    InvParked(s);
    hide Inv;
    var s1 := Apply(s, HandFallback(w));
    assert s1.wakers == s.wakers[w := Idle] && s1.park == Committed && s1.pc == s.pc && s1.clears == s.clears;
    LeadsLast(s, HandFallback(w));
    var first, mid := [HandFallback(w)], s1;
    if s.pc == Switching {
      mid := Apply(s1, Switch);
      LeadsLast(s1, Switch);
      LeadsConcat(s, first, s1, [Switch], mid);
      first := first + [Switch];
    }
    assert AtRest(mid) && mid.queued == 0 && mid.noted <= {mid.cpu};
    assert Silent(first);
    hide Leads, AtRest, Silent, Apply, Enabled;
    var rest;
    rest, t := RestsAbandoned(mid);
    LeadsConcat(s, first, mid, rest, t);
    SilentConcat(first, rest);
    path := first + rest;
  }

  lemma InvParked(s: State)
    requires Inv(s) && Away(s) && s.park == Committed
    ensures s.queued == 0 && s.noted <= {s.cpu} && ClearsAt(s.clears, Won) == {}
  {
    hide WakersAt, ClearsAt;
    assert Claims(s) == 0;
  }

  lemma {:induction false} LeadsSettled(s: State, path: seq<Action>, t: State)
    requires Settled(s) && Leads(s, path, t) && Silent(path)
    ensures Settled(t)
    decreases |path|
  {
    if path != [] {
      assert path[0] in path;
      SettledStays(s, path[0]);
      hide Settled, Apply, Enabled;
      LeadsSettled(Apply(s, path[0]), path[1..], t);
    }
  }

  lemma SettledIsQueued(t: State)
    requires Inv(t) && Settled(t) && Quiet(t) && t.pc == Off
    ensures t.queued == 1
  {
    assert WakersAt(t.wakers, Claim) == {} && WakersAt(t.wakers, Enqueue) == {} && WakersAt(t.wakers, Load) == {};
    assert WakersAt(t.wakers, Spin) == {} && WakersAt(t.wakers, Resume) == {};
    assert ClearsAt(t.clears, Stored) == {} && ClearsAt(t.clears, Won) == {};
  }

  /**
   At the second swap of a hand-off in every tidy run, with every other waker idle and the
   thread committed: without a further call the thread can be left off its stack and on no
   queue if and only if the swap finds the word at Committed.
   */
  lemma HandOffLostExactly(states: seq<State>, actions: seq<Action>, i: nat, w: Waker)
    requires IsRun(states, actions) && IsTidy(states, actions) && i < |states|
    requires Away(states[i]) && WakerAt(states[i].wakers, w, Fallback) && Alone(states[i], w)
    ensures (exists path, t :: Abandons(states[i], path, t)) <==> states[i].park == Committed
  {
    var s := states[i];
    RunInv(states, actions, i);
    hide IsRun, IsTidy, Enabled, Apply;
    if s.park == Committed {
      var path, t := TooLateAbandons(s, w);
    } else {
      AwayWord(s);
      hide Inv;
      forall path, t
        ensures !Abandons(s, path, t)
      {
        if Abandons(s, path, t) {
          assert Commit !in path;
          LeadsInv(s, path, t);
          LeadsSettled(s, path, t);
          SettledIsQueued(t);
        }
      }
    }
  }

  lemma AwayWord(s: State)
    requires Inv(s) && Away(s)
    ensures s.park != Enqueued
  {
    hide Claims, Ready, Claiming, Loading;
  }

  lemma {:induction false} CommitsSince(states: seq<State>, actions: seq<Action>, h: nat, k: nat)
    requires IsRun(states, actions) && h <= k < |states| && states[h].park != Committed && states[k].park == Committed
    ensures exists m :: h <= m < k && actions[m] == Commit
    decreases k
  {
    hide Apply, Enabled, Init;
    if states[k - 1].park == Committed {
      CommitsSince(states, actions, h, k - 1);
    } else {
      OnlyCommitCommits(states[k - 1], actions[k - 1]);
    }
  }

  /** That takes a commit between the two swaps. */
  lemma CommitsBetween(states: seq<State>, actions: seq<Action>, h: nat, k: nat, w: Waker)
    requires IsRun(states, actions) && h < k < |states| && actions[h] == HandSwap(w)
    requires WakerAt(states[h + 1].wakers, w, Fallback) && states[k].park == Committed
    ensures exists m :: h < m < k && actions[m] == Commit
  {
    hide Apply, Enabled, Init;
    SwapFails(states[h], w);
    CommitsSince(states, actions, h + 1, k);
  }

  lemma SwapFails(s: State, w: Waker)
    requires Enabled(s, HandSwap(w)) && WakerAt(Apply(s, HandSwap(w)).wakers, w, Fallback)
    ensures s.park != Committed && Apply(s, HandSwap(w)).park != Committed
  {
  }

  lemma OnlyCommitCommits(s: State, a: Action)
    requires Enabled(s, a) && s.park != Committed && Apply(s, a).park == Committed
    ensures a == Commit
  {
  }

  lemma GetsReady(s: State)
    requires s.pc == Running
    ensures Leads(s, [Save, Arm, Note], s.(pc := Listed, park := Enqueued, flag := true, noted := s.noted + {s.cpu}))
  {
    hide Leads;
    LeadsThree(s, Save, Arm, Note);
  }

  lemma CommitsUnderHandOff(s: State, w: Waker)
    requires s.pc == Listed && s.park == Enqueued && WakerAt(s.wakers, w, Idle)
    ensures Leads(s, [Hand(w), HandSwap(w), Commit],
                  s.(pc := Switching, park := Committed, wakers := s.wakers[w := Fallback]))
  {
    hide Leads;
    var s1 := Apply(s, Hand(w));
    var s2 := Apply(s1, HandSwap(w));
    assert s2 == s.(wakers := s.wakers[w := Fallback]);
    var s3 := Apply(s2, Commit);
    LeadsThree(s, Hand(w), HandSwap(w), Commit);
  }

  /** And it happens: the thread commits between the two swaps of the only hand-off. */
  lemma HandOffIsLost() returns (s: State, path: seq<Action>, t: State, rest: seq<Action>, u: State)
    ensures Init(s) && Leads(s, path, t) && Hand(1) in path && WakerAt(t.wakers, 1, Fallback) && Abandons(t, rest, u)
  {
    hide Leads, Apply, Enabled, Abandons, Inv;
    s := State(Nobody, false, Running, 0, {}, map[], map[1 := Idle], 0);
    var mid := s.(pc := Listed, park := Enqueued, flag := true, noted := s.noted + {s.cpu});
    GetsReady(s);
    t := mid.(pc := Switching, park := Committed, wakers := mid.wakers[1 := Fallback]);
    CommitsUnderHandOff(mid, 1);
    LeadsConcat(s, [Save, Arm, Note], mid, [Hand(1), HandSwap(1), Commit], t);
    path := [Save, Arm, Note] + [Hand(1), HandSwap(1), Commit];
    assert path[3] == Hand(1);
    assert t.wakers == map[1 := Fallback] && t.noted == {0};
    StrayInv(t);
    rest, u := TooLateAbandons(t, 1);
  }

  lemma StrayInv(s: State)
    requires s.wakers == map[1 := Fallback] && s.park == Committed && s.pc == Switching && s.clears == map[]
    requires s.noted == {0} && s.cpu == 0 && s.flag && s.queued == 0
    ensures Inv(s) && Alone(s, 1)
  {
    assert WakersAt(s.wakers, Claim) == {} && WakersAt(s.wakers, Enqueue) == {} && WakersAt(s.wakers, Load) == {};
    assert WakersAt(s.wakers, Spin) == {} && WakersAt(s.wakers, Resume) == {};
    assert ClearsAt(s.clears, Swapped) == {} && ClearsAt(s.clears, Stored) == {} && ClearsAt(s.clears, Won) == {};
  }

  // ---------- Everything can come to rest ----------

  /** One step that is neither a call nor one of a running thread keeps the invariant. */
  lemma SilentStep(s: State, a: Action)
    requires Inv(s) && Enabled(s, a) && Silent([a])
    ensures Inv(Apply(s, a)) && Leads(s, [a], Apply(s, a))
  {
    assert a in [a];
    hide Inv, Enabled, Apply;
    StepInv(s, a);
    LeadsLast(s, a);
  }

  /** What is left of a clear once its CPU has tried to take the wake over. */
  lemma EndsClear(s: State, c: Cpu) returns (path: seq<Action>, t: State)
    requires Inv(s) && s.pc == Off && ClearAt(s.clears, c, Won)
    ensures Leads(s, path, t) && Silent(path) && Inv(t)
    ensures t.clears == s.clears - {c} && t.pc == Off && t.noted == s.noted && t.wakers == s.wakers && t.cpu == s.cpu
  {
    SilentStep(s, ClearEnqueue(c));
    path, t := [ClearEnqueue(c)], Apply(s, ClearEnqueue(c));
    hide Inv, Leads;
  }

  lemma TakesOver(s: State, c: Cpu) returns (path: seq<Action>, t: State)
    requires Inv(s) && s.pc == Off && ClearAt(s.clears, c, Stored)
    ensures Leads(s, path, t) && Silent(path) && Inv(t)
    ensures t.clears == s.clears - {c} && t.pc == Off && t.noted == s.noted && t.wakers == s.wakers && t.cpu == s.cpu
  {
    SilentStep(s, ClearCas(c));
    var s1 := Apply(s, ClearCas(c));
    path, t := [ClearCas(c)], s1;
    hide Inv, Leads;
    if s.park == Woken {
      var rest;
      rest, t := EndsClear(s1, c);
      assert s1.clears - {c} == s.clears - {c};
      LeadsConcat(s, path, s1, rest, t);
      SilentConcat(path, rest);
      path := path + rest;
    }
  }

  /** A clear runs to its end. */
  lemma FinishesClear(s: State, c: Cpu) returns (path: seq<Action>, t: State)
    requires Inv(s) && s.pc == Off && c in s.clears
    ensures Leads(s, path, t) && Silent(path) && Inv(t)
    ensures t.clears == s.clears - {c} && t.pc == Off && t.noted == s.noted && t.wakers == s.wakers && t.cpu == s.cpu
  {
    match s.clears[c] {
      case Won => path, t := EndsClear(s, c);
      case Stored => path, t := TakesOver(s, c);
      case Swapped =>
        SilentStep(s, ClearStore(c));
        var s1 := Apply(s, ClearStore(c));
        hide Inv, Leads;
        path, t := TakesOver(s1, c);
        assert s1.clears - {c} == s.clears - {c};
        LeadsConcat(s, [ClearStore(c)], s1, path, t);
        SilentConcat([ClearStore(c)], path);
        path := [ClearStore(c)] + path;
    }
  }

  lemma {:induction false} FinishesClears(s: State) returns (path: seq<Action>, t: State)
    requires Inv(s) && s.pc == Off
    ensures Leads(s, path, t) && Silent(path) && Inv(t)
    ensures t.clears == map[] && t.pc == Off && t.noted == s.noted && t.wakers == s.wakers && t.cpu == s.cpu
    decreases |s.clears|
  {
    if s.clears == map[] {
      path, t := [], s;
    } else {
      var c :| c in s.clears;
      var first, mid := FinishesClear(s, c);
      FewerKeys(s.clears, c);
      hide Inv, Leads, Silent;
      var rest;
      rest, t := FinishesClears(mid);
      LeadsConcat(s, first, mid, rest, t);
      SilentConcat(first, rest);
      path := first + rest;
    }
  }

  /** Nothing is left to clear up. */
  ghost predicate Cleared(s: State) {
    Inv(s) && s.clears == map[] && s.noted == {} && !s.flag && (s.pc == Off || s.pc == Running)
  }

  lemma FinishesNote(s: State) returns (path: seq<Action>, t: State)
    requires Inv(s) && s.pc == Off && s.clears == map[]
    ensures Leads(s, path, t) && Silent(path) && Cleared(t) && t.wakers == s.wakers
  {
    assert s.noted <= {s.cpu};
    if s.noted == {} {
      path, t := [], s;
    } else {
      var c := s.cpu;
      assert s.noted == {c};
      SilentStep(s, ClearStart(c));
      var s1 := Apply(s, ClearStart(c));
      path, t := FinishesClear(s1, c);
      LeadsConcat(s, [ClearStart(c)], s1, path, t);
      SilentConcat([ClearStart(c)], path);
      path := [ClearStart(c)] + path;
      assert t.clears == map[];
    }
  }

  /** The CPUs clear up after a thread that is away. */
  lemma ClearsUp(s: State) returns (path: seq<Action>, t: State)
    requires Inv(s) && Away(s)
    ensures Leads(s, path, t) && Silent(path) && Cleared(t) && t.wakers == s.wakers
  {
    var first, mid := [], s;
    if s.pc == Switching {
      SilentStep(s, Switch);
      first, mid := [Switch], Apply(s, Switch);
    }
    hide Inv, Leads, Cleared;
    var second, far := FinishesClears(mid);
    LeadsConcat(s, first, mid, second, far);
    SilentConcat(first, second);
    path, t := FinishesNote(far);
    LeadsConcat(s, first + second, far, path, t);
    SilentConcat(first + second, path);
    path := first + second + path;
  }

  function StepsLeft(p: WakePc): nat {
    match p
    case Idle => 0
    case Enqueue => 1
    case Claim => 2
    case Load => 3
    case Normal => 4
    case Early => 5
    case Resume => 1
    case Spin => 2
    case Fallback => 1
    case Swap => 3
  }

  function NextOf(w: Waker, p: WakePc): Action
    requires p != Idle
  {
    match p
    case Enqueue => WakeEnqueue(w)
    case Claim => WakeClaim(w)
    case Load => WakeLoad(w)
    case Normal => WakeNormal(w)
    case Early => WakeEarly(w)
    case Resume => HandOver(w, 0)
    case Spin => HandSpin(w)
    case Fallback => HandFallback(w)
    case Swap => HandSwap(w)
  }

  /** What the next step of a waker does when nothing is left to clear up. */
  lemma NextStep(s: State, w: Waker)
    requires s.clears == map[] && s.noted == {} && !s.flag && (s.pc == Off || s.pc == Running)
    requires w in s.wakers && s.wakers[w] != Idle && (s.wakers[w] == Resume ==> s.pc == Off)
    ensures var a := NextOf(w, s.wakers[w]);
      && Enabled(s, a)
      && var t := Apply(s, a);
      && t.clears == map[] && t.noted == {} && !t.flag && (t.pc == Off || t.pc == Running)
      && w in t.wakers && t.wakers == s.wakers[w := t.wakers[w]] && StepsLeft(t.wakers[w]) < StepsLeft(s.wakers[w])
  {
  }

  lemma NextIsSilent(w: Waker, p: WakePc)
    requires p != Idle
    ensures Silent([NextOf(w, p)])
  {
  }

  /** When everything is cleared up, every waker gets on with every step. */
  lemma WakerGetsOn(s: State, w: Waker)
    requires Cleared(s) && w in s.wakers && s.wakers[w] != Idle
    ensures var a := NextOf(w, s.wakers[w]);
      && Enabled(s, a) && Silent([a])
      && var t := Apply(s, a);
      && Cleared(t)
      && w in t.wakers && t.wakers == s.wakers[w := t.wakers[w]] && StepsLeft(t.wakers[w]) < StepsLeft(s.wakers[w])
  {
    hide Inv, Leads, Apply, Enabled, Silent, NextOf, StepsLeft;
    if s.wakers[w] == Resume { ResumesOff(s, w); }
    NextStep(s, w);
    NextIsSilent(w, s.wakers[w]);
    SilentStep(s, NextOf(w, s.wakers[w]));
  }

  lemma ResumesOff(s: State, w: Waker)
    requires Inv(s) && w in s.wakers && s.wakers[w] == Resume
    ensures Away(s) && (!s.flag ==> s.pc == Off)
  {
    assert w in WakersAt(s.wakers, Resume);
    hide WakersAt, ClearsAt;
  }

  lemma {:induction false} FinishesWaker(s: State, w: Waker) returns (path: seq<Action>, t: State)
    requires Cleared(s) && w in s.wakers
    ensures Leads(s, path, t) && Silent(path) && Cleared(t) && t.wakers == s.wakers[w := Idle]
    decreases StepsLeft(s.wakers[w])
  {
    if s.wakers[w] == Idle {
      path, t := [], s;
    } else {
      var a := NextOf(w, s.wakers[w]);
      WakerGetsOn(s, w);
      var s1 := Apply(s, a);
      LeadsLast(s, a);
      hide Leads, Inv, Apply, Enabled, Cleared, Silent;
      path, t := FinishesWaker(s1, w);
      assert s1.wakers[w := Idle] == s.wakers[w := Idle];
      LeadsConcat(s, [a], s1, path, t);
      SilentConcat([a], path);
      path := [a] + path;
    }
  }

  ghost function Busies(s: State): set<Waker> { set w | w in s.wakers && s.wakers[w] != Idle }

  lemma {:induction false} FinishesWakers(s: State) returns (path: seq<Action>, t: State)
    requires Cleared(s)
    ensures Leads(s, path, t) && Silent(path) && Inv(t) && Quiet(t)
    decreases Busies(s)
  {
    if w :| w in Busies(s) {
      var first, mid := FinishesWaker(s, w);
      assert Busies(mid) == Busies(s) - {w};
      hide Leads, Inv, Cleared, Silent, Quiet;
      var rest;
      rest, t := FinishesWakers(mid);
      LeadsConcat(s, first, mid, rest, t);
      SilentConcat(first, rest);
      path := first + rest;
    } else {
      path, t := [], s;
      assert forall w :: w in s.wakers ==> w !in Busies(s);
    }
  }

  /**
   Nobody is ever stuck: from every state of every tidy run with the thread committed, and
   without a further call, all parties can run to their ends.  A thread that had been woken is
   then running or on a queue.
   */
  lemma EverythingCanRest(states: seq<State>, actions: seq<Action>, i: nat) returns (path: seq<Action>, t: State)
    requires IsRun(states, actions) && IsTidy(states, actions) && i < |states| && Away(states[i])
    ensures Leads(states[i], path, t) && Silent(path) && Quiet(t)
    ensures Settled(states[i]) ==> (t.pc == Off ==> t.queued == 1)
  {
    var s := states[i];
    RunInv(states, actions, i);
    hide IsRun, IsTidy, Inv, Leads, Silent, Quiet;
    var first, mid := ClearsUp(s);
    hide Cleared;
    path, t := FinishesWakers(mid);
    LeadsConcat(s, first, mid, path, t);
    SilentConcat(first, path);
    path := first + path;
    if Settled(s) && t.pc == Off {
      LeadsSettled(s, path, t);
      SettledIsQueued(t);
    }
  }

  // ---------- A thread that is woken early goes on ----------

  /** The thread has published its word and has not committed. */
  predicate Parking(s: State) {
    s.pc == Saved || s.pc == Flagged || s.pc == Listed || s.pc == Unwind || s.pc == Unlist
  }

  /** What the thread does next when it finds its word taken. */
  function Onwards(p: Pc): Action
    requires p == Saved || p == Flagged || p == Listed || p == Unwind || p == Unlist
  {
    match p
    case Saved => Arm
    case Flagged => Note
    case Listed => Commit
    case Unwind => Disarm
    case Unlist => Unnote
  }

  function WayBack(p: Pc): nat {
    match p
    case Saved => 5
    case Flagged => 4
    case Listed => 3
    case Unwind => 2
    case Unlist => 1
    case _ => 0
  }

  /** By its own steps alone, whatever the others do meanwhile, it runs on without leaving its stack. */
  lemma {:induction false} EarlyWakeRunsOn(s: State) returns (path: seq<Action>, t: State)
    requires Parking(s) && s.park == Nobody
    ensures Leads(s, path, t) && t.pc == Running && t.park == Nobody && t.flag == (s.flag && s.pc == Unlist)
    ensures t.wakers == s.wakers && t.clears == s.clears && t.queued == s.queued
    decreases WayBack(s.pc)
  {
    var a := Onwards(s.pc);
    var s1 := Apply(s, a);
    LeadsLast(s, a);
    path, t := [a], s1;
    if s1.pc != Running {
      hide Leads, Apply, Enabled;
      var rest;
      rest, t := EarlyWakeRunsOn(s1);
      LeadsConcat(s, path, s1, rest, t);
      path := path + rest;
    }
  }

  /** A way on from a thread about to commit that commits only this once and ends badly. */
  ghost predicate Breaks(s: State, actions: seq<Action>, t: State) {
    Leads(s, [Commit] + actions, t) && Commit !in actions && !SingleOwner(t)
  }

  lemma {:induction false} LeadsInv(s: State, actions: seq<Action>, t: State)
    requires Inv(s) && Leads(s, actions, t) && Commit !in actions
    ensures Inv(t)
    decreases |actions|
  {
    hide Inv, Enabled, Apply;
    if actions != [] {
      assert actions[0] in actions;
      StepInv(s, actions[0]);
      LeadsInv(Apply(s, actions[0]), actions[1..], t);
    }
  }

  /** A stale claim at the commit is enough. */
  lemma StaleCommitBreaks(s: State, w: Waker) returns (actions: seq<Action>, t: State)
    requires s.pc == Listed && s.park == Enqueued && Claiming(s) && WakerAt(s.wakers, w, Idle)
    ensures Breaks(s, actions, t)
  {
    var u := s.(pc := Switching, park := Committed);
    actions, t := StaleClaimBreaks(u, w);
    LeadsOn(s, Commit, actions, t);
  }

  /** And nothing less will do. */
  lemma CleanCommitHolds(s: State, actions: seq<Action>, t: State)
    requires Inv(s) && s.pc == Listed && !Claiming(s)
    ensures !Breaks(s, actions, t)
  {
    if Breaks(s, actions, t) {
      var all := [Commit] + actions;
      assert all[1..] == actions;
      assert Leads(Apply(s, Commit), actions, t);
      hide Leads, Inv, Claiming, Apply;
      CommitInv(s);
      LeadsInv(Apply(s, Commit), actions, t);
      InvIsSafe(t);
    }
  }

  lemma InvIsSafe(s: State)
    requires Inv(s)
    ensures SingleOwner(s)
  {
  }

  /**
   At every commit of every run that has been tidy so far, with a waker at hand: the thread
   can be dispatched while it is still on its kernel stack, or twice, without committing
   again if and only if a claim of an earlier round is outstanding.
   */
  lemma CommitBreaksExactly(states: seq<State>, actions: seq<Action>, i: nat, w: Waker)
    requires IsRun(states, actions) && IsTidy(states, actions) && i < |states|
    requires states[i].pc == Listed && states[i].park == Enqueued && WakerAt(states[i].wakers, w, Idle)
    ensures (exists more, t :: Breaks(states[i], more, t)) <==> Claiming(states[i])
  {
    hide Inv, Breaks, Enabled, Apply, Tidy, Claiming;
    var s := states[i];
    RunInv(states, actions, i);
    if Claiming(s) {
      var more, t := StaleCommitBreaks(s, w);
    } else {
      forall more, t
        ensures !Breaks(s, more, t)
      {
        CleanCommitHolds(s, more, t);
      }
    }
  }

  /**
   The kernel can get there: a thread parks on CPU 0, which pauses in the middle of its
   clear; the thread is woken, runs on CPU 2 and parks again; the next wake lets CPU 0
   enqueue it while CPU 2 is still on its stack.
   */
  lemma TwoOwnersAreReachable() returns (s: State, actions: seq<Action>, t: State)
    ensures Init(s) && Leads(s, actions, t) && !SingleOwner(t)
  {
    hide Leads, Apply;
    s := State(Nobody, false, Running, 0, {}, map[], map[1 := Idle], 0);
    var a := s.(pc := Switching, park := Committed, flag := true, noted := s.noted + {s.cpu});
    Parks(s);
    var b := a.(pc := Off, flag := false, noted := a.noted - {0}, clears := a.clears[0 := Stored]);
    ClearsHalf(a, 0);
    LeadsConcat(s, [Save, Arm, Note, Commit], a, [Switch, ClearStart(0), ClearStore(0)], b);
    var c := b.(park := Nobody, queued := b.queued + 1);
    WakesThrough(b, 1);
    var w := [Wake(1), WakeEarly(1), WakeNormal(1)] + [WakeLoad(1), WakeClaim(1), WakeEnqueue(1)];
    LeadsConcat(s, [Save, Arm, Note, Commit] + [Switch, ClearStart(0), ClearStore(0)], b, w, c);
    var d := c.(pc := Running, cpu := 2, queued := 0);
    Dispatched(c, 2);
    var toC := [Save, Arm, Note, Commit] + [Switch, ClearStart(0), ClearStore(0)] + w;
    LeadsConcat(s, toC, c, [Dispatch(2)], d);
    Parks(d);
    var e := d.(pc := Switching, park := Committed, flag := true, noted := d.noted + {d.cpu});
    LeadsConcat(s, toC + [Dispatch(2)], d, [Save, Arm, Note, Commit], e);
    assert 0 in ClearsAt(e.clears, Stored);
    var last;
    last, t := StaleClaimBreaks(e, 1);
    actions := toC + [Dispatch(2)] + [Save, Arm, Note, Commit];
    LeadsConcat(s, actions, e, last, t);
    actions := actions + last;
  }

  lemma Dispatched(s: State, c: Cpu)
    requires Enabled(s, Dispatch(c))
    ensures Leads(s, [Dispatch(c)], s.(pc := Running, cpu := c, queued := s.queued - 1))
  {
    LeadsOn(s, Dispatch(c), [], Apply(s, Dispatch(c)));
  }
}
