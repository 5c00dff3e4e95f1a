/**
 The three-state futex mutex of the C library, one atomic operation or system call per step,
 for any number of threads.

 The futex is taken by contract: a wait sleeps exactly if the word still has the expected
 value, a wake of one wakes one sleeper if there is any, and a sleeper may wake spuriously.
 */
module Mutex {
  type Tid = nat

  /** Where a thread is; each names the atomic step it will take next. */
  datatype Pc =
    | Idle         // outside lock, trylock and unlock
    | LockCas      // lock: compare-and-swap 0 -> 1
    | LockXchg     // lock: the word was 1; exchange with 2
    | LockWait     // lock: futex wait for 2
    | Asleep       // lock: asleep in the futex
    | Relock       // lock: back from the futex; exchange with 2
    | Holding      // lock or trylock has returned 0
    | TryCas       // trylock: compare-and-swap 0 -> 1
    | UnlockSub    // unlock: fetch-and-subtract 1
    | UnlockStore  // unlock: the word was not 1; store 0
    | UnlockWake   // unlock: futex wake of one

  datatype State = State(word: int, pc: map<Tid, Pc>)

  function Move(s: State, t: Tid, word: int, pc: Pc): State { State(word, s.pc[t := pc]) }

  ghost predicate Init(s: State) {
    s.word == 0 && forall t :: t in s.pc ==> s.pc[t] == Idle
  }

  function AfterXchg(c: int): Pc { if c == 0 then Holding else LockWait }

  /** The effect of an atomic step on the word and on the thread that takes it. */
  predicate Local(w: int, p: Pc, w': int, p': Pc) {
    match p
    case Idle => w' == w && (p' == LockCas || p' == TryCas)
    case LockCas =>
      if w == 0 then w' == 1 && p' == Holding
      else w' == w && p' == if w != 2 then LockXchg else LockWait
    case LockXchg => w' == 2 && p' == AfterXchg(w)
    case LockWait => w' == w && p' == if w == 2 then Asleep else Relock
    case Asleep => false
    case Relock => w' == 2 && p' == AfterXchg(w)
    case Holding => w' == w && p' == UnlockSub
    case TryCas => if w == 0 then w' == 1 && p' == Holding else w' == w && p' == Idle
    case UnlockSub => w' == w - 1 && p' == if w == 1 then Idle else UnlockStore
    case UnlockStore => w' == 0 && p' == UnlockWake
    case UnlockWake => false
  }

  ghost predicate Solo(s: State, s': State, t: Tid) {
    && t in s.pc && t in s'.pc
    && Local(s.word, s.pc[t], s'.word, s'.pc[t])
    && s' == Move(s, t, s'.word, s'.pc[t])
  }

  ghost predicate Sleeping(s: State) { exists t :: t in s.pc && s.pc[t] == Asleep }

  /** A futex wake of one: some sleeper if there is any, and nobody otherwise. */
  ghost predicate Wake(s: State, s': State, t: Tid) {
    && t in s.pc && s.pc[t] == UnlockWake
    && var s1 := Move(s, t, s.word, Idle);
    if Sleeping(s) then exists u :: u in s.pc && s.pc[u] == Asleep && s' == Move(s1, u, s.word, Relock)
    else s' == s1
  }

  ghost predicate Step(s: State, s': State, t: Tid) { Solo(s, s', t) || Wake(s, s', t) }

  ghost predicate Spurious(s: State, s': State, t: Tid) {
    t in s.pc && s.pc[t] == Asleep && s' == Move(s, t, s.word, Relock)
  }

  ghost predicate Next(s: State, s': State) {
    exists t :: Step(s, s', t) || Spurious(s, s', t)
  }

  /** A run of any length from an initial state, under any interleaving. */
  ghost predicate IsRun(run: seq<State>) {
    && |run| > 0 && Init(run[0])
    && forall i :: 0 <= i < |run| - 1 ==> Next(run[i], run[i + 1])
  }

  // ---------- What every step keeps ----------

  /** The thread holds the mutex, or has begun to unlock it and not yet given it up. */
  predicate Owns(p: Pc) { p == Holding || p == UnlockSub || p == UnlockStore }

  /** The thread is awake and will still exchange the word with 2 or look at it before sleeping. */
  predicate Slow(p: Pc) { p == LockXchg || p == LockWait || p == Relock }

  /** The thread still owes a wake. */
  predicate Waking(p: Pc) { p == UnlockStore || p == UnlockWake }

  ghost predicate Exclusive(s: State) {
    && (s.word == 0 || s.word == 1 || s.word == 2)
    && (s.word == 0 <==> forall t :: t in s.pc ==> !Owns(s.pc[t]))
    && (forall t, u :: t in s.pc && u in s.pc && Owns(s.pc[t]) && Owns(s.pc[u]) ==> t == u)
  }

  ghost predicate NoLostWakeup(s: State) {
    Sleeping(s) ==>
      || s.word == 2
      || (exists t :: t in s.pc && Waking(s.pc[t]))
      || (exists t :: t in s.pc && Slow(s.pc[t]))
  }

  ghost predicate Inv(s: State) { Exclusive(s) && NoLostWakeup(s) }

  lemma LocalFacts(w: int, p: Pc, w': int, p': Pc)
    requires Local(w, p, w', p') && 0 <= w <= 2 && (Owns(p) ==> w != 0)
    ensures 0 <= w' <= 2 && (Owns(p') ==> w' != 0)
    ensures Owns(p') && !Owns(p) ==> w == 0
    ensures Owns(p) && !Owns(p') ==> w' == 0
    ensures !Owns(p) && !Owns(p') ==> (w' == 0 <==> w == 0)
    ensures p' == Asleep ==> w' == 2
    ensures w == 2 && w' != 2 ==> Waking(p')
    ensures Waking(p) ==> Waking(p')
    ensures Slow(p) ==> Slow(p') || w' == 2
  {
  }

  lemma SoloExclusive(s: State, s': State, t: Tid)
    requires Exclusive(s) && Solo(s, s', t)
    ensures Exclusive(s')
  {
    LocalFacts(s.word, s.pc[t], s'.word, s'.pc[t]);
    hide Local, Owns;
    if s'.word != 0 && !Owns(s'.pc[t]) {
      var o :| o in s.pc && Owns(s.pc[o]);
      assert s'.pc[o] == s.pc[o];
    }
  }

  /** A move that changes no ownership and not the word. */
  lemma NeutralMove(s: State, t: Tid, p: Pc)
    requires Exclusive(s) && t in s.pc && !Owns(s.pc[t]) && !Owns(p)
    ensures Exclusive(Move(s, t, s.word, p))
  {
    hide Owns;
    var s' := Move(s, t, s.word, p);
    if s.word != 0 {
      var o :| o in s.pc && Owns(s.pc[o]);
      assert s'.pc[o] == s.pc[o];
    }
  }

  lemma ExclusiveStep(s: State, s': State, t: Tid)
    requires Exclusive(s) && (Step(s, s', t) || Spurious(s, s', t))
    ensures Exclusive(s')
  {
    hide Exclusive, Local;
    if Solo(s, s', t) {
      SoloExclusive(s, s', t);
    } else if Wake(s, s', t) {
      NeutralMove(s, t, Idle);
      if Sleeping(s) {
        var s1 := Move(s, t, s.word, Idle);
        var u :| u in s.pc && s.pc[u] == Asleep && s' == Move(s1, u, s.word, Relock);
        NeutralMove(s1, u, Relock);
      }
    } else {
      NeutralMove(s, t, Relock);
    }
  }

  /** Whoever covers for the sleepers before a solo step still does after it, or the stepper takes over. */
  lemma SoloWakeup(s: State, s': State, t: Tid)
    requires Exclusive(s) && NoLostWakeup(s) && Solo(s, s', t)
    ensures NoLostWakeup(s')
  {
    LocalFacts(s.word, s.pc[t], s'.word, s'.pc[t]);
    hide Local, Owns, Slow, Waking, Exclusive;
    if z :| z in s'.pc && s'.pc[z] == Asleep && s'.word != 2 {
      assert z in s.pc && s.pc[z] == Asleep;
      if s.word == 2 {
        assert Waking(s'.pc[t]);
      } else if w :| w in s.pc && Waking(s.pc[w]) {
        assert Waking(s'.pc[w]);
      } else {
        var w :| w in s.pc && Slow(s.pc[w]);
        assert Slow(s'.pc[w]);
      }
    }
  }

  lemma WakeupStep(s: State, s': State, t: Tid)
    requires Exclusive(s) && NoLostWakeup(s) && (Step(s, s', t) || Spurious(s, s', t))
    ensures NoLostWakeup(s')
  {
    hide Exclusive, Local;
    if Solo(s, s', t) {
      SoloWakeup(s, s', t);
    } else if Wake(s, s', t) {
      if Sleeping(s) {
        var u :| u in s.pc && s.pc[u] == Asleep && s' == Move(Move(s, t, s.word, Idle), u, s.word, Relock);
        assert u in s'.pc && Slow(s'.pc[u]);
      }
    } else {
      assert t in s'.pc && Slow(s'.pc[t]);
    }
  }

  lemma {:induction false} RunInv(run: seq<State>)
    requires IsRun(run)
    ensures forall i :: 0 <= i < |run| ==> Inv(run[i])
  {
    if |run| == 1 {
    } else {
      var n := |run| - 1;
      RunInv(run[..n]);
      assert Inv(run[..n][n - 1]);
      assert Next(run[n - 1], run[n]);
      var t :| Step(run[n - 1], run[n], t) || Spurious(run[n - 1], run[n], t);
      ExclusiveStep(run[n - 1], run[n], t);
      WakeupStep(run[n - 1], run[n], t);
      forall i | 0 <= i < |run|
        ensures Inv(run[i])
      {
        if i < n { assert run[i] == run[..n][i]; }
      }
    }
  }

  /** When every thread is outside the mutex or asleep, none is asleep: nobody is stranded. */
  lemma NobodyStranded(run: seq<State>, i: nat)
    requires IsRun(run) && i < |run|
    requires forall t :: t in run[i].pc ==> run[i].pc[t] == Idle || run[i].pc[t] == Asleep
    ensures forall t :: t in run[i].pc ==> run[i].pc[t] == Idle
  {
    RunInv(run);
    assert Inv(run[i]);
  }

  // ---------- The sleepers can always be woken ----------

  ghost function Sleepers(s: State): set<Tid> { set t | t in s.pc && s.pc[t] == Asleep }

  /** A real step of some thread: no spurious wake-up. */
  ghost predicate RealNext(s: State, s': State) { exists t :: Step(s, s', t) }

  /** The states of `path` lead from s to s' by real steps only. */
  ghost predicate Leads(path: seq<State>, s: State, s': State) {
    && |path| > 0 && path[0] == s
    && if |path| == 1 then s == s' else RealNext(s, path[1]) && Leads(path[1..], path[1], s')
  }

  lemma Prepend(s: State, s1: State, t: Tid, path: seq<State>, s': State)
    requires Step(s, s1, t) && Leads(path, s1, s')
    ensures Leads([s] + path, s, s')
  {
    hide Step;
    assert ([s] + path)[1..] == path;
  }

  lemma {:induction false} Join(p: seq<State>, q: seq<State>, a: State, b: State, c: State)
    requires Leads(p, a, b) && Leads(q, b, c)
    ensures Leads(p + q[1..], a, c)
  {
    hide RealNext;
    if |p| == 1 {
      assert p + q[1..] == q;
    } else {
      Join(p[1..], q, p[1], b, c);
      assert (p + q[1..])[1..] == p[1..] + q[1..];
    }
  }

  /** A solo step by a thread that stays awake leaves the sleepers as they are. */
  lemma SoloStep(s: State, s1: State, t: Tid)
    requires Inv(s) && Solo(s, s1, t) && s1.pc[t] != Asleep
    ensures Inv(s1) && Sleepers(s1) == Sleepers(s) && (Sleeping(s) ==> Sleeping(s1))
  {
    SoloExclusive(s, s1, t);
    SoloWakeup(s, s1, t);
    hide Exclusive, NoLostWakeup;
    if z :| z in s.pc && s.pc[z] == Asleep { assert s1.pc[z] == Asleep; }
  }

  lemma FromWake(s: State, t: Tid) returns (path: seq<State>, s': State)
    requires Inv(s) && Sleeping(s) && t in s.pc && s.pc[t] == UnlockWake
    ensures Leads(path, s, s') && Inv(s') && Sleepers(s') < Sleepers(s)
  {
    var u :| u in s.pc && s.pc[u] == Asleep;
    s' := Move(Move(s, t, s.word, Idle), u, s.word, Relock);
    assert Wake(s, s', t);
    ExclusiveStep(s, s', t);
    WakeupStep(s, s', t);
    path := [s'];
    Prepend(s, s', t, path, s');
    path := [s] + path;
    assert u in Sleepers(s) && u !in Sleepers(s');
  }

  lemma FromStore(s: State, t: Tid) returns (path: seq<State>, s': State)
    requires Inv(s) && Sleeping(s) && t in s.pc && s.pc[t] == UnlockStore
    ensures Leads(path, s, s') && Inv(s') && Sleepers(s') < Sleepers(s)
  {
    var s1 := Move(s, t, 0, UnlockWake);
    SoloStep(s, s1, t);
    path, s' := FromWake(s1, t);
    Prepend(s, s1, t, path, s');
    path := [s] + path;
  }

  lemma FromSub(s: State, t: Tid) returns (path: seq<State>, s': State)
    requires Inv(s) && Sleeping(s) && s.word == 2 && t in s.pc && s.pc[t] == UnlockSub
    ensures Leads(path, s, s') && Inv(s') && Sleepers(s') < Sleepers(s)
  {
    var s1 := Move(s, t, 1, UnlockStore);
    SoloStep(s, s1, t);
    path, s' := FromStore(s1, t);
    Prepend(s, s1, t, path, s');
    path := [s] + path;
  }

  /** While the word is 2 the owner's unlock wakes a sleeper. */
  lemma FromTwo(s: State) returns (path: seq<State>, s': State)
    requires Inv(s) && Sleeping(s) && s.word == 2
    ensures Leads(path, s, s') && Inv(s') && Sleepers(s') < Sleepers(s)
  {
    var o :| o in s.pc && Owns(s.pc[o]);
    match s.pc[o] {
      case UnlockStore => path, s' := FromStore(s, o);
      case UnlockSub => path, s' := FromSub(s, o);
      case Holding =>
        var s1 := Move(s, o, 2, UnlockSub);
        SoloStep(s, s1, o);
        path, s' := FromSub(s1, o);
        Prepend(s, s1, o, path, s');
        path := [s] + path;
    }
  }

  /** An awake thread of the slow path sets the word to 2. */
  lemma FromXchg(s: State, t: Tid) returns (path: seq<State>, s': State)
    requires Inv(s) && Sleeping(s) && t in s.pc && (s.pc[t] == LockXchg || s.pc[t] == Relock)
    ensures Leads(path, s, s') && Inv(s') && Sleepers(s') < Sleepers(s)
  {
    var s1 := Move(s, t, 2, AfterXchg(s.word));
    SoloStep(s, s1, t);
    path, s' := FromTwo(s1);
    Prepend(s, s1, t, path, s');
    path := [s] + path;
  }

  lemma WakeOne(s: State) returns (path: seq<State>, s': State)
    requires Inv(s) && Sleeping(s)
    ensures Leads(path, s, s') && Inv(s') && Sleepers(s') < Sleepers(s)
  {
    if s.word == 2 {
      path, s' := FromTwo(s);
    } else if t :| t in s.pc && Waking(s.pc[t]) {
      if s.pc[t] == UnlockWake { path, s' := FromWake(s, t); } else { path, s' := FromStore(s, t); }
    } else {
      var t :| t in s.pc && Slow(s.pc[t]);
      if s.pc[t] == LockWait {
        var s1 := Move(s, t, s.word, Relock);
        SoloStep(s, s1, t);
        path, s' := FromXchg(s1, t);
        Prepend(s, s1, t, path, s');
        path := [s] + path;
      } else {
        path, s' := FromXchg(s, t);
      }
    }
  }

  /** From every state satisfying the invariant, real steps alone can lead to one where nobody sleeps. */
  lemma {:induction false} EverybodyCanWake(s: State) returns (path: seq<State>, s': State)
    requires Inv(s)
    ensures Leads(path, s, s') && Inv(s') && !Sleeping(s')
    decreases Sleepers(s)
  {
    if Sleeping(s) {
      var p, s1 := WakeOne(s);
      var q;
      q, s' := EverybodyCanWake(s1);
      Join(p, q, s, s1, s');
      path := p + q[1..];
    } else {
      path, s' := [s], s;
    }
  }

  /** In every run, whatever has happened so far, the sleepers can still all be woken without luck. */
  lemma RunCanWakeEverybody(run: seq<State>, i: nat) returns (path: seq<State>, s': State)
    requires IsRun(run) && i < |run|
    ensures Leads(path, run[i], s') && !Sleeping(s')
  {
    RunInv(run);
    path, s' := EverybodyCanWake(run[i]);
  }

  // ---------- Who gets the mutex ----------

  ghost predicate Free(s: State) { forall t :: t in s.pc ==> !Owns(s.pc[t]) }

  /** About to try for the mutex with one atomic operation. */
  predicate Trying(p: Pc) { p == LockCas || p == LockXchg || p == Relock || p == TryCas }

  /**
   In every run, a step that tries for the mutex gets it if and only if nobody owned it; it
   moves no other thread, and a trylock that does not get it returns and leaves the word alone.
   A lock that does not get it waits only when the word says so, and says so first if not.  The
   word then says that there may be waiters exactly for those who had to say so.
   */
  lemma GrantedExactly(run: seq<State>, i: nat, t: Tid, s': State)
    requires IsRun(run) && i < |run| && t in run[i].pc && Trying(run[i].pc[t]) && Step(run[i], s', t)
    ensures t in s'.pc && s'.pc == run[i].pc[t := s'.pc[t]]
    ensures s'.pc[t] == Holding <==> Free(run[i])
    ensures run[i].pc[t] == TryCas && !Free(run[i]) ==> s'.pc[t] == Idle && s'.word == run[i].word
    ensures s'.pc[t] == LockWait ==> s'.word == 2
    ensures s'.pc[t] == LockXchg ==> s'.word == run[i].word == 1
    ensures s'.pc[t] == Holding ==> s'.word == if run[i].pc[t] == LockCas || run[i].pc[t] == TryCas then 1 else 2
  {
    RunInv(run);
    assert Inv(run[i]);
    hide NoLostWakeup, IsRun;
  }

  /** The futex wait of a lock sleeps if and only if the word still says so, and then somebody owns the mutex. */
  lemma WaitSleepsExactly(run: seq<State>, i: nat, t: Tid, s': State)
    requires IsRun(run) && i < |run| && t in run[i].pc && run[i].pc[t] == LockWait && Step(run[i], s', t)
    ensures t in s'.pc && s'.pc == run[i].pc[t := s'.pc[t]] && s'.word == run[i].word
    ensures s'.pc[t] == Asleep <==> run[i].word == 2
    ensures s'.pc[t] != Asleep ==> s'.pc[t] == Relock
    ensures s'.pc[t] == Asleep ==> !Free(run[i])
  {
    RunInv(run);
    assert Inv(run[i]);
    hide NoLostWakeup, IsRun;
  }

  // ---------- Whoever wants the mutex can have it ----------

  /** A thread that is idle may call either. */
  lemma IdleMayCall(s: State, t: Tid)
    requires t in s.pc && s.pc[t] == Idle
    ensures Step(s, Move(s, t, s.word, LockCas), t) && Step(s, Move(s, t, s.word, TryCas), t)
  {
  }

  /** The thread has called lock, which has not returned. */
  predicate Locking(p: Pc) { p == LockCas || p == LockXchg || p == LockWait || p == Asleep || p == Relock }

  lemma Here(s: State)
    ensures Leads([s], s, s)
  {
  }

  lemma OneStep(s: State, s': State, t: Tid)
    requires Step(s, s', t)
    ensures Leads([s, s'], s, s')
  {
    Here(s');
    Prepend(s, s', t, [s'], s');
    assert [s] + [s'] == [s, s'];
  }

  /** One more step at the end of a path. */
  lemma Extend(path: seq<State>, s: State, s1: State, s': State, t: Tid)
    requires Leads(path, s, s1) && Step(s1, s', t)
    ensures Leads(path + [s'], s, s')
  {
    hide Step, Leads;
    OneStep(s1, s', t);
    Join(path, [s1, s'], s, s1, s');
    assert [s1, s'][1..] == [s'];
  }

  lemma StepKeeps(s: State, s': State, t: Tid)
    requires Inv(s) && Step(s, s', t)
    ensures Inv(s')
  {
    ExclusiveStep(s, s', t);
    WakeupStep(s, s', t);
  }

  lemma ReleaseStore(s: State, o: Tid) returns (path: seq<State>, s': State)
    requires Inv(s) && o in s.pc && s.pc[o] == UnlockStore
    ensures Leads(path, s, s') && Inv(s') && s'.word == 0 && s'.pc == s.pc[o := UnlockWake]
  {
    s' := Move(s, o, 0, UnlockWake);
    StepKeeps(s, s', o);
    OneStep(s, s', o);
    path := [s, s'];
  }

  lemma ReleaseSub(s: State, o: Tid) returns (path: seq<State>, s': State)
    requires Inv(s) && o in s.pc && s.pc[o] == UnlockSub
    ensures Leads(path, s, s') && Inv(s') && s'.word == 0 && o in s'.pc && s'.pc == s.pc[o := s'.pc[o]]
    ensures s'.pc[o] == if s.word == 2 then UnlockWake else Idle
  {
    hide Leads;
    assert s.word == 1 || s.word == 2;
    var s1 := Move(s, o, s.word - 1, if s.word == 1 then Idle else UnlockStore);
    StepKeeps(s, s1, o);
    hide Inv;
    if s.word == 1 {
      OneStep(s, s1, o);
      path, s' := [s, s1], s1;
    } else {
      path, s' := ReleaseStore(s1, o);
      Prepend(s, s1, o, path, s');
      path := [s] + path;
    }
  }

  /** The owner gives the mutex up; nobody else moves. */
  lemma OwnerReleases(s: State, o: Tid) returns (path: seq<State>, s': State)
    requires Inv(s) && o in s.pc && Owns(s.pc[o])
    ensures Leads(path, s, s') && Inv(s') && s'.word == 0 && o in s'.pc && s'.pc == s.pc[o := s'.pc[o]]
    ensures s.word == 2 ==> s'.pc[o] == UnlockWake
    ensures s'.pc[o] == Idle || s'.pc[o] == UnlockWake
  {
    hide Leads;
    if s.pc[o] == UnlockStore {
      path, s' := ReleaseStore(s, o);
    } else if s.pc[o] == UnlockSub {
      path, s' := ReleaseSub(s, o);
    } else {
      var s1 := Move(s, o, s.word, UnlockSub);
      StepKeeps(s, s1, o);
      hide Inv;
      path, s' := ReleaseSub(s1, o);
      Prepend(s, s1, o, path, s');
      path := [s] + path;
    }
  }

  /** A thread that is awake takes a free mutex. */
  lemma TakesFree(s: State, t: Tid) returns (path: seq<State>, s': State)
    requires Inv(s) && s.word == 0 && t in s.pc && Locking(s.pc[t]) && s.pc[t] != Asleep
    ensures Leads(path, s, s') && Inv(s') && t in s'.pc && s'.pc == s.pc[t := Holding]
    ensures s.pc[t] != LockCas ==> s'.word == 2
  {
    Here(s);
    path, s' := [s], s;
    hide Leads, Inv;
    if s'.pc[t] == LockWait {
      var s1 := Move(s', t, 0, Relock);
      StepKeeps(s', s1, t);
      Extend(path, s, s', s1, t);
      path, s' := path + [s1], s1;
    }
    var s1 := Move(s', t, if s'.pc[t] == LockCas then 1 else 2, Holding);
    StepKeeps(s', s1, t);
    Extend(path, s, s', s1, t);
    path, s' := path + [s1], s1;
  }

  /** A pending wake can go to the sleeper t, who then takes the free mutex. */
  lemma WokenTakes(s: State, v: Tid, t: Tid) returns (path: seq<State>, s': State)
    requires Inv(s) && s.word == 0 && v in s.pc && s.pc[v] == UnlockWake && t in s.pc && s.pc[t] == Asleep
    ensures Leads(path, s, s') && t in s'.pc && s'.pc[t] == Holding
  {
    var s1 := Move(Move(s, v, s.word, Idle), t, s.word, Relock);
    assert Wake(s, s1, v);
    StepKeeps(s, s1, v);
    OneStep(s, s1, v);
    hide Leads, Step, Inv;
    path, s' := TakesFree(s1, t);
    Join([s, s1], path, s, s1, s');
    path := [s, s1] + path[1..];
  }

  /** A free mutex can reach every thread that is locking it. */
  lemma FreeReaches(s: State, t: Tid) returns (path: seq<State>, s': State)
    requires Inv(s) && s.word == 0 && t in s.pc && Locking(s.pc[t])
    ensures Leads(path, s, s') && t in s'.pc && s'.pc[t] == Holding
  {
    hide RealNext, Step;
    if s.pc[t] != Asleep {
      path, s' := TakesFree(s, t);
    } else if v :| v in s.pc && s.pc[v] == UnlockWake {
      path, s' := WokenTakes(s, v, t);
    } else {
      var v := SomebodyAwake(s, t);
      var p, s1 := TakesFree(s, v);
      var q, s2 := OwnerReleases(s1, v);
      Join(p, q, s, s1, s2);
      path, s' := WokenTakes(s2, v, t);
      Join(p + q[1..], path, s, s2, s');
      path := p + q[1..] + path[1..];
    }
  }

  lemma SomebodyAwake(s: State, t: Tid) returns (v: Tid)
    requires Inv(s) && s.word == 0 && t in s.pc && s.pc[t] == Asleep
    requires forall v :: v in s.pc ==> s.pc[v] != UnlockWake
    ensures v in s.pc && Slow(s.pc[v]) && v != t
  {
    assert Sleeping(s);
    assert forall u :: u in s.pc ==> !Owns(s.pc[u]);
    v :| v in s.pc && Slow(s.pc[v]);
  }

  /** A pending wake can be made, whether somebody sleeps or not. */
  lemma WakeReturns(s: State, t: Tid) returns (s': State)
    requires t in s.pc && s.pc[t] == UnlockWake
    ensures Step(s, s', t) && t in s'.pc && s'.pc[t] == Idle
  {
    s' := Move(s, t, s.word, Idle);
    if u :| u in s.pc && s.pc[u] == Asleep {
      s' := Move(s', u, s.word, Relock);
    }
    assert Wake(s, s', t);
  }

  /** In every state of every run, whoever has the mutex or is unlocking it can return from unlock. */
  lemma EverybodyCanUnlock(run: seq<State>, i: nat, t: Tid) returns (path: seq<State>, s': State)
    requires IsRun(run) && i < |run| && t in run[i].pc && (Owns(run[i].pc[t]) || run[i].pc[t] == UnlockWake)
    ensures Leads(path, run[i], s') && t in s'.pc && s'.pc[t] == Idle
  {
    RunInv(run);
    var s := run[i];
    assert Inv(s);
    hide Inv, IsRun, Step;
    var s1 := s;
    Here(s);
    path := [s];
    if Owns(s.pc[t]) {
      path, s1 := OwnerReleases(s, t);
    }
    s' := s1;
    if s1.pc[t] != Idle {
      s' := WakeReturns(s1, t);
      Extend(path, s, s1, s', t);
      path := path + [s'];
    }
  }

  /**
   In every state of every run, whoever has called lock can still get the mutex, asleep or
   not, without a spurious wake-up.
   */
  lemma EverybodyCanLock(run: seq<State>, i: nat, t: Tid) returns (path: seq<State>, s': State)
    requires IsRun(run) && i < |run| && t in run[i].pc && Locking(run[i].pc[t])
    ensures Leads(path, run[i], s') && t in s'.pc && s'.pc[t] == Holding
  {
    RunInv(run);
    var s := run[i];
    assert Inv(s);
    hide Leads, IsRun, NoLostWakeup;
    if s.word == 0 {
      path, s' := FreeReaches(s, t);
    } else {
      var o :| o in s.pc && Owns(s.pc[o]);
      var p, s1 := OwnerReleases(s, o);
      hide Exclusive;
      path, s' := FreeReaches(s1, t);
      Join(p, path, s, s1, s');
      path := p + path[1..];
    }
  }
}

/**
 The condition variable: a 32-bit sequence counter that waiters capture before they release
 the mutex, and a futex on that counter.  Captures, increments, waits and wakes are the
 steps; the mutex operations in between do not touch the counter.

 `total` counts increments without wrapping and `done` is one past the increment of the
 latest broadcast whose wake has been made; both are history, not part of the C state.
 */
module CondVar {
  type Tid = nat

  const WRAP := 0x1_0000_0000

  datatype Pc =
    | Idle
    | Captured(word: int, n: nat)             // wait: has read seq, when total was n
    | Asleep(word: int, n: nat, at: nat)      // wait: asleep since total was `at`
    | SignalWake(k: nat)                     // signal: made increment k, will wake one
    | BroadcastWake(k: nat)                  // broadcast: made increment k, will wake all

  datatype State = State(word: int, total: nat, done: nat, pc: map<Tid, Pc>)

  ghost predicate Init(s: State) {
    s.word == 0 && s.total == 0 && s.done == 0 && forall t :: t in s.pc ==> s.pc[t] == Idle
  }

  function Move(s: State, t: Tid, p: Pc): State { s.(pc := s.pc[t := p]) }

  /** fetch-and-add 1 on the 32-bit counter. */
  function Bump(s: State): State { s.(word := (s.word + 1) % WRAP, total := s.total + 1) }

  function WakeAll(s: State): State {
    s.(pc := map t | t in s.pc :: if s.pc[t].Asleep? then Idle else s.pc[t])
  }

  ghost predicate Sleeping(s: State) { exists t :: t in s.pc && s.pc[t].Asleep? }

  function Max(a: nat, b: nat): nat { if a < b then b else a }

  ghost predicate Step(s: State, s': State, t: Tid) {
    t in s.pc &&
    match s.pc[t]
    case Idle =>
      || s' == Move(s, t, Captured(s.word, s.total))
      || s' == Move(Bump(s), t, SignalWake(s.total))
      || s' == Move(Bump(s), t, BroadcastWake(s.total))
    case Captured(c, n) => s' == Move(s, t, if s.word == c then Asleep(c, n, s.total) else Idle)
    case Asleep(c, n, at) => s' == Move(s, t, Idle)
    case SignalWake(_) =>
      if Sleeping(s)
      then exists u :: u in s.pc && s.pc[u].Asleep? && s' == Move(Move(s, t, Idle), u, Idle)
      else s' == Move(s, t, Idle)
    case BroadcastWake(k) => s' == WakeAll(Move(s, t, Idle)).(done := Max(s.done, k + 1))
  }

  ghost predicate Next(s: State, s': State) { exists t :: Step(s, s', t) }

  ghost predicate IsRun(run: seq<State>) {
    && |run| > 0 && Init(run[0])
    && forall i :: 0 <= i < |run| - 1 ==> Next(run[i], run[i + 1])
  }

  ghost predicate PcInv(s: State, p: Pc) {
    match p
    case Captured(c, n) => n <= s.total && c == n % WRAP
    case Asleep(c, n, at) => n <= at <= s.total && c == n % WRAP == at % WRAP && s.done <= at
    case BroadcastWake(k) => k < s.total
    case SignalWake(k) => k < s.total
    case _ => true
  }

  ghost predicate Inv(s: State) {
    s.word == s.total % WRAP && s.done <= s.total && forall t :: t in s.pc ==> PcInv(s, s.pc[t])
  }

  lemma PcInvKept(s: State, s': State, p: Pc)
    requires PcInv(s, p) && s.total <= s'.total && (p.Asleep? ==> s'.done == s.done)
    ensures PcInv(s', p)
  {
  }

  /** A step that moves one thread, to a place that fits, and makes no broadcast's wake. */
  lemma MoveInv(s: State, s': State, t: Tid)
    requires Inv(s) && t in s.pc && s'.done == s.done && s.total <= s'.total && s'.word == s'.total % WRAP
    requires t in s'.pc && s'.pc == s.pc[t := s'.pc[t]] && PcInv(s', s'.pc[t])
    ensures Inv(s')
  {
    hide PcInv;
    forall u | u in s'.pc
      ensures PcInv(s', s'.pc[u])
    {
      if u != t { PcInvKept(s, s', s.pc[u]); }
    }
  }

  lemma StepInv(s: State, s': State, t: Tid)
    requires Inv(s) && Step(s, s', t)
    ensures Inv(s')
  {
    assert PcInv(s, s.pc[t]);
    match s.pc[t] {
      case BroadcastWake(k) =>
        forall u | u in s'.pc
          ensures PcInv(s', s'.pc[u])
        {
          if u != t { PcInvKept(s, s', s'.pc[u]); }
        }
      case SignalWake(_) =>
        var s1 := Move(s, t, Idle);
        MoveInv(s, s1, t);
        if Sleeping(s) {
          var u :| u in s.pc && s.pc[u].Asleep? && s' == Move(s1, u, Idle);
          MoveInv(s1, s', u);
        }
      case _ =>
        MoveInv(s, s', t);
    }
  }

  lemma {:induction false} RunInv(run: seq<State>)
    requires IsRun(run)
    ensures forall i :: 0 <= i < |run| ==> Inv(run[i])
  {
    hide Step;
    if |run| == 1 {
    } else {
      var n := |run| - 1;
      RunInv(run[..n]);
      assert Inv(run[..n][n - 1]);
      assert Next(run[n - 1], run[n]);
      var t :| Step(run[n - 1], run[n], t);
      StepInv(run[n - 1], run[n], t);
      forall i | 0 <= i < |run|
        ensures Inv(run[i])
      {
        if i < n { assert run[i] == run[..n][i]; }
      }
    }
  }

  /**
   A sleeper whose counter has not gone all the way round between its capture and its sleep
   saw no increment in between, and captured after the increment of every broadcast whose
   wake has been made.
   */
  lemma NoMissedWake(run: seq<State>, i: nat, t: Tid)
    requires IsRun(run) && i < |run| && t in run[i].pc && run[i].pc[t].Asleep?
    requires run[i].pc[t].at - run[i].pc[t].n < WRAP
    ensures run[i].pc[t].n == run[i].pc[t].at
    ensures run[i].done <= run[i].pc[t].n
  {
    RunInv(run);
    assert Inv(run[i]) && PcInv(run[i], run[i].pc[t]);
    var p := run[i].pc[t];
    assert (p.at - p.n) % WRAP == 0;
  }

  // ---------- Exactly when a broadcast is missed ----------

  /** Asleep since a capture made before the increment of a broadcast whose wake has been made. */
  ghost predicate Missed(s: State, t: Tid) { t in s.pc && s.pc[t].Asleep? && s.pc[t].n < s.done }

  /**
   The wait step of every run: the thread falls asleep if and only if the increments since
   its capture are a multiple of 2^32, and then misses a broadcast if and only if one was
   completed in between.
   */
  lemma WaitSleepsExactly(run: seq<State>, i: nat, t: Tid, s': State)
    requires IsRun(run) && i < |run| && t in run[i].pc && run[i].pc[t].Captured? && Step(run[i], s', t)
    ensures t in s'.pc && (s'.pc[t].Asleep? <==> (run[i].total - run[i].pc[t].n) % WRAP == 0)
    ensures Missed(s', t) <==> (run[i].total - run[i].pc[t].n) % WRAP == 0 && run[i].pc[t].n < run[i].done
  {
    var s := run[i];
    assert Inv(s) by {
      hide Inv, IsRun, Step;
      RunInv(run);
    }
    assert PcInv(s, s.pc[t]);
    SameResidue(s.total, s.pc[t].n);
  }

  lemma SameResidue(a: nat, b: nat)
    requires b <= a
    ensures a % WRAP == b % WRAP <==> (a - b) % WRAP == 0
  {
  }

  /** A thread asleep after a step slept before it, undisturbed, or has just made its wait step. */
  lemma SleepsOn(s: State, s': State, u: Tid, t: Tid)
    requires Step(s, s', u) && t in s'.pc && s'.pc[t].Asleep?
    ensures t in s.pc && s'.done == s.done
    ensures s.pc[t] == s'.pc[t] || (u == t && s.pc[t] == Captured(s'.pc[t].word, s'.pc[t].n) && s.total == s'.pc[t].at)
  {
  }

  /** Every sleeper made its wait step, and no broadcast's wake has been made since. */
  lemma {:induction false} FellAsleep(run: seq<State>, i: nat, t: Tid) returns (j: nat)
    requires IsRun(run) && i < |run| && t in run[i].pc && run[i].pc[t].Asleep?
    ensures j < i && t in run[j].pc && run[j].pc[t] == Captured(run[i].pc[t].word, run[i].pc[t].n)
    ensures Step(run[j], run[j + 1], t) && run[j].total == run[i].pc[t].at && run[j].done == run[i].done
  {
    hide Step;
    assert i > 0;
    assert Next(run[i - 1], run[i]);
    var u :| Step(run[i - 1], run[i], u);
    SleepsOn(run[i - 1], run[i], u, t);
    if run[i - 1].pc[t] == run[i].pc[t] {
      j := FellAsleep(run, i - 1, t);
    } else {
      j := i - 1;
    }
  }

  /**
   In every run, a sleeper has missed a completed broadcast if and only if, when it made its
   wait step, at least 2^32 increments had been made since its capture and a broadcast
   among them had been completed.
   */
  lemma MissedExactly(run: seq<State>, i: nat, t: Tid) returns (j: nat)
    requires IsRun(run) && i < |run| && t in run[i].pc && run[i].pc[t].Asleep?
    ensures j < i && t in run[j].pc && run[j].pc[t].Captured? && Step(run[j], run[j + 1], t)
    ensures Missed(run[i], t) <==> run[j].total - run[j].pc[t].n >= WRAP && run[j].pc[t].n < run[j].done
  {
    j := FellAsleep(run, i, t);
    hide Step, IsRun;
    if Missed(run[i], t) && run[j].total - run[j].pc[t].n < WRAP {
      NoMissedWake(run, i, t);
    }
  }

  // ---------- Whom a signal wakes ----------

  /** Asleep in a wait that was under way when increment k was made. */
  ghost predicate SleptBefore(s: State, u: Tid, k: nat) { u in s.pc && s.pc[u].Asleep? && s.pc[u].n <= k }

  /** Asleep in a wait that began after increment k. */
  ghost predicate SleptAfter(s: State, u: Tid, k: nat) { u in s.pc && s.pc[u].Asleep? && s.pc[u].n > k }

  /** A wake step that passes over every thread that was waiting when its signal was made. */
  ghost predicate PassesOver(s: State, s': State, t: Tid, k: nat) {
    Step(s, s', t) && forall u :: SleptBefore(s, u, k) ==> SleptBefore(s', u, k)
  }

  /** In every state a signal's wake wakes exactly one sleeper, if there is one. */
  lemma SignalWakesOne(s: State, s': State, t: Tid) returns (u: Tid)
    requires t in s.pc && s.pc[t].SignalWake? && Step(s, s', t) && Sleeping(s)
    ensures u in s.pc && s.pc[u].Asleep? && u in s'.pc && s'.pc[u] == Idle
    ensures forall v :: v in s.pc && v != t && v != u ==> v in s'.pc && s'.pc[v] == s.pc[v]
  {
    u :| u in s.pc && s.pc[u].Asleep? && s' == Move(Move(s, t, Idle), u, Idle);
  }

  /**
   At the wake of a signal, with a thread still asleep that was waiting when the signal was
   made: the wake can pass over all such threads if and only if some sleeper began to wait
   between the signal's increment and its wake.
   */
  lemma SignalStolenExactly(s: State, t: Tid, k: nat, w: Tid)
    requires t in s.pc && s.pc[t] == SignalWake(k) && SleptBefore(s, w, k)
    ensures (exists s' :: PassesOver(s, s', t, k)) <==> (exists u :: SleptAfter(s, u, k))
  {
    if u :| SleptAfter(s, u, k) {
      var s' := Move(Move(s, t, Idle), u, Idle);
      assert Step(s, s', t);
      assert PassesOver(s, s', t, k);
    }
    if s' :| PassesOver(s, s', t, k) {
      var u := SignalWakesOne(s, s', t);
      assert !SleptBefore(s', u, k);
      assert SleptAfter(s, u, k);
    }
  }

  /** From every state, a broadcast of any idle thread leaves nobody asleep, and returns. */
  lemma BroadcastWakesAll(s: State, t: Tid) returns (s1: State, s2: State)
    requires t in s.pc && s.pc[t] == Idle
    ensures Step(s, s1, t) && Step(s1, s2, t) && t in s2.pc && s2.pc[t] == Idle && !Sleeping(s2)
    ensures s2.total == s.total + 1 && s2.done >= s2.total
    ensures forall u :: u in s.pc && !s.pc[u].Asleep? ==> u in s2.pc && s2.pc[u] == s.pc[u]
  {
    s1 := Move(Bump(s), t, BroadcastWake(s.total));
    s2 := WakeAll(Move(s1, t, Idle)).(done := Max(s1.done, s.total + 1));
  }

  /** And a signal of any idle thread wakes one of the sleepers, whichever the kernel picks, and returns. */
  lemma SignalReturns(s: State, t: Tid, w: Tid) returns (s1: State, s2: State)
    requires t in s.pc && s.pc[t] == Idle && w in s.pc && s.pc[w].Asleep?
    ensures Step(s, s1, t) && Step(s1, s2, t) && t in s2.pc && s2.pc[t] == Idle && s2.total == s.total + 1
    ensures s2.pc == s.pc[w := Idle]
  {
    s1 := Move(Bump(s), t, SignalWake(s.total));
    assert s1.pc[w] == s.pc[w];
    s2 := Move(Move(s1, t, Idle), w, Idle);
    assert s2.pc == s.pc[w := Idle];
  }

  /** Thread 0 sleeps, thread 1 signals, thread 2 begins to wait and takes the wake: 0 sleeps on. */
  lemma StolenSignal() returns (run: seq<State>, s: State, s': State)
    ensures Extends(run, s) && SleptBefore(s, 0, 0) && PassesOver(s, s', 1, 0)
  {
    var s0 := State(0, 0, 0, map[0 := Idle, 1 := Idle, 2 := Idle]);
    var s1 := Move(s0, 0, Captured(0, 0));
    var s2 := Move(s1, 0, Asleep(0, 0, 0));
    var s3 := Move(Bump(s2), 1, SignalWake(0));
    var s4 := Move(s3, 2, Captured(1, 1));
    s := Move(s4, 2, Asleep(1, 1, 1));
    ExtendRun([s0], s0, s1, 0);
    ExtendRun([s0] + [s1], s1, s2, 0);
    ExtendRun([s0] + [s1] + [s2], s2, s3, 1);
    ExtendRun([s0] + [s1] + [s2] + [s3], s3, s4, 2);
    ExtendRun([s0] + [s1] + [s2] + [s3] + [s4], s4, s, 2);
    run := [s0] + [s1] + [s2] + [s3] + [s4] + [s];
    hide Extends;
    assert SleptBefore(s, 0, 0) && SleptAfter(s, 2, 0);
    SignalStolenExactly(s, 1, 0, 0);
    s' :| PassesOver(s, s', 1, 0);
  }

  // ---------- The proviso is needed ----------

  /** Thread 0 has captured 0; thread 1 has made k broadcasts, each with its wake. */
  function AfterBroadcasts(k: nat): State {
    State(k % WRAP, k, k, map[0 := Captured(0, 0), 1 := Idle])
  }

  ghost predicate Extends(run: seq<State>, s: State) { IsRun(run) && run[|run| - 1] == s }

  lemma ExtendRun(run: seq<State>, s: State, s': State, t: Tid)
    requires Extends(run, s) && Step(s, s', t)
    ensures Extends(run + [s'], s')
  {
    hide Step;
    var r := run + [s'];
    forall i | 0 <= i < |r| - 1
      ensures Next(r[i], r[i + 1])
    {
      if i < |run| - 1 { assert r[i] == run[i] && r[i + 1] == run[i + 1]; }
    }
  }

  /** Thread 1, after its increment and before its wake. */
  function MidBroadcast(k: nat): State {
    State((k + 1) % WRAP, k + 1, k, map[0 := Captured(0, 0), 1 := BroadcastWake(k)])
  }

  lemma OneBroadcast(k: nat)
    ensures Step(AfterBroadcasts(k), MidBroadcast(k), 1)
    ensures Step(MidBroadcast(k), AfterBroadcasts(k + 1), 1)
  {
    var s, s1 := AfterBroadcasts(k), MidBroadcast(k);
    assert s.pc[1 := BroadcastWake(k)] == s1.pc;
    assert s1 == Move(Bump(s), 1, BroadcastWake(k));
    assert WakeAll(Move(s1, 1, Idle)).pc == AfterBroadcasts(k + 1).pc;
  }

  lemma {:induction false} BroadcastRun(k: nat) returns (run: seq<State>)
    ensures Extends(run, AfterBroadcasts(k))
  {
    if k == 0 {
      var s0 := State(0, 0, 0, map[0 := Idle, 1 := Idle]);
      ExtendRun([s0], s0, AfterBroadcasts(0), 0);
      run := [s0] + [AfterBroadcasts(0)];
    } else {
      hide Step, AfterBroadcasts, MidBroadcast, Extends;
      run := BroadcastRun(k - 1);
      OneBroadcast(k - 1);
      ExtendRun(run, AfterBroadcasts(k - 1), MidBroadcast(k - 1), 1);
      ExtendRun(run + [MidBroadcast(k - 1)], MidBroadcast(k - 1), AfterBroadcasts(k), 1);
      run := run + [MidBroadcast(k - 1)] + [AfterBroadcasts(k)];
    }
  }

  /** After 2^32 broadcasts a thread that captured before all of them can still fall asleep. */
  lemma WrapLosesBroadcasts() returns (run: seq<State>, i: nat)
    ensures IsRun(run) && i < |run|
    ensures 0 in run[i].pc && run[i].pc[0].Asleep? && run[i].pc[0].n < run[i].done
  {
    var r := BroadcastRun(WRAP);
    var s := AfterBroadcasts(WRAP);
    var s' := Move(s, 0, Asleep(0, 0, WRAP));
    ExtendRun(r, s, s', 0);
    run, i := r + [s'], |r|;
  }
}

/** pthread_once: 0 not started, 1 running, 2 finished; latecomers wait on the word. */
module Once {
  type Tid = nat

  datatype Pc =
    | Cas          // compare-and-swap 0 -> 1
    | Running      // inside the routine
    | StoreDone    // the routine has returned; store 2
    | WakeAll      // futex wake of everybody
    | Check        // loop test: word != 2
    | Wait         // futex wait for 1
    | Asleep
    | Returned

  /** `starts` counts entries into the routine; `finished` says it has returned.  Both are history. */
  datatype State = State(word: int, starts: nat, finished: bool, pc: map<Tid, Pc>)

  ghost predicate Init(s: State) {
    s.word == 0 && s.starts == 0 && !s.finished && forall t :: t in s.pc ==> s.pc[t] == Cas
  }

  function Move(s: State, t: Tid, p: Pc): State { s.(pc := s.pc[t := p]) }

  function Awaken(s: State): State {
    s.(pc := map t | t in s.pc :: if s.pc[t] == Asleep then Check else s.pc[t])
  }

  ghost predicate Step(s: State, s': State, t: Tid) {
    t in s.pc &&
    match s.pc[t]
    case Cas => s' == if s.word == 0 then Move(s, t, Running).(word := 1, starts := s.starts + 1) else Move(s, t, Check)
    case Running => s' == Move(s, t, StoreDone).(finished := true)
    case StoreDone => s' == Move(s, t, WakeAll).(word := 2)
    case WakeAll => s' == Awaken(Move(s, t, Returned))
    case Check => s' == Move(s, t, if s.word != 2 then Wait else Returned)
    case Wait => s' == Move(s, t, if s.word == 1 then Asleep else Check)
    case Asleep => s' == Move(s, t, Check)
    case Returned => false
  }

  ghost predicate Next(s: State, s': State) { exists t :: Step(s, s', t) }

  ghost predicate IsRun(run: seq<State>) {
    && |run| > 0 && Init(run[0])
    && forall i :: 0 <= i < |run| - 1 ==> Next(run[i], run[i + 1])
  }

  /** The thread that won the race and has not yet stored 2. */
  predicate Runs(p: Pc) { p == Running || p == StoreDone }

  ghost predicate Sleeping(s: State) { exists t :: t in s.pc && s.pc[t] == Asleep }

  /** What the word and the history say about a thread's place. */
  predicate PcInv(word: int, finished: bool, p: Pc) {
    && (p != Cas ==> word != 0)
    && (p == StoreDone ==> finished)
    && (p == Returned || p == WakeAll ==> word == 2)
    && (Runs(p) ==> word == 1)
  }

  ghost predicate Inv(s: State) {
    && 0 <= s.word <= 2
    && s.starts == (if s.word == 0 then 0 else 1)
    && (s.word == 0 ==> !s.finished) && (s.word == 2 ==> s.finished)
    && (forall t :: t in s.pc ==> PcInv(s.word, s.finished, s.pc[t]))
    && (s.word == 1 ==> exists t :: t in s.pc && Runs(s.pc[t]))
    && (forall t, u :: t in s.pc && u in s.pc && Runs(s.pc[t]) && Runs(s.pc[u]) ==> t == u)
    && (Sleeping(s) ==> s.word == 1 || exists t :: t in s.pc && s.pc[t] == WakeAll)
  }

  /** Every step but the wake and the two that change the word. */
  ghost predicate Quiet(s: State, s': State, t: Tid) {
    Step(s, s', t) && s.pc[t] != WakeAll && s.pc[t] != StoreDone && s'.word == s.word
  }

  /** A quiet step moves one thread, not into or out of the routine. */
  lemma QuietMove(s: State, s': State, t: Tid)
    requires Quiet(s, s', t) && (s.word == 0 ==> !s.finished)
    ensures s'.pc == s.pc[t := s'.pc[t]] && s'.starts == s.starts && t in s.pc
    ensures Runs(s.pc[t]) <==> Runs(s'.pc[t])
    ensures s'.pc[t] != WakeAll && (s'.pc[t] == Asleep ==> s'.word == 1)
    ensures PcInv(s.word, s.finished, s.pc[t]) ==> PcInv(s'.word, s'.finished, s'.pc[t])
    ensures s'.finished == s.finished || (s'.finished && s.pc[t] == Running)
  {
  }

  lemma QuietStep(s: State, s': State, t: Tid)
    requires Inv(s) && Quiet(s, s', t)
    ensures Inv(s')
  {
    QuietMove(s, s', t);
    assert s.pc[t] != WakeAll && (s.pc[t] == Running ==> s.word == 1) by {
      assert PcInv(s.word, s.finished, s.pc[t]);
    }
    hide Quiet, Runs;
    forall u | u in s'.pc
      ensures PcInv(s'.word, s'.finished, s'.pc[u])
    {
      assert PcInv(s.word, s.finished, s.pc[u]);
    }
    hide PcInv;
    if s.word == 1 {
      var r :| r in s.pc && Runs(s.pc[r]);
      assert Runs(s'.pc[r]);
    }
    if z :| z in s'.pc && s'.pc[z] == Asleep && s'.word != 1 {
      assert s.pc[z] == Asleep;
      var w :| w in s.pc && s.pc[w] == WakeAll;
      assert s'.pc[w] == WakeAll;
    }
  }

  lemma StepInv(s: State, s': State, t: Tid)
    requires Inv(s) && Step(s, s', t)
    ensures Inv(s')
  {
    assert PcInv(s.word, s.finished, s.pc[t]);
    if s.pc[t] == Cas && s.word == 0 {
      assert s'.pc[t] == Running;
    } else if s.pc[t] == StoreDone {
      assert s'.pc[t] == WakeAll;
    } else if s.pc[t] == WakeAll {
    } else {
      QuietStep(s, s', t);
    }
  }

  lemma {:induction false} RunInv(run: seq<State>)
    requires IsRun(run)
    ensures forall i :: 0 <= i < |run| ==> Inv(run[i])
  {
    hide Step;
    if |run| == 1 {
    } else {
      var n := |run| - 1;
      RunInv(run[..n]);
      assert Inv(run[..n][n - 1]);
      assert Next(run[n - 1], run[n]);
      var t :| Step(run[n - 1], run[n], t);
      StepInv(run[n - 1], run[n], t);
      hide Inv;
      forall i | 0 <= i < |run|
        ensures Inv(run[i])
      {
        if i < n { assert run[i] == run[..n][i]; }
      }
    }
  }

  /**
   In every run the routine is entered at most once; whoever has returned does so after it
   finished; and once the winner has made its wake (so that no thread is at StoreDone or
   WakeAll any more and the word is 2), no thread is asleep.
   */
  lemma ExactlyOnce(run: seq<State>, i: nat)
    requires IsRun(run) && i < |run|
    ensures run[i].starts <= 1
    ensures (exists t :: t in run[i].pc && run[i].pc[t] == Returned) ==> run[i].starts == 1 && run[i].finished
    ensures run[i].word == 2 && (forall t :: t in run[i].pc ==> run[i].pc[t] != WakeAll) ==> !Sleeping(run[i])
    ensures (forall t :: t in run[i].pc ==> run[i].pc[t] == Returned || run[i].pc[t] == Asleep) ==> !Sleeping(run[i])
  {
    RunInv(run);
    assert Inv(run[i]);
  }

  /** In every run, a latecomer's wait sleeps if and only if somebody is in the routine. */
  lemma WaitSleepsExactly(run: seq<State>, i: nat, t: Tid, s': State)
    requires IsRun(run) && i < |run| && t in run[i].pc && run[i].pc[t] == Wait && Step(run[i], s', t)
    ensures t in s'.pc && s'.pc == run[i].pc[t := s'.pc[t]] && s'.word == run[i].word
    ensures s'.pc[t] == Asleep <==> exists r :: r in run[i].pc && Runs(run[i].pc[r])
    ensures s'.pc[t] != Asleep ==> s'.pc[t] == Check
  {
    RunInv(run);
    assert Inv(run[i]);
    if r :| r in run[i].pc && Runs(run[i].pc[r]) {
      assert PcInv(run[i].word, run[i].finished, run[i].pc[r]);
    }
  }

  // ---------- Everybody can return ----------

  /** A step that is no spurious wake-up. */
  ghost predicate Real(s: State, s': State) { exists t :: Step(s, s', t) && s.pc[t] != Asleep }

  ghost predicate Leads(path: seq<State>, s: State, s': State) {
    && |path| > 0 && path[0] == s
    && if |path| == 1 then s == s' else Real(s, path[1]) && Leads(path[1..], path[1], s')
  }

  lemma {:induction false} Join(p: seq<State>, q: seq<State>, a: State, b: State, c: State)
    requires Leads(p, a, b) && Leads(q, b, c)
    ensures Leads(p + q[1..], a, c)
  {
    hide Real;
    if |p| == 1 {
      assert p + q[1..] == q;
    } else {
      Join(p[1..], q, p[1], b, c);
      assert (p + q[1..])[1..] == p[1..] + q[1..];
    }
  }

  lemma Then(s: State, s1: State, t: Tid, path: seq<State>, s': State)
    requires Step(s, s1, t) && s.pc[t] != Asleep && Leads(path, s1, s')
    ensures Leads([s] + path, s, s')
  {
    hide Step;
    assert ([s] + path)[1..] == path;
  }

  lemma OneStep(s: State, s': State, t: Tid)
    requires Inv(s) && Step(s, s', t) && s.pc[t] != Asleep
    ensures Inv(s') && Leads([s] + [s'], s, s')
  {
    StepInv(s, s', t);
    hide Step, Inv;
    assert Leads([s'], s', s');
    Then(s, s', t, [s'], s');
  }

  /** The end of the routine: everybody is woken. */
  lemma Wakes(s: State, r: Tid) returns (path: seq<State>, s': State)
    requires Inv(s) && r in s.pc && s.pc[r] == WakeAll
    ensures Leads(path, s, s') && Inv(s') && s'.word == 2 && !Sleeping(s') && s'.pc.Keys == s.pc.Keys
    ensures !Sleeping(s) ==> s'.pc == s.pc[r := Returned]
  {
    assert PcInv(s.word, s.finished, s.pc[r]);
    s' := Awaken(Move(s, r, Returned));
    OneStep(s, s', r);
    hide Inv, Leads, Runs;
    path := [s] + [s'];
  }

  lemma Stores(s: State, r: Tid) returns (path: seq<State>, s': State)
    requires Inv(s) && r in s.pc && s.pc[r] == StoreDone
    ensures Leads(path, s, s') && Inv(s') && s'.word == 2 && !Sleeping(s') && s'.pc.Keys == s.pc.Keys
  {
    var s1 := Move(s, r, WakeAll).(word := 2);
    StepInv(s, s1, r);
    hide Inv, Leads;
    path, s' := Wakes(s1, r);
    Then(s, s1, r, path, s');
    path := [s] + path;
  }

  lemma Finishes(s: State, r: Tid) returns (path: seq<State>, s': State)
    requires Inv(s) && r in s.pc && s.pc[r] == Running
    ensures Leads(path, s, s') && Inv(s') && s'.word == 2 && !Sleeping(s') && s'.pc.Keys == s.pc.Keys
  {
    var s1 := Move(s, r, StoreDone).(finished := true);
    StepInv(s, s1, r);
    hide Inv, Leads;
    path, s' := Stores(s1, r);
    Then(s, s1, r, path, s');
    path := [s] + path;
  }

  /** The thread that runs the routine finishes it, and wakes everybody. */
  lemma RunnerFinishes(s: State, r: Tid) returns (path: seq<State>, s': State)
    requires Inv(s) && r in s.pc && (Runs(s.pc[r]) || s.pc[r] == WakeAll || (s.pc[r] == Cas && s.word == 0))
    ensures Leads(path, s, s') && Inv(s') && s'.word == 2 && !Sleeping(s') && s'.pc.Keys == s.pc.Keys
  {
    match s.pc[r] {
      case WakeAll => path, s' := Wakes(s, r);
      case StoreDone => path, s' := Stores(s, r);
      case Running => path, s' := Finishes(s, r);
      case Cas =>
        var s1 := Move(s, r, Running).(word := 1, starts := s.starts + 1);
        StepInv(s, s1, r);
        hide Inv, Leads;
        path, s' := Finishes(s1, r);
        Then(s, s1, r, path, s');
        path := [s] + path;
    }
  }

  ghost predicate Settled(s: State) { Inv(s) && s.word == 2 && !Sleeping(s) }

  lemma Checks(s: State, t: Tid) returns (path: seq<State>, s': State)
    requires Settled(s) && t in s.pc && s.pc[t] == Check
    ensures Leads(path, s, s') && Settled(s') && s'.pc == s.pc[t := Returned]
  {
    s' := Move(s, t, Returned);
    OneStep(s, s', t);
    hide Inv, Leads;
    path := [s] + [s'];
  }

  /** When the word is 2 and nobody sleeps, a thread returns, and moves nobody. */
  lemma Returns(s: State, t: Tid) returns (path: seq<State>, s': State)
    requires Settled(s) && t in s.pc && s.pc[t] != Returned
    ensures Leads(path, s, s') && Settled(s') && s'.pc == s.pc[t := Returned]
  {
    assert PcInv(s.word, s.finished, s.pc[t]);
    assert s.pc[t] == WakeAll || s.pc[t] == Check || s.pc[t] == Cas || s.pc[t] == Wait;
    hide Leads, Runs;
    if s.pc[t] == WakeAll {
      path, s' := Wakes(s, t);
    } else if s.pc[t] == Check {
      path, s' := Checks(s, t);
    } else {
      var s1 := Move(s, t, Check);
      StepInv(s, s1, t);
      hide Inv;
      path, s' := Checks(s1, t);
      Then(s, s1, t, path, s');
      path := [s] + path;
    }
  }

  ghost function Inside(s: State): set<Tid> { set t | t in s.pc && s.pc[t] != Returned }

  lemma {:induction false} AllReturn(s: State) returns (path: seq<State>, s': State)
    requires Settled(s)
    ensures Leads(path, s, s') && Inside(s') == {} && s'.pc.Keys == s.pc.Keys && s'.starts == 1
    decreases Inside(s)
  {
    if Inside(s) == {} {
      path, s' := [s], s;
    } else {
      var t :| t in Inside(s);
      var p, s1 := Returns(s, t);
      assert Inside(s1) == Inside(s) - {t};
      hide Real, Settled;
      path, s' := AllReturn(s1);
      Join(p, path, s, s1, s');
      path := p + path[1..];
    }
  }

  /**
   In every state of every run, everybody can still return without a spurious wake-up, and
   the routine has then run exactly once.
   */
  lemma EverybodyCanReturn(run: seq<State>, i: nat) returns (path: seq<State>, s': State)
    requires IsRun(run) && i < |run| && run[i].pc != map[]
    ensures Leads(path, run[i], s') && Inside(s') == {} && s'.pc.Keys == run[i].pc.Keys && s'.starts == 1
  {
    RunInv(run);
    var s := run[i];
    assert Inv(s);
    var found, r := SomeRunner(s);
    hide Inv, IsRun, Real;
    if found {
      var p, s1 := RunnerFinishes(s, r);
      path, s' := AllReturn(s1);
      Join(p, path, s, s1, s');
      path := p + path[1..];
    } else {
      path, s' := AllReturn(s);
    }
  }

  /** Somebody who can finish the routine, unless it is finished and nobody sleeps. */
  lemma SomeRunner(s: State) returns (found: bool, r: Tid)
    requires Inv(s) && s.pc != map[]
    ensures found ==> r in s.pc && (Runs(s.pc[r]) || s.pc[r] == WakeAll || (s.pc[r] == Cas && s.word == 0))
    ensures !found ==> s.word == 2 && !Sleeping(s)
  {
    found, r := true, 0;
    if s.word == 0 {
      r :| r in s.pc;
      assert PcInv(s.word, s.finished, s.pc[r]);
    } else if s.word == 1 {
      r :| r in s.pc && Runs(s.pc[r]);
    } else if w :| w in s.pc && s.pc[w] == WakeAll {
      r := w;
    } else {
      found := false;
    }
  }
}
