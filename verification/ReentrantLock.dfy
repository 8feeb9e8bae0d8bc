/** The re-entrant lock built from two plain mutexes, an owner id and a level, as a state
    machine: any number of threads, one step per C statement, arbitrary interleaving. */
module ReentrantLock {
  import opened Common

  /** Threads are numbered from 0. */
  type Thread = nat

  /** The statement a thread executes next; Idle is outside both routines. */
  datatype Pc =
    | Idle
    | LockWantAux       // lock(aux)
    | LockTest          // self == owner && level > 0
    | LockIncrement     // level++
    | LockLeave         // unlock(aux), return from a nested lock
    | LockDropAux       // unlock(aux)
    | LockWantMain      // lock(main)
    | LockWantAuxAgain  // lock(aux)
    | LockSetOwner      // owner = self
    | LockSetLevel      // level = 1
    | LockDone          // unlock(aux), return from a first-level lock
    | UnlockWantAux     // lock(aux)
    | UnlockDecrement   // level--
    | UnlockTest        // level == 0
    | UnlockDropAux     // unlock(aux)
    | UnlockMain        // unlock(main), return
    | UnlockKeep        // unlock(aux), return

  /** main and aux: which thread has locked the mutex. owner is never reset, so it may be stale. */
  datatype Shared = Shared(main: Option<Thread>, aux: Option<Thread>, level: int, owner: Thread)

  /** depth counts the lock calls a thread has completed minus the unlock calls it has started. */
  datatype Local = Local(pc: Pc, depth: nat)

  datatype State = State(shared: Shared, threads: seq<Local>)

  ghost predicate Init(s: State) {
    && s.shared.main == None && s.shared.aux == None && s.shared.level == 0
    && forall t | 0 <= t < |s.threads| :: s.threads[t] == Local(Idle, 0)
  }

  /** The next statement of thread t inside a routine; None while it waits for a mutex. */
  function Statement(t: Thread, m: Shared, l: Local): Option<(Shared, Local)> {
    match l.pc
    case Idle => None
    case LockWantAux => if m.aux == None then Some((m.(aux := Some(t)), l.(pc := LockTest))) else None
    case LockTest => Some((m, l.(pc := if t == m.owner && m.level > 0 then LockIncrement else LockDropAux)))
    case LockIncrement => Some((m.(level := m.level + 1), l.(pc := LockLeave)))
    case LockLeave => Some((m.(aux := None), Local(Idle, l.depth + 1)))
    case LockDropAux => Some((m.(aux := None), l.(pc := LockWantMain)))
    case LockWantMain => if m.main == None then Some((m.(main := Some(t)), l.(pc := LockWantAuxAgain))) else None
    case LockWantAuxAgain => if m.aux == None then Some((m.(aux := Some(t)), l.(pc := LockSetOwner))) else None
    case LockSetOwner => Some((m.(owner := t), l.(pc := LockSetLevel)))
    case LockSetLevel => Some((m.(level := 1), l.(pc := LockDone)))
    case LockDone => Some((m.(aux := None), Local(Idle, l.depth + 1)))
    case UnlockWantAux => if m.aux == None then Some((m.(aux := Some(t)), l.(pc := UnlockDecrement))) else None
    case UnlockDecrement => Some((m.(level := m.level - 1), l.(pc := UnlockTest)))
    case UnlockTest => Some((m, l.(pc := if m.level == 0 then UnlockDropAux else UnlockKeep)))
    case UnlockDropAux => Some((m.(aux := None), l.(pc := UnlockMain)))
    case UnlockMain => Some((m.(main := None), l.(pc := Idle)))
    case UnlockKeep => Some((m.(aux := None), l.(pc := Idle)))
  }

  datatype Action = CallLock | CallUnlock | Run

  /** One action of thread t. A thread unlocks only what it has locked. */
  function Act(t: Thread, a: Action, m: Shared, l: Local): Option<(Shared, Local)> {
    match a
    case CallLock => if l.pc == Idle then Some((m, l.(pc := LockWantAux))) else None
    case CallUnlock =>
      if l.pc == Idle && l.depth > 0 then Some((m, Local(UnlockWantAux, l.depth - 1))) else None
    case Run => Statement(t, m, l)
  }

  /** Thread t acts; every other thread is where it was. */
  ghost predicate Step(s: State, t: Thread, a: Action, s': State) {
    t < |s.threads| == |s'.threads| &&
    Act(t, a, s.shared, s.threads[t]) == Some((s'.shared, s'.threads[t])) &&
    forall u | 0 <= u < |s.threads| && u != t :: s'.threads[u] == s.threads[u]
  }

  ghost predicate Next(s: State, s': State) {
    exists t: Thread, a :: Step(s, t, a, s')
  }

  /** A finite run from an initial state. */
  ghost predicate IsRun(run: seq<State>) {
    |run| > 0 && Init(run[0]) && forall i | 0 <= i < |run| - 1 :: Next(run[i], run[i + 1])
  }

  // ----- the invariant -----

  predicate HoldsAux(pc: Pc) {
    !(pc.Idle? || pc.LockWantAux? || pc.LockWantMain? || pc.LockWantAuxAgain? || pc.UnlockWantAux? || pc.UnlockMain?)
  }

  predicate HoldsMain(l: Local) {
    l.depth > 0 ||
    !(l.pc.Idle? || l.pc.LockWantAux? || l.pc.LockTest? || l.pc.LockDropAux? || l.pc.LockWantMain?)
  }

  /** How many levels of the lock are on a thread's account. */
  function Account(l: Local): nat {
    if l.pc.LockLeave? || l.pc.LockDone? || l.pc.UnlockWantAux? || l.pc.UnlockDecrement? then l.depth + 1
    else l.depth
  }

  predicate FirstOrLastLevel(pc: Pc) {
    pc.LockDropAux? || pc.LockWantMain? || pc.LockWantAuxAgain? || pc.LockSetOwner? ||
    pc.LockSetLevel? || pc.LockDone? || pc.UnlockDropAux? || pc.UnlockMain?
  }

  ghost predicate ThreadOk(t: Thread, m: Shared, l: Local) {
    && (m.aux == Some(t) <==> HoldsAux(l.pc))
    && (m.main == Some(t) <==> HoldsMain(l))
    && (m.main == Some(t) ==> m.level == Account(l))
    && (FirstOrLastLevel(l.pc) ==> l.depth == 0)
    && (l.pc.LockIncrement? || l.pc.LockLeave? || l.pc.UnlockKeep? ==> l.depth > 0)
    && (l.pc.LockSetLevel? ==> m.owner == t)
  }

  ghost predicate SharedOk(m: Shared) {
    && m.level >= 0
    && (m.main == None ==> m.level == 0)
    && (m.level > 0 ==> m.main == Some(m.owner))
  }

  ghost predicate Inv(s: State) {
    && SharedOk(s.shared)
    && (s.shared.main.Some? ==> s.shared.main.value < |s.threads|)
    && (s.shared.aux.Some? ==> s.shared.aux.value < |s.threads|)
    && forall t | 0 <= t < |s.threads| :: ThreadOk(t, s.shared, s.threads[t])
  }

  lemma InvHoldsInitially(s: State)
    requires Init(s)
    ensures Inv(s)
  {
  }

  /** The acting thread keeps its own part of the invariant, and takes no mutex for another. */
  lemma ActKeepsOwnPart(t: Thread, a: Action, m: Shared, l: Local, m': Shared, l': Local)
    requires SharedOk(m) && ThreadOk(t, m, l) && Act(t, a, m, l) == Some((m', l'))
    ensures SharedOk(m') && ThreadOk(t, m', l')
    ensures m'.main == m.main || m'.main == None || m'.main == Some(t)
    ensures m'.aux == m.aux || m'.aux == None || m'.aux == Some(t)
  {
  }

  /** It keeps the part of every other thread u. */
  lemma ActKeepsOtherPart(t: Thread, a: Action, m: Shared, l: Local, m': Shared, l': Local, u: Thread, k: Local)
    requires SharedOk(m) && ThreadOk(t, m, l) && Act(t, a, m, l) == Some((m', l'))
    requires t != u && ThreadOk(u, m, k)
    ensures ThreadOk(u, m', k)
  {
  }

  lemma StepKeepsInv(s: State, t: Thread, a: Action, s': State)
    requires Inv(s) && Step(s, t, a, s')
    ensures Inv(s')
  {
    hide Act, ThreadOk, SharedOk;
    var m, l, m', l' := s.shared, s.threads[t], s'.shared, s'.threads[t];
    ActKeepsOwnPart(t, a, m, l, m', l');
    forall u | 0 <= u < |s'.threads| ensures ThreadOk(u, m', s'.threads[u]) {
      if u != t { ActKeepsOtherPart(t, a, m, l, m', l', u, s.threads[u]); }
    }
  }

  lemma {:induction false} InvHoldsThroughout(run: seq<State>, i: nat)
    requires IsRun(run) && i < |run|
    ensures Inv(run[i])
  {
    if i == 0 {
      InvHoldsInitially(run[0]);
    } else {
      hide Inv, Step;
      InvHoldsThroughout(run, i - 1);
      assert Next(run[i - 1], run[i - 1 + 1]);
      var t: Thread, a :| Step(run[i - 1], t, a, run[i]);
      StepKeepsInv(run[i - 1], t, a, run[i]);
    }
  }

  // ----- what the lock promises -----

  /** At most one thread has a lock call it has not begun to undo; that thread holds the main
      mutex, and between its calls the level is its nesting depth and the owner id is its own. */
  ghost predicate Exclusive(s: State) {
    var m := s.shared;
    && (forall t, u | 0 <= t < |s.threads| && 0 <= u < |s.threads| ::
          s.threads[t].depth > 0 && s.threads[u].depth > 0 ==> t == u)
    && (forall t | 0 <= t < |s.threads| && s.threads[t].depth > 0 ::
          m.main == Some(t) && (s.threads[t].pc == Idle ==> m.owner == t && m.level == s.threads[t].depth))
    && (m.level > 0 ==> m.main == Some(m.owner))
  }

  lemma InvIsExclusive(s: State)
    requires Inv(s)
    ensures Exclusive(s)
  {
  }

  /** At every point of every run, whatever the interleaving. */
  lemma MutualExclusion(run: seq<State>, i: nat)
    requires IsRun(run) && i < |run|
    ensures Exclusive(run[i])
  {
    InvHoldsThroughout(run, i);
    InvIsExclusive(run[i]);
  }

  /** The abstract re-entrant lock. */
  datatype Abstract = Free | Held(who: Thread, times: nat)

  ghost function Abs(m: Shared): Abstract {
    if m.level > 0 then Held(m.owner, m.level) else Free
  }

  ghost predicate Acquires(l: Abstract, t: Thread, l': Abstract) {
    match l
    case Free => l' == Held(t, 1)
    case Held(who, k) => who == t && l' == Held(t, k + 1)
  }

  ghost predicate Releases(l: Abstract, t: Thread, l': Abstract) {
    l.Held? && l.who == t && l.times > 0 && l' == if l.times == 1 then Free else Held(t, l.times - 1)
  }

  /** Each statement of the code is one atomic step of the abstract lock or leaves it alone:
      lock acquires exactly where it writes the level, unlock releases where it decrements it. */
  lemma StepRefines(s: State, t: Thread, a: Action, s': State)
    requires Inv(s) && Step(s, t, a, s')
    ensures var pc, l, l' := s.threads[t].pc, Abs(s.shared), Abs(s'.shared);
      if a == Run && (pc == LockIncrement || pc == LockSetLevel) then Acquires(l, t, l')
      else if a == Run && pc == UnlockDecrement then Releases(l, t, l')
      else l' == l
  {
    assert ThreadOk(t, s.shared, s.threads[t]);
  }

  /** A lock call returns with the abstract lock held by the caller, as often as it is nested. */
  lemma LockReturnsHeld(s: State, t: Thread, s': State)
    requires Inv(s) && Step(s, t, Run, s') && (s.threads[t].pc == LockLeave || s.threads[t].pc == LockDone)
    ensures s'.threads[t].pc == Idle && s'.threads[t].depth > 0
    ensures Abs(s'.shared) == Held(t, s'.threads[t].depth)
  {
    assert ThreadOk(t, s.shared, s.threads[t]);
  }

  /** An unlock call returns with one level less, and frees the lock exactly when none is left. */
  lemma UnlockReturnsReleased(s: State, t: Thread, s': State)
    requires Inv(s) && Step(s, t, Run, s') && (s.threads[t].pc == UnlockMain || s.threads[t].pc == UnlockKeep)
    ensures s'.threads[t].pc == Idle
    ensures if s'.threads[t].depth == 0 then s'.shared.main == None && Abs(s'.shared) == Free
            else Abs(s'.shared) == Held(t, s'.threads[t].depth)
  {
    assert ThreadOk(t, s.shared, s.threads[t]);
  }

  // ----- whole calls -----

  predicate InLock(pc: Pc) {
    pc.LockWantAux? || pc.LockTest? || pc.LockIncrement? || pc.LockLeave? || pc.LockDropAux? || pc.LockWantMain? ||
    pc.LockWantAuxAgain? || pc.LockSetOwner? || pc.LockSetLevel? || pc.LockDone?
  }

  predicate InUnlock(pc: Pc) {
    pc.UnlockWantAux? || pc.UnlockDecrement? || pc.UnlockTest? || pc.UnlockDropAux? || pc.UnlockMain? || pc.UnlockKeep?
  }

  /** Thread t is outside both routines and has the lock exactly depth times: none, one or more. */
  ghost predicate Owns(m: Shared, t: Thread, l: Local, depth: nat) {
    && l == Local(Idle, depth)
    && if depth > 0 then m.main == Some(t) && Abs(m) == Held(t, depth) else m.main != Some(t)
  }

  /** No statement leaves the lock routine without the lock, taken once more than before. */
  lemma LockStaysOrHolds(s: State, t: Thread, s': State)
    requires Inv(s) && Step(s, t, Run, s') && InLock(s.threads[t].pc)
    ensures var l, l' := s.threads[t], s'.threads[t];
      (InLock(l'.pc) && l'.depth == l.depth) || Owns(s'.shared, t, l', l.depth + 1)
  {
    assert ThreadOk(t, s.shared, s.threads[t]);
  }

  /** None leaves the unlock routine without having given one level back, the last one with the mutex. */
  lemma UnlockStaysOrReleases(s: State, t: Thread, s': State)
    requires Inv(s) && Step(s, t, Run, s') && InUnlock(s.threads[t].pc)
    ensures var l, l' := s.threads[t], s'.threads[t];
      || (InUnlock(l'.pc) && l'.depth == l.depth)
      || (Owns(s'.shared, t, l', l.depth) && (l.depth == 0 ==> s'.shared.main == None && Abs(s'.shared) == Free))
  {
    assert ThreadOk(t, s.shared, s.threads[t]);
  }

  /** A thread inside a routine moves by its own statements only. */
  lemma MovesAlone(s: State, s': State, t: Thread) returns (moved: bool)
    requires Next(s, s') && t < |s.threads| && s.threads[t].pc != Idle
    ensures |s'.threads| == |s.threads|
    ensures if moved then Step(s, t, Run, s') else s'.threads[t] == s.threads[t]
  {
    var u: Thread, a :| Step(s, u, a, s');
    moved := u == t;
  }

  /** From state i, in which thread t calls, to state j it has not been outside in between. */
  ghost predicate Inside(run: seq<State>, t: Thread, i: nat, j: nat) {
    i < j < |run| && forall k | i < k < j :: t < |run[k].threads| && run[k].threads[t].pc != Idle
  }

  /** How far a call of lock at depth d has come: it is in the routine, or it has the lock. */
  ghost predicate Locking(s: State, t: Thread, d: nat) {
    t < |s.threads| &&
    ((InLock(s.threads[t].pc) && s.threads[t].depth == d) || Owns(s.shared, t, s.threads[t], d + 1))
  }

  ghost predicate Unlocking(s: State, t: Thread, d: nat) {
    t < |s.threads| &&
    ((InUnlock(s.threads[t].pc) && s.threads[t].depth == d) || Owns(s.shared, t, s.threads[t], d))
  }

  lemma LockingGoesOn(s: State, t: Thread, d: nat, s': State)
    requires Inv(s) && Next(s, s') && Locking(s, t, d) && s.threads[t].pc != Idle
    ensures Locking(s', t, d)
  {
    hide Inv, Step, Abs;
    var moved := MovesAlone(s, s', t);
    if moved { LockStaysOrHolds(s, t, s'); }
  }

  lemma UnlockingGoesOn(s: State, t: Thread, d: nat, s': State)
    requires Inv(s) && Next(s, s') && Unlocking(s, t, d) && s.threads[t].pc != Idle
    ensures Unlocking(s', t, d)
  {
    hide Inv, Step, Abs;
    var moved := MovesAlone(s, s', t);
    if moved { UnlockStaysOrReleases(s, t, s'); }
  }

  lemma CallsBegin(s: State, t: Thread, s': State)
    ensures Step(s, t, CallLock, s') ==> t < |s.threads| && Locking(s', t, s.threads[t].depth)
    ensures Step(s, t, CallUnlock, s') ==>
      t < |s.threads| && s.threads[t].depth > 0 && Unlocking(s', t, s.threads[t].depth - 1)
  {
  }

  lemma NextOfRun(run: seq<State>, i: nat)
    requires IsRun(run) && i + 1 < |run|
    ensures Next(run[i], run[i + 1])
  {
    hide Next, Init;
    assert Next(run[i], run[i + 1]);
  }

  lemma {:induction false} LockCallSoFar(run: seq<State>, t: Thread, i: nat, j: nat)
    requires IsRun(run) && Inside(run, t, i, j) && Step(run[i], t, CallLock, run[i + 1])
    ensures t < |run[i].threads| && Locking(run[j], t, run[i].threads[t].depth)
  {
    hide IsRun, Inv, Locking, Next, Step;
    CallsBegin(run[i], t, run[i + 1]);
    if j > i + 1 {
      InvHoldsThroughout(run, j - 1);
      LockCallSoFar(run, t, i, j - 1);
      NextOfRun(run, j - 1);
      LockingGoesOn(run[j - 1], t, run[i].threads[t].depth, run[j]);
    }
  }

  lemma {:induction false} UnlockCallSoFar(run: seq<State>, t: Thread, i: nat, j: nat)
    requires IsRun(run) && Inside(run, t, i, j) && Step(run[i], t, CallUnlock, run[i + 1])
    ensures t < |run[i].threads| && run[i].threads[t].depth > 0
    ensures Unlocking(run[j], t, run[i].threads[t].depth - 1)
  {
    hide IsRun, Inv, Unlocking, Next, Step;
    CallsBegin(run[i], t, run[i + 1]);
    if j > i + 1 {
      InvHoldsThroughout(run, j - 1);
      UnlockCallSoFar(run, t, i, j - 1);
      NextOfRun(run, j - 1);
      UnlockingGoesOn(run[j - 1], t, run[i].threads[t].depth - 1, run[j]);
    }
  }

  /** In every run, whatever the other threads do meanwhile: when thread t is outside again after calling
      lock it has the lock once more than at the call, and the main mutex is its own. */
  lemma LockCallAcquires(run: seq<State>, t: Thread, i: nat, j: nat)
    requires IsRun(run) && Inside(run, t, i, j) && Step(run[i], t, CallLock, run[i + 1])
    requires t < |run[j].threads| && run[j].threads[t].pc == Idle
    ensures Owns(run[i].shared, t, run[i].threads[t], run[i].threads[t].depth)
    ensures Owns(run[j].shared, t, run[j].threads[t], run[i].threads[t].depth + 1)
  {
    LockCallSoFar(run, t, i, j);
    OwnsOutside(run, t, i);
  }

  /** After calling unlock it has the lock once less, and not at all if that was the last time. */
  lemma UnlockCallReleases(run: seq<State>, t: Thread, i: nat, j: nat)
    requires IsRun(run) && Inside(run, t, i, j) && Step(run[i], t, CallUnlock, run[i + 1])
    requires t < |run[j].threads| && run[j].threads[t].pc == Idle
    ensures run[i].threads[t].depth > 0 && Owns(run[i].shared, t, run[i].threads[t], run[i].threads[t].depth)
    ensures Owns(run[j].shared, t, run[j].threads[t], run[i].threads[t].depth - 1)
  {
    UnlockCallSoFar(run, t, i, j);
    OwnsOutside(run, t, i);
  }

  lemma OwnsOutside(run: seq<State>, t: Thread, i: nat)
    requires IsRun(run) && i < |run| && t < |run[i].threads| && run[i].threads[t].pc == Idle
    ensures Owns(run[i].shared, t, run[i].threads[t], run[i].threads[t].depth)
  {
    InvHoldsThroughout(run, i);
    assert ThreadOk(t, run[i].shared, run[i].threads[t]);
  }

  // ----- absence of deadlock -----

  ghost predicate Enabled(s: State, t: Thread) {
    t < |s.threads| && Statement(t, s.shared, s.threads[t]).Some?
  }

  /** No thread waits for a mutex while it holds the auxiliary one, and none waits for the main
      mutex while it holds that. */
  lemma NoHoldAndWait(s: State, t: Thread)
    requires Inv(s) && t < |s.threads| && s.threads[t].pc != Idle && !Enabled(s, t)
    ensures s.shared.aux != Some(t)
    ensures s.shared.main == Some(t) ==> s.threads[t].pc != LockWantMain
  {
    assert ThreadOk(t, s.shared, s.threads[t]);
  }

  /** A thread outside both routines owns the lock and every thread inside waits for it. */
  ghost predicate OwnedOutside(s: State) {
    exists u: Thread | u < |s.threads| ::
      s.threads[u].pc == Idle && s.threads[u].depth > 0 && s.shared.main == Some(u) &&
      forall v | 0 <= v < |s.threads| && s.threads[v].pc != Idle :: s.threads[v].pc == LockWantMain
  }

  /** Whenever a thread is inside one of the routines, some thread inside can take a step, unless
      the lock is owned by a thread that is outside. */
  lemma NoDeadlock(run: seq<State>, i: nat, t: Thread)
    requires IsRun(run) && i < |run| && t < |run[i].threads| && run[i].threads[t].pc != Idle
    ensures (exists u: Thread :: Enabled(run[i], u)) || OwnedOutside(run[i])
  {
    InvHoldsThroughout(run, i);
    var s := run[i];
    var m := s.shared;
    if m.aux.Some? {
      assert ThreadOk(m.aux.value, m, s.threads[m.aux.value]);
      assert Enabled(s, m.aux.value);
    } else if v: Thread :| v < |s.threads| && s.threads[v].pc != Idle && s.threads[v].pc != LockWantMain {
      assert ThreadOk(v, m, s.threads[v]);
      assert Enabled(s, v);
    } else if m.main == None {
      assert Enabled(s, t);
    } else {
      assert ThreadOk(m.main.value, m, s.threads[m.main.value]);
    }
  }

  /** Statements left to the end of the routine, along its longest path. */
  function Rank(pc: Pc): nat {
    match pc
    case Idle => 0
    case LockWantAux => 8
    case LockTest => 7
    case LockIncrement => 2
    case LockLeave => 1
    case LockDropAux => 6
    case LockWantMain => 5
    case LockWantAuxAgain => 4
    case LockSetOwner => 3
    case LockSetLevel => 2
    case LockDone => 1
    case UnlockWantAux => 5
    case UnlockDecrement => 4
    case UnlockTest => 3
    case UnlockDropAux => 2
    case UnlockMain => 1
    case UnlockKeep => 1
  }

  function TotalRank(threads: seq<Local>): nat {
    if threads == [] then 0 else TotalRank(threads[..|threads| - 1]) + Rank(threads[|threads| - 1].pc)
  }

  lemma {:induction false} TotalRankUpdate(threads: seq<Local>, t: nat, l: Local)
    requires t < |threads|
    ensures TotalRank(threads[t := l]) == TotalRank(threads) - Rank(threads[t].pc) + Rank(l.pc)
  {
    var n := |threads| - 1;
    if t == n {
      assert threads[t := l][..n] == threads[..n];
    } else {
      assert threads[t := l][..n] == threads[..n][t := l];
      TotalRankUpdate(threads[..n], t, l);
    }
  }

  lemma StepLowersRank(s: State, t: Thread, s': State)
    requires Step(s, t, Run, s')
    ensures TotalRank(s'.threads) < TotalRank(s.threads)
  {
    assert Rank(s'.threads[t].pc) < Rank(s.threads[t].pc);
    hide Act, Rank;
    TotalRankUpdate(s.threads, t, s'.threads[t]);
    assert s'.threads == s.threads[t := s'.threads[t]];
  }

  /** Neither routine loops: without new calls, the statements that remain bound the steps that
      can still be taken, whatever the interleaving. */
  lemma {:induction false} CallsFinish(run: seq<State>, acted: seq<Thread>)
    requires |run| == |acted| + 1
    requires forall i | 0 <= i < |acted| :: Step(run[i], acted[i], Run, run[i + 1])
    ensures |acted| + TotalRank(run[|acted|].threads) <= TotalRank(run[0].threads)
  {
    if |acted| > 0 {
      hide Step;
      var k := |acted| - 1;
      CallsFinish(run[..k + 1], acted[..k]);
      StepLowersRank(run[k], acted[k], run[k + 1]);
    }
  }
}
