/** The reader/writer lock of spin_lock.h: three atomics, stepped by any number of threads in any order. */
module SpinLock {
  datatype Action = Read | Write

  /** Where a thread stands; each name is the atomic operation it does next. */
  datatype Pc =
    | Outside                           // holds nothing, asks for nothing
    | AtTurnstile(act: Action)          // weak CAS on m_readLock, false to true
    | AtLoad(act: Action)               // m_readCount.load(), into isBlock
    | AtGate(act: Action, isBlock: bool) // weak CAS on m_writeLock, isBlock to (act == WRITE)
    | AtCount                           // ++m_readCount
    | AtOpen(act: Action)               // m_readLock.store(false)
    | Inside(act: Action)               // the critical section, then unlock's one operation

  datatype State = State(readCount: int, readLock: bool, writeLock: bool, pc: seq<Pc>)

  /** The scheduler's choices: a thread calls lock, or does its next operation; `spurious` makes a weak CAS fail. */
  datatype Step = Call(t: nat, act: Action) | Go(t: nat, spurious: bool)

  predicate Enabled(s: State, e: Step)
  {
    e.t < |s.pc| && (e.Call? ==> s.pc[e.t].Outside?)
  }

  function At(s: State, t: nat, p: Pc): State
    requires t < |s.pc|
  {
    s.(pc := s.pc[t := p])
  }

  function Next(s: State, e: Step): (r: State)
    requires Enabled(s, e)
    ensures |r.pc| == |s.pc|
  {
    if e.Call? then At(s, e.t, AtTurnstile(e.act)) else
    match s.pc[e.t]
    case Outside => s
    case AtTurnstile(act) => if s.readLock || e.spurious then s else At(s.(readLock := true), e.t, AtLoad(act))
    case AtLoad(act) => At(s, e.t, AtGate(act, act == Write && s.readCount > 0))
    case AtGate(act, isBlock) =>
      if s.writeLock != isBlock || e.spurious then At(s, e.t, AtLoad(act))
      else At(s.(writeLock := act == Write), e.t, if act == Read then AtCount else AtOpen(Write))
    case AtCount => At(s.(readCount := s.readCount + 1), e.t, AtOpen(Read))
    case AtOpen(act) => At(s.(readLock := false), e.t, Inside(act))
    case Inside(act) => At(if act == Read then s.(readCount := s.readCount - 1) else s.(writeLock := false), e.t, Outside)
  }

  function Init(n: nat): State { State(0, false, false, seq(n, _ => Outside)) }

  /** A schedule: every step possible where it is taken. */
  predicate Schedule(s: State, es: seq<Step>)
    decreases |es|
  {
    es == [] || (Enabled(s, es[0]) && Schedule(Next(s, es[0]), es[1..]))
  }

  function After(s: State, es: seq<Step>): (r: State)
    requires Schedule(s, es)
    ensures |r.pc| == |s.pc|
    decreases |es|
  {
    if es == [] then s else After(Next(s, es[0]), es[1..])
  }

  // ---------- Who is where ----------

  predicate Holds(p: Pc) { p.AtLoad? || p.AtGate? || p.AtCount? || p.AtOpen? }

  predicate Writing(p: Pc) { p == AtOpen(Write) || p == Inside(Write) }

  predicate Reading(p: Pc) { p.AtCount? || p == AtOpen(Read) || p == Inside(Read) }

  predicate Counted(p: Pc) { p == AtOpen(Read) || p == Inside(Read) }

  function Holders(s: State): set<nat> { set t | 0 <= t < |s.pc| && Holds(s.pc[t]) }

  function Writers(s: State): set<nat> { set t | 0 <= t < |s.pc| && Writing(s.pc[t]) }

  function Readers(s: State): set<nat> { set t | 0 <= t < |s.pc| && Reading(s.pc[t]) }

  function CountedReaders(s: State): set<nat> { set t | 0 <= t < |s.pc| && Counted(s.pc[t]) }

  /** What a reader/writer lock promises, and what its two counters mean. */
  predicate Exclusive(s: State)
  {
    && |Writers(s)| <= 1
    && (Writers(s) == {} || Readers(s) == {})
    && s.readCount == |CountedReaders(s)|
    && (s.writeLock <==> Writers(s) != {})
  }

  // ---------- The invariant ----------

  /** At most one member, by index rather than by cardinality. */
  predicate Alone(u: set<nat>) { forall a, b :: a in u && b in u ==> a == b }

  /** What the turnstile's holder knows at each of its steps. */
  predicate HolderKnows(s: State, p: Pc)
  {
    match p
    case AtGate(act, isBlock) => if isBlock then act == Write && !s.writeLock else act == Write ==> s.readCount == 0
    case AtCount => !s.writeLock
    case AtOpen(act) => act == Read ==> !s.writeLock
    case _ => true
  }

  predicate Inv(s: State)
  {
    && Alone(Holders(s)) && (s.readLock <==> Holders(s) != {})
    && Alone(Writers(s)) && (s.writeLock <==> Writers(s) != {})
    && s.readCount == |CountedReaders(s)|
    && (s.writeLock ==> s.readCount == 0)
    && forall t :: 0 <= t < |s.pc| ==> HolderKnows(s, s.pc[t])
  }

  /** Moving one thread changes each of the four sets by at most that thread. */
  lemma Moved(s: State, r: State, t: nat, p: Pc)
    requires t < |s.pc| && r.pc == s.pc[t := p]
    ensures Holders(r) == if Holds(p) then Holders(s) + {t} else Holders(s) - {t}
    ensures Writers(r) == if Writing(p) then Writers(s) + {t} else Writers(s) - {t}
    ensures Readers(r) == if Reading(p) then Readers(s) + {t} else Readers(s) - {t}
    ensures CountedReaders(r) == if Counted(p) then CountedReaders(s) + {t} else CountedReaders(s) - {t}
  {
  }

  lemma InitInv(n: nat)
    ensures Inv(Init(n))
  {
  }

  /** What the step does to the holder's knowledge, one thread at a time. */
  lemma NextKnows(s: State, e: Step, t: nat)
    requires Inv(s) && Enabled(s, e) && t < |s.pc|
    ensures HolderKnows(Next(s, e), Next(s, e).pc[t])
  {
    assert HolderKnows(s, s.pc[t]) && HolderKnows(s, s.pc[e.t]);
    assert Holds(s.pc[t]) == (t in Holders(s)) && Holds(s.pc[e.t]) == (e.t in Holders(s));
    assert Counted(s.pc[e.t]) == (e.t in CountedReaders(s)) && Writing(s.pc[e.t]) == (e.t in Writers(s));
  }

  /** A flag that says whether a set of at most one member is empty, when one thread comes in or goes out. */
  lemma FlagFollows(u: set<nat>, flag: bool, t: nat, comes: bool, r: set<nat>, flag': bool)
    requires Alone(u) && (flag <==> u != {})
    requires r == if comes then u + {t} else u - {t}
    requires if comes == (t in u) then flag' == flag else flag' == comes && flag != comes
    ensures Alone(r) && (flag' <==> r != {})
  {
    if comes == (t in u) {
      assert r == u;
    } else if comes {
      assert r == {t};
    } else {
      assert r == {};
    }
  }

  lemma CountFollows(u: set<nat>, n: int, t: nat, comes: bool, r: set<nat>, n': int)
    requires n == |u| && r == if comes then u + {t} else u - {t}
    requires n' == if comes == (t in u) then n else if comes then n + 1 else n - 1
    ensures n' == |r|
  {
    if comes == (t in u) { assert r == u; }
  }

  /** A step moves its own thread only. */
  lemma OneMoves(s: State, e: Step)
    requires Enabled(s, e)
    ensures Next(s, e).pc == s.pc[e.t := Next(s, e).pc[e.t]]
  {
  }

  /** What a step does to m_readCount and m_readLock, told by where its thread was and where it is. */
  lemma StepEffect(s: State, e: Step)
    requires Enabled(s, e)
    ensures var r, p, q := Next(s, e), s.pc[e.t], Next(s, e).pc[e.t];
      && r.readCount == (if Counted(q) == Counted(p) then s.readCount else if Counted(q) then s.readCount + 1 else s.readCount - 1)
      && (if Holds(q) == Holds(p) then r.readLock == s.readLock else if Holds(q) then r.readLock && !s.readLock else !r.readLock)
  {
  }

  lemma NextCount(s: State, e: Step)
    requires s.readCount == |CountedReaders(s)| && Enabled(s, e)
    ensures Next(s, e).readCount == |CountedReaders(Next(s, e))|
  {
    var r := Next(s, e);
    OneMoves(s, e);
    StepEffect(s, e);
    Moved(s, r, e.t, r.pc[e.t]);
    assert Counted(s.pc[e.t]) == (e.t in CountedReaders(s));
    CountFollows(CountedReaders(s), s.readCount, e.t, Counted(r.pc[e.t]), CountedReaders(r), r.readCount);
  }

  /** And to m_writeLock: the thread at the gate knows that nobody writes, and the writer that unlocks knows that it does. */
  lemma WriteEffect(s: State, e: Step)
    requires Enabled(s, e) && HolderKnows(s, s.pc[e.t]) && (Writing(s.pc[e.t]) ==> s.writeLock)
    ensures var r, p, q := Next(s, e), s.pc[e.t], Next(s, e).pc[e.t];
      if Writing(q) == Writing(p) then r.writeLock == s.writeLock else r.writeLock == Writing(q) && s.writeLock != Writing(q)
  {
  }

  lemma NextWriters(s: State, e: Step)
    requires Inv(s) && Enabled(s, e)
    ensures var r := Next(s, e); Alone(Writers(r)) && (r.writeLock <==> Writers(r) != {})
  {
    var r := Next(s, e);
    var p := r.pc[e.t];
    OneMoves(s, e);
    Moved(s, r, e.t, p);
    assert HolderKnows(s, s.pc[e.t]);
    assert Writing(s.pc[e.t]) == (e.t in Writers(s));
    WriteEffect(s, e);
    FlagFollows(Writers(s), s.writeLock, e.t, Writing(p), Writers(r), r.writeLock);
  }

  lemma NextExcludes(s: State, e: Step)
    requires Inv(s) && Enabled(s, e)
    ensures Next(s, e).writeLock ==> Next(s, e).readCount == 0
  {
    assert HolderKnows(s, s.pc[e.t]);
    assert Writing(s.pc[e.t]) == (e.t in Writers(s)) && Counted(s.pc[e.t]) == (e.t in CountedReaders(s));
  }

  lemma NextTurnstile(s: State, e: Step)
    requires Alone(Holders(s)) && (s.readLock <==> Holders(s) != {}) && Enabled(s, e)
    ensures var r := Next(s, e); Alone(Holders(r)) && (r.readLock <==> Holders(r) != {})
  {
    var r := Next(s, e);
    OneMoves(s, e);
    StepEffect(s, e);
    Moved(s, r, e.t, r.pc[e.t]);
    assert Holds(s.pc[e.t]) == (e.t in Holders(s));
    FlagFollows(Holders(s), s.readLock, e.t, Holds(r.pc[e.t]), Holders(r), r.readLock);
  }

  lemma NextInv(s: State, e: Step)
    requires Inv(s) && Enabled(s, e)
    ensures Inv(Next(s, e))
  {
    NextCount(s, e);
    NextWriters(s, e);
    NextExcludes(s, e);
    NextTurnstile(s, e);
    forall t | 0 <= t < |s.pc|
      ensures HolderKnows(Next(s, e), Next(s, e).pc[t])
    {
      NextKnows(s, e, t);
    }
  }

  /** Every run: any threads, any interleaving, any spurious failures. */
  lemma {:induction false} RunInv(s: State, es: seq<Step>)
    requires Inv(s) && Schedule(s, es)
    ensures Inv(After(s, es))
    decreases |es|
  {
    if es != [] {
      NextInv(s, es[0]);
      RunInv(Next(s, es[0]), es[1..]);
    }
  }

  lemma ReaderKeepsWritersOut(s: State, x: nat)
    requires Inv(s) && x in Readers(s)
    ensures Writers(s) == {}
  {
    assert HolderKnows(s, s.pc[x]);
    assert Counted(s.pc[x]) == (x in CountedReaders(s));
  }

  lemma InvExclusive(s: State)
    requires Inv(s)
    ensures Exclusive(s)
  {
    if x :| x in Readers(s) { ReaderKeepsWritersOut(s, x); }
    if w :| w in Writers(s) { assert Writers(s) == {w}; }
  }

  /** Safety over every run. */
  lemma MutualExclusion(n: nat, es: seq<Step>)
    requires Schedule(Init(n), es)
    ensures Exclusive(After(Init(n), es))
  {
    InitInv(n);
    RunInv(Init(n), es);
    InvExclusive(After(Init(n), es));
  }

  // ---------- The turnstile favours the waiting writer ----------

  predicate Waits(s: State, w: nat)
  {
    w < |s.pc| && (s.pc[w].AtLoad? || s.pc[w].AtGate?) && s.pc[w].act == Write
  }

  /** `w` waits in every state of the run. */
  predicate WaitsThroughout(s: State, es: seq<Step>, w: nat)
    requires Schedule(s, es)
    decreases |es|
  {
    Waits(s, w) && (es == [] || WaitsThroughout(Next(s, es[0]), es[1..], w))
  }

  lemma WaitStep(s: State, e: Step, w: nat)
    requires Inv(s) && Enabled(s, e) && Waits(s, w) && Waits(Next(s, e), w)
    ensures Readers(Next(s, e)) <= Readers(s) && Writers(Next(s, e)) <= Writers(s)
    ensures Next(s, e).readCount <= s.readCount
  {
    var r := Next(s, e);
    assert w in Holders(s);
    assert Holds(s.pc[e.t]) == (e.t in Holders(s));
    OneMoves(s, e);
    Moved(s, r, e.t, r.pc[e.t]);
  }

  /** While a writer holds the turnstile nobody new enters, and the readers inside only leave. */
  lemma {:induction false} NobodyPasses(s: State, es: seq<Step>, w: nat)
    requires Inv(s) && Schedule(s, es) && WaitsThroughout(s, es, w)
    ensures Readers(After(s, es)) <= Readers(s) && Writers(After(s, es)) <= Writers(s)
    ensures After(s, es).readCount <= s.readCount
    decreases |es|
  {
    if es != [] {
      NextInv(s, es[0]);
      WaitStep(s, es[0], w);
      NobodyPasses(Next(s, es[0]), es[1..], w);
    }
  }

  /**
   * Once the holders have left, a waiting writer's non-spurious CAS succeeds exactly when its isBlock is not a
   * leftover from before they left; a leftover costs one failure, and the reload after it makes the next succeed.
   */
  lemma WriterEnters(s: State, w: nat)
    requires Inv(s) && Waits(s, w) && s.pc[w].AtGate? && Readers(s) == {} && Writers(s) == {}
    ensures Next(s, Go(w, false)).pc[w] == AtOpen(Write) <==> !s.pc[w].isBlock
    ensures s.pc[w].isBlock ==>
      (var r := Next(Next(s, Go(w, false)), Go(w, false));
       r.pc[w] == AtGate(Write, false) && Next(r, Go(w, false)).pc[w] == AtOpen(Write))
  {
    assert CountedReaders(s) <= Readers(s);
  }

  /** One more step of a run. */
  lemma {:induction false} AfterSnoc(s: State, es: seq<Step>, e: Step)
    requires Schedule(s, es) && Enabled(After(s, es), e)
    ensures Schedule(s, es + [e]) && After(s, es + [e]) == Next(After(s, es), e)
    decreases |es|
  {
    if es == [] {
      assert ([] + [e])[1..] == [];
    } else {
      assert (es + [e])[1..] == es[1..] + [e];
      AfterSnoc(Next(s, es[0]), es[1..], e);
    }
  }

  predicate LeadsTo(s: State, es: seq<Step>, r: State) { Schedule(s, es) && After(s, es) == r }

  lemma Extend(s: State, es: seq<Step>, r: State, e: Step, r': State)
    requires LeadsTo(s, es, r) && Enabled(r, e) && Next(r, e) == r'
    ensures LeadsTo(s, es + [e], r')
  {
    AfterSnoc(s, es, e);
  }

  /** A reader goes in. */
  lemma ReaderInside() returns (es: seq<Step>)
    ensures LeadsTo(Init(2), es, State(1, false, false, [Inside(Read), Outside])) && |es| == 6
  {
    es := [];
    Extend(Init(2), es, Init(2), Call(0, Read), State(0, false, false, [AtTurnstile(Read), Outside]));
    es := es + [Call(0, Read)];
    var go := Go(0, false);
    Extend(Init(2), es, State(0, false, false, [AtTurnstile(Read), Outside]), go, State(0, true, false, [AtLoad(Read), Outside]));
    es := es + [go];
    Extend(Init(2), es, State(0, true, false, [AtLoad(Read), Outside]), go, State(0, true, false, [AtGate(Read, false), Outside]));
    es := es + [go];
    Extend(Init(2), es, State(0, true, false, [AtGate(Read, false), Outside]), go, State(0, true, false, [AtCount, Outside]));
    es := es + [go];
    Extend(Init(2), es, State(0, true, false, [AtCount, Outside]), go, State(1, true, false, [AtOpen(Read), Outside]));
    es := es + [go];
    Extend(Init(2), es, State(1, true, false, [AtOpen(Read), Outside]), go, State(1, false, false, [Inside(Read), Outside]));
    es := es + [go];
  }

  /**
   * A leftover is reached: a reader goes in, a writer takes the turnstile and loads the count, the reader goes out.
   * Nobody is inside, and the writer's next CAS, with no spurious failure, fails.
   */
  lemma LeftoverReached() returns (es: seq<Step>, s: State)
    ensures Schedule(Init(2), es) && s == After(Init(2), es) == State(0, true, false, [Outside, AtGate(Write, true)])
    ensures Waits(s, 1) && Readers(s) == {} && Writers(s) == {} && Next(s, Go(1, false)).pc[1] == AtLoad(Write)
  {
    es := ReaderInside();
    var s6 := State(1, false, false, [Inside(Read), Outside]);
    var s7 := State(1, false, false, [Inside(Read), AtTurnstile(Write)]);
    var s8 := State(1, true, false, [Inside(Read), AtLoad(Write)]);
    var s9 := State(1, true, false, [Inside(Read), AtGate(Write, true)]);
    s := State(0, true, false, [Outside, AtGate(Write, true)]);
    Extend(Init(2), es, s6, Call(1, Write), s7);
    es := es + [Call(1, Write)];
    Extend(Init(2), es, s7, Go(1, false), s8);
    es := es + [Go(1, false)];
    Extend(Init(2), es, s8, Go(1, false), s9);
    es := es + [Go(1, false)];
    Extend(Init(2), es, s9, Go(0, false), s);
    es := es + [Go(0, false)];
  }

  /** Alone at a lock that is free for `act`, a thread gets in. */
  lemma LockAlone(s: State, t: nat, act: Action) returns (es: seq<Step>)
    requires t < |s.pc| && s.pc[t].Outside? && !s.readLock && !s.writeLock && (act == Write ==> s.readCount == 0)
    ensures LeadsTo(s, es, At(if act == Read then s.(readCount := s.readCount + 1) else s.(writeLock := true), t, Inside(act)))
  {
    var held := s.(readLock := true);
    es := [];
    Extend(s, es, s, Call(t, act), At(s, t, AtTurnstile(act)));
    es := es + [Call(t, act)];
    var go := Go(t, false);
    Extend(s, es, At(s, t, AtTurnstile(act)), go, At(held, t, AtLoad(act)));
    es := es + [go];
    Extend(s, es, At(held, t, AtLoad(act)), go, At(held, t, AtGate(act, false)));
    es := es + [go];
    if act == Read {
      Extend(s, es, At(held, t, AtGate(act, false)), go, At(held, t, AtCount));
      es := es + [go];
      held := held.(readCount := s.readCount + 1);
      Extend(s, es, At(s.(readLock := true), t, AtCount), go, At(held, t, AtOpen(act)));
      es := es + [go];
    } else {
      held := held.(writeLock := true);
      Extend(s, es, At(s.(readLock := true), t, AtGate(act, false)), go, At(held, t, AtOpen(act)));
      es := es + [go];
    }
    Extend(s, es, At(held, t, AtOpen(act)), go, At(held.(readLock := false), t, Inside(act)));
    es := es + [go];
    assert At(held.(readLock := false), t, Inside(act)) ==
      At(if act == Read then s.(readCount := s.readCount + 1) else s.(writeLock := true), t, Inside(act));
  }

  /** unlock undoes the lock of the same action: every field and every thread is as before. */
  lemma UnlockUndoes(s: State, t: nat, act: Action) returns (es: seq<Step>)
    requires t < |s.pc| && s.pc[t].Outside? && !s.readLock && !s.writeLock && (act == Write ==> s.readCount == 0)
    ensures Schedule(s, es) && After(s, es).pc[t] == Inside(act) && LeadsTo(s, es + [Go(t, false)], s)
  {
    es := LockAlone(s, t, act);
    assert s.pc[t := Inside(act)][t := Outside] == s.pc;
    Extend(s, es, After(s, es), Go(t, false), s);
  }

  // ---------- No deadlock ----------

  function Rank(p: Pc): nat
  {
    match p
    case Outside => 0
    case Inside(_) => 1
    case AtOpen(_) => 2
    case AtCount => 3
    case AtGate(_, isBlock) => if isBlock then 6 else 4
    case AtLoad(_) => 5
    case AtTurnstile(_) => 7
  }

  function Work(pc: seq<Pc>): nat { if pc == [] then 0 else Rank(pc[0]) + Work(pc[1..]) }

  lemma {:induction false} WorkMoved(pc: seq<Pc>, t: nat, p: Pc)
    requires t < |pc|
    ensures Work(pc[t := p]) == Work(pc) - Rank(pc[t]) + Rank(p)
    decreases |pc|
  {
    if t == 0 {
      assert pc[t := p][1..] == pc[1..];
    } else {
      assert pc[t := p][1..] == pc[1..][t - 1 := p];
      WorkMoved(pc[1..], t - 1, p);
    }
  }

  predicate Quiet(s: State) { forall t :: 0 <= t < |s.pc| ==> s.pc[t].Outside? }

  /** Some thread can always get on, without any help from the scheduler or from chance. */
  lemma SomeoneProgresses(s: State) returns (t: nat)
    requires Inv(s) && !Quiet(s)
    ensures t < |s.pc| && Rank(Next(s, Go(t, false)).pc[t]) < Rank(s.pc[t])
  {
    if u :| 0 <= u < |s.pc| && (s.pc[u].Inside? || s.pc[u].AtOpen? || s.pc[u].AtCount?) {
      t := u;
    } else {
      assert CountedReaders(s) == {} && Writers(s) == {};
      if h :| h in Holders(s) {
        t := h;
        assert HolderKnows(s, s.pc[h]);
      } else {
        t :| 0 <= t < |s.pc| && !s.pc[t].Outside?;
        assert t !in Holders(s);
      }
    }
  }

  /** Only steps of threads already asking, and no spurious failures. */
  predicate OnlyGoing(es: seq<Step>) { forall k :: 0 <= k < |es| ==> es[k].Go? && !es[k].spurious }

  /** From every reachable state, everyone can be served and leave. */
  lemma {:induction false} NoDeadlock(s: State) returns (es: seq<Step>)
    requires Inv(s)
    ensures Schedule(s, es) && OnlyGoing(es) && Quiet(After(s, es)) && |es| <= Work(s.pc)
    decreases Work(s.pc)
  {
    if Quiet(s) {
      es := [];
    } else {
      var t := SomeoneProgresses(s);
      var r := Next(s, Go(t, false));
      assert r.pc == s.pc[t := r.pc[t]];
      WorkMoved(s.pc, t, r.pc[t]);
      NextInv(s, Go(t, false));
      var rest := NoDeadlock(r);
      es := [Go(t, false)] + rest;
      assert es[1..] == rest;
    }
  }

  // ---------- The lock object and its threads ----------

  class Lock {
    var readCount: int
    var readLock: bool
    var writeLock: bool
    const pc: array<Pc>

    function Now(): State
      reads this, pc
    {
      State(readCount, readLock, writeLock, pc[..])
    }

    constructor (threads: nat)
      ensures fresh(pc) && Now() == Init(threads)
    {
      readCount, readLock, writeLock := 0, false, false;
      pc := new Pc[threads](_ => Outside);
    }

    /** The turnstile loop's CAS; a failure resets isBlock and yields, so the next try is the same. */
    method CasReadLock(t: nat, spurious: bool)
      requires t < pc.Length && pc[t].AtTurnstile?
      modifies this`readLock, pc
      ensures Now() == Next(old(Now()), Go(t, spurious))
    {
      if !readLock && !spurious {
        readLock := true;
        pc[t] := AtLoad(pc[t].act);
      }
    }

    method LoadReadCount(t: nat)
      requires t < pc.Length && pc[t].AtLoad?
      modifies pc
      ensures Now() == Next(old(Now()), Go(t, false))
    {
      var act := pc[t].act;
      var isBlock := act == Write && readCount > 0;
      pc[t] := AtGate(act, isBlock);
    }

    method CasWriteLock(t: nat, spurious: bool)
      requires t < pc.Length && pc[t].AtGate?
      modifies this`writeLock, pc
      ensures Now() == Next(old(Now()), Go(t, spurious))
    {
      var act := pc[t].act;
      if writeLock == pc[t].isBlock && !spurious {
        writeLock := if act == Write then true else false;
        pc[t] := if act == Read then AtCount else AtOpen(act);
      } else {
        pc[t] := AtLoad(act);
      }
    }

    method LeaveTurnstile(t: nat)
      requires t < pc.Length && pc[t].AtOpen?
      modifies this`readLock, pc
      ensures Now() == Next(old(Now()), Go(t, false))
    {
      readLock := false;
      pc[t] := Inside(pc[t].act);
    }

    method Unlock(t: nat)
      requires t < pc.Length && pc[t].Inside?
      modifies this`readCount, this`writeLock, pc
      ensures Now() == Next(old(Now()), Go(t, false))
    {
      if pc[t].act == Read {
        readCount := readCount - 1;
      } else {
        writeLock := false;
      }
      pc[t] := Outside;
    }

    method Do(e: Step)
      requires Enabled(Now(), e)
      modifies this, pc
      ensures Now() == Next(old(Now()), e)
    {
      var t := e.t;
      if e.Call? {
        pc[t] := AtTurnstile(e.act);
      } else {
        match pc[t] {
          case Outside =>
          case AtTurnstile(_) => CasReadLock(t, e.spurious);
          case AtLoad(_) => LoadReadCount(t);
          case AtGate(_, _) => CasWriteLock(t, e.spurious);
          case AtCount => readCount, pc[t] := readCount + 1, AtOpen(Read);
          case AtOpen(_) => LeaveTurnstile(t);
          case Inside(_) => Unlock(t);
        }
      }
    }

    /** A whole run, exclusive in every state it passes through. */
    method Run(es: seq<Step>)
      requires Inv(Now()) && Schedule(Now(), es)
      modifies this, pc
      ensures Now() == After(old(Now()), es) && Inv(Now()) && Exclusive(Now())
    {
      var k := 0;
      InvExclusive(Now());
      while k < |es|
        invariant 0 <= k <= |es| && Schedule(Now(), es[k..]) && After(Now(), es[k..]) == After(old(Now()), es)
        invariant Inv(Now()) && Exclusive(Now())
      {
        assert es[k..][0] == es[k] && es[k..][1..] == es[k + 1..];
        NextInv(Now(), es[k]);
        Do(es[k]);
        InvExclusive(Now());
        k := k + 1;
      }
    }
  }
}
