/** The logger of logger.h: a ring of pending messages, written by many threads and drained by one worker. */
module Logger {
  const MAX_CNT_MESS := 100

  datatype Message = Message(cTime: string, mess: string)

  /** The newest messages, as many as the ring can hold pending: one slot always stays free. */
  function Newest(s: seq<Message>): (r: seq<Message>)
    ensures |r| <= MAX_CNT_MESS - 1
  {
    if |s| < MAX_CNT_MESS then s else s[|s| - (MAX_CNT_MESS - 1)..]
  }

  lemma NewestAgain(s: seq<Message>, m: Message)
    ensures Newest(Newest(s) + [m]) == Newest(s + [m])
  {
  }

  // ---------- The logger's threads, one critical section to a step ----------

  /** A batch on its way to writeBatch, with the path it goes to. */
  datatype Batch = Batch(path: string, messages: seq<Message>)

  /** Where the worker is in writeCycle. */
  datatype Phase = Waiting | Writing(batch: Batch, stop: bool) | Tail | WritingTail(tail: Batch) | Done

  /** One drain: everything written since the one before, and what came out. */
  datatype Drain = Drain(written: seq<Message>, batch: seq<Message>)

  /** `log`, `since`, `lost` and `drains` are history; the logger does not keep them. */
  datatype State = State(pending: seq<Message>, path: string, stop: bool, phase: Phase, batches: seq<Batch>,
                         log: seq<Message>, since: seq<Message>, lost: seq<Message>, drains: seq<Drain>)

  datatype Step = Write(m: Message) | SetPath(path: string) | Stop | Work

  function Init(path: string): State { State([], path, false, Waiting, [], [], [], [], []) }

  /** writeLine: one more pending message; the oldest of 99 is overwritten. */
  function Wrote(s: State, m: Message): State
  {
    var full := |s.pending| >= MAX_CNT_MESS - 1;
    s.(pending := (if full then s.pending[1..] else s.pending) + [m], lost := if full then s.lost + [s.pending[0]] else s.lost,
       log := s.log + [m], since := s.since + [m])
  }

  /** drainLocked. */
  function Drained(s: State): State { s.(pending := [], since := [], drains := s.drains + [Drain(s.since, s.pending)]) }

  function Worked(s: State): State
  {
    match s.phase
    case Waiting => if s.stop || s.pending != [] then Drained(s).(phase := Writing(Batch(s.path, s.pending), s.stop)) else s
    case Writing(b, stop) => s.(batches := s.batches + [b], phase := if stop then Tail else Waiting)
    case Tail => Drained(s).(phase := WritingTail(Batch(s.path, s.pending)))
    case WritingTail(b) => s.(batches := s.batches + [b], phase := Done)
    case Done => s
  }

  function Next(s: State, e: Step): State
  {
    match e
    case Write(m) => Wrote(s, m)
    case SetPath(p) => s.(path := p)
    case Stop => s.(stop := true)
    case Work => Worked(s)
  }

  function After(s: State, es: seq<Step>): State
    decreases |es|
  {
    if es == [] then s else After(Next(s, es[0]), es[1..])
  }

  // ---------- What every interleaving keeps ----------

  function Written(ds: seq<Drain>): seq<Message> { if ds == [] then [] else Written(ds[..|ds| - 1]) + ds[|ds| - 1].written }

  function Out(ds: seq<Drain>): seq<Message> { if ds == [] then [] else Out(ds[..|ds| - 1]) + ds[|ds| - 1].batch }

  function Messages(bs: seq<Batch>): seq<Message> { if bs == [] then [] else Messages(bs[..|bs| - 1]) + bs[|bs| - 1].messages }

  /** Drained, but not yet handed to writeBatch. */
  function InFlight(p: Phase): seq<Message>
  {
    match p
    case Writing(b, _) => b.messages
    case WritingTail(b) => b.messages
    case _ => []
  }

  /** The drains cut what was written into pieces, and each takes the newest of its piece. */
  predicate Cut(s: State)
  {
    && s.pending == Newest(s.since) && s.log == Written(s.drains) + s.since
    && forall k :: 0 <= k < |s.drains| ==> s.drains[k].batch == Newest(s.drains[k].written)
  }

  /** What was drained is what was handed out, or is about to be. */
  predicate Flows(s: State) { Out(s.drains) == Messages(s.batches) + InFlight(s.phase) }

  /** No message appears twice or from nowhere. */
  predicate Conserved(s: State) { multiset(s.log) == multiset(Out(s.drains)) + multiset(s.pending) + multiset(s.lost) }

  predicate Phased(s: State) { s.stop || s.phase.Waiting? || (s.phase.Writing? && !s.phase.stop) }

  predicate Inv(s: State) { Cut(s) && Flows(s) && Conserved(s) && Phased(s) }

  lemma WroteConserved(s: State, m: Message)
    requires Conserved(s)
    ensures Conserved(Wrote(s, m))
  {
    if |s.pending| >= MAX_CNT_MESS - 1 {
      assert s.pending == [s.pending[0]] + s.pending[1..];
    }
  }

  /**
   * A write loses a message only when 99 are pending, and then the oldest of them: of what was written since the last
   * drain, the 99th from the end.
   */
  lemma WroteLoses(s: State, m: Message)
    requires Cut(s)
    ensures var r, n := Wrote(s, m), |s.since| - (MAX_CNT_MESS - 1);
      && (r.lost == s.lost <==> n < 0)
      && r.pending == (if n < 0 then s.since else s.since[n + 1..]) + [m]
      && (n >= 0 ==> r.lost == s.lost + [s.since[n]])
  {
    var r := Wrote(s, m);
    assert r.lost == s.lost || |r.lost| == |s.lost| + 1;
  }

  lemma WroteCut(s: State, m: Message)
    requires Cut(s)
    ensures Cut(Wrote(s, m))
  {
    var r := Wrote(s, m);
    NewestAgain(s.since, m);
    assert r.pending == Newest(s.pending + [m]);
    assert r.log == Written(s.drains) + (s.since + [m]);
  }

  lemma DrainedInv(s: State)
    requires Cut(s) && Conserved(s)
    ensures Cut(Drained(s)) && Conserved(Drained(s)) && Out(Drained(s).drains) == Out(s.drains) + s.pending
  {
    var r := Drained(s);
    assert r.drains[..|s.drains|] == s.drains;
    assert r.log == Written(r.drains) + [];
  }

  lemma Handed(s: State, b: Batch, p: Phase)
    requires Inv(s) && InFlight(s.phase) == b.messages && InFlight(p) == [] && (s.stop || p.Waiting?)
    ensures Inv(s.(batches := s.batches + [b], phase := p))
  {
    var r := s.(batches := s.batches + [b], phase := p);
    assert r.batches[..|s.batches|] == s.batches;
    assert Flows(r) && Cut(r) && Conserved(r);
  }

  lemma Taken(s: State, p: Phase)
    requires Inv(s) && InFlight(s.phase) == [] && InFlight(p) == s.pending && (s.stop || (p.Writing? && !p.stop))
    ensures Inv(Drained(s).(phase := p))
  {
    var d := Drained(s);
    var r := d.(phase := p);
    DrainedInv(s);
    assert Messages(s.batches) + [] == Messages(s.batches);
    assert Cut(r) && Conserved(r) && Flows(r);
  }

  lemma WorkedInv(s: State)
    requires Inv(s)
    ensures Inv(Worked(s))
  {
    match s.phase {
      case Waiting => if s.stop || s.pending != [] { Taken(s, Writing(Batch(s.path, s.pending), s.stop)); }
      case Writing(b, stop) => Handed(s, b, if stop then Tail else Waiting);
      case Tail => Taken(s, WritingTail(Batch(s.path, s.pending)));
      case WritingTail(b) => Handed(s, b, Done);
      case Done =>
    }
  }

  lemma NextInv(s: State, e: Step)
    requires Inv(s)
    ensures Inv(Next(s, e))
  {
    match e {
      case Write(m) =>
        WroteCut(s, m);
        WroteConserved(s, m);
      case SetPath(_) =>
      case Stop =>
      case Work => WorkedInv(s);
    }
  }

  lemma {:induction false} RunInv(s: State, es: seq<Step>)
    requires Inv(s)
    ensures Inv(After(s, es))
    decreases |es|
  {
    if es != [] {
      NextInv(s, es[0]);
      RunInv(Next(s, es[0]), es[1..]);
    }
  }

  /**
   * Over every interleaving of writers, path changes, stop and worker: the drains cut everything written into
   * consecutive pieces, and each hands out the newest 99 of its piece in order; what reaches writeBatch is what was
   * drained, in order and once; and every message was handed out, is pending, or was overwritten.
   */
  lemma EveryRun(path: string, es: seq<Step>)
    ensures var s := After(Init(path), es);
      && s.log == Written(s.drains) + s.since && s.pending == Newest(s.since)
      && (forall k :: 0 <= k < |s.drains| ==> s.drains[k].batch == Newest(s.drains[k].written))
      && Messages(s.batches) + InFlight(s.phase) == Out(s.drains)
      && multiset(s.log) == multiset(Messages(s.batches)) + multiset(InFlight(s.phase)) + multiset(s.pending) + multiset(s.lost)
  {
    RunInv(Init(path), es);
  }

  // ---------- The destructor ----------

  function Works(es: seq<Step>): nat
    decreases |es|
  {
    if es == [] then 0 else (if es[0].Work? then 1 else 0) + Works(es[1..])
  }

  /** How many more steps the worker takes once stop is set. */
  function Left(p: Phase): nat
  {
    match p
    case Writing(_, false) => 5
    case Waiting => 4
    case Writing(_, true) => 3
    case Tail => 2
    case WritingTail(_) => 1
    case Done => 0
  }

  /** Stop is set, and from the drain that sees it on, everything in `log` has been drained. */
  predicate Draining(s: State, log: seq<Message>)
  {
    Inv(s) && s.stop && log <= s.log && (Left(s.phase) <= 3 ==> log <= Written(s.drains))
  }

  lemma WorkedDrains(s: State, log: seq<Message>)
    requires Cut(s) && log <= s.log && (Left(s.phase) <= 3 ==> log <= Written(s.drains)) && s.stop
    ensures var r := Worked(s); r.log == s.log && r.stop && (Left(r.phase) <= 3 ==> log <= Written(r.drains))
    ensures Left(Worked(s).phase) == if s.phase.Done? then 0 else Left(s.phase) - 1
  {
    if s.phase.Waiting? || s.phase.Tail? {
      var d := Drained(s).drains;
      assert d[..|s.drains|] == s.drains;
      assert Written(d) == Written(s.drains) + s.since;
    }
  }

  lemma DrainingNext(s: State, log: seq<Message>, e: Step)
    requires Draining(s, log)
    ensures Draining(Next(s, e), log)
    ensures Left(Next(s, e).phase) == if e.Work? && !s.phase.Done? then Left(s.phase) - 1 else Left(s.phase)
  {
    NextInv(s, e);
    if e.Work? { WorkedDrains(s, log); } else { assert s.log <= Next(s, e).log; }
  }

  lemma {:induction false} RunDraining(s: State, log: seq<Message>, es: seq<Step>)
    requires Draining(s, log)
    ensures Draining(After(s, es), log)
    ensures Left(After(s, es).phase) == if Works(es) <= Left(s.phase) then Left(s.phase) - Works(es) else 0
    decreases |es|
  {
    if es != [] {
      DrainingNext(s, log, es[0]);
      RunDraining(Next(s, es[0]), log, es[1..]);
    }
  }

  predicate Quiet(es: seq<Step>) { forall k :: 0 <= k < |es| ==> !es[k].Write? }

  /** Handed out, on the way, or pending: what is still to come out once nothing more is written. */
  function Owed(s: State): seq<Message> { Messages(s.batches) + InFlight(s.phase) + s.pending }

  lemma OwedWorked(s: State)
    requires s.stop && (Left(s.phase) <= 3 ==> s.pending == [])
    ensures var r := Worked(s); Owed(r) == Owed(s) && r.stop && (Left(r.phase) <= 3 ==> r.pending == [])
  {
    var r := Worked(s);
    if s.phase.Writing? || s.phase.WritingTail? { assert r.batches[..|s.batches|] == s.batches; }
  }

  lemma {:induction false} RunOwed(s: State, es: seq<Step>)
    requires s.stop && (Left(s.phase) <= 3 ==> s.pending == []) && Quiet(es)
    ensures var r := After(s, es); Owed(r) == Owed(s) && (Left(r.phase) <= 3 ==> r.pending == [])
    decreases |es|
  {
    if es != [] {
      if es[0].Work? { OwedWorked(s); }
      RunOwed(Next(s, es[0]), es[1..]);
    }
  }

  lemma FromStop(s: State, after: seq<Step>)
    requires Inv(s) && s.stop && 4 <= Left(s.phase) <= 5 && Works(after) >= 5
    ensures var r := After(s, after);
      Inv(r) && r.phase.Done? && s.log <= Written(r.drains) && (Quiet(after) ==> Owed(r) == Owed(s) && r.pending == [])
  {
    RunDraining(s, s.log, after);
    if Quiet(after) { RunOwed(s, after); }
  }

  /**
   * After the destructor sets stop, five steps of the worker end it, whatever is written or renamed in between: all
   * that was written before stop has been drained, and all that was drained was handed out. When nothing is written
   * any more, all that was pending or on its way at stop was handed out, in order, and nothing is left.
   */
  lemma StopDrains(path: string, es: seq<Step>, after: seq<Step>)
    requires !After(Init(path), es).stop && Works(after) >= 5
    ensures var s := Next(After(Init(path), es), Stop);
      var r := After(s, after);
      && r.phase.Done? && s.log <= Written(r.drains) && Messages(r.batches) == Out(r.drains)
      && (forall k :: 0 <= k < |r.drains| ==> r.drains[k].batch == Newest(r.drains[k].written))
      && (Quiet(after) ==> r.pending == [] && Messages(r.batches) == Messages(s.batches) + InFlight(s.phase) + s.pending)
  {
    var b := After(Init(path), es);
    var s := Next(b, Stop);
    RunInv(Init(path), es);
    NextInv(b, Stop);
    FromStop(s, after);
  }

  // ---------- The ring ----------

  function Succ(i: nat): nat { (i + 1) % MAX_CNT_MESS }

  /** The slots from `r` round to `w`. */
  function Ring(d: seq<Message>, r: nat, w: nat): (s: seq<Message>)
    requires |d| == MAX_CNT_MESS && r < MAX_CNT_MESS && w < MAX_CNT_MESS
    ensures |s| == if r <= w then w - r else w + MAX_CNT_MESS - r
    decreases if r <= w then w - r else w + MAX_CNT_MESS - r
  {
    if r == w then [] else [d[r]] + Ring(d, Succ(r), w)
  }

  /** A message in the free slot is one more at the end. */
  lemma {:induction false} RingMore(d: seq<Message>, r: nat, w: nat, m: Message)
    requires |d| == MAX_CNT_MESS && r < MAX_CNT_MESS && w < MAX_CNT_MESS && Succ(w) != r
    ensures Ring(d[w := m], r, Succ(w)) == Ring(d, r, w) + [m]
    decreases if r <= w then w - r else w + MAX_CNT_MESS - r
  {
    if r == w {
      assert Ring(d[w := m], Succ(w), Succ(w)) == [];
    } else {
      RingMore(d, Succ(r), w, m);
      assert d[w := m][r] == d[r] && r != Succ(w);
      assert Ring(d, r, w) == [d[r]] + Ring(d, Succ(r), w);
    }
  }

  /** What writeLine does to the indices and the slot: when all but one are taken, the oldest message goes. */
  lemma RingWrite(d: seq<Message>, r: nat, w: nat, m: Message)
    requires |d| == MAX_CNT_MESS && r < MAX_CNT_MESS && w < MAX_CNT_MESS
    ensures var was, r' := Ring(d, r, w), if Succ(w) == r then Succ(r) else r;
      Ring(d[w := m], r', Succ(w)) == (if |was| >= MAX_CNT_MESS - 1 then was[1..] else was) + [m]
  {
    RingMore(d, if Succ(w) == r then Succ(r) else r, w, m);
  }

  /** The logger, its worker's place in writeCycle, and, as a ghost, the state the steps above describe. */
  class Logger {
    var pathFile: string
    var readMessCnt: nat
    var writeMessCnt: nat
    const deqMess: array<Message>
    var fStop: bool
    var phase: Phase
    var batches: seq<Batch>
    ghost var now: State

    ghost predicate RingOk()
      reads this
    {
      deqMess.Length == MAX_CNT_MESS && readMessCnt < MAX_CNT_MESS && writeMessCnt < MAX_CNT_MESS
    }

    /** The pending messages, from the read index round to the write index. */
    ghost function Pending(): (s: seq<Message>)
      requires RingOk()
      reads this, deqMess
    {
      Ring(deqMess[..], readMessCnt, writeMessCnt)
    }

    ghost predicate Valid()
      reads this, deqMess
    {
      && RingOk() && now.pending == Pending() && now.path == pathFile && now.stop == fStop
      && now.phase == phase && now.batches == batches
    }

    constructor (pathFile: string, blank: Message)
      ensures Valid() && now == Init(pathFile) && fresh(deqMess)
    {
      this.pathFile, readMessCnt, writeMessCnt, fStop, phase, batches := pathFile, 0, 0, false, Waiting, [];
      now := Init(pathFile);
      deqMess := new Message[MAX_CNT_MESS](_ => blank);
    }

    /** The ring's part of writeLine. */
    method PutLine(m: Message)
      requires RingOk()
      modifies this`readMessCnt, this`writeMessCnt, deqMess
      ensures RingOk()
      ensures var was := old(Pending()); Pending() == (if |was| >= MAX_CNT_MESS - 1 then was[1..] else was) + [m]
    {
      ghost var slots, was := deqMess[..], Pending();
      RingWrite(slots, readMessCnt, writeMessCnt, m);
      var nextWrite := (writeMessCnt + 1) % MAX_CNT_MESS;
      if nextWrite == readMessCnt {
        readMessCnt := (readMessCnt + 1) % MAX_CNT_MESS;
      }
      deqMess[writeMessCnt] := m;
      assert deqMess[..] == slots[writeMessCnt := m];
      writeMessCnt := nextWrite;
      assert Pending() == (if |was| >= MAX_CNT_MESS - 1 then was[1..] else was) + [m];
    }

    method WriteLine(m: Message)
      requires Valid()
      modifies this, deqMess
      ensures Valid() && now == Next(old(now), Write(m))
    {
      PutLine(m);
      now := Next(now, Write(m));
    }

    method SetPathFile(pathFile: string)
      requires Valid()
      modifies this
      ensures Valid() && now == Next(old(now), SetPath(pathFile))
    {
      this.pathFile := pathFile;
      now := Next(now, SetPath(pathFile));
    }

    /** The destructor, before it joins the worker. */
    method RequestStop()
      requires Valid()
      modifies this
      ensures Valid() && now == Next(old(now), Stop)
    {
      fStop := true;
      now := Next(now, Stop);
    }

    method DrainLocked() returns (mess: seq<Message>)
      requires RingOk()
      modifies this`readMessCnt
      ensures RingOk() && mess == old(Pending()) && Pending() == []
    {
      mess := [];
      ghost var slots, w, was := deqMess[..], writeMessCnt, Pending();
      while readMessCnt != writeMessCnt
        invariant RingOk() && was == mess + Ring(slots, readMessCnt, w)
        decreases |Ring(slots, readMessCnt, w)|
      {
        assert deqMess[readMessCnt] == slots[readMessCnt];
        mess := mess + [deqMess[readMessCnt]];
        readMessCnt := Succ(readMessCnt);
      }
    }

    /** The next critical section or writeBatch of writeCycle; a wait that nothing has ended does nothing. */
    method WriteCycleStep()
      requires Valid()
      modifies this
      ensures Valid() && now == Next(old(now), Work)
    {
      match phase {
        case Waiting =>
          if fStop || readMessCnt != writeMessCnt {
            var batch := DrainLocked();
            phase := Writing(Batch(pathFile, batch), fStop);
          }
        case Writing(batch, stop) =>
          batches := batches + [batch];
          phase := if stop then Tail else Waiting;
        case Tail =>
          var tail := DrainLocked();
          phase := WritingTail(Batch(pathFile, tail));
        case WritingTail(tail) =>
          batches := batches + [tail];
          phase := Done;
        case Done =>
      }
      now := Next(now, Work);
    }
  }
}
