/** The Arduino client of sv_client.cpp: signals sampled and held once a tick, sent ten ticks to the packet. */
module Recorder {
  import opened Options
  import BinTree

  const SV_PACKETSZ := 10
  const SV_NAMESZ := 24
  const SV_VALS_MAX_CNT := 128

  datatype ValueType = TBool | TInt | TFloat

  datatype Value = B(b: bool) | I(i: int) | F(f: real)

  /** A slot that only memset has written. */
  function Zero(t: ValueType): Value
  {
    match t
    case TBool => B(false)
    case TInt => I(0)
    case TFloat => F(0.0)
  }

  /** strstr finds `sub`. */
  predicate Contains(s: string, sub: string) { exists i :: 0 <= i <= |s| - |sub| && StandsAt(s, i, sub) }

  predicate StandsAt(s: string, i: nat, sub: string)
    requires i + |sub| <= |s|
  {
    s[i..i + |sub|] == sub
  }

  predicate GoodName(name: string)
  {
    0 < |name| < SV_NAMESZ && !Contains(name, "=end=") && !Contains(name, "=begin=")
  }

  // ---------- The client as a state machine ----------

  type Slot = n: nat | n < SV_PACKETSZ

  type Slots = s: seq<Value> | |s| == SV_PACKETSZ witness seq(SV_PACKETSZ, _ => B(false))

  datatype Rec = Rec(name: string, ty: ValueType, front: bool, active: bool, vals: Slots)

  datatype State = State(connected: bool, cyc: Slot, recs: seq<Rec>)

  /** What the client sends of one signal. */
  datatype DataRef = DataRef(name: string, ty: ValueType, vals: Slots)

  /** A user call, or the timer; at a tick `relink` is what reconnecting would give, `link` whether the line is up. */
  datatype Event = Add(name: string, ty: ValueType, val: Value, front: bool) | Tick(relink: bool, link: bool)

  function Find(rs: seq<Rec>, name: string): (k: nat)
    ensures k <= |rs| && (k < |rs| ==> rs[k].name == name) && forall j :: 0 <= j < k ==> rs[j].name != name
  {
    if rs == [] || rs[0].name == name then 0 else 1 + Find(rs[1..], name)
  }

  predicate Accepts(s: State, name: string)
  {
    s.connected && (Find(s.recs, name) < |s.recs| || (|s.recs| + 1 <= SV_VALS_MAX_CNT && GoodName(name)))
  }

  /** The record an accepted value goes to, new if need be, and where. */
  function WithRec(s: State, name: string, ty: ValueType): seq<Rec>
  {
    if Find(s.recs, name) < |s.recs| then s.recs
    else s.recs + [Rec(name, ty, false, false, seq(SV_PACKETSZ, _ => Zero(ty)))]
  }

  function AddTo(s: State, name: string, ty: ValueType, val: Value, front: bool): (r: State)
  {
    if !Accepts(s, name) then s else
      var rs, k := WithRec(s, name, ty), Find(s.recs, name);
      s.(recs := rs[k := rs[k].(vals := rs[k].vals[s.cyc := val], front := front, active := true)])
  }

  function PrevCyc(cyc: Slot): Slot { if cyc == 0 then SV_PACKETSZ - 1 else cyc - 1 }

  /** One record at a tick: an idle one repeats its last sample, or falls back to false. */
  function HoldRec(r: Rec, cyc: Slot): Rec
  {
    var held := if r.ty == TBool && r.front then B(false) else r.vals[PrevCyc(cyc)];
    r.(vals := if r.active then r.vals else r.vals[cyc := held], active := false)
  }

  function HeldRecs(rs: seq<Rec>, cyc: Slot): seq<Rec> { seq(|rs|, i requires 0 <= i < |rs| => HoldRec(rs[i], cyc)) }

  function Held(s: State): seq<Rec> { HeldRecs(s.recs, s.cyc) }

  function Packed(rs: seq<Rec>): seq<DataRef> { seq(|rs|, i requires 0 <= i < |rs| => DataRef(rs[i].name, rs[i].ty, rs[i].vals)) }

  /** The first half of a tick: reconnect if need be, and settle the current slot of every record. */
  function Refreshed(s: State, relink: bool): State { State(s.connected || relink, s.cyc, Held(s)) }

  predicate Full(s: State) { s.cyc + 1 >= SV_PACKETSZ }

  /** The second half: on to the next slot, or, when there is none, to a packet. */
  function Advanced(s: State, link: bool): State
  {
    State(s.connected && (Full(s) ==> link), if Full(s) then 0 else s.cyc + 1, s.recs)
  }

  function Sent(s: State, link: bool): Option<seq<DataRef>>
  {
    if Full(s) && s.connected && link && s.recs != [] then Some(Packed(s.recs)) else None
  }

  function TickTo(s: State, relink: bool, link: bool): State { Advanced(Refreshed(s, relink), link) }

  /** The packet a tick sends, if it sends one. */
  function Packet(s: State, relink: bool, link: bool): Option<seq<DataRef>> { Sent(Refreshed(s, relink), link) }

  function Next(s: State, e: Event): (r: State)
  {
    match e
    case Add(name, ty, val, front) => AddTo(s, name, ty, val, front)
    case Tick(relink, link) => TickTo(s, relink, link)
  }

  function After(s: State, es: seq<Event>): (r: State)
    decreases |es|
  {
    if es == [] then s else Next(After(s, es[..|es| - 1]), es[|es| - 1])
  }

  // ---------- Sample and hold, without slots ----------

  /** A signal from the tick it was born before: every sample so far, and the last value added since. */
  datatype Signal = Signal(name: string, ty: ValueType, front: bool, born: nat, samples: seq<Value>, pending: Option<Value>)

  datatype Trace = Trace(ticks: nat, signals: seq<Signal>)

  /** A tick takes the last value added, else false for an only-front bool, else the sample before. */
  function Sample(g: Signal): Signal
  {
    var v :=
      if g.pending.Some? then g.pending.value
      else if g.ty == TBool && g.front then B(false)
      else if g.samples == [] then Zero(g.ty) else g.samples[|g.samples| - 1];
    g.(samples := g.samples + [v], pending := None)
  }

  function Sampled(gs: seq<Signal>): seq<Signal> { seq(|gs|, i requires 0 <= i < |gs| => Sample(gs[i])) }

  /** An accepted value at place `k`, which may be one past the end. */
  function Hear(tr: Trace, k: nat, name: string, ty: ValueType, val: Value, front: bool): Trace
    requires k <= |tr.signals|
  {
    var gs := if k < |tr.signals| then tr.signals else tr.signals + [Signal(name, ty, front, tr.ticks, [], None)];
    tr.(signals := gs[k := gs[k].(front := front, pending := Some(val))])
  }

  function Traced(before: State, tr: Trace, e: Event): (r: Trace)
    requires |tr.signals| == |before.recs|
    ensures |r.signals| == |Next(before, e).recs|
  {
    match e
    case Add(name, ty, val, front) =>
      if Accepts(before, name) then Hear(tr, Find(before.recs, name), name, ty, val, front) else tr
    case Tick(_, _) => Trace(tr.ticks + 1, Sampled(tr.signals))
  }

  /** The trace of a run: what was accepted when, and what each tick sampled. */
  function TraceOf(s: State, es: seq<Event>): (tr: Trace)
    requires s.recs == [] && s.cyc == 0
    ensures |tr.signals| == |After(s, es).recs|
    decreases |es|
  {
    if es == [] then Trace(0, []) else
      var before, tr := After(s, es[..|es| - 1]), TraceOf(s, es[..|es| - 1]);
      Traced(before, tr, es[|es| - 1])
  }

  /** The sample of tick `n`, zero before the signal was born. */
  function SampleAt(g: Signal, n: int): Value
  {
    if 0 <= n - g.born < |g.samples| then g.samples[n - g.born] else Zero(g.ty)
  }

  // ---------- Slots hold samples ----------

  /** The last tick before `ticks` that used slot `j`; negative when none did. */
  function LastTick(ticks: nat, j: nat): int { ticks - 1 - (ticks - 1 - j) % SV_PACKETSZ }

  predicate Matches(r: Rec, g: Signal, ticks: nat)
  {
    && r.name == g.name && r.ty == g.ty && r.front == g.front && r.active == g.pending.Some?
    && g.born <= ticks && |g.samples| == ticks - g.born && (g.born == ticks ==> r.active)
    && (r.active ==> r.vals[ticks % SV_PACKETSZ] == g.pending.value)
    && forall j :: 0 <= j < SV_PACKETSZ && (r.active ==> j != ticks % SV_PACKETSZ) ==> r.vals[j] == SampleAt(g, LastTick(ticks, j))
  }

  predicate AllMatch(s: State, tr: Trace)
  {
    && s.cyc == tr.ticks % SV_PACKETSZ && |s.recs| == |tr.signals|
    && forall i :: 0 <= i < |s.recs| ==> Matches(s.recs[i], tr.signals[i], tr.ticks)
  }

  lemma LastTickNext(ticks: nat, j: nat)
    requires j < SV_PACKETSZ
    ensures LastTick(ticks + 1, j) == if j == ticks % SV_PACKETSZ then ticks else LastTick(ticks, j)
    ensures LastTick(ticks, j) < ticks
  {
    ModNext(ticks - 1 - j);
    ModLess(ticks, j);
  }

  lemma ModNext(x: int)
    ensures (x + 1) % SV_PACKETSZ == if x % SV_PACKETSZ == SV_PACKETSZ - 1 then 0 else x % SV_PACKETSZ + 1
  {
    var q, m := x / SV_PACKETSZ, x % SV_PACKETSZ;
    assert x == SV_PACKETSZ * q + m;
    if m == SV_PACKETSZ - 1 { assert x + 1 == SV_PACKETSZ * (q + 1); } else { assert x + 1 == SV_PACKETSZ * q + (m + 1); }
  }

  lemma ModLess(x: nat, j: nat)
    requires j < SV_PACKETSZ
    ensures (x - j) % SV_PACKETSZ == 0 <==> x % SV_PACKETSZ == j
  {
    var q, m := x / SV_PACKETSZ, x % SV_PACKETSZ;
    assert x - j == SV_PACKETSZ * q + (m - j);
    if m < j { assert x - j == SV_PACKETSZ * (q - 1) + (m - j + SV_PACKETSZ); }
  }

  lemma LastTickPrev(ticks: nat)
    requires ticks > 0
    ensures LastTick(ticks, PrevCyc(ticks % SV_PACKETSZ)) == ticks - 1
  {
  }

  lemma TickMatches(r: Rec, g: Signal, ticks: nat)
    requires Matches(r, g, ticks)
    ensures Matches(HoldRec(r, ticks % SV_PACKETSZ), Sample(g), ticks + 1)
  {
    var c := ticks % SV_PACKETSZ;
    var h, g' := HoldRec(r, c), Sample(g);
    HoldsSample(r, g, ticks);
    forall j | 0 <= j < SV_PACKETSZ
      ensures h.vals[j] == SampleAt(g', LastTick(ticks + 1, j))
    {
      LastTickNext(ticks, j);
    }
  }

  /** The current slot takes the sample; the others, and the samples before, stay. */
  lemma HoldsSample(r: Rec, g: Signal, ticks: nat)
    requires Matches(r, g, ticks)
    ensures var c, h, g' := ticks % SV_PACKETSZ, HoldRec(r, ticks % SV_PACKETSZ), Sample(g);
      && |g'.samples| == ticks + 1 - g.born && h.vals[c] == SampleAt(g', ticks)
      && (forall j :: 0 <= j < SV_PACKETSZ && j != c ==> h.vals[j] == r.vals[j])
      && (forall n :: n < ticks ==> SampleAt(g', n) == SampleAt(g, n))
  {
    if !r.active { LastTickPrev(ticks); }
  }

  lemma AddMatches(r: Rec, g: Signal, ticks: nat, val: Value, front: bool)
    requires Matches(r, g, ticks)
    ensures var c := ticks % SV_PACKETSZ;
      Matches(r.(vals := r.vals[c := val], front := front, active := true), g.(front := front, pending := Some(val)), ticks)
  {
  }

  lemma NewMatches(name: string, ty: ValueType, ticks: nat, val: Value, front: bool)
    ensures var c, zeros := ticks % SV_PACKETSZ, seq(SV_PACKETSZ, _ => Zero(ty));
      Matches(Rec(name, ty, front, true, zeros[c := val]), Signal(name, ty, front, ticks, [], Some(val)), ticks)
  {
  }

  lemma EventMatches(before: State, tr: Trace, e: Event)
    requires AllMatch(before, tr)
    ensures AllMatch(Next(before, e), Traced(before, tr, e))
  {
    match e {
      case Add(name, ty, val, front) =>
        if Accepts(before, name) { HearMatches(before, tr, name, ty, val, front); }
      case Tick(relink, link) =>
        AllTickMatch(before, tr, relink, link);
    }
  }

  lemma {:induction false} RunMatches(s: State, es: seq<Event>)
    requires s.recs == [] && s.cyc == 0
    ensures AllMatch(After(s, es), TraceOf(s, es))
    decreases |es|
  {
    if es != [] {
      var rest := es[..|es| - 1];
      RunMatches(s, rest);
      EventMatches(After(s, rest), TraceOf(s, rest), es[|es| - 1]);
    }
  }

  lemma AllTickMatch(s: State, tr: Trace, relink: bool, link: bool)
    requires AllMatch(s, tr)
    ensures AllMatch(TickTo(s, relink, link), Trace(tr.ticks + 1, Sampled(tr.signals)))
  {
    NextSlot(tr.ticks);
    var rs, gs := TickTo(s, relink, link).recs, Sampled(tr.signals);
    forall i | 0 <= i < |s.recs|
      ensures Matches(rs[i], gs[i], tr.ticks + 1)
    {
      assert Matches(s.recs[i], tr.signals[i], tr.ticks);
      TickMatches(s.recs[i], tr.signals[i], tr.ticks);
    }
  }

  lemma NextSlot(ticks: nat)
    ensures (ticks + 1) % SV_PACKETSZ == if ticks % SV_PACKETSZ + 1 >= SV_PACKETSZ then 0 else ticks % SV_PACKETSZ + 1
  {
  }

  lemma HearMatches(s: State, tr: Trace, name: string, ty: ValueType, val: Value, front: bool)
    requires AllMatch(s, tr) && Accepts(s, name)
    ensures AllMatch(AddTo(s, name, ty, val, front), Hear(tr, Find(s.recs, name), name, ty, val, front))
  {
    var k := Find(s.recs, name);
    if k < |s.recs| {
      AddMatches(s.recs[k], tr.signals[k], tr.ticks, val, front);
    } else {
      NewMatches(name, ty, tr.ticks, val, front);
    }
  }

  /** The packet holds the last ten samples of every signal, and the number of ticks is a multiple of ten. */
  predicate Carries(p: seq<DataRef>, tr: Trace)
  {
    && tr.ticks % SV_PACKETSZ == 0 && |p| == |tr.signals|
    && (forall i :: 0 <= i < |p| ==> p[i].name == tr.signals[i].name && p[i].ty == tr.signals[i].ty)
    && (forall i, j :: 0 <= i < |p| && 0 <= j < SV_PACKETSZ ==> p[i].vals[j] == SampleAt(tr.signals[i], tr.ticks - SV_PACKETSZ + j))
  }

  /**
   * A packet goes out only at ticks 9, 19, 29, ...; for each signal, in the order of first use, its slot j is the
   * sample-and-hold value of tick 10k + j, zero for ticks before the signal existed.
   */
  lemma PacketHoldsSamples(s: State, es: seq<Event>)
    requires s.recs == [] && s.cyc == 0 && es != [] && es[|es| - 1].Tick?
    requires var e := es[|es| - 1]; Packet(After(s, es[..|es| - 1]), e.relink, e.link).Some?
    ensures var e := es[|es| - 1]; Carries(Packet(After(s, es[..|es| - 1]), e.relink, e.link).value, TraceOf(s, es))
  {
    var rest, e := es[..|es| - 1], es[|es| - 1];
    RunMatches(s, rest);
    var before, tr := After(s, rest), TraceOf(s, rest);
    PacketFrom(before, tr, e.relink, e.link);
    assert TraceOf(s, es) == Trace(tr.ticks + 1, Sampled(tr.signals));
  }

  lemma PacketFrom(s: State, tr: Trace, relink: bool, link: bool)
    ensures AllMatch(s, tr) && Packet(s, relink, link).Some? ==>
      Carries(Packet(s, relink, link).value, Trace(tr.ticks + 1, Sampled(tr.signals)))
  {
    if AllMatch(s, tr) && Packet(s, relink, link).Some? {
      AllTickMatch(s, tr, relink, link);
      PackedSamples(Refreshed(s, relink).recs, Trace(tr.ticks + 1, Sampled(tr.signals)));
    }
  }

  /** What is packed at the end of a round of slots. */
  lemma PackedSamples(rs: seq<Rec>, tr: Trace)
    requires tr.ticks % SV_PACKETSZ == 0 && |rs| == |tr.signals|
    requires forall i :: 0 <= i < |rs| ==> !rs[i].active && Matches(rs[i], tr.signals[i], tr.ticks)
    ensures Carries(Packed(rs), tr)
  {
    forall i, j | 0 <= i < |rs| && 0 <= j < SV_PACKETSZ
      ensures rs[i].vals[j] == SampleAt(tr.signals[i], tr.ticks - SV_PACKETSZ + j)
    {
      assert Matches(rs[i], tr.signals[i], tr.ticks);
      LastSlots(tr.ticks, j);
    }
  }

  lemma LastSlots(ticks: nat, j: nat)
    requires ticks % SV_PACKETSZ == 0 && j < SV_PACKETSZ
    ensures LastTick(ticks, j) == ticks - SV_PACKETSZ + j
  {
  }

  lemma FindUnique(rs: seq<Rec>, name: string, k: nat)
    requires k <= |rs| && (k < |rs| ==> rs[k].name == name) && forall j :: 0 <= j < k ==> rs[j].name != name
    ensures Find(rs, name) == k
  {
  }

  // ---------- The client object ----------

  class ValueRec {
    const name: string
    const ty: ValueType
    var isActive: bool
    var isOnlyFront: bool
    var vals: Slots

    constructor (name: string, ty: ValueType)
      ensures this.name == name && this.ty == ty && !isActive && !isOnlyFront
      ensures vals == seq(SV_PACKETSZ, _ => Zero(ty))
    {
      this.name, this.ty, isActive, isOnlyFront := name, ty, false, false;
      vals := seq(SV_PACKETSZ, _ => Zero(ty));
    }

    function Now(): Rec
      reads this
    {
      Rec(name, ty, isOnlyFront, isActive, vals)
    }

    /** A value added, into the current slot. */
    method Store(curCycCnt: Slot, val: Value, onlyPosFront: bool)
      modifies this
      ensures Now() == old(Now()).(vals := old(vals)[curCycCnt := val], front := onlyPosFront, active := true)
    {
      vals := vals[curCycCnt := val];
      isOnlyFront := onlyPosFront;
      isActive := true;
    }

    /** The body of doSendCyc's loop. */
    method Hold(curCycCnt: Slot, prevCyc: Slot)
      requires prevCyc == PrevCyc(curCycCnt)
      modifies this
      ensures Now() == HoldRec(old(Now()), curCycCnt)
    {
      if !isActive {
        vals := vals[curCycCnt := vals[prevCyc]];
        if ty == TBool && isOnlyFront {
          vals := vals[curCycCnt := B(false)];
        }
      }
      isActive := false;
    }
  }

  function Recs(ns: seq<BinTree.Node<ValueRec>>): (rs: seq<Rec>)
    reads set n | n in ns :: n.data
    ensures |rs| == |ns| && forall i :: 0 <= i < |ns| ==> rs[i] == ns[i].data.Now()
  {
    if ns == [] then [] else Recs(ns[..|ns| - 1]) + [ns[|ns| - 1].data.Now()]
  }

  /** No record stands at two places. */
  predicate Separate(ns: seq<BinTree.Node<ValueRec>>)
  {
    forall i, j :: 0 <= i < |ns| && 0 <= j < |ns| && ns[i].data == ns[j].data ==> i == j
  }

  predicate Keyed(ns: seq<BinTree.Node<ValueRec>>) { forall i :: 0 <= i < |ns| ==> ns[i].key == ns[i].data.name }

  lemma OneMore(ns: seq<BinTree.Node<ValueRec>>, z: BinTree.Node<ValueRec>)
    requires Separate(ns) && Keyed(ns) && z.key == z.data.name && forall i :: 0 <= i < |ns| ==> ns[i].data != z.data
    ensures Separate(ns + [z]) && Keyed(ns + [z])
  {
  }

  class Client {
    var isConnect: bool
    var curCycCnt: Slot
    const values: BinTree.Map<ValueRec>

    ghost function Datas(): set<ValueRec>
      reads values
    {
      set n | n in values.nods :: n.data
    }

    function Now(): State
      reads this, values, Datas()
    {
      State(isConnect, curCycCnt, Recs(values.nods))
    }

    ghost predicate Distinct()
      reads values
    {
      Separate(values.nods)
    }

    /** The tree finds each record under its name. */
    ghost predicate Indexed()
      reads values, values.nods
    {
      values.Valid() && |values.nods| <= SV_VALS_MAX_CNT && Keyed(values.nods)
    }

    ghost predicate Valid()
      reads this, values, values.nods, Datas()
    {
      Indexed() && Distinct()
    }

    constructor ()
      ensures Valid() && fresh(values) && Now() == State(false, 0, [])
    {
      isConnect, curCycCnt := false, 0;
      values := new BinTree.Map();
    }

    /** connectOfCOM, without the port and the timer: the module's name decides. */
    method ConnectOfCom(moduleName: string) returns (ok: bool)
      requires Valid()
      modifies this`isConnect
      ensures Valid() && ok == (old(isConnect) || GoodName(moduleName)) && Now() == old(Now()).(connected := ok)
    {
      if isConnect {
        return true;
      }
      if !GoodName(moduleName) {
        return false;
      }
      isConnect := true;
      ok := isConnect;
    }

    lemma SameFind(name: string)
      requires Valid()
      ensures Find(Now().recs, name) == values.First(name)
    {
      var f := values.First(name);
      FindUnique(Recs(values.nods), name, f);
    }

    /** A record for a name not seen before, last in the tree's array. */
    method NewRec(name: string, ty: ValueType) returns (rec: ValueRec)
      requires Valid() && |values.nods| < SV_VALS_MAX_CNT
      modifies values, values.nods
      ensures Valid() && fresh(rec) && |values.nods| == |old(values.nods)| + 1 && values.nods[|old(values.nods)|].data == rec
      ensures values.nods[..|old(values.nods)|] == old(values.nods) && fresh(values.nods[|old(values.nods)|])
      ensures Recs(values.nods) == old(Recs(values.nods)) + [Rec(name, ty, false, false, seq(SV_PACKETSZ, _ => Zero(ty)))]
    {
      rec := new ValueRec(name, ty);
      InsertRec(rec);
      ghost var z := values.nods[|old(values.nods)|];
      OneMore(old(values.nods), z);
    }

    /** The tree and its array take the record; those before it are as they were. */
    method InsertRec(rec: ValueRec)
      requires values.Valid()
      modifies values, values.nods
      ensures values.Valid() && |values.nods| == |old(values.nods)| + 1 && values.nods == old(values.nods) + [values.nods[|old(values.nods)|]]
      ensures var z := values.nods[|old(values.nods)|]; fresh(z) && z.data == rec && z.key == rec.name
      ensures Recs(values.nods) == old(Recs(values.nods)) + [rec.Now()]
    {
      values.Insert(rec.name, rec);
    }

    /** Writes a value into the current slot of record `k`. */
    method Store(vr: ValueRec, val: Value, onlyPosFront: bool, ghost k: nat)
      requires Valid() && k < |values.nods| && values.nods[k].data == vr
      modifies vr
      ensures Valid()
      ensures var rs := old(Recs(values.nods));
        Recs(values.nods) == rs[k := rs[k].(vals := rs[k].vals[curCycCnt := val], front := onlyPosFront, active := true)]
    {
      ghost var before := Recs(values.nods);
      vr.Store(curCycCnt, val, onlyPosFront);
      forall i | 0 <= i < |values.nods| && i != k
        ensures Recs(values.nods)[i] == before[i]
      {
        assert values.nods[i].data != vr;
      }
      assert Recs(values.nods) == before[k := vr.Now()];
    }

    /** The record of that name, made if it is new and acceptable; `k` is its place. */
    method RecordFor(name: string, ty: ValueType) returns (vr: Option<ValueRec>, ghost k: nat)
      requires Valid() && isConnect
      modifies values, values.nods
      ensures Valid() && vr.Some? == old(Accepts(Now(), name)) && k == old(Find(Now().recs, name))
      ensures Recs(values.nods) == if vr.Some? then old(WithRec(Now(), name, ty)) else old(Recs(values.nods))
      ensures vr.Some? ==> k < |values.nods| && values.nods[k].data == vr.value && (vr.value in old(Datas()) || fresh(vr.value))
    {
      SameFind(name);
      k := values.First(name);
      vr := values.Find(name);
      if vr.Some? {
        assert values.nods[k] in values.nods;
      } else {
        vr := FirstUse(name, ty);
      }
    }

    lemma FirstUseOf(s: State, name: string, ty: ValueType)
      requires s.connected && Find(s.recs, name) == |s.recs|
      ensures Accepts(s, name) == (|s.recs| + 1 <= SV_VALS_MAX_CNT && GoodName(name))
      ensures WithRec(s, name, ty) == s.recs + [Rec(name, ty, false, false, seq(SV_PACKETSZ, _ => Zero(ty)))]
    {
    }

    /** A name without a record gets one if there is room and the name is good. */
    method FirstUse(name: string, ty: ValueType) returns (vr: Option<ValueRec>)
      requires Valid() && isConnect && Find(Recs(values.nods), name) == |values.nods|
      modifies values, values.nods
      ensures Valid() && vr.Some? == old(Accepts(Now(), name))
      ensures Recs(values.nods) == if vr.Some? then old(WithRec(Now(), name, ty)) else old(Recs(values.nods))
      ensures vr.Some? ==> fresh(vr.value) && |values.nods| == |old(values.nods)| + 1 && values.nods[|old(values.nods)|].data == vr.value
    {
      FirstUseOf(Now(), name, ty);
      var sz := values.Size();
      if sz + 1 > SV_VALS_MAX_CNT || !GoodName(name) {
        return None;
      }
      var rec := NewRec(name, ty);
      vr := Some(rec);
    }

    method AddValue(name: string, ty: ValueType, val: Value, onlyPosFront: bool) returns (ok: bool)
      requires Valid()
      modifies values, values.nods, Datas()
      ensures Valid() && ok == old(Accepts(Now(), name)) && Now() == old(AddTo(Now(), name, ty, val, onlyPosFront))
    {
      if !isConnect {
        return false;
      }
      ghost var before := Now();
      var vr;
      ghost var k;
      vr, k := RecordFor(name, ty);
      ok := vr.Some?;
      if ok {
        StoreNew(vr.value, name, ty, val, onlyPosFront, before, k);
      }
    }

    method StoreNew(vr: ValueRec, ghost name: string, ghost ty: ValueType, val: Value, onlyPosFront: bool, ghost s: State, ghost k: nat)
      requires Valid() && k < |values.nods| && values.nods[k].data == vr && Accepts(s, name) && k == Find(s.recs, name)
      requires Now() == s.(recs := WithRec(s, name, ty))
      modifies vr
      ensures Valid() && Now() == AddTo(s, name, ty, val, onlyPosFront)
    {
      Added(s, name, ty, val, onlyPosFront, Recs(values.nods), k);
      Store(vr, val, onlyPosFront, k);
    }

    lemma Added(s: State, name: string, ty: ValueType, val: Value, front: bool, rs: seq<Rec>, k: nat)
      requires Accepts(s, name) && rs == WithRec(s, name, ty) && k == Find(s.recs, name)
      ensures k < |rs|
      ensures AddTo(s, name, ty, val, front) == s.(recs := rs[k := rs[k].(vals := rs[k].vals[s.cyc := val], front := front, active := true)])
    {
    }

    /** The records as doSendCyc's loop finds them when it has passed the first `i`. */
    ghost predicate HeldSoFar(before: seq<Rec>, i: int)
      reads this, values, Datas()
    {
      && |before| == |values.nods|
      && forall j :: 0 <= j < |before| ==> values.nods[j].data.Now() == if j < i then HoldRec(before[j], curCycCnt) else before[j]
    }

    /** One record at a tick. */
    method HoldOne(i: nat, ghost before: seq<Rec>)
      requires Valid() && i < |values.nods| && HeldSoFar(before, i)
      modifies values.nods[i].data
      ensures Valid() && HeldSoFar(before, i + 1)
    {
      var prevCyc := if curCycCnt == 0 then SV_PACKETSZ - 1 else curCycCnt - 1;
      var at := values.At(i);
      var vr := at.value;
      vr.Hold(curCycCnt, prevCyc);
      forall j | 0 <= j < |before| && j != i
        ensures values.nods[j].data.Now() == if j < i + 1 then HoldRec(before[j], curCycCnt) else before[j]
      {
        assert values.nods[j].data != vr;
      }
    }

    /** sendDataOfCom and sendDataOfEthernet: every record in the array's order, between the markers. */
    method SendData(link: bool) returns (ok: bool, packet: Option<seq<DataRef>>)
      requires Distinct()
      ensures ok == link
      ensures packet == if link && Now().recs != [] then Some(Packed(Now().recs)) else None
    {
      var sz := values.Size();
      if !link {
        return false, None;
      }
      if sz == 0 {
        return true, None;
      }
      var sent: seq<DataRef> := [];
      var i := 0;
      while i < sz
        invariant 0 <= i <= sz && sent == Packed(Now().recs)[..i]
      {
        var at := values.At(i);
        var data := at.value;
        sent := sent + [DataRef(data.name, data.ty, data.vals)];
        i := i + 1;
      }
      assert Packed(Now().recs)[..sz] == Packed(Now().recs);
      ok, packet := true, Some(sent);
    }

    /** The loop of doSendCyc. */
    method HoldAll()
      requires Valid()
      modifies Datas()
      ensures Valid() && Recs(values.nods) == HeldRecs(old(Recs(values.nods)), curCycCnt)
    {
      ghost var before := Recs(values.nods);
      var sz := values.Size();
      var i := 0;
      while i < sz
        invariant 0 <= i <= sz == |values.nods| && Valid() && HeldSoFar(before, i)
      {
        HoldOne(i, before);
        i := i + 1;
      }
    }

    /** The end of a tick: the next slot, and the packet when there is none left. */
    method Advance(link: bool) returns (sent: Option<seq<DataRef>>)
      requires Distinct()
      modifies this
      ensures Distinct()
      ensures Now() == old(Advanced(Now(), link)) && sent == old(Sent(Now(), link))
    {
      sent := None;
      var next := curCycCnt + 1;
      if next >= SV_PACKETSZ {
        if isConnect {
          isConnect, sent := SendData(link);
        }
        curCycCnt := 0;
      } else {
        curCycCnt := curCycCnt + 1;
      }
    }

    method Relink(relink: bool)
      requires Valid()
      modifies this`isConnect
      ensures Valid() && isConnect == (old(isConnect) || relink) && Recs(values.nods) == old(Recs(values.nods))
    {
      if !isConnect { isConnect := relink; }
    }

    /** The first half of a tick: the connection, and every record's slot. */
    method Refresh(relink: bool)
      requires Valid()
      modifies this`isConnect, Datas()
      ensures Valid() && isConnect == (old(isConnect) || relink)
      ensures Recs(values.nods) == HeldRecs(old(Recs(values.nods)), curCycCnt)
    {
      Relink(relink);
      HoldAll();
    }

    method DoSendCyc(relink: bool, link: bool) returns (sent: Option<seq<DataRef>>)
      requires Valid()
      modifies this, Datas()
      ensures Valid() && Now() == old(TickTo(Now(), relink, link)) && sent == old(Packet(Now(), relink, link))
    {
      ghost var before := Now();
      Refresh(relink);
      assert Now() == Refreshed(before, relink);
      sent := Advance(link);
    }
  }
}
