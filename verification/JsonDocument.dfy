/** The DOM of document.h: values, their replay as events, and the document that rebuilds them on a stack. */
module JsonDocument {
  import opened Options
  import opened JsonText
  import opened JsonGrammar
  import JsonAgreement
  import JsonReader

  /** A number with its four integer-range flags, or a double. */
  datatype Num =
    | Whole(v: int, isInt: bool, isUint: bool, isInt64: bool, isUint64: bool)
    | Fractional(literal: string)

  datatype Json = JNull | JBool(b: bool) | JNum(n: Num) | JStr(s: string) | JObj(members: seq<Member>) | JArr(elements: seq<Json>)

  datatype Member = Member(name: string, value: Json)

  // ---------- The number constructors, with the flags they set ----------

  function FromInt(i: int): Num { if i >= 0 then Whole(i, true, true, true, true) else Whole(i, true, false, true, false) }

  function FromUint(u: int): Num { if u >= TWO31 then Whole(u, false, true, true, true) else Whole(u, true, true, true, true) }

  function FromInt64(i: int): Num
  {
    if i >= 0 then Whole(i, i < TWO31, i < TWO32, true, true) else Whole(i, i >= -TWO31, false, true, false)
  }

  function FromUint64(u: int): Num { Whole(u, u < TWO31, u < TWO32, u < TWO63, true) }

  /** The flags say exactly which of the four integer types can hold the value. */
  predicate Honest(n: Num)
  {
    n.Fractional? ||
    (&& n.isInt == (-TWO31 <= n.v < TWO31) && n.isUint == (0 <= n.v < TWO32)
     && n.isInt64 == (-TWO63 <= n.v < TWO63) && n.isUint64 == (0 <= n.v < TWO64)
     && (n.isInt64 || n.isUint64))
  }

  lemma ConstructorsHonest(v: int)
    ensures -TWO31 <= v < TWO31 ==> Honest(FromInt(v)) && FromInt(v).v == v
    ensures 0 <= v < TWO32 ==> Honest(FromUint(v)) && FromUint(v).v == v
    ensures -TWO63 <= v < TWO63 ==> Honest(FromInt64(v)) && FromInt64(v).v == v
    ensures 0 <= v < TWO64 ==> Honest(FromUint64(v)) && FromUint64(v).v == v
  {
  }

  /** Honest numbers everywhere: what the constructors can build. */
  predicate Sound(v: Json)
    decreases v
  {
    match v
    case JNum(n) => Honest(n)
    case JObj(ms) => forall k :: 0 <= k < |ms| ==> Sound(ms[k].value)
    case JArr(es) => forall k :: 0 <= k < |es| ==> Sound(es[k])
    case _ => true
  }

  // ---------- Accept ----------

  function NumberEvent(n: Num): Event
  {
    if n.Fractional? then Double(n.literal)
    else if n.isInt then Int(n.v)
    else if n.isUint then Uint(n.v)
    else if n.isInt64 then Int64(n.v)
    else Uint64(n.v)
  }

  /** The events of Accept. */
  function Events(v: Json): seq<Event>
    decreases v, 1
  {
    match v
    case JNull => [Null]
    case JBool(b) => [Bool(b)]
    case JNum(n) => [NumberEvent(n)]
    case JStr(s) => [Str(s)]
    case JObj(ms) => [StartObject] + MemberEvents(ms) + [EndObject(|ms|)]
    case JArr(es) => [StartArray] + ElementEvents(es) + [EndArray(|es|)]
  }

  function MemberEvents(ms: seq<Member>): seq<Event>
    decreases ms, 0
  {
    if ms == [] then [] else
      var m := ms[|ms| - 1];
      MemberEvents(ms[..|ms| - 1]) + [Key(m.name)] + Events(m.value)
  }

  function ElementEvents(es: seq<Json>): seq<Event>
    decreases es, 0
  {
    if es == [] then [] else ElementEvents(es[..|es| - 1]) + Events(es[|es| - 1])
  }

  // ---------- The document as a handler ----------

  /** Every other value is a string: names before values. */
  predicate Named(s: seq<Json>)
  {
    |s| % 2 == 0 && forall k :: 0 <= k < |s| / 2 ==> s[2 * k].JStr?
  }

  /** The popped values, two by two, as members. */
  function Pairs(s: seq<Json>): (ms: seq<Member>)
    requires Named(s)
  {
    seq(|s| / 2, k requires 0 <= k < |s| / 2 => Member(s[2 * k].s, s[2 * k + 1]))
  }

  /** What one handler call does to the stack; None where the calls are out of order. */
  function Handle(st: seq<Json>, e: Event): Option<seq<Json>>
  {
    match e
    case Null => Some(st + [JNull])
    case Bool(b) => Some(st + [JBool(b)])
    case Int(i) => Some(st + [JNum(FromInt(i))])
    case Uint(u) => Some(st + [JNum(FromUint(u))])
    case Int64(i) => Some(st + [JNum(FromInt64(i))])
    case Uint64(u) => Some(st + [JNum(FromUint64(u))])
    case Double(d) => Some(st + [JNum(Fractional(d))])
    case Str(s) => Some(st + [JStr(s)])
    case Key(k) => Some(st + [JStr(k)])
    case StartObject => Some(st + [JObj([])])
    case StartArray => Some(st + [JArr([])])
    case EndObject(n) =>
      if |st| < 2 * n + 1 || !Named(st[|st| - 2 * n..]) then None
      else Some(st[..|st| - 2 * n - 1] + [JObj(Pairs(st[|st| - 2 * n..]))])
    case EndArray(n) =>
      if |st| < n + 1 then None else Some(st[..|st| - n - 1] + [JArr(st[|st| - n..])])
  }

  function Feed(st: seq<Json>, ev: seq<Event>): Option<seq<Json>>
    decreases |ev|
  {
    if ev == [] then Some(st) else
      var r := Handle(st, ev[0]);
      if r.None? then None else Feed(r.value, ev[1..])
  }

  lemma {:induction false} FeedConcat(st: seq<Json>, a: seq<Event>, b: seq<Event>)
    ensures Feed(st, a + b) == (var r := Feed(st, a); if r.None? then None else Feed(r.value, b))
    decreases |a|
  {
    if a == [] { assert a + b == b; } else {
      assert (a + b)[1..] == a[1..] + b;
      var r := Handle(st, a[0]);
      if r.Some? { FeedConcat(r.value, a[1..], b); }
    }
  }

  lemma FeedOne(st: seq<Json>, e: Event)
    ensures Feed(st, [e]) == Handle(st, e)
  {
    assert [e][1..] == [];
  }

  /** The stack values that members are before they are gathered. */
  function Spread(ms: seq<Member>): (s: seq<Json>)
    ensures |s| == 2 * |ms|
    ensures forall k {:trigger ms[k]} :: 0 <= k < |ms| ==> s[2 * k] == JStr(ms[k].name) && s[2 * k + 1] == ms[k].value
  {
    if ms == [] then [] else Spread(ms[..|ms| - 1]) + [JStr(ms[|ms| - 1].name)] + [ms[|ms| - 1].value]
  }

  lemma SpreadNext(ms: seq<Member>, m: nat)
    requires m < |ms|
    ensures Spread(ms[..m + 1]) == Spread(ms[..m]) + [JStr(ms[m].name)] + [ms[m].value]
  {
    assert ms[..m + 1][..m] == ms[..m];
  }

  lemma SpreadPairs(ms: seq<Member>)
    ensures Named(Spread(ms)) && Pairs(Spread(ms)) == ms
  {
    var s := Spread(ms);
    forall k | 0 <= k < |s| / 2
      ensures s[2 * k].JStr?
    {
      assert s[2 * k] == JStr(ms[k].name);
    }
    forall k | 0 <= k < |ms|
      ensures Pairs(s)[k] == ms[k]
    {
      assert s[2 * k] == JStr(ms[k].name);
    }
  }

  lemma FeedAround(st: seq<Json>, a: Event, mid: seq<Event>, b: Event, st1: seq<Json>, st2: seq<Json>, st3: seq<Json>)
    requires Handle(st, a) == Some(st1) && Feed(st1, mid) == Some(st2) && Handle(st2, b) == Some(st3)
    ensures Feed(st, [a] + mid + [b]) == Some(st3)
  {
    FeedOne(st, a);
    FeedOne(st2, b);
    FeedConcat(st, [a], mid);
    FeedConcat(st, [a] + mid, [b]);
  }

  lemma CloseNamed(st: seq<Json>, s: seq<Json>, n: nat)
    requires Named(s) && |s| == 2 * n
    ensures Handle(st + [JObj([])] + s, EndObject(n)) == Some(st + [JObj(Pairs(s))])
  {
    var t := st + [JObj([])] + s;
    assert t[|t| - 2 * n..] == s;
    assert t[..|t| - 2 * n - 1] == st;
  }

  lemma CloseObject(st: seq<Json>, ms: seq<Member>)
    ensures Handle(st + [JObj([])] + Spread(ms), EndObject(|ms|)) == Some(st + [JObj(ms)])
  {
    SpreadPairs(ms);
    CloseNamed(st, Spread(ms), |ms|);
  }

  lemma CloseArray(st: seq<Json>, es: seq<Json>)
    ensures Handle(st + [JArr([])] + es, EndArray(|es|)) == Some(st + [JArr(es)])
  {
    var t := st + [JArr([])] + es;
    assert t[|t| - |es|..] == es && t[..|t| - |es| - 1] == st;
  }

  lemma ReplayObject(ms: seq<Member>, st: seq<Json>)
    requires Feed(st + [JObj([])], MemberEvents(ms)) == Some(st + [JObj([])] + Spread(ms))
    ensures Feed(st, Events(JObj(ms))) == Some(st + [JObj(ms)])
  {
    var st1 := st + [JObj([])];
    CloseObject(st, ms);
    FeedAround(st, StartObject, MemberEvents(ms), EndObject(|ms|), st1, st1 + Spread(ms), st + [JObj(ms)]);
  }

  lemma ReplayArray(es: seq<Json>, st: seq<Json>)
    requires Feed(st + [JArr([])], ElementEvents(es)) == Some(st + [JArr([])] + es)
    ensures Feed(st, Events(JArr(es))) == Some(st + [JArr(es)])
  {
    var st1 := st + [JArr([])];
    CloseArray(st, es);
    FeedAround(st, StartArray, ElementEvents(es), EndArray(|es|), st1, st1 + es, st + [JArr(es)]);
  }

  /** Replaying a value's events adds exactly that value to the stack. */
  lemma {:induction false} ReplayRebuilds(v: Json, st: seq<Json>)
    requires Sound(v)
    ensures Feed(st, Events(v)) == Some(st + [v])
    decreases v, 1
  {
    match v {
      case JNum(n) =>
        FeedOne(st, NumberEvent(n));
      case JObj(ms) =>
        ReplayMembers(ms, st + [JObj([])]);
        ReplayObject(ms, st);
      case JArr(es) =>
        ReplayElements(es, st + [JArr([])]);
        ReplayArray(es, st);
      case _ =>
        FeedOne(st, Events(v)[0]);
    }
  }

  lemma {:induction false} ReplayMembers(ms: seq<Member>, st: seq<Json>)
    requires forall k :: 0 <= k < |ms| ==> Sound(ms[k].value)
    ensures Feed(st, MemberEvents(ms)) == Some(st + Spread(ms))
    decreases ms, 0
  {
    if ms == [] {
      assert st + Spread(ms) == st;
    } else {
      var m, rest := ms[|ms| - 1], ms[..|ms| - 1];
      ReplayMembers(rest, st);
      ReplayRebuilds(m.value, st + Spread(rest) + [JStr(m.name)]);
      MemberReplays(st, rest, m);
      assert st + Spread(rest) + [JStr(m.name)] + [m.value] == st + (Spread(rest) + [JStr(m.name)] + [m.value]);
    }
  }

  lemma MemberReplays(st: seq<Json>, rest: seq<Member>, m: Member)
    requires Feed(st, MemberEvents(rest)) == Some(st + Spread(rest))
    requires Feed(st + Spread(rest) + [JStr(m.name)], Events(m.value)) == Some(st + Spread(rest) + [JStr(m.name)] + [m.value])
    ensures Feed(st, MemberEvents(rest) + [Key(m.name)] + Events(m.value)) == Some(st + Spread(rest) + [JStr(m.name)] + [m.value])
  {
    FeedOne(st + Spread(rest), Key(m.name));
    FeedConcat(st, MemberEvents(rest), [Key(m.name)]);
    FeedConcat(st, MemberEvents(rest) + [Key(m.name)], Events(m.value));
  }

  lemma {:induction false} ReplayElements(es: seq<Json>, st: seq<Json>)
    requires forall k :: 0 <= k < |es| ==> Sound(es[k])
    ensures Feed(st, ElementEvents(es)) == Some(st + es)
    decreases es, 0
  {
    if es == [] {
      assert st + es == st;
    } else {
      var rest := es[..|es| - 1];
      ReplayElements(rest, st);
      FeedConcat(st, ElementEvents(rest), Events(es[|es| - 1]));
      ReplayRebuilds(es[|es| - 1], st + rest);
      assert (st + rest) + [es[|es| - 1]] == st + es;
    }
  }

  // ---------- The events of the parser ----------

  /** An event that closes nothing, its number within the type it names. */
  predicate Plain(e: Event)
  {
    match e
    case Int(i) => -TWO31 <= i < TWO31
    case Uint(u) => 0 <= u < TWO32
    case Int64(i) => -TWO63 <= i < TWO63
    case Uint64(u) => 0 <= u < TWO64
    case EndObject(_) => false
    case EndArray(_) => false
    case _ => true
  }

  lemma NumberPlain(fl: Flags, t: string, i: nat)
    requires i <= |t| && Number(fl, t, i).Ok?
    ensures Plain(Number(fl, t, i).val)
  {
  }

  lemma ScalarPlain(fl: Flags, t: string, i: nat)
    requires i <= |t| && Scalar(fl, t, i).Ok?
    ensures Plain(Scalar(fl, t, i).val)
  {
    if Number(fl, t, i).Ok? { NumberPlain(fl, t, i); }
  }

  lemma PlainBuilds(st: seq<Json>, e: Event) returns (v: Json)
    requires Plain(e)
    ensures Feed(st, [e]) == Some(st + [v]) && Sound(v)
  {
    FeedOne(st, e);
    var r := Handle(st, e).value;
    v := r[|st|];
  }

  lemma ScalarBuilds(fl: Flags, t: string, i: nat, st: seq<Json>) returns (v: Json)
    requires i <= |t| && Scalar(fl, t, i).Ok?
    ensures Feed(st, [Scalar(fl, t, i).val]) == Some(st + [v]) && Sound(v)
  {
    ScalarPlain(fl, t, i);
    v := PlainBuilds(st, Scalar(fl, t, i).val);
  }

  lemma FeedLead(st: seq<Json>, e: Event, rest: seq<Event>, st1: seq<Json>)
    requires Handle(st, e) == Some(st1)
    ensures Feed(st, [e] + rest) == Feed(st1, rest)
  {
    FeedOne(st, e);
    FeedConcat(st, [e], rest);
  }

  /**
   * An integer literal of any length reaches the tree as exactly its value, with honest flags, when it lies between
   * -2^63 and 2^64 - 1; beyond that, and only there, it becomes a double.
   */
  lemma LiteralKept(fl: Flags, t: string, i: nat, st: seq<Json>)
    requires i <= |t| && Number(fl, t, i).Ok?
    requires var n := IntPart(t, if Peek(t, i) == '-' then i + 1 else i);
      FracPart(t, n.pos) == Ok(n.pos, false) && ExpPart(t, n.pos) == Ok(n.pos, false)
    ensures var minus := Peek(t, i) == '-';
      var n := IntPart(t, if minus then i + 1 else i);
      var digits: int := n.val;
      var v := if minus then -digits else digits;
      var r := Handle(st, Number(fl, t, i).val);
      && r.Some? && r.value != [] && r.value[..|r.value| - 1] == st && r.value[|r.value| - 1].JNum?
      && var w := r.value[|r.value| - 1].n;
         Honest(w) && (if -TWO63 <= v < TWO64 then w.Whole? && w.v == v else w == Fractional(t[i..n.pos]))
  {
    var r := Handle(st, Number(fl, t, i).val);
    assert r.value[..|r.value| - 1] == st;
  }

  predicate AllSound(s: seq<Json>) { forall k :: 0 <= k < |s| ==> Sound(s[k]) }

  lemma PairsSound(s: seq<Json>)
    requires Named(s) && AllSound(s)
    ensures Sound(JObj(Pairs(s)))
  {
  }

  /** A parsed value's events add one value to any stack, whose numbers are honest: the copy and the replay apply to it. */
  lemma {:induction false} ValueBuilds(fl: Flags, t: string, i: nat, st: seq<Json>) returns (v: Json)
    requires i <= |t| && Value(fl, t, i).Done?
    ensures Feed(st, Value(fl, t, i).ev) == Some(st + [v]) && Sound(v)
    decreases |t| - i, 1
  {
    if Peek(t, i) == '{' {
      v := ObjectBodyBuilds(fl, t, i + 1, st);
      FeedLead(st, StartObject, ObjectBody(fl, t, i + 1).ev, st + [JObj([])]);
    } else if Peek(t, i) == '[' {
      v := ArrayBodyBuilds(fl, t, i + 1, st);
      FeedLead(st, StartArray, ArrayBody(fl, t, i + 1).ev, st + [JArr([])]);
    } else {
      v := ScalarBuilds(fl, t, i, st);
    }
  }

  lemma EndsObject(st: seq<Json>, s: seq<Json>, n: nat)
    requires Named(s) && |s| == 2 * n
    ensures Feed(st + [JObj([])] + s, [EndObject(n)]) == Some(st + [JObj(Pairs(s))])
  {
    CloseNamed(st, s, n);
    FeedOne(st + [JObj([])] + s, EndObject(n));
  }

  lemma EndsArray(st: seq<Json>, es: seq<Json>, n: nat)
    requires |es| == n
    ensures Feed(st + [JArr([])] + es, [EndArray(n)]) == Some(st + [JArr(es)])
  {
    CloseArray(st, es);
    FeedOne(st + [JArr([])] + es, EndArray(n));
  }

  lemma {:induction false} ObjectBodyBuilds(fl: Flags, t: string, i: nat, st: seq<Json>) returns (v: Json)
    requires i <= |t| && ObjectBody(fl, t, i).Done?
    ensures Feed(st + [JObj([])], ObjectBody(fl, t, i).ev) == Some(st + [v]) && Sound(v)
    decreases |t| - i, 5
  {
    var s := Skip(fl, t, i);
    assert st + [JObj([])] + [] == st + [JObj([])];
    if Peek(t, s.pos) == '}' {
      EndsObject(st, [], 0);
      v := JObj(Pairs([]));
    } else {
      v := MembersBuild(fl, t, s.pos, 0, st, []);
    }
  }

  lemma {:induction false} MembersBuild(fl: Flags, t: string, i: nat, n: nat, st: seq<Json>, s: seq<Json>) returns (v: Json)
    requires i <= |t| && Members(fl, t, i, n).Done? && Named(s) && |s| == 2 * n && AllSound(s)
    ensures Feed(st + [JObj([])] + s, Members(fl, t, i, n).ev) == Some(st + [v]) && Sound(v)
    decreases |t| - i, 2
  {
    var k := StrRest(t, i + 1);
    v := AfterKeyBuilds(fl, t, k.pos, n, st, s, k.val);
    FeedLead(st + [JObj([])] + s, Key(k.val), AfterKey(fl, t, k.pos, n).ev, st + [JObj([])] + s + [JStr(k.val)]);
  }

  lemma {:induction false} AfterKeyBuilds(fl: Flags, t: string, i: nat, n: nat, st: seq<Json>, s: seq<Json>, key: string) returns (v: Json)
    requires i <= |t| && AfterKey(fl, t, i, n).Done? && Named(s) && |s| == 2 * n && AllSound(s)
    ensures Feed(st + [JObj([])] + s + [JStr(key)], AfterKey(fl, t, i, n).ev) == Some(st + [v]) && Sound(v)
    decreases |t| - i, 3
  {
    v := AfterColonBuilds(fl, t, Skip(fl, t, i).pos + 1, n, st, s, key);
  }

  lemma {:induction false} AfterColonBuilds(fl: Flags, t: string, i: nat, n: nat, st: seq<Json>, s: seq<Json>, key: string) returns (v: Json)
    requires i <= |t| && AfterColon(fl, t, i, n).Done? && Named(s) && |s| == 2 * n && AllSound(s)
    ensures Feed(st + [JObj([])] + s + [JStr(key)], AfterColon(fl, t, i, n).ev) == Some(st + [v]) && Sound(v)
    decreases |t| - i, 3
  {
    var j := Skip(fl, t, i).pos;
    var val := Value(fl, t, j);
    var st1 := st + [JObj([])] + s + [JStr(key)];
    var w := ValueBuilds(fl, t, j, st1);
    var s' := s + [JStr(key)] + [w];
    NamedMore(s, key, w);
    assert st1 + [w] == st + [JObj([])] + s';
    v := AfterMemberBuilds(fl, t, val.pos, n + 1, st, s');
    FeedConcat(st1, val.ev, AfterMember(fl, t, val.pos, n + 1).ev);
  }

  lemma NamedMore(s: seq<Json>, key: string, w: Json)
    requires Named(s)
    ensures Named(s + [JStr(key)] + [w])
  {
    var s' := s + [JStr(key)] + [w];
    forall x | 0 <= x < |s'| / 2
      ensures s'[2 * x].JStr?
    {
      if x < |s| / 2 { assert s'[2 * x] == s[2 * x]; }
    }
  }

  lemma {:induction false} AfterMemberBuilds(fl: Flags, t: string, i: nat, n: nat, st: seq<Json>, s: seq<Json>) returns (v: Json)
    requires i <= |t| && AfterMember(fl, t, i, n).Done? && Named(s) && |s| == 2 * n && AllSound(s)
    ensures Feed(st + [JObj([])] + s, AfterMember(fl, t, i, n).ev) == Some(st + [v]) && Sound(v)
    decreases |t| - i, 3
  {
    var j := Skip(fl, t, i);
    if Peek(t, j.pos) == ',' {
      v := MemberCommaBuilds(fl, t, j.pos + 1, n, st, s);
    } else {
      v := JObj(Pairs(s));
      PairsSound(s);
      EndsObject(st, s, n);
    }
  }

  lemma {:induction false} MemberCommaBuilds(fl: Flags, t: string, i: nat, n: nat, st: seq<Json>, s: seq<Json>) returns (v: Json)
    requires i <= |t| && MemberComma(fl, t, i, n).Done? && Named(s) && |s| == 2 * n && AllSound(s)
    ensures Feed(st + [JObj([])] + s, MemberComma(fl, t, i, n).ev) == Some(st + [v]) && Sound(v)
    decreases |t| - i, 3
  {
    var j := Skip(fl, t, i);
    if fl.trailingCommas && Peek(t, j.pos) == '}' {
      v := JObj(Pairs(s));
      PairsSound(s);
      EndsObject(st, s, n);
    } else {
      v := MembersBuild(fl, t, j.pos, n, st, s);
    }
  }

  lemma {:induction false} ArrayBodyBuilds(fl: Flags, t: string, i: nat, st: seq<Json>) returns (v: Json)
    requires i <= |t| && ArrayBody(fl, t, i).Done?
    ensures Feed(st + [JArr([])], ArrayBody(fl, t, i).ev) == Some(st + [v]) && Sound(v)
    decreases |t| - i, 5
  {
    var s := Skip(fl, t, i);
    assert st + [JArr([])] + [] == st + [JArr([])];
    if Peek(t, s.pos) == ']' {
      EndsArray(st, [], 0);
      v := JArr([]);
    } else {
      v := ElementsBuild(fl, t, s.pos, 0, st, []);
    }
  }

  lemma {:induction false} ElementsBuild(fl: Flags, t: string, i: nat, n: nat, st: seq<Json>, es: seq<Json>) returns (v: Json)
    requires i <= |t| && Elements(fl, t, i, n).Done? && |es| == n && AllSound(es)
    ensures Feed(st + [JArr([])] + es, Elements(fl, t, i, n).ev) == Some(st + [v]) && Sound(v)
    decreases |t| - i, 2
  {
    var val := Value(fl, t, i);
    var st1 := st + [JArr([])] + es;
    var w := ValueBuilds(fl, t, i, st1);
    assert st1 + [w] == st + [JArr([])] + (es + [w]);
    v := AfterElementBuilds(fl, t, val.pos, n + 1, st, es + [w]);
    FeedConcat(st1, val.ev, AfterElement(fl, t, val.pos, n + 1).ev);
  }

  lemma {:induction false} AfterElementBuilds(fl: Flags, t: string, i: nat, n: nat, st: seq<Json>, es: seq<Json>) returns (v: Json)
    requires i <= |t| && AfterElement(fl, t, i, n).Done? && |es| == n && AllSound(es)
    ensures Feed(st + [JArr([])] + es, AfterElement(fl, t, i, n).ev) == Some(st + [v]) && Sound(v)
    decreases |t| - i, 3
  {
    var j := Skip(fl, t, i);
    if Peek(t, j.pos) == ',' {
      var j2 := Skip(fl, t, j.pos + 1);
      if fl.trailingCommas && Peek(t, j2.pos) == ']' {
        v := JArr(es);
        EndsArray(st, es, n);
      } else {
        v := ElementsBuild(fl, t, j2.pos, n, st, es);
      }
    } else {
      v := JArr(es);
      EndsArray(st, es, n);
    }
  }

  /** The events of every accepted text leave exactly one root on the stack. */
  lemma OneRoot(fl: Flags, t: string)
    requires Recursive(fl, t).Done?
    ensures exists v :: Sound(v) && Feed([], Recursive(fl, t).ev) == Some([v])
  {
    var s := Skip(fl, t, 0);
    var v := ValueBuilds(fl, t, s.pos, []);
    assert [] + [v] == [v];
    assert Feed([], Recursive(fl, t).ev) == Some([v]);
  }

  // ---------- The document object ----------

  class Document {
    var stack: seq<Json>
    var value: Json

    constructor ()
      ensures stack == [] && value == JNull
    {
      stack, value := [], JNull;
    }

    /** Null, Bool, Int, Uint, Int64, Uint64, Double, String and Key: push one value. */
    method Push(v: Json)
      modifies this`stack
      ensures stack == old(stack) + [v]
    {
      stack := stack + [v];
    }

    method EndObject(memberCount: nat)
      requires |stack| >= 2 * memberCount + 1 && Named(stack[|stack| - 2 * memberCount..])
      modifies this`stack
      ensures Handle(old(stack), Event.EndObject(memberCount)) == Some(stack)
    {
      ghost var below := stack[..|stack| - 2 * memberCount - 1];
      var members := stack[|stack| - 2 * memberCount..];
      stack := stack[..|stack| - 2 * memberCount];
      assert stack[..|stack| - 1] == below;
      stack := stack[..|stack| - 1] + [JObj(Pairs(members))];
    }

    method EndArray(elementCount: nat)
      requires |stack| >= elementCount + 1
      modifies this`stack
      ensures Handle(old(stack), Event.EndArray(elementCount)) == Some(stack)
    {
      ghost var below := stack[..|stack| - elementCount - 1];
      var elements := stack[|stack| - elementCount..];
      stack := stack[..|stack| - elementCount];
      assert stack[..|stack| - 1] == below;
      stack := stack[..|stack| - 1] + [JArr(elements)];
    }

    /** One handler call. */
    method Receive(e: Event)
      requires Handle(stack, e).Some?
      modifies this`stack
      ensures Handle(old(stack), e) == Some(stack)
    {
      match e {
        case Null => Push(JNull);
        case Bool(b) => Push(JBool(b));
        case Int(i) => Push(JNum(FromInt(i)));
        case Uint(u) => Push(JNum(FromUint(u)));
        case Int64(i) => Push(JNum(FromInt64(i)));
        case Uint64(u) => Push(JNum(FromUint64(u)));
        case Double(d) => Push(JNum(Fractional(d)));
        case Str(s) => Push(JStr(s));
        case Key(k) => Push(JStr(k));
        case StartObject => Push(JObj([]));
        case StartArray => Push(JArr([]));
        case EndObject(n) => EndObject(n);
        case EndArray(n) => EndArray(n);
      }
    }

    /** ParseStream: the assertion that exactly one root is left always holds, and the document takes it. */
    method ParseStream(t: string, fl: Flags, iterative: bool) returns (ok: bool)
      requires stack == []
      modifies this
      ensures ok == Recursive(fl, t).Done? && stack == []
      ensures ok ==> Feed([], Recursive(fl, t).ev) == Some([value]) && Sound(value)
      ensures !ok ==> value == old(value)
    {
      var reader := new JsonReader.Reader(t, fl);
      if iterative { reader.IterativeParse(); } else { reader.Parse(); }
      JsonAgreement.SameVerdictSameEvents(fl, t);
      assert [] + Recursive(fl, t).ev == Recursive(fl, t).ev && [] + Iterative(fl, t).ev == Iterative(fl, t).ev;
      ok := reader.error == None;
      if ok {
        OneRoot(fl, t);
        ReceiveAll(reader.ev);
        assert |stack| == 1;
        value := stack[0];
      }
      stack := [];
    }

    method ReceiveAll(ev: seq<Event>)
      requires Feed(stack, ev).Some?
      modifies this`stack
      ensures Feed(old(stack), ev) == Some(stack)
    {
      var i := 0;
      while i < |ev|
        invariant 0 <= i <= |ev| && Feed(stack, ev[i..]) == Feed(old(stack), ev)
        decreases |ev| - i
      {
        assert ev[i..][1..] == ev[i + 1..];
        Receive(ev[i]);
        i := i + 1;
      }
    }

    /** Accept: replay `v` into this document. */
    method Accept(v: Json)
      requires Sound(v)
      modifies this`stack
      ensures stack == old(stack) + [v]
      decreases v, 1
    {
      match v {
        case JNum(n) =>
          Receive(NumberEvent(n));
        case JObj(ms) =>
          AcceptObject(ms);
        case JArr(es) =>
          AcceptArray(es);
        case _ =>
          Push(v);
      }
    }

    method AcceptObject(ms: seq<Member>)
      requires forall k :: 0 <= k < |ms| ==> Sound(ms[k].value)
      modifies this`stack
      ensures stack == old(stack) + [JObj(ms)]
      decreases ms, 0
    {
      ghost var open := stack + [JObj([])];
      Push(JObj([]));
      var m := 0;
      assert ms[..0] == [];
      while m < |ms|
        invariant 0 <= m <= |ms| && stack == open + Spread(ms[..m])
      {
        AcceptMember(ms, m, open);
        m := m + 1;
      }
      assert ms[..|ms|] == ms;
      CloseObject(old(stack), ms);
      EndObject(|ms|);
    }

    method AcceptMember(ms: seq<Member>, m: nat, ghost open: seq<Json>)
      requires m < |ms| && Sound(ms[m].value) && stack == open + Spread(ms[..m])
      modifies this`stack
      ensures stack == open + Spread(ms[..m + 1])
      decreases ms[m], 2
    {
      SpreadNext(ms, m);
      Push(JStr(ms[m].name));
      Accept(ms[m].value);
    }

    method AcceptArray(es: seq<Json>)
      requires forall k :: 0 <= k < |es| ==> Sound(es[k])
      modifies this`stack
      ensures stack == old(stack) + [JArr(es)]
      decreases es, 0
    {
      ghost var open := stack + [JArr([])];
      Push(JArr([]));
      var k := 0;
      while k < |es|
        invariant 0 <= k <= |es| && stack == open + es[..k]
      {
        Accept(es[k]);
        k := k + 1;
      }
      assert es[..|es|] == es;
      CloseArray(old(stack), es);
      EndArray(|es|);
    }
  }

  /** The deep-copy constructor: containers go through a document, everything else is copied outright. */
  method DeepCopy(rhs: Json) returns (copy: Json)
    requires Sound(rhs)
    ensures copy == rhs
  {
    if rhs.JObj? || rhs.JArr? {
      var d := new Document();
      d.Accept(rhs);
      copy := d.stack[0];
    } else {
      copy := rhs;
    }
  }
}
