/** What the two parsers of reader.h compute: the recursive descent and the table-driven machine. */
module JsonGrammar {
  import opened JsonText

  /** The outcome of a parse: the events sent, and where it ended or how it failed. */
  datatype Out = Done(pos: nat, ev: seq<Event>) | Fail(error: Error, ev: seq<Event>)

  function Lead(p: seq<Event>, o: Out): Out
  {
    if o.Done? then Done(o.pos, p + o.ev) else Fail(o.error, p + o.ev)
  }

  // ---------- Recursive descent: ParseValue, ParseObject, ParseArray, Parse ----------

  function Value(fl: Flags, t: string, i: nat): (o: Out)
    requires i <= |t|
    ensures o.Done? ==> i < o.pos <= |t|
    decreases |t| - i, 1
  {
    if Peek(t, i) == '{' then Lead([StartObject], ObjectBody(fl, t, i + 1))
    else if Peek(t, i) == '[' then Lead([StartArray], ArrayBody(fl, t, i + 1))
    else
      var s := Scalar(fl, t, i);
      if s.Err? then Fail(s.error, []) else Done(s.pos, [s.val])
  }

  function ObjectBody(fl: Flags, t: string, i: nat): (o: Out)
    requires i <= |t|
    ensures o.Done? ==> i < o.pos <= |t|
    decreases |t| - i, 5
  {
    var s := Skip(fl, t, i);
    if s.Err? then Fail(s.error, [])
    else if Peek(t, s.pos) == '}' then Done(s.pos + 1, [EndObject(0)])
    else Members(fl, t, s.pos, 0)
  }

  /** The member loop of ParseObject, `n` members done. */
  function Members(fl: Flags, t: string, i: nat, n: nat): (o: Out)
    requires i <= |t|
    ensures o.Done? ==> i < o.pos <= |t|
    decreases |t| - i, 2
  {
    if Peek(t, i) != '"' then Fail(ObjectMissName, []) else
    var k := StrRest(t, i + 1);
    if k.Err? then Fail(k.error, []) else
    Lead([Key(k.val)], AfterKey(fl, t, k.pos, n))
  }

  function AfterKey(fl: Flags, t: string, i: nat, n: nat): (o: Out)
    requires i <= |t|
    ensures o.Done? ==> i < o.pos <= |t|
    decreases |t| - i, 3
  {
    var s := Skip(fl, t, i);
    if s.Err? then Fail(s.error, [])
    else if Peek(t, s.pos) != ':' then Fail(ObjectMissColon, [])
    else AfterColon(fl, t, s.pos + 1, n)
  }

  function AfterColon(fl: Flags, t: string, i: nat, n: nat): (o: Out)
    requires i <= |t|
    ensures o.Done? ==> i < o.pos <= |t|
    decreases |t| - i, 3
  {
    var s := Skip(fl, t, i);
    if s.Err? then Fail(s.error, []) else
    var v := Value(fl, t, s.pos);
    if v.Fail? then v else Lead(v.ev, AfterMember(fl, t, v.pos, n + 1))
  }

  function AfterMember(fl: Flags, t: string, i: nat, n: nat): (o: Out)
    requires i <= |t|
    ensures o.Done? ==> i < o.pos <= |t|
    decreases |t| - i, 3
  {
    var s := Skip(fl, t, i);
    if s.Err? then Fail(s.error, [])
    else if Peek(t, s.pos) == ',' then MemberComma(fl, t, s.pos + 1, n)
    else if Peek(t, s.pos) == '}' then Done(s.pos + 1, [EndObject(n)])
    else Fail(ObjectMissCommaOrCurlyBracket, [])
  }

  function MemberComma(fl: Flags, t: string, i: nat, n: nat): (o: Out)
    requires i <= |t|
    ensures o.Done? ==> i < o.pos <= |t|
    decreases |t| - i, 3
  {
    var s := Skip(fl, t, i);
    if s.Err? then Fail(s.error, [])
    else if fl.trailingCommas && Peek(t, s.pos) == '}' then Done(s.pos + 1, [EndObject(n)])
    else Members(fl, t, s.pos, n)
  }

  function ArrayBody(fl: Flags, t: string, i: nat): (o: Out)
    requires i <= |t|
    ensures o.Done? ==> i < o.pos <= |t|
    decreases |t| - i, 5
  {
    var s := Skip(fl, t, i);
    if s.Err? then Fail(s.error, [])
    else if Peek(t, s.pos) == ']' then Done(s.pos + 1, [EndArray(0)])
    else Elements(fl, t, s.pos, 0)
  }

  /** The element loop of ParseArray, `n` elements done. */
  function Elements(fl: Flags, t: string, i: nat, n: nat): (o: Out)
    requires i <= |t|
    ensures o.Done? ==> i < o.pos <= |t|
    decreases |t| - i, 2
  {
    var v := Value(fl, t, i);
    if v.Fail? then v else Lead(v.ev, AfterElement(fl, t, v.pos, n + 1))
  }

  function AfterElement(fl: Flags, t: string, i: nat, n: nat): (o: Out)
    requires i <= |t|
    ensures o.Done? ==> i < o.pos <= |t|
    decreases |t| - i, 3
  {
    var s := Skip(fl, t, i);
    if s.Err? then Fail(s.error, [])
    else if Peek(t, s.pos) == ',' then ElementComma(fl, t, s.pos + 1, n)
    else if Peek(t, s.pos) == ']' then Done(s.pos + 1, [EndArray(n)])
    else Fail(ArrayMissCommaOrSquareBracket, [])
  }

  function ElementComma(fl: Flags, t: string, i: nat, n: nat): (o: Out)
    requires i <= |t|
    ensures o.Done? ==> i < o.pos <= |t|
    decreases |t| - i, 3
  {
    var s := Skip(fl, t, i);
    if s.Err? then Fail(s.error, [])
    else if fl.trailingCommas && Peek(t, s.pos) == ']' then Done(s.pos + 1, [EndArray(n)])
    else Elements(fl, t, s.pos, n)
  }

  /** The end of a document after its root value. */
  function Finish(fl: Flags, t: string, i: nat, ev: seq<Event>): Out
    requires i <= |t|
  {
    if fl.stopWhenDone then Done(i, ev) else
    var s := Skip(fl, t, i);
    if s.Err? then Fail(s.error, ev)
    else if Peek(t, s.pos) != NUL then Fail(DocumentRootNotSingular, ev)
    else Done(s.pos, ev)
  }

  function Recursive(fl: Flags, t: string): Out
  {
    var s := Skip(fl, t, 0);
    if s.Err? then Fail(s.error, [])
    else if Peek(t, s.pos) == NUL then Fail(DocumentEmpty, []) else
    var v := Value(fl, t, s.pos);
    if v.Fail? then v else Finish(fl, t, v.pos, v.ev)
  }

  // ---------- The iterative parser: Tokenize, Predict, Transit, HandleError, IterativeParse ----------

  datatype State =
    | StartState | FinishState | ErrorState
    | ObjectInitial | MemberKey | KeyValueDelimiter | MemberValue | MemberDelimiter | ObjectFinish
    | ArrayInitial | Element | ElementDelimiter | ArrayFinish
    | ValueState

  datatype Token =
    | LeftBracket | RightBracket | LeftCurly | RightCurly | Comma | Colon
    | StringToken | FalseToken | TrueToken | NullToken | NumberToken

  function Tokenize(c: char): Token
  {
    match c
    case '[' => LeftBracket
    case ']' => RightBracket
    case '{' => LeftCurly
    case '}' => RightCurly
    case ',' => Comma
    case ':' => Colon
    case '"' => StringToken
    case 'f' => FalseToken
    case 't' => TrueToken
    case 'n' => NullToken
    case _ => NumberToken
  }

  /** A row of the table: the successors for the brackets, comma and colon, and for a scalar. */
  datatype Row = Row(lb: State, rb: State, lc: State, rc: State, comma: State, colon: State, str: State, other: State)

  function G(s: State): Row
  {
    var E := ErrorState;
    match s
    case StartState => Row(ArrayInitial, E, ObjectInitial, E, E, E, ValueState, ValueState)
    case ObjectInitial => Row(E, E, E, ObjectFinish, E, E, MemberKey, E)
    case MemberKey => Row(E, E, E, E, E, KeyValueDelimiter, E, E)
    case KeyValueDelimiter => Row(ArrayInitial, E, ObjectInitial, E, E, E, MemberValue, MemberValue)
    case MemberValue => Row(E, E, E, ObjectFinish, MemberDelimiter, E, E, E)
    case MemberDelimiter => Row(E, E, E, ObjectFinish, E, E, MemberKey, E)
    case ArrayInitial => Row(ArrayInitial, ArrayFinish, ObjectInitial, E, E, E, Element, Element)
    case Element => Row(E, ArrayFinish, E, E, ElementDelimiter, E, E, E)
    case ElementDelimiter => Row(ArrayInitial, ArrayFinish, ObjectInitial, E, E, E, Element, Element)
    case _ => Row(E, E, E, E, E, E, E, E)
  }

  /** Which states the table leads to from where. */
  predicate Follows(s: State, dst: State)
  {
    match dst
    case ErrorState => true
    case ObjectInitial => AwaitsValue(s)
    case ArrayInitial => AwaitsValue(s)
    case ValueState => s == StartState
    case MemberValue => s == KeyValueDelimiter
    case Element => s == ArrayInitial || s == ElementDelimiter
    case MemberKey => s == ObjectInitial || s == MemberDelimiter
    case KeyValueDelimiter => s == MemberKey
    case MemberDelimiter => s == MemberValue
    case ElementDelimiter => s == Element
    case ObjectFinish => s == ObjectInitial || s == MemberValue || s == MemberDelimiter
    case ArrayFinish => s == ArrayInitial || s == Element || s == ElementDelimiter
    case _ => false
  }

  predicate AwaitsValue(s: State) { s == StartState || s == KeyValueDelimiter || s == ArrayInitial || s == ElementDelimiter }

  function Predict(s: State, k: Token): (dst: State)
    ensures Follows(s, dst)
  {
    var g := G(s);
    match k
    case LeftBracket => g.lb
    case RightBracket => g.rb
    case LeftCurly => g.lc
    case RightCurly => g.rc
    case Comma => g.comma
    case Colon => g.colon
    case StringToken => g.str
    case _ => g.other
  }

  /** The state to return to and the count of members or elements so far: two words on the stack. */
  datatype Frame = Frame(ret: State, count: nat)

  datatype Conf = Conf(state: State, stack: seq<Frame>, pos: nat, ev: seq<Event>)

  /** The result of a transition: the next configuration, or the error the parse ends with. */
  datatype Move = Next(c: Conf) | Stuck(error: Error)

  /** The states the loop can be in. */
  predicate Live(s: State)
  {
    s !in {ErrorState, ObjectFinish, ArrayFinish, ValueState}
  }

  /** Inside a container exactly when there is a frame; the bottom frame returns to the start, all others
      to an element or a member value. */
  predicate Framed(c: Conf)
  {
    && Live(c.state)
    && (c.stack == [] <==> c.state in {StartState, FinishState})
    && forall k :: 0 <= k < |c.stack| ==>
         if k == 0 then c.stack[k].ret == StartState else c.stack[k].ret in {MemberValue, Element}
  }

  function HandleError(s: State): Error
  {
    match s
    case StartState => DocumentEmpty
    case FinishState => DocumentRootNotSingular
    case ObjectInitial => ObjectMissName
    case MemberDelimiter => ObjectMissName
    case MemberKey => ObjectMissColon
    case MemberValue => ObjectMissCommaOrCurlyBracket
    case KeyValueDelimiter => ValueInvalid
    case ArrayInitial => ValueInvalid
    case ElementDelimiter => ValueInvalid
    case _ => ArrayMissCommaOrSquareBracket
  }

  /** The state to come back to after a container opened in state `s`. */
  function Return(s: State): State
  {
    if s == ArrayInitial || s == ElementDelimiter then Element
    else if s == KeyValueDelimiter then MemberValue
    else s
  }

  function Resume(ret: State): State { if ret == StartState then FinishState else ret }

  /** Into a container: its frame on top. */
  function Opened(c: Conf, dst: State, e: Event): (r: Conf)
    requires Framed(c) && (dst == ObjectInitial || dst == ArrayInitial)
    requires AwaitsValue(c.state)
    ensures Framed(r) && r.pos == c.pos + 1
  {
    Conf(dst, c.stack + [Frame(Return(c.state), 0)], c.pos + 1, c.ev + [e])
  }

  /** Out of a container, to the state its frame returns to; `more` is whether one more was just read. */
  function Closed(c: Conf, isObject: bool, more: bool): (r: Conf)
    requires Framed(c) && c.stack != []
    ensures Framed(r) && r.pos == c.pos + 1
  {
    var f := c.stack[|c.stack| - 1];
    var n := if more then f.count + 1 else f.count;
    Conf(Resume(f.ret), c.stack[..|c.stack| - 1], c.pos + 1, c.ev + [if isObject then EndObject(n) else EndArray(n)])
  }

  /** One more member or element on the top frame. */
  function Count(st: seq<Frame>): seq<Frame>
    requires st != []
  {
    st[..|st| - 1] + [st[|st| - 1].(count := st[|st| - 1].count + 1)]
  }

  /** Past a comma. */
  function Counted(c: Conf, dst: State): (r: Conf)
    requires Framed(c) && c.stack != [] && (dst == MemberDelimiter || dst == ElementDelimiter)
    ensures Framed(r) && r.pos == c.pos + 1
  {
    Conf(dst, Count(c.stack), c.pos + 1, c.ev)
  }

  /** On in the same container, or from the start to the finish. */
  function Along(c: Conf, dst: State, pos: nat, ev: seq<Event>): (r: Conf)
    requires Framed(c) && Live(dst) && dst != StartState && (dst == FinishState <==> c.stack == [])
    ensures Framed(r)
  {
    Conf(dst, c.stack, pos, ev)
  }

  /** A value that is no container, and on to `dst`. */
  function Read(fl: Flags, t: string, c: Conf, dst: State): (r: Move)
    requires Framed(c) && c.pos < |t| && Live(dst) && dst != StartState && (dst == FinishState <==> c.stack == [])
    ensures r.Next? ==> Framed(r.c) && c.pos < r.c.pos <= |t|
  {
    var v := Scalar(fl, t, c.pos);
    if v.Err? then Stuck(v.error) else Next(Along(c, dst, v.pos, c.ev + [v.val]))
  }

  /** Transit from configuration `c` towards the predicted state `dst`. */
  function Transit(fl: Flags, t: string, c: Conf, dst: State): (r: Move)
    requires Framed(c) && c.pos < |t| && Follows(c.state, dst)
    ensures r.Next? ==> Framed(r.c) && c.pos < r.c.pos <= |t|
  {
    match dst
    case ErrorState => Stuck(HandleError(c.state))
    case ObjectInitial => Next(Opened(c, dst, StartObject))
    case ArrayInitial => Next(Opened(c, dst, StartArray))
    case MemberKey =>
      var k := StrRest(t, c.pos + 1);
      if k.Err? then Stuck(k.error) else Next(Along(c, dst, k.pos, c.ev + [Key(k.val)]))
    case KeyValueDelimiter => Next(Along(c, dst, c.pos + 1, c.ev))
    case MemberDelimiter => Next(Counted(c, dst))
    case ElementDelimiter => Next(Counted(c, dst))
    case ObjectFinish =>
      if !fl.trailingCommas && c.state == MemberDelimiter then Stuck(ObjectMissName)
      else Next(Closed(c, true, c.state == MemberValue))
    case ArrayFinish =>
      if !fl.trailingCommas && c.state == ElementDelimiter then Stuck(ValueInvalid)
      else Next(Closed(c, false, c.state == Element))
    case MemberValue => Read(fl, t, c, dst)
    case Element => Read(fl, t, c, dst)
    case ValueState => Read(fl, t, c, FinishState)
  }

  /** IterativeParse from the head of its loop. */
  function Loop(fl: Flags, t: string, c: Conf): Out
    requires Framed(c) && c.pos <= |t|
    decreases |t| - c.pos, 1
  {
    if Peek(t, c.pos) != NUL then Turn(fl, t, c)
    else if c.state == FinishState then Done(c.pos, c.ev)
    else Fail(HandleError(c.state), c.ev)
  }

  /** The body of the loop. */
  function Turn(fl: Flags, t: string, c: Conf): Out
    requires Framed(c) && c.pos < |t|
    decreases |t| - c.pos, 0
  {
    var r := Transit(fl, t, c, Predict(c.state, Tokenize(Peek(t, c.pos))));
    if r.Stuck? then Fail(r.error, c.ev) else Tail(fl, t, r.c)
  }

  /** IterativeParse from just after a transition. */
  function Tail(fl: Flags, t: string, c: Conf): Out
    requires Framed(c) && c.pos <= |t|
    decreases |t| - c.pos, 2
  {
    if fl.stopWhenDone && c.state == FinishState then Done(c.pos, c.ev) else
    var s := Skip(fl, t, c.pos);
    if s.Err? then Fail(s.error, c.ev) else Loop(fl, t, c.(pos := s.pos))
  }

  function Iterative(fl: Flags, t: string): Out
  {
    var s := Skip(fl, t, 0);
    if s.Err? then Fail(s.error, []) else Loop(fl, t, Conf(StartState, [], s.pos, []))
  }
}
