/** The table-driven parser simulates the recursive one, event by event. */
module JsonAgreement {
  import opened JsonText
  import opened JsonGrammar

  /** What the machine does once the recursive parse `o`, begun with `ev` sent, has come out. */
  ghost function Then(fl: Flags, t: string, o: Out, s: State, st: seq<Frame>, ev: seq<Event>): Out
    requires o.Done? ==> Framed(Conf(s, st, o.pos, ev)) && o.pos <= |t|
  {
    if o.Fail? then Fail(o.error, ev + o.ev) else Tail(fl, t, Conf(s, st, o.pos, ev + o.ev))
  }

  lemma {:induction false} ThenLead(fl: Flags, t: string, o: Out, s: State, st: seq<Frame>, ev: seq<Event>, p: seq<Event>)
    requires o.Done? ==> Framed(Conf(s, st, o.pos, ev)) && o.pos <= |t|
    ensures Then(fl, t, Lead(p, o), s, st, ev) == Then(fl, t, o, s, st, ev + p)
  {
    assert ev + (p + o.ev) == (ev + p) + o.ev;
  }

  lemma {:induction false} ThenFails(fl: Flags, t: string, e: Error, s: State, st: seq<Frame>, ev: seq<Event>)
    ensures Then(fl, t, Fail(e, []), s, st, ev) == Fail(e, ev)
  {
    assert ev + [] == ev;
  }

  /** Between transitions the machine skips blanks. */
  lemma {:induction false} TailSkips(fl: Flags, t: string, c: Conf)
    requires Framed(c) && c.pos <= |t| && c.state != FinishState
    ensures var s := Skip(fl, t, c.pos);
      Tail(fl, t, c) == if s.Err? then Fail(s.error, c.ev) else Loop(fl, t, c.(pos := s.pos))
  {
  }

  lemma {:induction false} TailFails(fl: Flags, t: string, c: Conf)
    requires Framed(c) && c.pos <= |t| && c.state != FinishState && Skip(fl, t, c.pos).Err?
    ensures Tail(fl, t, c) == Fail(Skip(fl, t, c.pos).error, c.ev)
  {
  }

  lemma {:induction false} SkipFails(fl: Flags, t: string, c: Conf, s: State, st: seq<Frame>)
    requires Framed(c) && c.pos <= |t| && c.state != FinishState && Skip(fl, t, c.pos).Err?
    ensures Tail(fl, t, c) == Then(fl, t, Fail(Skip(fl, t, c.pos).error, []), s, st, c.ev)
  {
    ThenFails(fl, t, Skip(fl, t, c.pos).error, s, st, c.ev);
  }

  lemma {:induction false} LoopSteps(fl: Flags, t: string, c: Conf, c': Conf)
    requires Framed(c) && c.pos < |t| && Peek(t, c.pos) != NUL
    requires Transit(fl, t, c, Predict(c.state, Tokenize(Peek(t, c.pos)))) == Next(c')
    ensures Framed(c') && c.pos < c'.pos <= |t| && Loop(fl, t, c) == Tail(fl, t, c')
  {
  }

  lemma {:induction false} SkipThenStep(fl: Flags, t: string, c: Conf, j: nat, c': Conf)
    requires Framed(c) && c.pos <= |t| && c.state != FinishState
    requires Skip(fl, t, c.pos).Ok? && Skip(fl, t, c.pos).pos == j < |t| && Peek(t, j) != NUL
    requires Transit(fl, t, c.(pos := j), Predict(c.state, Tokenize(Peek(t, j)))) == Next(c')
    ensures Framed(c') && j < c'.pos <= |t| && Tail(fl, t, c) == Tail(fl, t, c')
  {
    TailSkips(fl, t, c);
    LoopSteps(fl, t, c.(pos := j), c');
  }

  /** The state a value read in state `s` leads to. */
  function Goal(s: State): State { Resume(Return(s)) }

  /** Characters that cannot begin a value and are tokens of their own. */
  predicate Punctuation(c: char) { c == ']' || c == '}' || c == ',' || c == ':' }

  /** Where the two parsers look at the same thing: not at a closing bracket the array loop handles, and at
      the root not at punctuation or the end. */
  predicate ValueHere(fl: Flags, s: State, c: char)
  {
    && (s == ArrayInitial ==> c != ']')
    && (s == ElementDelimiter && fl.trailingCommas ==> c != ']')
    && (s == StartState ==> c != NUL && !Punctuation(c))
  }

  lemma {:induction false} SimValue(fl: Flags, t: string, i: nat, s: State, st: seq<Frame>, ev: seq<Event>)
    requires i <= |t| && AwaitsValue(s) && Framed(Conf(s, st, i, ev)) && ValueHere(fl, s, Peek(t, i))
    ensures Loop(fl, t, Conf(s, st, i, ev)) == Then(fl, t, Value(fl, t, i), Goal(s), st, ev)
    decreases |t| - i, 1
  {
    if Peek(t, i) == '{' {
      SimObject(fl, t, i, s, st, ev);
    } else if Peek(t, i) == '[' {
      SimArray(fl, t, i, s, st, ev);
    } else {
      ScalarStep(fl, t, i, s, st, ev);
    }
  }

  lemma {:induction false} SimObject(fl: Flags, t: string, i: nat, s: State, st: seq<Frame>, ev: seq<Event>)
    requires i <= |t| && AwaitsValue(s) && Framed(Conf(s, st, i, ev)) && Peek(t, i) == '{'
    ensures Loop(fl, t, Conf(s, st, i, ev)) == Then(fl, t, Value(fl, t, i), Goal(s), st, ev)
    decreases |t| - i, 0
  {
    OpenStep(fl, t, i, s, st, ev, ObjectInitial, StartObject);
    SimObjectBody(fl, t, i + 1, Return(s), st, ev + [StartObject]);
    ThenLead(fl, t, ObjectBody(fl, t, i + 1), Goal(s), st, ev, [StartObject]);
  }

  lemma {:induction false} SimArray(fl: Flags, t: string, i: nat, s: State, st: seq<Frame>, ev: seq<Event>)
    requires i <= |t| && AwaitsValue(s) && Framed(Conf(s, st, i, ev)) && Peek(t, i) == '['
    ensures Loop(fl, t, Conf(s, st, i, ev)) == Then(fl, t, Value(fl, t, i), Goal(s), st, ev)
    decreases |t| - i, 0
  {
    OpenStep(fl, t, i, s, st, ev, ArrayInitial, StartArray);
    SimArrayBody(fl, t, i + 1, Return(s), st, ev + [StartArray]);
    ThenLead(fl, t, ArrayBody(fl, t, i + 1), Goal(s), st, ev, [StartArray]);
  }

  lemma {:induction false} TransitScalar(fl: Flags, t: string, i: nat, s: State, st: seq<Frame>, ev: seq<Event>)
    requires i < |t| && AwaitsValue(s) && Framed(Conf(s, st, i, ev)) && ValueHere(fl, s, t[i])
    requires t[i] != '{' && t[i] != '[' && !Punctuation(t[i])
    ensures var v := Scalar(fl, t, i);
      Transit(fl, t, Conf(s, st, i, ev), Predict(s, Tokenize(t[i]))) ==
        if v.Err? then Stuck(v.error) else Next(Conf(Goal(s), st, v.pos, ev + [v.val]))
  {
  }

  lemma {:induction false} TransitPunctuation(fl: Flags, t: string, i: nat, s: State, st: seq<Frame>, ev: seq<Event>)
    requires i < |t| && AwaitsValue(s) && Framed(Conf(s, st, i, ev)) && ValueHere(fl, s, t[i]) && Punctuation(t[i])
    ensures Transit(fl, t, Conf(s, st, i, ev), Predict(s, Tokenize(t[i]))) == Stuck(ValueInvalid)
  {
  }

  lemma {:induction false} ScalarStep(fl: Flags, t: string, i: nat, s: State, st: seq<Frame>, ev: seq<Event>)
    requires i <= |t| && AwaitsValue(s) && Framed(Conf(s, st, i, ev)) && ValueHere(fl, s, Peek(t, i))
    requires Peek(t, i) != '{' && Peek(t, i) != '['
    ensures Loop(fl, t, Conf(s, st, i, ev)) == Then(fl, t, Value(fl, t, i), Goal(s), st, ev)
  {
    assert ev + [] == ev;
    if Peek(t, i) == NUL || Punctuation(Peek(t, i)) {
      assert Value(fl, t, i) == Fail(ValueInvalid, []);
      if Peek(t, i) != NUL { TransitPunctuation(fl, t, i, s, st, ev); }
    } else {
      TransitScalar(fl, t, i, s, st, ev);
      var v := Scalar(fl, t, i);
      if v.Ok? { LoopSteps(fl, t, Conf(s, st, i, ev), Conf(Goal(s), st, v.pos, ev + [v.val])); }
    }
  }

  /** A frame on top of `st` returning to `ret`. */
  predicate Enclosed(s: State, ret: State, n: nat, st: seq<Frame>)
  {
    Framed(Conf(s, st + [Frame(ret, n)], 0, [])) && Framed(Conf(Resume(ret), st, 0, []))
  }

  /** Neither the state within the container nor the count matters. */
  lemma {:induction false} StillEnclosed(s: State, s': State, ret: State, n: nat, n': nat, st: seq<Frame>)
    requires Enclosed(s, ret, n, st) && Live(s') && s' != StartState && s' != FinishState
    ensures Enclosed(s', ret, n', st)
  {
    var a, b := st + [Frame(ret, n)], st + [Frame(ret, n')];
    assert forall k :: 0 <= k < |b| ==> a[k].ret == b[k].ret;
  }

  /** An opening bracket pushes the state to return to and a zero count. */
  lemma {:induction false} OpenStep(fl: Flags, t: string, i: nat, s: State, st: seq<Frame>, ev: seq<Event>, d: State, e: Event)
    requires i <= |t| && AwaitsValue(s) && Framed(Conf(s, st, i, ev))
    requires (Peek(t, i) == '{' && d == ObjectInitial && e == StartObject) || (Peek(t, i) == '[' && d == ArrayInitial && e == StartArray)
    ensures Enclosed(d, Return(s), 0, st) && i < |t|
    ensures Loop(fl, t, Conf(s, st, i, ev)) == Tail(fl, t, Conf(d, st + [Frame(Return(s), 0)], i + 1, ev + [e]))
  {
    LoopSteps(fl, t, Conf(s, st, i, ev), Conf(d, st + [Frame(Return(s), 0)], i + 1, ev + [e]));
  }

  lemma {:induction false} SimObjectBody(fl: Flags, t: string, i: nat, ret: State, st: seq<Frame>, ev: seq<Event>)
    requires i <= |t| && Enclosed(ObjectInitial, ret, 0, st)
    ensures Tail(fl, t, Conf(ObjectInitial, st + [Frame(ret, 0)], i, ev)) == Then(fl, t, ObjectBody(fl, t, i), Resume(ret), st, ev)
    decreases |t| - i, 5
  {
    var s := Skip(fl, t, i);
    if s.Err? {
      SkipFails(fl, t, Conf(ObjectInitial, st + [Frame(ret, 0)], i, ev), Resume(ret), st);
    } else if Peek(t, s.pos) == '}' {
      CloseObject(fl, t, i, 0, ObjectInitial, ret, st, ev, 0);
    } else {
      TailSkips(fl, t, Conf(ObjectInitial, st + [Frame(ret, 0)], i, ev));
      SimMembers(fl, t, s.pos, 0, ObjectInitial, ret, st, ev);
    }
  }

  lemma {:induction false} SimArrayBody(fl: Flags, t: string, i: nat, ret: State, st: seq<Frame>, ev: seq<Event>)
    requires i <= |t| && Enclosed(ArrayInitial, ret, 0, st)
    ensures Tail(fl, t, Conf(ArrayInitial, st + [Frame(ret, 0)], i, ev)) == Then(fl, t, ArrayBody(fl, t, i), Resume(ret), st, ev)
    decreases |t| - i, 5
  {
    var s := Skip(fl, t, i);
    if s.Err? {
      SkipFails(fl, t, Conf(ArrayInitial, st + [Frame(ret, 0)], i, ev), Resume(ret), st);
    } else if Peek(t, s.pos) == ']' {
      CloseArray(fl, t, i, 0, ArrayInitial, ret, st, ev, 0);
    } else {
      TailSkips(fl, t, Conf(ArrayInitial, st + [Frame(ret, 0)], i, ev));
      SimElements(fl, t, s.pos, 0, ArrayInitial, ret, st, ev);
    }
  }

  lemma {:induction false} SimMembers(fl: Flags, t: string, i: nat, n: nat, s: State, ret: State, st: seq<Frame>, ev: seq<Event>)
    requires i <= |t| && Enclosed(s, ret, n, st) && (s == ObjectInitial || s == MemberDelimiter)
    requires Peek(t, i) == '}' ==> s == MemberDelimiter && !fl.trailingCommas
    ensures Loop(fl, t, Conf(s, st + [Frame(ret, n)], i, ev)) == Then(fl, t, Members(fl, t, i, n), Resume(ret), st, ev)
    decreases |t| - i, 4
  {
    if Peek(t, i) == '"' && StrRest(t, i + 1).Ok? {
      var k := StrRest(t, i + 1);
      NameStep(fl, t, i, n, s, ret, st, ev);
      SimAfterKey(fl, t, k.pos, n, ret, st, ev + [Key(k.val)]);
      ThenLead(fl, t, AfterKey(fl, t, k.pos, n), Resume(ret), st, ev, [Key(k.val)]);
    } else {
      NoName(fl, t, i, n, s, ret, st, ev);
    }
  }

  lemma {:induction false} NoName(fl: Flags, t: string, i: nat, n: nat, s: State, ret: State, st: seq<Frame>, ev: seq<Event>)
    requires i <= |t| && Enclosed(s, ret, n, st) && (s == ObjectInitial || s == MemberDelimiter)
    requires (Peek(t, i) == '}' ==> s == MemberDelimiter && !fl.trailingCommas) && (Peek(t, i) == '"' ==> StrRest(t, i + 1).Err?)
    ensures Loop(fl, t, Conf(s, st + [Frame(ret, n)], i, ev)) == Then(fl, t, Members(fl, t, i, n), Resume(ret), st, ev)
  {
    assert ev + [] == ev;
  }

  lemma {:induction false} NameStep(fl: Flags, t: string, i: nat, n: nat, s: State, ret: State, st: seq<Frame>, ev: seq<Event>)
    requires i < |t| && Enclosed(s, ret, n, st) && (s == ObjectInitial || s == MemberDelimiter) && t[i] == '"' && StrRest(t, i + 1).Ok?
    ensures Enclosed(MemberKey, ret, n, st)
    ensures var k := StrRest(t, i + 1);
      Loop(fl, t, Conf(s, st + [Frame(ret, n)], i, ev)) == Tail(fl, t, Conf(MemberKey, st + [Frame(ret, n)], k.pos, ev + [Key(k.val)]))
  {
    StillEnclosed(s, MemberKey, ret, n, n, st);
  }

  lemma {:induction false} NoColon(fl: Flags, t: string, i: nat, n: nat, ret: State, st: seq<Frame>, ev: seq<Event>)
    requires i <= |t| && Enclosed(MemberKey, ret, n, st) && (Skip(fl, t, i).Ok? ==> Peek(t, Skip(fl, t, i).pos) != ':')
    ensures Tail(fl, t, Conf(MemberKey, st + [Frame(ret, n)], i, ev)) == Then(fl, t, AfterKey(fl, t, i, n), Resume(ret), st, ev)
  {
    assert ev + [] == ev;
    TailSkips(fl, t, Conf(MemberKey, st + [Frame(ret, n)], i, ev));
  }

  lemma {:induction false} SimAfterKey(fl: Flags, t: string, i: nat, n: nat, ret: State, st: seq<Frame>, ev: seq<Event>)
    requires i <= |t| && Enclosed(MemberKey, ret, n, st)
    ensures Tail(fl, t, Conf(MemberKey, st + [Frame(ret, n)], i, ev)) == Then(fl, t, AfterKey(fl, t, i, n), Resume(ret), st, ev)
    decreases |t| - i, 6
  {
    var s := Skip(fl, t, i);
    if s.Ok? && Peek(t, s.pos) == ':' {
      ColonNext(fl, t, i, n);
      ColonStep(fl, t, i, n, ret, st, ev);
      SimAfterColon(fl, t, s.pos + 1, n, ret, st, ev);
    } else {
      NoColon(fl, t, i, n, ret, st, ev);
    }
  }

  lemma {:induction false} ColonNext(fl: Flags, t: string, i: nat, n: nat)
    requires i <= |t| && Skip(fl, t, i).Ok? && Peek(t, Skip(fl, t, i).pos) == ':'
    ensures Skip(fl, t, i).pos < |t| && AfterKey(fl, t, i, n) == AfterColon(fl, t, Skip(fl, t, i).pos + 1, n)
  {
  }

  lemma {:induction false} ColonStep(fl: Flags, t: string, i: nat, n: nat, ret: State, st: seq<Frame>, ev: seq<Event>)
    requires i <= |t| && Enclosed(MemberKey, ret, n, st) && Skip(fl, t, i).Ok? && Peek(t, Skip(fl, t, i).pos) == ':'
    ensures Enclosed(KeyValueDelimiter, ret, n, st) && Skip(fl, t, i).pos < |t|
    ensures Tail(fl, t, Conf(MemberKey, st + [Frame(ret, n)], i, ev)) ==
      Tail(fl, t, Conf(KeyValueDelimiter, st + [Frame(ret, n)], Skip(fl, t, i).pos + 1, ev))
  {
    var j, st1 := Skip(fl, t, i).pos, st + [Frame(ret, n)];
    StillEnclosed(MemberKey, KeyValueDelimiter, ret, n, n, st);
    SkipThenStep(fl, t, Conf(MemberKey, st1, i, ev), j, Conf(KeyValueDelimiter, st1, j + 1, ev));
  }

  lemma {:induction false} SimAfterColon(fl: Flags, t: string, i: nat, n: nat, ret: State, st: seq<Frame>, ev: seq<Event>)
    requires i <= |t| && Enclosed(KeyValueDelimiter, ret, n, st)
    ensures Tail(fl, t, Conf(KeyValueDelimiter, st + [Frame(ret, n)], i, ev)) == Then(fl, t, AfterColon(fl, t, i, n), Resume(ret), st, ev)
    decreases |t| - i, 6
  {
    var st1 := st + [Frame(ret, n)];
    assert ev + [] == ev;
    TailSkips(fl, t, Conf(KeyValueDelimiter, st1, i, ev));
    var s := Skip(fl, t, i);
    if s.Ok? {
      SimValue(fl, t, s.pos, KeyValueDelimiter, st1, ev);
      var v := Value(fl, t, s.pos);
      if v.Done? {
        SimAfterMember(fl, t, v.pos, n, ret, st, ev + v.ev);
        ThenLead(fl, t, AfterMember(fl, t, v.pos, n + 1), Resume(ret), st, ev, v.ev);
      }
    }
  }

  /** After a member or an element: a comma leads to the delimiter state, one more counted. */
  lemma {:induction false} CommaStep(fl: Flags, t: string, i: nat, n: nat, s: State, d: State, ret: State, st: seq<Frame>, ev: seq<Event>)
    requires i <= |t| && Enclosed(s, ret, n, st) && ((s == MemberValue && d == MemberDelimiter) || (s == Element && d == ElementDelimiter))
    requires Skip(fl, t, i).Ok? && Peek(t, Skip(fl, t, i).pos) == ','
    ensures var c2 := Conf(d, st + [Frame(ret, n + 1)], Skip(fl, t, i).pos + 1, ev);
      Framed(c2) && c2.pos <= |t| && Tail(fl, t, Conf(s, st + [Frame(ret, n)], i, ev)) == Tail(fl, t, c2)
  {
    var st1, j := st + [Frame(ret, n)], Skip(fl, t, i).pos;
    var c2 := Conf(d, st + [Frame(ret, n + 1)], j + 1, ev);
    TransitComma(fl, t, j, n, s, d, ret, st, ev);
    SkipThenStep(fl, t, Conf(s, st1, i, ev), j, c2);
  }

  lemma {:induction false} TransitComma(fl: Flags, t: string, j: nat, n: nat, s: State, d: State, ret: State, st: seq<Frame>, ev: seq<Event>)
    requires j < |t| && Enclosed(s, ret, n, st) && t[j] == ','
    requires (s == MemberValue && d == MemberDelimiter) || (s == Element && d == ElementDelimiter)
    ensures Transit(fl, t, Conf(s, st + [Frame(ret, n)], j, ev), Predict(s, Tokenize(t[j]))) ==
      Next(Conf(d, st + [Frame(ret, n + 1)], j + 1, ev))
  {
    assert Count(st + [Frame(ret, n)]) == st + [Frame(ret, n + 1)];
  }

  /** A closing bracket, after `n` members or elements in all, ends the container. */
  lemma {:induction false} TransitObjectFinish(fl: Flags, t: string, j: nat, n: nat, s: State, ret: State, st: seq<Frame>, ev: seq<Event>, count: nat)
    requires j < |t| && Enclosed(s, ret, n, st) && t[j] == '}'
    requires (s == ObjectInitial || s == MemberValue || s == MemberDelimiter) && (s == MemberDelimiter ==> fl.trailingCommas)
    requires count == if s == MemberValue then n + 1 else n
    ensures Transit(fl, t, Conf(s, st + [Frame(ret, n)], j, ev), Predict(s, Tokenize(t[j]))) ==
      Next(Conf(Resume(ret), st, j + 1, ev + [EndObject(count)]))
  {
    var st1 := st + [Frame(ret, n)];
    assert st1[..|st1| - 1] == st && st1[|st1| - 1] == Frame(ret, n);
  }

  lemma {:induction false} CloseObject(fl: Flags, t: string, i: nat, n: nat, s: State, ret: State, st: seq<Frame>, ev: seq<Event>, count: nat)
    requires i <= |t| && Enclosed(s, ret, n, st) && Skip(fl, t, i).Ok? && Peek(t, Skip(fl, t, i).pos) == '}'
    requires (s == ObjectInitial || s == MemberValue || s == MemberDelimiter) && (s == MemberDelimiter ==> fl.trailingCommas)
    requires count == if s == MemberValue then n + 1 else n
    ensures var c2 := Conf(Resume(ret), st, Skip(fl, t, i).pos + 1, ev + [EndObject(count)]);
      Framed(c2) && c2.pos <= |t| && Tail(fl, t, Conf(s, st + [Frame(ret, n)], i, ev)) == Tail(fl, t, c2)
  {
    var st1, j := st + [Frame(ret, n)], Skip(fl, t, i).pos;
    var c2 := Conf(Resume(ret), st, j + 1, ev + [EndObject(count)]);
    TransitObjectFinish(fl, t, j, n, s, ret, st, ev, count);
    SkipThenStep(fl, t, Conf(s, st1, i, ev), j, c2);
  }

  lemma {:induction false} TransitArrayFinish(fl: Flags, t: string, j: nat, n: nat, s: State, ret: State, st: seq<Frame>, ev: seq<Event>, count: nat)
    requires j < |t| && Enclosed(s, ret, n, st) && t[j] == ']'
    requires (s == ArrayInitial || s == Element || s == ElementDelimiter) && (s == ElementDelimiter ==> fl.trailingCommas)
    requires count == if s == Element then n + 1 else n
    ensures Transit(fl, t, Conf(s, st + [Frame(ret, n)], j, ev), Predict(s, Tokenize(t[j]))) ==
      Next(Conf(Resume(ret), st, j + 1, ev + [EndArray(count)]))
  {
    var st1 := st + [Frame(ret, n)];
    assert st1[..|st1| - 1] == st && st1[|st1| - 1] == Frame(ret, n);
  }

  lemma {:induction false} CloseArray(fl: Flags, t: string, i: nat, n: nat, s: State, ret: State, st: seq<Frame>, ev: seq<Event>, count: nat)
    requires i <= |t| && Enclosed(s, ret, n, st) && Skip(fl, t, i).Ok? && Peek(t, Skip(fl, t, i).pos) == ']'
    requires (s == ArrayInitial || s == Element || s == ElementDelimiter) && (s == ElementDelimiter ==> fl.trailingCommas)
    requires count == if s == Element then n + 1 else n
    ensures var c2 := Conf(Resume(ret), st, Skip(fl, t, i).pos + 1, ev + [EndArray(count)]);
      Framed(c2) && c2.pos <= |t| && Tail(fl, t, Conf(s, st + [Frame(ret, n)], i, ev)) == Tail(fl, t, c2)
  {
    var st1, j := st + [Frame(ret, n)], Skip(fl, t, i).pos;
    var c2 := Conf(Resume(ret), st, j + 1, ev + [EndArray(count)]);
    TransitArrayFinish(fl, t, j, n, s, ret, st, ev, count);
    SkipThenStep(fl, t, Conf(s, st1, i, ev), j, c2);
  }

  /** Anything else is an error. */
  lemma {:induction false} NeitherStep(fl: Flags, t: string, i: nat, n: nat, s: State, ret: State, st: seq<Frame>, ev: seq<Event>)
    requires i <= |t| && Enclosed(s, ret, n, st) && (s == MemberValue || s == Element) && Skip(fl, t, i).Ok?
    requires var c := Peek(t, Skip(fl, t, i).pos); c != ',' && c != (if s == MemberValue then '}' else ']')
    ensures Tail(fl, t, Conf(s, st + [Frame(ret, n)], i, ev)) == Fail(HandleError(s), ev)
  {
    var j, st1 := Skip(fl, t, i).pos, st + [Frame(ret, n)];
    TailSkips(fl, t, Conf(s, st1, i, ev));
    NoWay(fl, t, Conf(s, st1, j, ev));
  }

  lemma {:induction false} NoWay(fl: Flags, t: string, c: Conf)
    requires Framed(c) && c.pos <= |t| && (c.state == MemberValue || c.state == Element)
    requires Peek(t, c.pos) != ',' && Peek(t, c.pos) != if c.state == MemberValue then '}' else ']'
    ensures Loop(fl, t, c) == Fail(HandleError(c.state), c.ev)
  {
  }

  lemma {:induction false} MemberCommaNext(fl: Flags, t: string, i: nat, n: nat)
    requires i <= |t| && Skip(fl, t, i).Ok? && Peek(t, Skip(fl, t, i).pos) == ','
    ensures Skip(fl, t, i).pos < |t| && AfterMember(fl, t, i, n) == MemberComma(fl, t, Skip(fl, t, i).pos + 1, n)
  {
  }

  lemma {:induction false} AfterMemberEnds(fl: Flags, t: string, i: nat, n: nat, ret: State, st: seq<Frame>, ev: seq<Event>)
    requires i <= |t| && Enclosed(MemberValue, ret, n, st) && (Skip(fl, t, i).Ok? ==> Peek(t, Skip(fl, t, i).pos) != ',')
    ensures Tail(fl, t, Conf(MemberValue, st + [Frame(ret, n)], i, ev)) == Then(fl, t, AfterMember(fl, t, i, n + 1), Resume(ret), st, ev)
  {
    assert ev + [] == ev;
    var s := Skip(fl, t, i);
    if s.Err? {
      TailFails(fl, t, Conf(MemberValue, st + [Frame(ret, n)], i, ev));
    } else if Peek(t, s.pos) == '}' {
      CloseObject(fl, t, i, n, MemberValue, ret, st, ev, n + 1);
    } else {
      NeitherStep(fl, t, i, n, MemberValue, ret, st, ev);
    }
  }

  lemma {:induction false} SimAfterMember(fl: Flags, t: string, i: nat, n: nat, ret: State, st: seq<Frame>, ev: seq<Event>)
    requires i <= |t| && Enclosed(MemberValue, ret, n, st)
    ensures Tail(fl, t, Conf(MemberValue, st + [Frame(ret, n)], i, ev)) == Then(fl, t, AfterMember(fl, t, i, n + 1), Resume(ret), st, ev)
    decreases |t| - i, 5
  {
    if Skip(fl, t, i).Ok? && Peek(t, Skip(fl, t, i).pos) == ',' {
      StillEnclosed(MemberValue, MemberDelimiter, ret, n, n + 1, st);
      CommaStep(fl, t, i, n, MemberValue, MemberDelimiter, ret, st, ev);
      SimMemberComma(fl, t, Skip(fl, t, i).pos + 1, n + 1, ret, st, ev);
      MemberCommaNext(fl, t, i, n + 1);
    } else {
      AfterMemberEnds(fl, t, i, n, ret, st, ev);
    }
  }

  /** What the loop of the recursive parser does past a comma. */
  lemma {:induction false} SimMemberComma(fl: Flags, t: string, i: nat, n: nat, ret: State, st: seq<Frame>, ev: seq<Event>)
    requires i <= |t| && Enclosed(MemberDelimiter, ret, n, st)
    ensures Tail(fl, t, Conf(MemberDelimiter, st + [Frame(ret, n)], i, ev)) == Then(fl, t, MemberComma(fl, t, i, n), Resume(ret), st, ev)
    decreases |t| - i, 5
  {
    var s := Skip(fl, t, i);
    if s.Err? {
      SkipFails(fl, t, Conf(MemberDelimiter, st + [Frame(ret, n)], i, ev), Resume(ret), st);
    } else if fl.trailingCommas && Peek(t, s.pos) == '}' {
      CloseObject(fl, t, i, n, MemberDelimiter, ret, st, ev, n);
    } else {
      TailSkips(fl, t, Conf(MemberDelimiter, st + [Frame(ret, n)], i, ev));
      SimMembers(fl, t, s.pos, n, MemberDelimiter, ret, st, ev);
    }
  }

  lemma {:induction false} SimElements(fl: Flags, t: string, i: nat, n: nat, s: State, ret: State, st: seq<Frame>, ev: seq<Event>)
    requires i <= |t| && Enclosed(s, ret, n, st) && (s == ArrayInitial || s == ElementDelimiter)
    requires Peek(t, i) == ']' ==> s == ElementDelimiter && !fl.trailingCommas
    ensures Loop(fl, t, Conf(s, st + [Frame(ret, n)], i, ev)) == Then(fl, t, Elements(fl, t, i, n), Resume(ret), st, ev)
    decreases |t| - i, 2
  {
    var st1 := st + [Frame(ret, n)];
    SimValue(fl, t, i, s, st1, ev);
    var v := Value(fl, t, i);
    if v.Done? {
      SimAfterElement(fl, t, v.pos, n, ret, st, ev + v.ev);
      ThenLead(fl, t, AfterElement(fl, t, v.pos, n + 1), Resume(ret), st, ev, v.ev);
    }
  }

  lemma {:induction false} ElementCommaNext(fl: Flags, t: string, i: nat, n: nat)
    requires i <= |t| && Skip(fl, t, i).Ok? && Peek(t, Skip(fl, t, i).pos) == ','
    ensures Skip(fl, t, i).pos < |t| && AfterElement(fl, t, i, n) == ElementComma(fl, t, Skip(fl, t, i).pos + 1, n)
  {
  }

  lemma {:induction false} AfterElementEnds(fl: Flags, t: string, i: nat, n: nat, ret: State, st: seq<Frame>, ev: seq<Event>)
    requires i <= |t| && Enclosed(Element, ret, n, st) && (Skip(fl, t, i).Ok? ==> Peek(t, Skip(fl, t, i).pos) != ',')
    ensures Tail(fl, t, Conf(Element, st + [Frame(ret, n)], i, ev)) == Then(fl, t, AfterElement(fl, t, i, n + 1), Resume(ret), st, ev)
  {
    assert ev + [] == ev;
    var s := Skip(fl, t, i);
    if s.Err? {
      TailFails(fl, t, Conf(Element, st + [Frame(ret, n)], i, ev));
    } else if Peek(t, s.pos) == ']' {
      CloseArray(fl, t, i, n, Element, ret, st, ev, n + 1);
    } else {
      NeitherStep(fl, t, i, n, Element, ret, st, ev);
    }
  }

  lemma {:induction false} SimAfterElement(fl: Flags, t: string, i: nat, n: nat, ret: State, st: seq<Frame>, ev: seq<Event>)
    requires i <= |t| && Enclosed(Element, ret, n, st)
    ensures Tail(fl, t, Conf(Element, st + [Frame(ret, n)], i, ev)) == Then(fl, t, AfterElement(fl, t, i, n + 1), Resume(ret), st, ev)
    decreases |t| - i, 5
  {
    if Skip(fl, t, i).Ok? && Peek(t, Skip(fl, t, i).pos) == ',' {
      StillEnclosed(Element, ElementDelimiter, ret, n, n + 1, st);
      CommaStep(fl, t, i, n, Element, ElementDelimiter, ret, st, ev);
      SimElementComma(fl, t, Skip(fl, t, i).pos + 1, n + 1, ret, st, ev);
      ElementCommaNext(fl, t, i, n + 1);
    } else {
      AfterElementEnds(fl, t, i, n, ret, st, ev);
    }
  }

  /** What the loop of the recursive parser does past a comma. */
  lemma {:induction false} SimElementComma(fl: Flags, t: string, i: nat, n: nat, ret: State, st: seq<Frame>, ev: seq<Event>)
    requires i <= |t| && Enclosed(ElementDelimiter, ret, n, st)
    ensures Tail(fl, t, Conf(ElementDelimiter, st + [Frame(ret, n)], i, ev)) == Then(fl, t, ElementComma(fl, t, i, n), Resume(ret), st, ev)
    decreases |t| - i, 5
  {
    var s := Skip(fl, t, i);
    if s.Err? {
      SkipFails(fl, t, Conf(ElementDelimiter, st + [Frame(ret, n)], i, ev), Resume(ret), st);
    } else if fl.trailingCommas && Peek(t, s.pos) == ']' {
      CloseArray(fl, t, i, n, ElementDelimiter, ret, st, ev, n);
    } else {
      TailSkips(fl, t, Conf(ElementDelimiter, st + [Frame(ret, n)], i, ev));
      SimElements(fl, t, s.pos, n, ElementDelimiter, ret, st, ev);
    }
  }

  /** The first character after leading blanks and comments, when these are in order. */
  function First(fl: Flags, t: string): char
  {
    var s := Skip(fl, t, 0);
    if s.Err? then NUL else Peek(t, s.pos)
  }

  lemma {:induction false} RootDone(fl: Flags, t: string, i: nat, ev: seq<Event>)
    requires i <= |t|
    ensures Tail(fl, t, Conf(FinishState, [], i, ev)) == Finish(fl, t, i, ev)
  {
    var s := Skip(fl, t, i);
    if s.Ok? && Peek(t, s.pos) != NUL {
      assert Turn(fl, t, Conf(FinishState, [], s.pos, ev)) == Fail(DocumentRootNotSingular, ev);
    }
  }

  /** They report the same error too, exactly unless the text begins with punctuation. */
  lemma {:induction false} SameOutcome(fl: Flags, t: string)
    ensures Iterative(fl, t) == Recursive(fl, t) <==> !Punctuation(First(fl, t))
    ensures Punctuation(First(fl, t)) ==> Iterative(fl, t) == Fail(DocumentEmpty, []) && Recursive(fl, t) == Fail(ValueInvalid, [])
  {
    var s := Skip(fl, t, 0);
    if s.Ok? {
      if Punctuation(Peek(t, s.pos)) {
        assert Loop(fl, t, Conf(StartState, [], s.pos, [])) == Fail(DocumentEmpty, []);
        assert Value(fl, t, s.pos) == Fail(ValueInvalid, []);
      } else if Peek(t, s.pos) != NUL {
        SimValue(fl, t, s.pos, StartState, [], []);
        var v := Value(fl, t, s.pos);
        assert [] + v.ev == v.ev;
        if v.Done? { RootDone(fl, t, v.pos, v.ev); }
      }
    }
  }

  /** A text on which the error codes differ. */
  lemma {:induction false} BracketDiffers(fl: Flags)
    ensures Punctuation(First(fl, "]"))
    ensures Iterative(fl, "]") == Fail(DocumentEmpty, []) && Recursive(fl, "]") == Fail(ValueInvalid, [])
  {
    assert Ws("]", 0) == 0 && Skip(fl, "]", 0) == Ok(0, ());
    SameOutcome(fl, "]");
  }

  /** On every text the two parsers give the same verdict and send the same events; on an accepted one
      they also stop at the same place. */
  lemma {:induction false} SameVerdictSameEvents(fl: Flags, t: string)
    ensures Iterative(fl, t).Done? <==> Recursive(fl, t).Done?
    ensures Iterative(fl, t).ev == Recursive(fl, t).ev
    ensures Recursive(fl, t).Done? ==> Iterative(fl, t) == Recursive(fl, t)
  {
    SameOutcome(fl, t);
  }
}
