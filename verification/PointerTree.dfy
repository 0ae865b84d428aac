/** JSON Pointer on a tree: Get and Create of pointer.h, as evaluation by RFC 6901 section 4 and its constructive twin. */
module PointerTree {
  import opened Options
  import opened JsonText
  import opened JsonDocument
  import opened PointerText

  // ---------- Places in a value ----------

  /** Which child, which child of that, and so on: what a ValueType* into the tree points at. */
  type Loc = seq<nat>

  function Size(v: Json): nat { if v.JArr? then |v.elements| else if v.JObj? then |v.members| else 0 }

  function Child(v: Json, k: nat): (c: Json)
    requires k < Size(v)
    ensures c < v
  {
    if v.JArr? then v.elements[k] else assert v.members[k] < v; v.members[k].value
  }

  function PutChild(v: Json, k: nat, c: Json): (w: Json)
    requires k < Size(v)
    ensures Size(w) == Size(v)
  {
    if v.JArr? then JArr(v.elements[k := c]) else JObj(v.members[k := Member(v.members[k].name, c)])
  }

  predicate Within(v: Json, l: Loc)
    decreases |l|
  {
    l == [] || (l[0] < Size(v) && Within(Child(v, l[0]), l[1..]))
  }

  function At(v: Json, l: Loc): Json
    requires Within(v, l)
    decreases |l|
  {
    if l == [] then v else At(Child(v, l[0]), l[1..])
  }

  function Put(v: Json, l: Loc, c: Json): Json
    requires Within(v, l)
    decreases |l|
  {
    if l == [] then c else PutChild(v, l[0], Put(Child(v, l[0]), l[1..], c))
  }

  lemma ChildPut(v: Json, k: nat, c: Json, j: nat)
    requires k < Size(v) && j < Size(v)
    ensures Child(PutChild(v, k, c), j) == if j == k then c else Child(v, j)
  {
  }

  lemma PutChildTwice(v: Json, k: nat, c: Json, d: Json)
    requires k < Size(v)
    ensures PutChild(PutChild(v, k, c), k, d) == PutChild(v, k, d)
    ensures PutChild(v, k, Child(v, k)) == v
  {
    if v.JArr? {
      assert v.elements[k := c][k := d] == v.elements[k := d] && v.elements[k := v.elements[k]] == v.elements;
    } else {
      var m, n := Member(v.members[k].name, c), Member(v.members[k].name, d);
      assert v.members[k := m][k := n] == v.members[k := n];
      assert v.members[k := v.members[k]] == v.members;
    }
  }

  /** What a write at `l` leaves, seen from `l` and one child further on. */
  lemma {:induction false} PutThere(v: Json, l: Loc, c: Json)
    requires Within(v, l)
    ensures Within(Put(v, l, c), l) && At(Put(v, l, c), l) == c
    ensures Put(v, l, At(v, l)) == v
    decreases |l|
  {
    if l != [] {
      var x := Child(v, l[0]);
      PutThere(x, l[1..], c);
      ChildPut(v, l[0], Put(x, l[1..], c), l[0]);
      PutChildTwice(v, l[0], c, c);
    }
  }

  lemma {:induction false} PutTwice(v: Json, l: Loc, c: Json, d: Json)
    requires Within(v, l)
    ensures Within(Put(v, l, c), l) && Put(Put(v, l, c), l, d) == Put(v, l, d)
    decreases |l|
  {
    if l != [] {
      var x := Child(v, l[0]);
      var y := Put(x, l[1..], c);
      PutTwice(x, l[1..], c, d);
      ChildPut(v, l[0], y, l[0]);
      PutChildTwice(v, l[0], y, Put(y, l[1..], d));
    }
  }

  lemma {:induction false} Deeper(v: Json, l: Loc, k: nat, c: Json)
    requires Within(v, l) && k < Size(At(v, l))
    ensures Within(v, l + [k]) && At(v, l + [k]) == Child(At(v, l), k)
    ensures Put(v, l + [k], c) == Put(v, l, PutChild(At(v, l), k, c))
    decreases |l|
  {
    if l == [] {
      assert [k][1..] == [];
      assert [] + [k] == [k];
    } else {
      assert (l + [k])[0] == l[0] && (l + [k])[1..] == l[1..] + [k];
      Deeper(Child(v, l[0]), l[1..], k, c);
    }
  }

  // ---------- Get ----------

  /** FindMember: the first member of that name, or the end. */
  function Find(ms: seq<Member>, name: string): (k: nat)
    ensures k <= |ms| && (k < |ms| ==> ms[k].name == name) && forall j :: 0 <= j < k ==> ms[j].name != name
  {
    if ms == [] || ms[0].name == name then 0 else 1 + Find(ms[1..], name)
  }

  lemma FindUnique(ms: seq<Member>, name: string, k: nat)
    requires k <= |ms| && (k < |ms| ==> ms[k].name == name) && forall j :: 0 <= j < k ==> ms[j].name != name
    ensures Find(ms, name) == k
  {
  }

  /** The child a token names: of an object by name, of an array by index. */
  function Lookup(v: Json, t: Token): (r: Option<nat>)
    ensures r.Some? ==> r.value < Size(v)
  {
    if v.JObj? then var k := Find(v.members, t.name); if k == |v.members| then None else Some(k)
    else if v.JArr? then if t.index == INVALID_INDEX || !(0 <= t.index < |v.elements|) then None else Some(t.index)
    else None
  }

  function Resolve(v: Json, ts: seq<Token>): (r: Option<Loc>)
    ensures r.Some? ==> Within(v, r.value) && |r.value| == |ts|
    decreases |ts|
  {
    if ts == [] then Some([]) else
      var k := Lookup(v, ts[0]);
      if k.None? then None else
      var rest := Resolve(Child(v, k.value), ts[1..]);
      if rest.None? then None else Some([k.value] + rest.value)
  }

  // ---------- Create ----------

  predicate Dash(v: Json, t: Token) { v.JArr? && t.name == "-" }

  /** The change of type that makes room for a token. */
  function Retyped(v: Json, t: Token): Json
  {
    if t.index == INVALID_INDEX then if v.JObj? then v else JObj([])
    else if v.JArr? || v.JObj? then v else JArr([])
  }

  function Nulls(n: nat): seq<Json> { seq(n, _ => JNull) }

  /** One token's work on a node: the node afterwards, the child to go on with, and whether that was there. */
  datatype Opened = Opened(node: Json, child: nat, there: bool)

  function Open(v: Json, t: Token): (o: Opened)
    requires t.index >= 0
    ensures o.child < Size(o.node)
  {
    if Dash(v, t) then Opened(JArr(v.elements + [JNull]), |v.elements|, false) else
      var w := Retyped(v, t);
      if w.JArr? then
        if t.index >= |w.elements| then Opened(JArr(w.elements + Nulls(t.index + 1 - |w.elements|)), t.index, false)
        else Opened(w, t.index, true)
      else
        var k := Find(w.members, t.name);
        if k == |w.members| then Opened(JObj(w.members + [Member(t.name, JNull)]), k, false) else Opened(w, k, true)
  }

  datatype Created = Created(value: Json, loc: Loc, exist: bool)

  /** Indices are unsigned. */
  predicate Unsigned(ts: seq<Token>) { forall k :: 0 <= k < |ts| ==> 0 <= ts[k].index < WIDTH }

  function CreateIn(v: Json, ts: seq<Token>): (c: Created)
    requires Unsigned(ts)
    ensures Within(c.value, c.loc) && |c.loc| == |ts|
    decreases |ts|
  {
    if ts == [] then Created(v, [], true) else
      var o := Open(v, ts[0]);
      var c := CreateIn(Child(o.node, o.child), ts[1..]);
      ChildPut(o.node, o.child, c.value, o.child);
      Created(PutChild(o.node, o.child, c.value), [o.child] + c.loc, o.there && c.exist)
  }

  // ---------- Create, then Get ----------

  /** The path applies no "-" token to an array. */
  predicate DashFree(v: Json, ts: seq<Token>)
    requires Unsigned(ts)
    decreases |ts|
  {
    ts == [] || (!Dash(v, ts[0]) && var o := Open(v, ts[0]); DashFree(Child(o.node, o.child), ts[1..]))
  }

  /** A "-" on an array finds what it appended only if it happens to carry that very index. */
  predicate FindsAppended(v: Json, t: Token) { Dash(v, t) ==> t.index == |v.elements| && t.index != INVALID_INDEX }

  predicate Reaches(v: Json, ts: seq<Token>)
    requires Unsigned(ts)
    decreases |ts|
  {
    ts == [] || (FindsAppended(v, ts[0]) && var o := Open(v, ts[0]); Reaches(Child(o.node, o.child), ts[1..]))
  }

  /** No "-" carries an index: so it is in parsed pointers, and in names appended or supplied without an index. */
  predicate PlainDashes(ts: seq<Token>) { forall k :: 0 <= k < |ts| && ts[k].name == "-" ==> ts[k].index == INVALID_INDEX }

  lemma ParsedDashesPlain(ts: seq<Token>)
    requires Proper(ts)
    ensures Unsigned(ts) && PlainDashes(ts)
  {
    assert !Digit("-"[0]);
  }

  /** The opened child is what the token then finds, whatever is put there. */
  lemma OpenThenLookup(v: Json, t: Token, c: Json)
    requires 0 <= t.index < WIDTH
    ensures var o := Open(v, t); Lookup(PutChild(o.node, o.child, c), t) == Some(o.child) <==> FindsAppended(v, t)
    ensures var o := Open(v, t);
      Dash(v, t) && t.index == INVALID_INDEX ==> Lookup(PutChild(o.node, o.child, c), t) == None
  {
    var o := Open(v, t);
    var w := PutChild(o.node, o.child, c);
    if w.JObj? {
      forall j | 0 <= j < o.child
        ensures w.members[j].name != t.name
      {
        assert w.members[j] == o.node.members[j];
      }
      FindUnique(w.members, t.name, o.child);
    }
  }

  /**
   * Get after Create, for any tokens: it finds the node Create returned exactly when every "-" applied to an array
   * carries the appended index; so, where no "-" carries an index, exactly when none is applied to an array.
   */
  lemma {:induction false} CreateThenGet(v: Json, ts: seq<Token>)
    requires Unsigned(ts)
    ensures Resolve(CreateIn(v, ts).value, ts) == Some(CreateIn(v, ts).loc) <==> Reaches(v, ts)
    ensures DashFree(v, ts) ==> Reaches(v, ts)
    ensures PlainDashes(ts) ==>
      Resolve(CreateIn(v, ts).value, ts) == if DashFree(v, ts) then Some(CreateIn(v, ts).loc) else None
    decreases |ts|
  {
    if ts != [] {
      var o := Open(v, ts[0]);
      var x := Child(o.node, o.child);
      var c := CreateIn(x, ts[1..]);
      OpenThenLookup(v, ts[0], c.value);
      ChildPut(o.node, o.child, c.value, o.child);
      CreateThenGet(x, ts[1..]);
      FirstStep(PutChild(o.node, o.child, c.value), ts, o.child, c.loc);
    }
  }

  /** A resolution that begins elsewhere ends elsewhere. */
  lemma FirstStep(w: Json, ts: seq<Token>, k: nat, l: Loc)
    requires ts != []
    ensures Resolve(w, ts) == Some([k] + l) <==> Lookup(w, ts[0]) == Some(k) && Resolve(Child(w, k), ts[1..]) == Some(l)
  {
    if Resolve(w, ts) == Some([k] + l) {
      var j := Lookup(w, ts[0]).value;
      var rest := Resolve(Child(w, j), ts[1..]).value;
      assert ([j] + rest)[0] == j && ([j] + rest)[1..] == rest && ([k] + l)[1..] == l;
    }
  }

  /** The array to which `-` was applied, and the Get that misses what was appended. */
  lemma DashMissed()
    ensures var v, ts := JArr([]), [Token("-", INVALID_INDEX)];
      CreateIn(v, ts) == Created(JArr([JNull]), [0], false) && Resolve(CreateIn(v, ts).value, ts) == None
  {
    var v, ts := JArr([]), [Token("-", INVALID_INDEX)];
    var o := Open(v, ts[0]);
    assert [] + [JNull] == [JNull];
    assert o == Opened(JArr([JNull]), 0, false);
    assert CreateIn(JNull, ts[1..]) == Created(JNull, [], true);
    assert [JNull][0 := JNull] == [JNull] && [0] + [] == [0];
  }

  lemma OpenThere(v: Json, t: Token)
    requires 0 <= t.index < WIDTH
    ensures var o := Open(v, t); o.there <==> Lookup(v, t).Some? && !Dash(v, t)
    ensures var o := Open(v, t); o.there ==> o.node == v && Lookup(v, t) == Some(o.child)
    ensures var o := Open(v, t); !o.there ==> Child(o.node, o.child) == JNull
  {
  }

  /**
   * alreadyExist, for any tokens: it is true exactly when Get resolved before, by no "-" on an array; then Create
   * changes nothing and returns the same node, else it returns a Null.
   */
  lemma {:induction false} AlreadyExist(v: Json, ts: seq<Token>)
    requires Unsigned(ts)
    ensures var c := CreateIn(v, ts);
      && (c.exist <==> Resolve(v, ts).Some? && DashFree(v, ts))
      && (PlainDashes(ts) ==> (c.exist <==> Resolve(v, ts).Some?))
      && (c.exist ==> c.value == v && Resolve(v, ts) == Some(c.loc))
      && (!c.exist ==> At(c.value, c.loc) == JNull)
    decreases |ts|
  {
    if ts != [] {
      var o := Open(v, ts[0]);
      var x := Child(o.node, o.child);
      var c := CreateIn(x, ts[1..]);
      OpenThere(v, ts[0]);
      AlreadyExist(x, ts[1..]);
      ChildPut(o.node, o.child, c.value, o.child);
      PutChildTwice(o.node, o.child, c.value, c.value);
    }
  }

  // ---------- What Create leaves alone ----------

  /** The earlier node whose type Create replaces, if any; below it nothing earlier survives. */
  function Replaced(v: Json, ts: seq<Token>): Option<Loc>
    requires Unsigned(ts)
    decreases |ts|
  {
    if ts == [] then None
    else if !Dash(v, ts[0]) && Retyped(v, ts[0]) != v then Some([])
    else
      var o := Open(v, ts[0]);
      if !o.there then None else
      var r := Replaced(Child(o.node, o.child), ts[1..]);
      if r.None? then None else Some([o.child] + r.value)
  }

  /** A node that keeps its type keeps its children, in place and under their names. */
  lemma OpenKeeps(v: Json, t: Token, q: Token, c: Json)
    requires 0 <= t.index < WIDTH && (Dash(v, t) || Retyped(v, t) == v) && Lookup(v, q).Some?
    ensures var o, k := Open(v, t), Lookup(v, q).value;
      && Size(v) <= Size(o.node) && Child(o.node, k) == Child(v, k) && Lookup(PutChild(o.node, o.child, c), q) == Some(k)
      && (k == o.child ==> o.there)
  {
    var o, k := Open(v, t), Lookup(v, q).value;
    var w := PutChild(o.node, o.child, c);
    if v.JObj? {
      forall j | 0 <= j < |v.members|
        ensures w.members[j].name == v.members[j].name
      {
        assert o.node.members[j] == v.members[j];
      }
      FindUnique(w.members, q.name, k);
    }
  }

  /** `l` does not lie below the replaced node. */
  predicate Clear(r: Option<Loc>, l: Loc) { r.None? || !(r.value < l) }

  /**
   * Every pointer that resolved before, and not through a node whose type is replaced, resolves to the same node;
   * that node's value is the same, unless the created one lies in it: then it is what Create makes of it.
   */
  lemma {:induction false} OthersKept(v: Json, ts: seq<Token>, qs: seq<Token>)
    requires Unsigned(ts) && Resolve(v, qs).Some? && Clear(Replaced(v, ts), Resolve(v, qs).value)
    ensures var c, l := CreateIn(v, ts), Resolve(v, qs).value;
      && Resolve(c.value, qs) == Some(l)
      && At(c.value, l) == if l <= c.loc then CreateIn(At(v, l), ts[|l|..]).value else At(v, l)
    decreases |ts|
  {
    var l := Resolve(v, qs).value;
    if ts == [] {
      if l == [] { assert ts[0..] == ts; }
    } else if qs == [] {
      assert ts[0..] == ts;
    } else {
      var o, k := Open(v, ts[0]), Lookup(v, qs[0]).value;
      var x := Child(o.node, o.child);
      var c := CreateIn(x, ts[1..]);
      OpenKeeps(v, ts[0], qs[0], c.value);
      ChildPut(o.node, o.child, c.value, k);
      if k == o.child {
        ClearBelow(v, ts, k, l);
        OthersKept(x, ts[1..], qs[1..]);
        SameBelow(c.loc, l, k, ts);
      }
    }
  }

  lemma SameBelow(loc: Loc, l: Loc, k: nat, ts: seq<Token>)
    requires l != [] && l[0] == k && ts != [] && |loc| == |ts| - 1
    ensures l <= [k] + loc <==> l[1..] <= loc
    ensures l[1..] <= loc ==> ts[1..][|l[1..]|..] == ts[|l|..]
  {
    if l[1..] <= loc { assert [k] + l[1..] == l; }
    if l <= [k] + loc { assert ([k] + loc)[1..] == loc; }
  }

  lemma ClearBelow(v: Json, ts: seq<Token>, k: nat, l: Loc)
    requires Unsigned(ts) && ts != [] && l != [] && l[0] == k
    requires (Dash(v, ts[0]) || Retyped(v, ts[0]) == v) && Open(v, ts[0]).there && Open(v, ts[0]).child == k
    ensures Clear(Replaced(v, ts), l) <==> Clear(Replaced(Child(Open(v, ts[0]).node, k), ts[1..]), l[1..])
  {
    var r := Replaced(Child(Open(v, ts[0]).node, k), ts[1..]);
    if r.Some? {
      assert |[k] + r.value| == 1 + |r.value| && ([k] + r.value)[1..] == r.value && [l[0]] + l[1..] == l;
      assert [k] + r.value <= l <==> r.value <= l[1..];
    }
  }

  /** Where two pointers use the same name they mean the same index, as all parsed pointers do. */
  predicate Consistent(ts: seq<Token>, qs: seq<Token>)
  {
    forall k :: 0 <= k < |ts| && k < |qs| && ts[k].name == qs[k].name ==> ts[k].index == qs[k].index
  }

  /** A replaced node had children only if it was an array, and then it becomes an object of the token's name alone. */
  lemma RetypedLoses(v: Json, t: Token, q: Token, c: Json)
    requires 0 <= t.index < WIDTH && !Dash(v, t) && Retyped(v, t) != v && Lookup(v, q).Some?
    ensures t.index == INVALID_INDEX != q.index
    ensures var o := Open(v, t);
      && o.child == 0 && Child(o.node, 0) == JNull
      && Lookup(PutChild(o.node, 0, c), q) == if t.name == q.name then Some(0) else None
  {
    var w := JObj([Member(t.name, c)]);
    assert Open(v, t).node == JObj([] + [Member(t.name, JNull)]);
    assert [Member(t.name, JNull)][0 := Member(t.name, c)] == [Member(t.name, c)];
    FindUnique(w.members, q.name, if t.name == q.name then 0 else 1);
  }

  function Under(p: Loc, r: Option<Loc>): Option<Loc> { if r.None? then None else Some(p + r.value) }

  lemma UnderUnder(p: Loc, q: Loc, r: Option<Loc>)
    ensures Under(p, Under(q, r)) == Under(p + q, r)
  {
    if r.Some? { assert p + (q + r.value) == p + q + r.value; }
  }

  lemma ResolveUnder(w: Json, qs: seq<Token>, k: nat)
    requires qs != [] && Lookup(w, qs[0]) == Some(k)
    ensures Resolve(w, qs) == Under([k], Resolve(Child(w, k), qs[1..]))
  {
  }

  /** What a pointer through the node replaced at depth `n`, which is `r`, finds after Create. */
  function Remade(ts: seq<Token>, qs: seq<Token>, r: Loc): Option<Loc>
    requires Unsigned(ts) && |r| < |ts| && |r| < |qs|
  {
    var n := |r|;
    if ts[n].name != qs[n].name then None else Under(r + [0], Resolve(CreateIn(JNull, ts[n + 1..]).value, qs[n + 1..]))
  }

  lemma RemadeUnder(ts: seq<Token>, qs: seq<Token>, k: nat, r: Loc)
    requires Unsigned(ts) && 1 + |r| < |ts| && 1 + |r| < |qs|
    ensures Remade(ts, qs, [k] + r) == Under([k], Remade(ts[1..], qs[1..], r))
  {
    var n := 1 + |r|;
    assert ts[1..][n..] == ts[n + 1..] && qs[1..][n..] == qs[n + 1..];
    assert [k] + (r + [0]) == [k] + r + [0];
    UnderUnder([k], r + [0], Resolve(CreateIn(JNull, ts[n + 1..]).value, qs[n + 1..]));
  }

  lemma RemadeHere(v: Json, ts: seq<Token>, qs: seq<Token>)
    requires Unsigned(ts) && ts != [] && qs != [] && Lookup(v, qs[0]).Some? && !Dash(v, ts[0]) && Retyped(v, ts[0]) != v
    ensures ts[0].index != qs[0].index && Resolve(CreateIn(v, ts).value, qs) == Remade(ts, qs, [])
  {
    var c := CreateIn(JNull, ts[1..]);
    RetypedLoses(v, ts[0], qs[0], c.value);
    ChildPut(Open(v, ts[0]).node, 0, c.value, 0);
    assert [] + [0] == [0];
  }

  /**
   * A pointer that ran through a node whose type is replaced: from there on it finds at most what Create has just
   * made, and that only if it goes by the very name Create went by.
   */
  lemma {:induction false} ThroughReplaced(v: Json, ts: seq<Token>, qs: seq<Token>)
    requires Unsigned(ts) && Resolve(v, qs).Some? && !Clear(Replaced(v, ts), Resolve(v, qs).value)
    ensures var r := Replaced(v, ts).value;
      && |r| < |ts| && |r| < |qs| && ts[|r|].index != qs[|r|].index
      && Resolve(CreateIn(v, ts).value, qs) == Remade(ts, qs, r)
    decreases |ts|
  {
    if Replaced(v, ts) == Some([]) {
      RemadeHere(v, ts, qs);
    } else {
      var k, x, r := ThroughFirst(v, ts, qs);
      ThroughReplaced(x, ts[1..], qs[1..]);
      RemadeUnder(ts, qs, k, r);
    }
  }

  /** Above the replaced node both pointers take the same child. */
  lemma ThroughFirst(v: Json, ts: seq<Token>, qs: seq<Token>) returns (k: nat, x: Json, r: Loc)
    requires Unsigned(ts) && Resolve(v, qs).Some? && !Clear(Replaced(v, ts), Resolve(v, qs).value) && Replaced(v, ts) != Some([])
    ensures ts != [] && qs != [] && Replaced(v, ts) == Some([k] + r) && Replaced(x, ts[1..]) == Some(r)
    ensures Resolve(x, qs[1..]).Some? && !Clear(Some(r), Resolve(x, qs[1..]).value)
    ensures Resolve(CreateIn(v, ts).value, qs) == Under([k], Resolve(CreateIn(x, ts[1..]).value, qs[1..]))
  {
    var o := Open(v, ts[0]);
    k, x := Lookup(v, qs[0]).value, Child(o.node, o.child);
    var c := CreateIn(x, ts[1..]);
    assert Resolve(v, qs).value[0] == Replaced(v, ts).value[0] == k == o.child;
    r := Replaced(x, ts[1..]).value;
    OpenKeeps(v, ts[0], qs[0], c.value);
    ClearBelow(v, ts, k, Resolve(v, qs).value);
    ChildPut(o.node, k, c.value, k);
    ResolveUnder(PutChild(o.node, k, c.value), qs, k);
  }

  /** Exactly which earlier pointers survive: those that do not run through a node whose type is replaced. */
  lemma SurvivesWhen(v: Json, ts: seq<Token>, qs: seq<Token>)
    requires Unsigned(ts) && Resolve(v, qs).Some? && Consistent(ts, qs)
    ensures Resolve(CreateIn(v, ts).value, qs) ==
      if Clear(Replaced(v, ts), Resolve(v, qs).value) then Resolve(v, qs) else None
  {
    if Clear(Replaced(v, ts), Resolve(v, qs).value) { OthersKept(v, ts, qs); } else { ThroughReplaced(v, ts, qs); }
  }

  lemma ParsedConsistent(ts: seq<Token>, qs: seq<Token>)
    requires Proper(ts) && Proper(qs)
    ensures Consistent(ts, qs)
  {
  }

  // ---------- The tree object ----------

  class Tree {
    var root: Json

    constructor (v: Json)
      ensures root == v
    {
      root := v;
    }

    method FindMember(ms: seq<Member>, name: string) returns (k: nat)
      ensures k == Find(ms, name)
    {
      k := 0;
      while k < |ms| && ms[k].name != name
        invariant 0 <= k <= |ms| && forall j :: 0 <= j < k ==> ms[j].name != name
      {
        k := k + 1;
      }
      FindUnique(ms, name, k);
    }

    /** Get: walks `l` down from the root; stops at the first token that is not there. */
    method Get(ts: seq<Token>) returns (found: bool, l: Loc, unresolved: nat)
      ensures found == Resolve(root, ts).Some? && (found ==> Resolve(root, ts) == Some(l))
      ensures Within(root, l) && unresolved <= |ts| && Resolve(root, ts[..unresolved]) == Some(l)
      ensures !found ==> unresolved < |ts| && Lookup(At(root, l), ts[unresolved]) == None
    {
      l := [];
      var t := 0;
      assert ts[..0] == [];
      while t < |ts|
        invariant 0 <= t <= |ts| && Resolve(root, ts[..t]) == Some(l)
      {
        var v := At(root, l);
        ResolveNext(root, ts, t);
        if v.JObj? {
          var m := FindMember(v.members, ts[t].name);
          if m == |v.members| { return false, l, t; }
          l := l + [m];
        } else if v.JArr? {
          if ts[t].index == INVALID_INDEX || !(0 <= ts[t].index < |v.elements|) { return false, l, t; }
          l := l + [ts[t].index];
        } else {
          return false, l, t;
        }
        t := t + 1;
      }
      assert ts[..t] == ts;
      found, unresolved := true, t;
    }

    lemma TailSlices(ts: seq<Token>, t: nat)
      requires 0 < t < |ts|
      ensures ts[..t][1..] == ts[1..][..t - 1] && ts[..t + 1][1..] == ts[1..][..t] && ts[..t][0] == ts[..t + 1][0] == ts[0]
    {
    }

    lemma {:induction false} ResolveNext(v: Json, ts: seq<Token>, t: nat)
      requires t < |ts| && Resolve(v, ts[..t]).Some?
      ensures var l := Resolve(v, ts[..t]).value;
        var k := Lookup(At(v, l), ts[t]);
        && Resolve(v, ts[..t + 1]) == (if k.None? then None else Some(l + [k.value]))
        && (k.None? ==> Resolve(v, ts).None?)
      decreases t
    {
      if t > 0 {
        var k := Lookup(v, ts[0]).value;
        TailSlices(ts, t);
        ResolveNext(Child(v, k), ts[1..], t - 1);
        var l := Resolve(Child(v, k), ts[1..][..t - 1]).value;
        assert ([k] + l)[1..] == l;
        var j := Lookup(At(v, [k] + l), ts[t]);
        if j.Some? { assert [k] + (l + [j.value]) == ([k] + l) + [j.value]; }
      } else {
        assert ts[..1][1..] == [] && ts[..0] == [];
        var k := Lookup(v, ts[0]);
        if k.Some? { assert [k.value] + [] == [] + [k.value]; }
      }
    }

    /** PushBack, Reserve and AddMember through a pointer: write the node at `l`. */
    method Write(l: Loc, v: Json)
      requires Within(root, l)
      modifies this
      ensures root == Put(old(root), l, v)
      ensures Within(root, l) && At(root, l) == v
      ensures forall w :: Put(root, l, w) == Put(old(root), l, w)
    {
      PutThere(root, l, v);
      ghost var was := root;
      forall w ensures Put(Put(was, l, v), l, w) == Put(was, l, w) { PutTwice(was, l, v, w); }
      root := Put(root, l, v);
    }

    /** The padding loop: Nulls up to the index. */
    method Pad(l: Loc, index: nat)
      requires Within(root, l) && At(root, l).JArr? && |At(root, l).elements| <= index
      modifies this
      ensures var es := At(old(root), l).elements; root == Put(old(root), l, JArr(es + Nulls(index + 1 - |es|)))
    {
      ghost var es, was := At(root, l).elements, root;
      PutThere(root, l, JNull);
      assert es + Nulls(0) == es;
      ghost var n := 0;
      while index >= |At(root, l).elements|
        invariant Within(root, l) && At(root, l) == JArr(es + Nulls(n)) && n <= index + 1 - |es|
        invariant root == Put(was, l, JArr(es + Nulls(n)))
        invariant forall w :: Put(root, l, w) == Put(was, l, w)
        decreases index + 1 - |es| - n
      {
        assert es + Nulls(n) + [JNull] == es + Nulls(n + 1);
        Write(l, JArr(At(root, l).elements + [JNull]));
        n := n + 1;
      }
    }

    /** One token of Create at the node `l`. */
    method OpenAt(l: Loc, t: Token) returns (child: nat, there: bool)
      requires Within(root, l) && 0 <= t.index < WIDTH
      modifies this
      ensures var o := Open(At(old(root), l), t); root == Put(old(root), l, o.node) && child == o.child && there == o.there
    {
      there := true;
      PutThere(root, l, JNull);
      if At(root, l).JArr? && t.name == "-" {
        Write(l, JArr(At(root, l).elements + [JNull]));
        child, there := Size(At(root, l)) - 1, false;
        return;
      }
      if t.index == INVALID_INDEX {
        if !At(root, l).JObj? { Write(l, JObj([])); }
      } else {
        if !At(root, l).JArr? && !At(root, l).JObj? { Write(l, JArr([])); }
      }
      assert At(root, l) == Retyped(At(old(root), l), t);
      PutThere(root, l, JNull);
      if At(root, l).JArr? {
        if t.index >= Size(At(root, l)) {
          Pad(l, t.index);
          there := false;
        }
        child := t.index;
      } else {
        child := FindMember(At(root, l).members, t.name);
        if child == Size(At(root, l)) {
          Write(l, JObj(At(root, l).members + [Member(t.name, JNull)]));
          there := false;
        }
      }
    }

    /** Create: walks down from the root, opening each node for its token. */
    method Create(ts: seq<Token>) returns (l: Loc, exist: bool)
      requires Unsigned(ts)
      modifies this
      ensures CreateIn(old(root), ts) == Created(root, l, exist)
    {
      l, exist := [], true;
      var t := 0;
      ghost var all := CreateIn(root, ts);
      assert ts[0..] == ts;
      ghost var c := all;
      while t < |ts|
        invariant 0 <= t <= |ts| && Going(all, ts, t, l, exist, c)
      {
        l, exist, c := CreateStep(ts, t, l, exist, all, c);
        t := t + 1;
      }
      PutThere(root, l, At(root, l));
      assert l + [] == l;
    }

    /** At the node `l`, with `t` tokens done; `c` is what is still to happen below it. */
    ghost predicate Going(all: Created, ts: seq<Token>, t: nat, l: Loc, exist: bool, c: Created)
      requires Unsigned(ts) && t <= |ts|
      reads this
    {
      && Within(root, l) && c == CreateIn(At(root, l), ts[t..])
      && all == Created(Put(root, l, c.value), l + c.loc, exist && c.exist)
    }

    method CreateStep(ts: seq<Token>, t: nat, l: Loc, exist: bool, ghost all: Created, ghost c: Created)
      returns (l': Loc, exist': bool, ghost d: Created)
      requires Unsigned(ts) && t < |ts| && Going(all, ts, t, l, exist, c)
      modifies this
      ensures Going(all, ts, t + 1, l', exist', d)
    {
      ghost var was, o := root, Open(At(root, l), ts[t]);
      d := CreateUnfolds(At(root, l), ts, t);
      Chain(all, was, l, c, o, d, exist);
      var child, there := OpenAt(l, ts[t]);
      l', exist' := l + [child], exist && there;
    }

    lemma Chain(all: Created, was: Json, l: Loc, c: Created, o: Opened, d: Created, exist: bool)
      requires Within(was, l) && o.child < Size(o.node)
      requires c == Created(PutChild(o.node, o.child, d.value), [o.child] + d.loc, o.there && d.exist)
      requires all == Created(Put(was, l, c.value), l + c.loc, exist && c.exist)
      ensures var root := Put(was, l, o.node);
        && Within(root, l + [o.child]) && At(root, l + [o.child]) == Child(o.node, o.child)
        && all == Created(Put(root, l + [o.child], d.value), l + [o.child] + d.loc, exist && o.there && d.exist)
    {
      WriteBelow(was, l, o.node, o.child, d.value);
      assert l + ([o.child] + d.loc) == l + [o.child] + d.loc;
    }

    lemma CreateUnfolds(v: Json, ts: seq<Token>, t: nat) returns (d: Created)
      requires Unsigned(ts) && t < |ts|
      ensures var o := Open(v, ts[t]);
        d == CreateIn(Child(o.node, o.child), ts[t + 1..])
        && CreateIn(v, ts[t..]) == Created(PutChild(o.node, o.child, d.value), [o.child] + d.loc, o.there && d.exist)
    {
      assert ts[t..][0] == ts[t] && ts[t..][1..] == ts[t + 1..];
      d := CreateIn(Child(Open(v, ts[t]).node, Open(v, ts[t]).child), ts[t + 1..]);
    }

    lemma WriteBelow(was: Json, l: Loc, node: Json, child: nat, d: Json)
      requires Within(was, l) && child < Size(node)
      ensures var root := Put(was, l, node);
        && Within(root, l + [child]) && At(root, l + [child]) == Child(node, child)
        && Put(root, l + [child], d) == Put(was, l, PutChild(node, child, d))
    {
      PutThere(was, l, node);
      Deeper(Put(was, l, node), l, child, d);
      PutTwice(was, l, node, PutChild(node, child, d));
    }
  }
}
