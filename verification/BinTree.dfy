/** The Arduino client's Map of sv_binTree.h: an unbalanced search tree over nodes kept in an array. */
module BinTree {
  import opened Options

  /** strcmp. */
  function StrCmp(a: string, b: string): int
  {
    if a == [] then (if b == [] then 0 else -1)
    else if b == [] then 1
    else if a[0] != b[0] then a[0] as int - b[0] as int
    else StrCmp(a[1..], b[1..])
  }

  lemma {:induction false} StrCmpZero(a: string, b: string)
    ensures StrCmp(a, b) == 0 <==> a == b
  {
    if a != [] && b != [] {
      StrCmpZero(a[1..], b[1..]);
      assert a == [a[0]] + a[1..] && b == [b[0]] + b[1..];
    }
  }

  /** One decision on the way down from the root. */
  datatype Turn = Turn(key: string, left: bool)

  /** `k` takes all these turns. */
  predicate Takes(route: seq<Turn>, k: string)
  {
    forall i :: 0 <= i < |route| ==> route[i].left == (StrCmp(k, route[i].key) < 0)
  }

  lemma TakesMore(route: seq<Turn>, t: Turn, k: string)
    ensures Takes(route + [t], k) <==> Takes(route, k) && t.left == (StrCmp(k, t.key) < 0)
  {
    var r := route + [t];
    assert r[|route|] == t;
    if Takes(r, k) {
      forall i | 0 <= i < |route| ensures route[i].left == (StrCmp(k, route[i].key) < 0) { assert r[i] == route[i]; }
    }
  }

  /** A node; its place in the array, its parent's and its route never change. */
  class Node<T> {
    const key: string
    const data: T
    var lchild: Node?<T>
    var rchild: Node?<T>
    ghost const at: nat
    ghost const up: int
    ghost const route: seq<Turn>

    constructor (key: string, data: T, ghost at: nat, ghost up: int, ghost route: seq<Turn>)
      ensures this.key == key && this.data == data && lchild == null && rchild == null
      ensures this.at == at && this.up == up && this.route == route
    {
      this.key, this.data, lchild, rchild := key, data, null, null;
      this.at, this.up, this.route := at, up, route;
    }

    /** Where a search for `k` goes on from here. */
    function Next(k: string): Node?<T>
      reads this
    {
      if StrCmp(k, key) < 0 then lchild else rchild
    }
  }

  class Map<T> {
    var root: Node?<T>
    var nods: seq<Node<T>>

    /** `c` hangs below the node `n`, on the given side. */
    ghost predicate Below(n: Node<T>, c: Node?<T>, left: bool)
      reads this
    {
      c != null ==> n.at < c.at < |nods| && nods[c.at] == c && c.up == n.at && c.route == n.route + [Turn(n.key, left)]
    }

    ghost predicate NodeAt(i: nat)
      requires i < |nods|
      reads this, nods
    {
      var n := nods[i];
      && n.at == i && n.up < i && Takes(n.route, n.key)
      && (i > 0 ==> 0 <= n.up && n.route == nods[n.up].route + [Turn(nods[n.up].key, StrCmp(n.key, nods[n.up].key) < 0)])
      && Below(n, n.lchild, true) && Below(n, n.rchild, false)
    }

    /** Two nodes on the route of one key are an earlier ancestor and its descendant. */
    ghost predicate Nested(i: nat, j: nat, k: string)
      requires i < j < |nods|
      reads this, nods
    {
      Takes(nods[i].route, k) && Takes(nods[j].route, k) ==> nods[i].Next(k) != null && i <= nods[j].up
    }

    ghost predicate Valid()
      reads this, nods
    {
      && root == (if nods == [] then null else nods[0])
      && (nods != [] ==> nods[0].route == [])
      && (forall i {:trigger NodeAt(i)} :: 0 <= i < |nods| ==> NodeAt(i))
      && (forall i, j, k {:trigger Nested(i, j, k)} :: 0 <= i < j < |nods| ==> Nested(i, j, k))
    }

    /** The place of the first entry with key `k`, or the size. */
    ghost function First(k: string): (f: nat)
      reads this
      ensures f <= |nods| && (f < |nods| ==> nods[f].key == k) && forall i :: 0 <= i < f ==> nods[i].key != k
    {
      FirstFrom(nods, k)
    }

    static ghost function FirstFrom(ns: seq<Node<T>>, k: string): (f: nat)
      ensures f <= |ns| && (f < |ns| ==> ns[f].key == k) && forall i :: 0 <= i < f ==> ns[i].key != k
    {
      if ns == [] || ns[0].key == k then 0 else 1 + FirstFrom(ns[1..], k)
    }

    constructor ()
      ensures Valid() && nods == []
    {
      root, nods := null, [];
    }

    method Size() returns (sz: nat)
      ensures sz == |nods|
    {
      sz := |nods|;
    }

    method At(it: int) returns (data: Option<T>)
      ensures data == if 0 <= it < |nods| then Some(nods[it].data) else None
    {
      if 0 > it || it >= |nods| {
        return None;
      }
      data := Some(nods[it].data);
    }

    /** The data of the first entry inserted under `key`, or NULL when there is none. */
    method Find(key: string) returns (data: Option<T>)
      requires Valid()
      ensures data == if First(key) < |nods| then Some(nods[First(key)].data) else None
    {
      var nd := root;
      ghost var f := First(key);
      assert nods != [] ==> NodeAt(0);
      while nd != null
        invariant nd != null ==> nd.at < |nods| && nods[nd.at] == nd && Takes(nd.route, key) && nd.at <= f
        invariant nd == null ==> f == |nods|
        decreases if nd == null then 0 else |nods| - nd.at
      {
        assert NodeAt(nd.at);
        StrCmpZero(key, nd.key);
        var res := StrCmp(key, nd.key);
        if res == 0 {
          return Some(nd.data);
        }
        NextKeepsFirst(nd, key);
        if res < 0 { nd := nd.lchild; } else { nd := nd.rchild; }
      }
      data := None;
    }

    lemma Ancestor(i: nat, j: nat, k: string)
      requires Valid() && i < j < |nods| && Takes(nods[i].route, k) && Takes(nods[j].route, k)
      ensures i <= nods[j].up && nods[i].Next(k) != null
    {
      assert Nested(i, j, k);
    }

    lemma NextKeepsFirst(nd: Node<T>, key: string)
      requires Valid() && nd.at < |nods| && nods[nd.at] == nd && Takes(nd.route, key) && nd.at <= First(key) && nd.key != key
      ensures var n := nd.Next(key);
        if n == null then First(key) == |nods|
        else nd.at < n.at <= First(key) && n.at < |nods| && nods[n.at] == n && Takes(n.route, key)
    {
      var n, f := nd.Next(key), First(key);
      assert NodeAt(nd.at);
      if n != null { TakesMore(nd.route, Turn(nd.key, n == nd.lchild && StrCmp(key, nd.key) < 0), key); }
      if f < |nods| {
        assert NodeAt(f);
        assert Nested(nd.at, f, key);
        if n != null && f < n.at { Ancestor(f, n.at, key); }
      }
    }

    /** Every entry but the first hangs below an earlier one, so the tree and the array hold the same nodes. */
    lemma Hangs(j: nat)
      requires Valid() && 0 < j < |nods|
      ensures 0 <= nods[j].up < j && nods[nods[j].up].Next(nods[j].key) == nods[j]
    {
      var n := nods[j];
      assert NodeAt(j) && NodeAt(n.up);
      var p := nods[n.up];
      TakesMore(p.route, Turn(p.key, StrCmp(n.key, p.key) < 0), n.key);
      Ancestor(n.up, j, n.key);
      StepDown(p, n.key);
      var c := p.Next(n.key);
      assert NodeAt(c.at) && c.up == n.up;
      if c.at < j { Ancestor(c.at, j, n.key); }
      if j < c.at { Ancestor(j, c.at, n.key); }
    }

    /** One more entry, last in the array; everything else stays where it was. */
    method Insert(key: string, data: T)
      requires Valid()
      modifies this, nods
      ensures Valid() && |nods| == |old(nods)| + 1 && nods == old(nods) + [nods[|old(nods)|]]
      ensures fresh(nods[|old(nods)|]) && nods[|old(nods)|].key == key && nods[|old(nods)|].data == data
    {
      var nd := root;
      var parent: Node?<T> := null;
      assert nods != [] ==> NodeAt(0);
      while nd != null
        modifies {}
        invariant parent == null ==> nd == root
        invariant parent != null ==> parent.at < |nods| && nods[parent.at] == parent && Takes(parent.route, key) && nd == parent.Next(key)
        invariant nd != null ==> nd.at < |nods| && nods[nd.at] == nd && Takes(nd.route, key)
        decreases if nd == null then 0 else |nods| - nd.at
      {
        assert NodeAt(nd.at);
        StepDown(nd, key);
        parent := nd;
        if StrCmp(key, nd.key) < 0 { nd := nd.lchild; } else { nd := nd.rchild; }
      }
      if parent == null { AttachRoot(key, data); } else { Attach(parent, key, data); }
    }

    lemma StepDown(nd: Node<T>, key: string)
      requires Valid() && nd.at < |nods| && nods[nd.at] == nd && Takes(nd.route, key)
      ensures var n := nd.Next(key); n != null ==> nd.at < n.at < |nods| && nods[n.at] == n && Takes(n.route, key)
    {
      assert NodeAt(nd.at);
      TakesMore(nd.route, Turn(nd.key, StrCmp(key, nd.key) < 0), key);
    }

    /** The keys that reach an empty slot pass only its owner and the owner's ancestors. */
    lemma OnlyAncestors(parent: Node<T>, turn: Turn)
      requires Valid() && parent.at < |nods| && nods[parent.at] == parent && turn.key == parent.key
      requires (if turn.left then parent.lchild else parent.rchild) == null
      ensures forall i, k :: 0 <= i < |nods| && Takes(nods[i].route, k) && Takes(parent.route + [turn], k) ==>
        i <= parent.at && (i < parent.at ==> nods[i].Next(k) != null)
    {
      forall i, k | 0 <= i < |nods| && Takes(nods[i].route, k) && Takes(parent.route + [turn], k)
        ensures i <= parent.at && (i < parent.at ==> nods[i].Next(k) != null)
      {
        TakesMore(parent.route, turn, k);
        if i < parent.at { assert Nested(i, parent.at, k); }
        if parent.at < i { Ancestor(parent.at, i, k); }
      }
    }

    method AttachRoot(key: string, data: T)
      requires Valid() && nods == []
      modifies this
      ensures Valid() && |nods| == 1 && fresh(nods[0]) && nods[0].key == key && nods[0].data == data
    {
      root := new Node(key, data, 0, -1, []);
      nods := [root];
      assert NodeAt(0);
    }

    /** Writes a new node through the pointer where the search for its key ended. */
    method Attach(parent: Node<T>, key: string, data: T)
      requires Valid() && parent.at < |nods| && nods[parent.at] == parent && Takes(parent.route, key) && parent.Next(key) == null
      modifies this, nods
      ensures Valid() && |nods| == |old(nods)| + 1 && nods == old(nods) + [nods[|old(nods)|]]
      ensures fresh(nods[|old(nods)|]) && nods[|old(nods)|].key == key && nods[|old(nods)|].data == data
    {
      ghost var turn := Turn(parent.key, StrCmp(key, parent.key) < 0);
      TakesMore(parent.route, turn, key);
      OnlyAncestors(parent, turn);
      var z := new Node(key, data, |nods|, parent.at, parent.route + [turn]);
      Hang(parent, z);
      forall i, j, k | 0 <= i < j < |nods|
        ensures Nested(i, j, k)
      {
        if j < |nods| - 1 { assert old(Nested(i, j, k)); } else { TakesMore(parent.route, turn, k); }
      }
    }

    /** The new node at the end of the array, and the pointer to it; no other pointer changes. */
    method Hang(parent: Node<T>, z: Node<T>)
      requires Valid() && parent.at < |nods| && nods[parent.at] == parent && parent.Next(z.key) == null && z !in nods
      requires z.lchild == null && z.rchild == null && z.at == |nods| && z.up == parent.at && Takes(z.route, z.key)
      requires z.route == parent.route + [Turn(parent.key, StrCmp(z.key, parent.key) < 0)]
      modifies this`nods, parent
      ensures nods == old(nods) + [z] && forall i :: 0 <= i < |nods| ==> NodeAt(i)
      ensures parent.lchild == (if StrCmp(z.key, parent.key) < 0 then z else old(parent.lchild))
      ensures parent.rchild == (if StrCmp(z.key, parent.key) < 0 then old(parent.rchild) else z)
    {
      ghost var was := nods;
      forall i | 0 <= i < |was| ensures NodeAt(i) { }
      nods := nods + [z];
      if StrCmp(z.key, parent.key) < 0 { parent.lchild := z; } else { parent.rchild := z; }
      forall i | 0 <= i < |nods|
        ensures NodeAt(i)
      {
        if i < |was| { assert old(NodeAt(i)); }
      }
    }
  }
}
