/** The splay tree operations of tree.h, on nodes without parent pointers. */
module SplayTree {
  import opened Trees
  import opened SplayCells

  class Tree {
    var root: Node?
    /** The elements in order, and the links of each with its place in that order. */
    ghost var elems: seq<Node>
    ghost var m: Cells

    ghost predicate Linked()
      reads this, m.Keys
    {
      forall n {:trigger m[n]} :: n in m ==> n.left == m[n].left && n.right == m[n].right
    }

    ghost predicate Valid()
      reads this, m.Keys
    {
      Linked() && Shape(m, elems, root) && Sorted(elems)
    }

    constructor ()
      ensures Valid() && elems == [] && root == null && m == map[]
    {
      root := null;
      elems := [];
      m := map[];
    }

    method SetKid(n: Node, d: Side, k: Node?)
      requires Linked()
      modifies this`m, n`left, n`right
      ensures Linked() && m == PutKid(old(m), n, d, k) && root == old(root)
      ensures n.left == (if d.L? then k else old(n.left)) && n.right == (if d.R? then k else old(n.right))
    {
      if d.L? { n.left := k; } else { n.right := k; }
      m := PutKid(m, n, d, k);
    }

    ghost method Relabel(m': Cells)
      requires Linked() && SameLinks(m, m')
      modifies this`m
      ensures Linked() && m == m'
    {
      m := m';
    }

    method TurnHead(o: Side, tmp: Node)
      requires Linked() && root != null && root in m && tmp in m && tmp != root && m[root].Kid(Other(o)) == tmp
      modifies this`root, this`m, root, tmp
      ensures Linked() && m == PutKid(PutKid(old(m), old(root), Other(o), old(m[tmp].Kid(o))), tmp, o, old(root)) && root == tmp
    {
      SetKid(root, Other(o), if o.R? then tmp.right else tmp.left);
      SetKid(tmp, o, root);
      root := tmp;
    }

    /** The links stand; the sequence and the places in it follow. */
    ghost method Reseat(m': Cells, s': seq<Node>)
      requires Linked() && SameLinks(m, m') && Shape(m', s', root)
      modifies this`m, this`elems
      ensures Linked() && m == m' && elems == s' && Shape(m, elems, root)
    {
      m, elems := m', s';
    }

    /** SPLAY_ROTATE_RIGHT (`o` is R) and SPLAY_ROTATE_LEFT (`o` is L) at the head. */
    method RotateHead(o: Side, tmp: Node, ghost hdr: Node, ghost z: Zones)
      requires Linked() && root != null && root in m && Zoned(m, elems, root, z) && m[root].Kid(Other(o)) == tmp
      requires Hung(m, elems, z, hdr, hdr.left, hdr.right)
      modifies this`root, this`m, m.Keys
      ensures Linked() && m.Keys == old(m.Keys) && Zoned(m, elems, root, z) && Hung(m, elems, z, hdr, hdr.left, hdr.right)
      ensures root == tmp && tmp in m && z.a <= m[tmp].pos < z.b && m[tmp].Kid(Other(o)) == old(m[tmp].Kid(Other(o)))
    {
      ghost var m0, x := m, root;
      RotFacts(m, elems, root, z, o, tmp, hdr, hdr.left, hdr.right);
      TurnHead(o, tmp);
      Relabel(Rot(m0, o, x, tmp));
    }

    method CutHead(d: Side, open: Node) returns (open': Node)
      requires Linked() && root != null && root in m && open != root
      modifies this`root, this`m, open
      ensures Linked() && m == PutKid(old(m), open, d, old(root)) && open' == old(root) && root == old(m[root].Kid(d))
      ensures open.left == (if d.L? then old(root) else old(open.left)) && open.right == (if d.R? then old(root) else old(open.right))
    {
      SetKid(open, d, root);
      open' := root;
      root := if d.L? then root.left else root.right;
    }

    /** SPLAY_LINKLEFT (`d` is L) and SPLAY_LINKRIGHT (`d` is R): `open` is the end of the opposite part. */
    method LinkHead(d: Side, hdr: Node, open: Node, ghost z: Zones) returns (open': Node)
      requires Linked() && root != null && root in m && Zoned(m, elems, root, z) && m[root].Kid(d) != null
      requires Hung(m, elems, z, hdr, hdr.left, hdr.right) && open == Open(z, d)
      modifies this`root, this`m, m.Keys, hdr
      ensures Linked() && m.Keys == old(m.Keys) && open' == old(root) && root != null && root in m
      ensures open' in m && z.a <= old(m)[open'].pos < z.b && old(elems)[old(m)[open'].pos] == open'
      ensures var z' := Cut(elems, z, d, open', old(m)[open'].pos);
        Zoned(m, elems, root, z') && Hung(m, elems, z', hdr, hdr.left, hdr.right)
    {
      ghost var m0, x, y := m, root, m[root].Kid(d);
      LinkFacts(m, elems, root, z, d, y, hdr, hdr.left, hdr.right);
      open' := CutHead(d, open);
      Relabel(Link(m0, elems, z, d, x, y));
    }

    method FillEnds(lt: Node, rt: Node)
      requires Linked() && root != null && root in m && lt != root && rt != root
      modifies this`m, lt, rt
      ensures Linked() && m == PutKid(PutKid(old(m), lt, R, old(m[root].left)), rt, L, old(m[root].right)) && root == old(root)
      ensures lt.right == old(m[root].left) && (lt != rt ==> lt.left == old(lt.left))
      ensures rt.left == old(m[root].right) && (lt != rt ==> rt.right == old(rt.right))
    {
      SetKid(lt, R, root.left);
      SetKid(rt, L, root.right);
    }

    method AssembleSteps(hdr: Node, lt: Node, rt: Node)
      requires Linked() && root != null && root in m && hdr !in m && lt != root && rt != root
      modifies this`m, m.Keys, hdr, lt, rt
      ensures Linked() && m.Keys == old(m.Keys)
      ensures var m1 := PutKid(PutKid(old(m), lt, R, old(m[root].left)), rt, L, old(m[root].right));
        var hr', hl' := if lt == hdr then old(m[root].left) else old(hdr.right), if rt == hdr then old(m[root].right) else old(hdr.left);
        m == PutKid(PutKid(m1, root, L, hr'), root, R, hl')
    {
      FillEnds(lt, rt);
      SetKid(root, L, hdr.right);
      SetKid(root, R, hdr.left);
    }

    /** SPLAY_ASSEMBLE */
    method AssembleHead(hdr: Node, lt: Node, rt: Node, ghost z: Zones)
      requires Linked() && root != null && root in m && Zoned(m, elems, root, z)
      requires Hung(m, elems, z, hdr, hdr.left, hdr.right) && lt == z.lt && rt == z.rt
      modifies this`m, m.Keys, hdr
      ensures Linked() && m.Keys == old(m.Keys) && Shape(m, elems, root)
      ensures m[root].pos == old(m[root].pos)
    {
      ghost var m0, hl, hr := m, hdr.left, hdr.right;
      AssembleFacts(m, elems, root, z, hdr, hl, hr);
      AssembleSteps(hdr, lt, rt);
      Relabel(Assemble(m0, elems, z, root, hl, hr));
    }

    /** The cut-off parts hold no key on the wrong side of `key`. */
    ghost predicate Outside(key: int, z: Zones)
      reads this
    {
      && 0 <= z.a <= z.b <= |elems|
      && (forall i :: 0 <= i < z.a ==> elems[i].key < key)
      && (forall i :: z.b <= i < |elems| ==> key < elems[i].key)
    }

    lemma FocusHere(key: int, z: Zones)
      requires root != null && root in m && Zoned(m, elems, root, z) && Sorted(elems) && Outside(key, z)
      requires root.key == key || (key < root.key && m[root].left == null) || (key > root.key && m[root].right == null)
      ensures Focus(elems, m[root].pos, key)
    {
      AtNode(m, elems, root, z, root);
    }

    lemma WholeTree(hdr: Node)
      requires Valid() && root != null && hdr !in m && hdr.left == null && hdr.right == null
      ensures var z := Zones(0, |elems|, hdr, hdr);
        root in m && Zoned(m, elems, root, z) && Hung(m, elems, z, hdr, hdr.left, hdr.right)
    {
      forall n | n in m
        ensures At(m, elems, Zones(0, |elems|, hdr, hdr), n)
      {
        AtNode(m, elems, root, Whole(elems), n);
      }
    }

    /** A splay under way, with header `hdr` and open ends `lt` and `rt`. */
    ghost predicate Splaying(key: int, hdr: Node, lt: Node, rt: Node, z: Zones)
      reads this, m.Keys, hdr
    {
      && Linked() && root != null && root in m && Zoned(m, elems, root, z) && Sorted(elems)
      && Hung(m, elems, z, hdr, hdr.left, hdr.right) && lt == z.lt && rt == z.rt && Outside(key, z)
    }

    /** Beyond the head on side `d`? */
    static predicate Beyond(d: Side, key: int, k: int) { if d.L? then key < k else key > k }

    method LinkStep(d: Side, ghost key: int, hdr: Node, lt: Node, rt: Node, ghost z: Zones) returns (lt': Node, rt': Node, ghost z': Zones)
      requires Splaying(key, hdr, lt, rt, z) && Beyond(d, key, root.key) && m[root].Kid(d) != null
      modifies this`root, this`m, m.Keys, hdr
      ensures Splaying(key, hdr, lt', rt', z') && m.Keys == old(m.Keys) && z'.b - z'.a < z.b - z.a
    {
      lt', rt' := lt, rt;
      ghost var m0 := m;
      var open := LinkHead(d, hdr, if d.L? then rt else lt, z);
      if d.L? { rt' := open; } else { lt' := open; }
      z' := Cut(elems, z, d, open, m0[open].pos);
    }

    /** Link the head to the opposite part, or stop where the path ends. */
    method LinkOrStop(d: Side, ghost key: int, hdr: Node, lt: Node, rt: Node, ghost z: Zones)
      returns (done: bool, lt': Node, rt': Node, ghost z': Zones)
      requires Splaying(key, hdr, lt, rt, z) && Beyond(d, key, root.key)
      modifies this`root, this`m, m.Keys, hdr
      ensures Splaying(key, hdr, lt', rt', z') && m.Keys == old(m.Keys)
      ensures if done then Focus(elems, m[root].pos, key) else z'.b - z'.a < z.b - z.a
    {
      lt', rt', z', done := lt, rt, z, true;
      if (if d.L? then root.left else root.right) == null { FocusHere(key, z); return; }
      lt', rt', z' := LinkStep(d, key, hdr, lt, rt, z);
      done := false;
    }

    /** One turn of the splay loop towards side `d`. */
    method Descend(d: Side, key: int, hdr: Node, lt: Node, rt: Node, ghost z: Zones)
      returns (done: bool, lt': Node, rt': Node, ghost z': Zones)
      requires Splaying(key, hdr, lt, rt, z) && Beyond(d, key, root.key)
      modifies this`root, this`m, m.Keys, hdr
      ensures Splaying(key, hdr, lt', rt', z') && m.Keys == old(m.Keys)
      ensures if done then Focus(elems, m[root].pos, key) else z'.b - z'.a < z.b - z.a
    {
      lt', rt', z', done := lt, rt, z, true;
      var tmp := if d.L? then root.left else root.right;
      if tmp == null { FocusHere(key, z); return; }
      AtNode(m, elems, root, z, root);
      if Beyond(d, key, tmp.key) {
        RotateHead(Other(d), tmp, hdr, z);
      }
      done, lt', rt', z' := LinkOrStop(d, key, hdr, lt, rt, z);
    }

    /** Bring the element with `key`, or a neighbour of where it would be, to the root. */
    method Splay(key: int)
      requires Valid() && root != null
      modifies this`root, this`m, m.Keys
      ensures Valid() && m.Keys == old(m.Keys)
      ensures root != null && root in m && Focus(elems, m[root].pos, key) && elems[m[root].pos] == root
    {
      var hdr := new Node(0);
      var lt, rt := hdr, hdr;
      ghost var z := Zones(0, |elems|, hdr, hdr);
      WholeTree(hdr);
      while key != root.key
        invariant fresh(hdr) && Splaying(key, hdr, lt, rt, z) && m.Keys == old(m.Keys)
        decreases z.b - z.a
      {
        var done;
        done, lt, rt, z := Descend(if key < root.key then L else R, key, hdr, lt, rt, z);
        if done { break; }
      }
      if key == root.key { FocusHere(key, z); }
      AssembleHead(hdr, lt, rt, z);
      AtNode(m, elems, root, Whole(elems), root);
    }

    /** One turn of the loop of SPLAY_MINMAX: two levels down the outer path, or the end is reached. */
    method DescendOut(d: Side, ghost key: int, hdr: Node, lt: Node, rt: Node, ghost z: Zones)
      returns (done: bool, lt': Node, rt': Node, ghost z': Zones)
      requires Splaying(key, hdr, lt, rt, z) && forall n :: n in m ==> Beyond(d, key, n.key)
      modifies this`root, this`m, m.Keys, hdr
      ensures Splaying(key, hdr, lt', rt', z') && m.Keys == old(m.Keys)
      ensures if done then Focus(elems, m[root].pos, key) else z'.b - z'.a < z.b - z.a
    {
      lt', rt', z', done := lt, rt, z, true;
      var tmp := if d.L? then root.left else root.right;
      if tmp == null { FocusHere(key, z); return; }
      AtNode(m, elems, root, z, root);
      RotateHead(Other(d), tmp, hdr, z);
      done, lt', rt', z' := LinkOrStop(d, key, hdr, lt, rt, z);
    }

    /** A key beyond all those in the tree. */
    lemma OuterKey(comp: int) returns (key: int)
      requires Valid() && root != null && comp != 0
      ensures elems != [] && root in m && forall n :: n in m ==> Beyond(if comp < 0 then L else R, key, n.key)
    {
      AtNode(m, elems, root, Whole(elems), root);
      key := if comp < 0 then elems[0].key - 1 else elems[|elems| - 1].key + 1;
      forall n | n in m
        ensures Beyond(if comp < 0 then L else R, key, n.key)
      {
        AtNode(m, elems, root, Whole(elems), n);
      }
    }

    method SplayOut(comp: int, ghost key: int, hdr: Node) returns (lt: Node, rt: Node, ghost z: Zones)
      requires Valid() && root != null && hdr !in m && hdr.left == null && hdr.right == null && comp != 0
      requires forall n :: n in m ==> Beyond(if comp < 0 then L else R, key, n.key)
      modifies this`root, this`m, m.Keys, hdr
      ensures Splaying(key, hdr, lt, rt, z) && m.Keys == old(m.Keys) && Focus(elems, m[root].pos, key)
    {
      lt, rt, z := hdr, hdr, Zones(0, |elems|, hdr, hdr);
      WholeTree(hdr);
      while true
        invariant Splaying(key, hdr, lt, rt, z) && m.Keys == old(m.Keys)
        decreases z.b - z.a
      {
        var done;
        done, lt, rt, z := DescendOut(if comp < 0 then L else R, key, hdr, lt, rt, z);
        if done { break; }
      }
    }

    /** SPLAY_MINMAX for a negative or positive `comp`: the least or the greatest element comes to the root. */
    method SplayMinMax(comp: int)
      requires Valid() && root != null && comp != 0
      modifies this`root, this`m, m.Keys
      ensures Valid() && m.Keys == old(m.Keys) && elems != []
      ensures root == if comp < 0 then elems[0] else elems[|elems| - 1]
    {
      ghost var key := OuterKey(comp);
      var hdr := new Node(0);
      var lt, rt;
      ghost var z;
      lt, rt, z := SplayOut(comp, key, hdr);
      AssembleHead(hdr, lt, rt, z);
      Outermost(comp, key);
    }

    lemma Outermost(comp: int, key: int)
      requires Valid() && root != null && root in m && comp != 0 && elems != [] && Focus(elems, m[root].pos, key)
      requires forall n :: n in m ==> Beyond(if comp < 0 then L else R, key, n.key)
      ensures root == if comp < 0 then elems[0] else elems[|elems| - 1]
    {
      AtNode(m, elems, root, Whole(elems), root);
      assert elems[0] in m && elems[|elems| - 1] in m;
    }

    /** SPLAY_MIN and SPLAY_MAX */
    method MinMax(val: int) returns (r: Node?)
      requires Valid() && val != 0
      modifies this`root, this`m, m.Keys
      ensures Valid() && m.Keys == old(m.Keys)
      ensures r == if elems == [] then null else if val < 0 then elems[0] else elems[|elems| - 1]
    {
      if root == null { return null; }
      SplayMinMax(val);
      return root;
    }

    method Find(key: int) returns (r: Node?)
      requires Valid()
      modifies this`root, this`m, m.Keys
      ensures Valid() && m.Keys == old(m.Keys)
      ensures r != null ==> r in m && r.key == key && root == r
      ensures r == null ==> forall n :: n in m ==> n.key != key
    {
      if root == null {
        NoNodes();
        return null;
      }
      Splay(key);
      if key == root.key { return root; }
      NotHere(key);
      return null;
    }

    lemma Holds(n: Node)
      requires Valid() && n in m
      ensures n.key in KeySet(elems)
    {
      AtNode(m, elems, root, Whole(elems), n);
    }

    lemma Lacks(key: int)
      requires Valid() && forall n :: n in m ==> n.key != key
      ensures key !in KeySet(elems)
    {
    }

    lemma NoNodes()
      requires Valid() && root == null
      ensures elems == [] && m == map[]
    {
      if n: Node :| n in m { AtNode(m, elems, root, Whole(elems), n); }
    }

    /** The element after `elm`, which must be in the tree. */
    method Next(elm: Node) returns (r: Node?)
      requires Valid() && elm in m
      modifies this`root, this`m, m.Keys
      ensures Valid() && m.Keys == old(m.Keys) && elm in m && 0 <= m[elm].pos < |elems| && elems[m[elm].pos] == elm
      ensures r == if m[elm].pos + 1 < |elems| then elems[m[elm].pos + 1] else null
    {
      AtNode(m, elems, root, Whole(elems), elm);
      Splay(elm.key);
      AtNode(m, elems, root, Whole(elems), elm);
      assert root == elm;
      if elm.right == null { return null; }
      var e := elm.right;
      AtNode(m, elems, root, Whole(elems), e);
      while e.left != null
        invariant e in m && m[e].lo == m[elm].pos + 1
        decreases m[e].hi - m[e].lo
        modifies {}
      {
        AtNode(m, elems, root, Whole(elems), e);
        e := e.left;
        AtNode(m, elems, root, Whole(elems), e);
      }
      AtNode(m, elems, root, Whole(elems), e);
      return e;
    }

    lemma SortedInsert(s: seq<Node>, e: Node, k: int)
      requires Sorted(s) && 0 <= k <= |s|
      requires (forall i :: 0 <= i < k ==> s[i].key < e.key) && (forall i :: k <= i < |s| ==> e.key < s[i].key)
      ensures Sorted(s[..k] + [e] + s[k..])
    {
    }

    method CrownSteps(elm: Node, d: Side)
      requires Linked() && root != null && root in m && elm !in m
      modifies this`root, this`m, root, elm
      ensures Linked() && root == elm
      ensures var x, c := old(root), old(m[root]);
        m == PutKid(old(m)[elm := if d.L? then Cell(c.left, x, null, 0, 0, 0) else Cell(x, c.right, null, 0, 0, 0)], x, d, null)
    {
      elm.left := if d.L? then root.left else root;
      elm.right := if d.L? then root else root.right;
      Admit(elm);
      SetKid(root, d, null);
      root := elm;
    }

    /** A node from outside the tree. */
    ghost method Admit(elm: Node)
      requires Linked() && elm !in m
      modifies this`m
      ensures Linked() && m == old(m)[elm := Cell(elm.left, elm.right, null, 0, 0, 0)]
    {
      m := m[elm := Cell(elm.left, elm.right, null, 0, 0, 0)];
    }

    /** Put `elm` above the root, which keeps its subtree on the far side from `d`. */
    method CrownRoot(elm: Node, d: Side)
      requires Linked() && Shape(m, elems, root) && root != null && root in m && elm !in m
      modifies this, m.Keys, elm
      ensures Linked() && root == elm && m == Crown(old(m), old(elems), old(root), d, elm) && Shape(m, elems, root)
      ensures m.Keys == old(m.Keys) + {elm}
      ensures var k := if d.L? then old(m[root].pos) else old(m[root].pos) + 1;
        0 <= k <= |old(elems)| && elems == old(elems)[..k] + [elm] + old(elems)[k..]
    {
      ghost var m0, s0, x := m, elems, root;
      ghost var k := if d.L? then m[root].pos else m[root].pos + 1;
      CrownShape(m, elems, root, d, elm);
      CrownLinks(m, elems, root, d, elm);
      CrownSteps(elm, d);
      Reseat(Crown(m0, s0, x, d, elm), s0[..k] + [elm] + s0[k..]);
    }

    /** Equal keys are one element. */
    lemma OneKey(a: Node, b: Node)
      requires Valid() && a in m && b in m && a.key == b.key
      ensures a == b
    {
      AtNode(m, elems, root, Whole(elems), a);
      AtNode(m, elems, root, Whole(elems), b);
    }

    method InsertFirst(elm: Node)
      requires Valid() && root == null
      modifies this, m.Keys, elm
      ensures Valid() && elems == [elm] && root == elm && m.Keys == {elm} && old(elems) == [] && old(m) == map[]
    {
      NoNodes();
      elm.left, elm.right := null, null;
      root := elm;
      m := map[elm := Cell(null, null, null, 0, 0, 1)];
      elems := [elm];
      assert At(m, elems, Whole(elems), elm);
    }

    /** The splayed head is next to where `elm` belongs, on side `d` of it. */
    method InsertAbove(elm: Node, d: Side)
      requires Valid() && root != null && root in m && elm !in m && Focus(elems, m[root].pos, elm.key)
      requires elems[m[root].pos] == root && Beyond(d, elm.key, root.key)
      modifies this, m.Keys, elm
      ensures Valid() && m.Keys == old(m.Keys) + {elm} && root == elm
      ensures exists k :: 0 <= k <= |old(elems)| && elems == old(elems)[..k] + [elm] + old(elems)[k..]
    {
      ghost var s0, k := elems, if d.L? then m[root].pos else m[root].pos + 1;
      SortedInsert(s0, elm, k);
      CrownRoot(elm, d);
      assert elems == s0[..k] + [elm] + s0[k..];
    }

    method Insert(elm: Node) returns (r: Node?)
      requires Valid()
      modifies this, m.Keys, elm
      ensures Valid()
      ensures elm in old(m) ==> r == elm
      ensures r != null ==> r in m && r.key == elm.key && m.Keys == old(m.Keys) && elems == old(elems)
      ensures r == null ==> m.Keys == old(m.Keys) + {elm} && root == elm && forall i :: 0 <= i < |old(elems)| ==> old(elems)[i].key != elm.key
      ensures r == null ==> exists k :: 0 <= k <= |old(elems)| && elems == old(elems)[..k] + [elm] + old(elems)[k..]
    {
      if root == null {
        InsertFirst(elm);
        assert elems == old(elems)[..0] + [elm] + old(elems)[0..];
        return null;
      }
      Splay(elm.key);
      if elm.key < root.key {
        NotHere(elm.key);
        InsertAbove(elm, L);
      } else if elm.key > root.key {
        NotHere(elm.key);
        InsertAbove(elm, R);
      } else {
        if elm in m { OneKey(root, elm); }
        return root;
      }
      return null;
    }

    /** The head has no left subtree: its right one is what remains. */
    method DropHead()
      requires Valid() && root != null && root in m && m[root].left == null
      modifies this`root, this`m, this`elems
      ensures Linked() && Shape(m, elems, root) && m.Keys == old(m.Keys) - {old(root)}
      ensures |old(elems)| > 0 && old(elems)[0] == old(root) && elems == old(elems)[1..] && old(m[root].pos) == 0
    {
      ghost var m0, s0, x := m, elems, root;
      AtNode(m, elems, root, Whole(elems), root);
      DropShape(m, elems, root);
      DropKeys(m, elems, root);
      root := root.right;
      Reseat(Joined(map[], m0, x, null, |s0| - 1), s0[1..]);
    }

    /** Cut the tree down to the head's left subtree and splay that: its maximum comes up. */
    method SplayLeft(key: int)
      requires Valid() && root != null && root in m && m[root].left != null && root.key == key
      modifies this, m.Keys - {root}
      ensures Linked() && m.Keys == Below(old(m), old(root)).Keys && 0 <= old(m[root].pos) < |old(elems)|
      ensures old(elems)[old(m[root].pos)] == old(root)
      ensures elems == old(elems)[..old(m[root].pos)] && Shape(m, elems, root)
      ensures root != null && root in m && m[root].pos == old(m[root].pos) - 1
      ensures forall q {:trigger old(m)[q]} :: q in old(m) && q !in m ==> q.left == old(m)[q].left && q.right == old(m)[q].right
    {
      ghost var s0, p := elems, m[root].pos;
      AtNode(m, elems, root, Whole(elems), root);
      BelowShape(m, elems, root);
      m := Below(m, root);
      elems := elems[..p];
      root := root.left;
      Splay(key);
      assert s0[p - 1] == elems[p - 1] && s0[p].key == key;
    }

    ghost method Readmit(m0: Cells)
      requires Linked() && forall q {:trigger m0[q]} :: q in m0 && q !in m ==> q.left == m0[q].left && q.right == m0[q].right
      modifies this`m
      ensures Linked() && m == m0 + old(m)
    {
      m := m0 + m;
    }

    method HangRest(ghost m0: Cells, tmp: Node?)
      requires Linked() && root != null && root in m
      requires forall q {:trigger m0[q]} :: q in m0 && q !in m ==> q.left == m0[q].left && q.right == m0[q].right
      modifies this`m, root
      ensures Linked() && m == PutKid(m0 + old(m), root, R, tmp)
    {
      Readmit(m0);
      SetKid(root, R, tmp);
    }

    /** The splayed left part takes the right one, `tmp`, of the old tree `m0` with head `x`. */
    method JoinRest(ghost m0: Cells, ghost s0: seq<Node>, ghost x: Node, tmp: Node?)
      requires Linked() && Shape(m, elems, root) && root != null && root in m && Shape(m0, s0, x) && x in m0
      requires 0 <= m0[x].pos < |s0| && elems == s0[..m0[x].pos] && m.Keys == Below(m0, x).Keys && m[root].pos == m0[x].pos - 1
      requires tmp == m0[x].right
      requires forall q {:trigger m0[q]} :: q in m0 && q !in m ==> q.left == m0[q].left && q.right == m0[q].right
      modifies this`m, this`elems, root
      ensures Linked() && Shape(m, elems, root) && m.Keys == m0.Keys - {x}
      ensures elems == s0[..m0[x].pos] + s0[m0[x].pos + 1..]
    {
      ghost var l := m;
      JoinedTree(l, elems, m0, s0, x, root);
      HangRest(m0, tmp);
      Reseat(Joined(l, m0, x, root, |s0| - 1), s0[..m0[x].pos] + s0[m0[x].pos + 1..]);
    }

    /** The head has a left subtree: its maximum, splayed up, takes the right one. */
    method JoinHead(key: int)
      requires Valid() && root != null && root in m && m[root].left != null && root.key == key
      modifies this, m.Keys
      ensures Linked() && Shape(m, elems, root) && m.Keys == old(m.Keys) - {old(root)}
      ensures var k := old(m[root].pos); 0 <= k < |old(elems)| && old(elems)[k] == old(root) && elems == old(elems)[..k] + old(elems)[k + 1..]
    {
      ghost var m0, s0, x := m, elems, root;
      var tmp := root.right;
      SplayLeft(key);
      JoinRest(m0, s0, x, tmp);
    }

    /** Removes the element that compares equal to `elm`; as in the source the result is `elm` itself. */
    method Remove(elm: Node) returns (r: Node?)
      requires Valid()
      modifies this, m.Keys
      ensures Valid()
      ensures r == null ==> m.Keys == old(m.Keys) && elems == old(elems) && forall n :: n in m ==> n.key != elm.key
      ensures r != null ==> r == elm && exists k :: Without(old(elems), old(m.Keys), k, elm.key, elems, m.Keys)
    {
      if root == null {
        NoNodes();
        return null;
      }
      Splay(elm.key);
      if elm.key != root.key {
        NotHere(elm.key);
        return null;
      }
      ghost var k, s0 := m[root].pos, elems;
      AtNode(m, elems, root, Whole(elems), root);
      if root.left == null {
        DropHead();
        assert elems == s0[..0] + s0[0 + 1..];
      } else {
        JoinHead(elm.key);
      }
      SortedRemove(s0, k);
      assert Without(old(elems), old(m.Keys), k, elm.key, elems, m.Keys);
      return elm;
    }

    /** The elements `t`, `kt` are those of `s`, `ks` without the one at index `k`, which has `key`. */
    static ghost predicate Without(s: seq<Node>, ks: set<Node>, k: int, key: int, t: seq<Node>, kt: set<Node>)
    {
      0 <= k < |s| && s[k].key == key && kt == ks - {s[k]} && t == s[..k] + s[k + 1..]
    }

    lemma NotHere(key: int)
      requires Valid() && root != null && root in m && Focus(elems, m[root].pos, key) && elems[m[root].pos] == root && root.key != key
      ensures forall n :: n in m ==> n.key != key
    {
      forall n | n in m
        ensures n.key != key
      {
        AtNode(m, elems, root, Whole(elems), n);
      }
    }

    lemma SortedRemove(s: seq<Node>, k: int)
      requires Sorted(s) && 0 <= k < |s|
      ensures Sorted(s[..k] + s[k + 1..])
    {
    }

    /** The in-order walk along the real pointers. */
    ghost function InOrder(n: Node?): (r: seq<Node>)
      requires Linked() && Shape(m, elems, root) && (n != null ==> n in m)
      reads this, m.Keys
      ensures r == if n == null then [] else (AtNode(m, elems, root, Whole(elems), n); elems[m[n].lo..m[n].hi])
      decreases if n == null then 0 else m[n].hi - m[n].lo
    {
      if n == null then [] else
        AtNode(m, elems, root, Whole(elems), n);
        SliceAround(elems, m[n].lo, m[n].pos, m[n].hi);
        InOrder(n.left) + [n] + InOrder(n.right)
    }
  }

  // ---------- Any run of operations is a finite set ----------

  datatype Op = Put(key: int) | Del(key: int) | Get(key: int) | Least

  ghost function KeySet(s: seq<Node>): set<int>
  {
    set i | 0 <= i < |s| :: s[i].key
  }

  ghost function After(ops: seq<Op>): set<int>
  {
    if ops == [] then {} else
      var s, op := After(ops[..|ops| - 1]), ops[|ops| - 1];
      match op
      case Put(k) => s + {k}
      case Del(k) => s - {k}
      case Get(_) => s
      case Least => s
  }

  lemma KeySetInsert(s: seq<Node>, e: Node, k: int)
    requires 0 <= k <= |s|
    ensures KeySet(s[..k] + [e] + s[k..]) == KeySet(s) + {e.key}
  {
    var t := s[..k] + [e] + s[k..];
    forall x | x in KeySet(s) + {e.key}
      ensures x in KeySet(t)
    {
      if x == e.key { assert t[k].key == x; } else {
        var i :| 0 <= i < |s| && s[i].key == x;
        assert t[if i < k then i else i + 1].key == x;
      }
    }
  }

  lemma KeySetRemove(s: seq<Node>, k: int)
    requires 0 <= k < |s| && Sorted(s)
    ensures KeySet(s[..k] + s[k + 1..]) == KeySet(s) - {s[k].key}
  {
    var t := s[..k] + s[k + 1..];
    forall x | x in KeySet(s) - {s[k].key}
      ensures x in KeySet(t)
    {
      var i :| 0 <= i < |s| && s[i].key == x;
      assert t[if i < k then i else i - 1].key == x;
    }
  }

  method Step(t: Tree, op: Op) returns (found: Node?)
    requires t.Valid()
    modifies t, t.m.Keys
    ensures t.Valid() && fresh(t.m.Keys - old(t.m.Keys))
    ensures op.Put? ==> KeySet(t.elems) == old(KeySet(t.elems)) + {op.key}
    ensures op.Del? ==> KeySet(t.elems) == old(KeySet(t.elems)) - {op.key} && (found != null <==> op.key in old(KeySet(t.elems)))
    ensures op.Get? ==> t.elems == old(t.elems) && (found != null <==> op.key in KeySet(t.elems)) && (found != null ==> found.key == op.key)
    ensures op.Least? ==> t.elems == old(t.elems) && found == if t.elems == [] then null else t.elems[0]
  {
    ghost var s := t.elems;
    match op {
      case Put(key) =>
        var e := new Node(key);
        found := t.Insert(e);
        if found == null {
          ghost var k :| 0 <= k <= |s| && t.elems == s[..k] + [e] + s[k..];
          KeySetInsert(s, e, k);
        } else {
          t.Holds(found);
        }
      case Del(key) =>
        var e := new Node(key);
        ghost var m0 := t.m.Keys;
        found := t.Remove(e);
        if found != null {
          ghost var k :| Tree.Without(s, m0, k, key, t.elems, t.m.Keys);
          KeySetRemove(s, k);
        } else {
          t.Lacks(key);
        }
      case Get(key) =>
        found := t.Find(key);
        if found != null { t.Holds(found); } else { t.Lacks(key); }
      case Least =>
        found := t.MinMax(-1);
    }
  }

  /** Every splay tree reached from SPLAY_INIT holds exactly the keys a finite set would. */
  method Run(ops: seq<Op>) returns (t: Tree)
    ensures t.Valid() && KeySet(t.elems) == After(ops)
  {
    t := new Tree();
    for i := 0 to |ops|
      invariant t.Valid() && fresh(t) && fresh(t.m.Keys) && KeySet(t.elems) == After(ops[..i])
    {
      assert ops[..i + 1][..i] == ops[..i];
      var _ := Step(t, ops[i]);
    }
    assert ops[..|ops|] == ops;
  }
}
