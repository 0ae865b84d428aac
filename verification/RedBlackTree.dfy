/** The red-black tree operations of tree.h, on nodes with parent pointers. */
module RedBlackTree {
  import opened Trees
  import opened RbCells

  ghost predicate Sorted(s: seq<Node>)
  {
    forall i, j :: 0 <= i < j < |s| ==> s[i].key < s[j].key
  }

  lemma SortedInsert(s: seq<Node>, e: Node, k: int)
    requires Sorted(s) && 0 <= k <= |s|
    requires (forall i :: 0 <= i < k ==> s[i].key < e.key) && (forall i :: k <= i < |s| ==> e.key < s[i].key)
    ensures Sorted(s[..k] + [e] + s[k..])
  {
  }

  lemma SortedRemove(s: seq<Node>, k: int)
    requires Sorted(s) && 0 <= k < |s|
    ensures Sorted(s[..k] + s[k + 1..])
  {
  }

  ghost function KeySet(s: seq<Node>): set<int>
  {
    set i | 0 <= i < |s| :: s[i].key
  }

  ghost function Pow2(n: nat): nat { if n == 0 then 1 else 2 * Pow2(n - 1) }

  lemma {:induction false} Pow2Mono(a: nat, b: nat)
    requires a <= b
    ensures Pow2(a) <= Pow2(b)
  {
    if a < b { Pow2Mono(a, b - 1); }
  }

  lemma {:induction false} Pow2Sum(a: nat, b: nat)
    ensures Pow2(a + b) == Pow2(a) * Pow2(b)
  {
    if a > 0 {
      Pow2Sum(a - 1, b);
      assert Pow2(a + b) == 2 * Pow2(a - 1 + b);
    }
  }

  lemma SquareMono(x: nat, y: nat)
    requires x <= y
    ensures x * x <= y * y
  {
  }

  class Tree {
    var root: Node?
    /** The elements in order, and the fields of each with its position, range and black height. */
    ghost var elems: seq<Node>
    ghost var m: Cells

    ghost predicate Linked()
      reads this, m.Keys
    {
      forall n {:trigger m[n]} :: n in m ==>
        n.left == m[n].left && n.right == m[n].right && n.parent == m[n].parent && n.color == m[n].color
    }

    ghost predicate Tied()
      reads this, m.Keys
    {
      Linked() && Shape(m, elems, root)
    }

    ghost predicate Valid()
      reads this, m.Keys
    {
      Tied() && Sorted(elems) && Balanced(m, root)
    }

    constructor ()
      ensures Valid() && elems == [] && root == null && m == map[]
    {
      root := null;
      elems := [];
      m := map[];
    }

    method SetKid(n: Node, d: Side, k: Node?)
      requires Linked() && n in m
      modifies this`m, n`left, n`right
      ensures Linked() && m == PutKid(old(m), n, d, k) && root == old(root)
    {
      if d.L? { n.left := k; } else { n.right := k; }
      m := PutKid(m, n, d, k);
    }

    method SetParent(n: Node, p: Node?)
      requires Linked() && n in m
      modifies this`m, n`parent
      ensures Linked() && m == PutParent(old(m), n, p) && root == old(root)
    {
      n.parent := p;
      m := PutParent(m, n, p);
    }

    /** The links to a node from above: its parent's, or the root. */
    method PutBelow(p: Node?, d: Side, k: Node?)
      requires Linked() && (p != null ==> p in m)
      modifies this`root, this`m, m.Keys
      ensures Linked() && m == (if p == null then old(m) else PutKid(old(m), p, d, k))
      ensures root == (if p == null then k else old(root)) && elems == old(elems)
    {
      if p != null { SetKid(p, d, k); } else { root := k; }
    }

    method Adopt(k: Node?, p: Node?)
      requires Linked() && (k != null ==> k in m)
      modifies this`m, m.Keys
      ensures Linked() && m == PutParent(old(m), k, p) && root == old(root) && elems == old(elems)
    {
      if k != null { SetParent(k, p); }
    }

    /** A node from outside the tree, with its four fields. */
    method Admit(e: Node, left: Node?, right: Node?, parent: Node?, color: Color, ghost c: Cell)
      requires Linked() && e !in m && c.left == left && c.right == right && c.parent == parent && c.color == color
      modifies this`m, e
      ensures Linked() && m == old(m)[e := c]
    {
      e.left, e.right, e.parent, e.color := left, right, parent, color;
      m := m[e := c];
    }

    /** The child link and the link back. */
    method Hang(n: Node, d: Side, k: Node?)
      requires Linked() && n in m && (k != null ==> k in m)
      modifies this`m, m.Keys
      ensures Linked() && m == PutParent(PutKid(old(m), n, d, k), k, n) && root == old(root)
    {
      SetKid(n, d, k);
      Adopt(k, n);
    }

    method Relink(d: Side, x: Node, y: Node, c: Node?, p: Node?)
      requires Linked() && x in m && y in m && y == m[x].Kid(Other(d)) && c == m[y].Kid(d) && p == m[x].parent
      requires (c != null ==> c in m) && (p != null ==> p in m)
      modifies this`root, this`m, m.Keys
      ensures Linked() && m == RotSteps(old(m), d, x, y) && root == if p == null then y else old(root)
    {
      var up := if p != null && x == p.left then L else R;
      Hang(x, Other(d), c);
      SetParent(y, p);
      PutBelow(p, up, y);
      Hang(y, d, x);
    }

    method Rotate(d: Side, x: Node) returns (y: Node)
      requires Tied() && x in m && m[x].Kid(Other(d)) != null
      modifies this`root, this`m, m.Keys
      ensures Tied() && y == old(m[x].Kid(Other(d))) && y in old(m)
      ensures m == Rot(old(m), d, x, y) && root == if old(root) == x then y else old(root)
    {
      ghost var m0, r0 := m, root;
      RotShape(m, elems, root, d, x, m[x].Kid(Other(d)));
      assert ShapeAt(m, elems, root, x);
      y := if d.L? then x.right else x.left;
      assert ShapeAt(m, elems, root, y);
      assert root != null ==> ShapeAt(m, elems, root, root);
      Relink(d, x, y, if d.L? then y.left else y.right, x.parent);
      RotLinks(m0, elems, r0, d, x, y);
      Relabel(Rot(m0, d, x, y));
    }

    ghost method Relabel(m': Cells)
      requires Linked() && SameLinks(m, m') && Shape(m', elems, root)
      modifies this`m
      ensures Tied() && m == m'
    {
      m := m';
    }

    /** The links stand; the sequence and the places in it follow. */
    ghost method Reseat(m': Cells, s': seq<Node>)
      requires Linked() && SameLinks(m, m') && Shape(m', s', root)
      modifies this`m, this`elems
      ensures Tied() && m == m' && elems == s' && root == old(root)
    {
      m, elems := m', s';
    }

    method SetColor(n: Node, c: Color, ghost bh: int)
      requires Linked() && n in m
      modifies this`m, n`color
      ensures Linked() && m == Paint(old(m), n, c, bh)
    {
      n.color := c;
      m := Paint(m, n, c, bh);
    }

    method InsertUncle(parent: Node, uncle: Node, gparent: Node)
      requires Tied() && parent in m && uncle in m && gparent in m && uncle != parent && gparent != uncle && gparent != parent
      modifies this`m, m.Keys
      ensures Tied() && m == UncleRed(old(m), parent, uncle, gparent)
    {
      UncleRedShape(m, elems, root, parent, uncle, gparent);
      ghost var hu, hp, hg := m[uncle].bh + 1, m[parent].bh + 1, m[gparent].bh;
      SetColor(uncle, Black, hu);
      SetColor(parent, Black, hp);
      SetColor(gparent, Red, hg);
    }

    /** Recolour two linked nodes, then turn the upper one down on side `d`. */
    method PaintTurn(d: Side, x: Node, cx: Color, ghost hx: int, y: Node, cy: Color, ghost hy: int)
      requires Tied() && x in m && m[x].Kid(Other(d)) == y && y in m
      modifies this`m, this`root, m.Keys
      ensures Tied() && m == Rot(Paint(Paint(old(m), y, cy, hy), x, cx, hx), d, x, y)
      ensures root == if old(root) == x then y else old(root)
    {
      PaintShape(m, elems, root, y, cy, hy);
      SetColor(y, cy, hy);
      PaintShape(m, elems, root, x, cx, hx);
      SetColor(x, cx, hx);
      var _ := Rotate(d, x);
    }

    ghost predicate Suspect(e: Node)
      reads this, m.Keys
    {
      Tied() && Suspected(m, root, e)
    }

    /** How far the fix-up of an insertion can still climb. */
    ghost function Rise(e: Node): int
      requires e in m
      reads this, m.Keys
    {
      if IsRed(m, m[e].parent) then 1 + |elems| - (m[e].hi - m[e].lo) else 0
    }

    method OuterTurnStep(d: Side, elm: Node, parent: Node, gparent: Node)
      requires Suspect(elm) && parent in m && gparent in m && m[gparent].Kid(d) == parent && m[parent].Kid(d) == elm
      requires IsRed(m, parent) && !IsRed(m, gparent) && !IsRed(m, m[gparent].Kid(Other(d)))
      modifies this`m, this`root, m.Keys
      ensures m == OuterTurn(old(m), d, parent, gparent) && m.Keys == old(m.Keys)
      ensures Suspect(elm) && m[elm].parent == parent && !IsRed(m, parent)
    {
      OuterSettled(m, elems, root, d, elm, parent, gparent);
      PaintTurn(Other(d), gparent, Red, m[gparent].bh - 1, parent, Black, m[parent].bh + 1);
    }

    method InnerTurnStep(d: Side, elm: Node, parent: Node)
      requires Suspect(elm) && parent in m && m[parent].Kid(Other(d)) == elm
      requires IsRed(m, parent) && !IsRed(m, m[parent].parent)
      modifies this`m, this`root, m.Keys
      ensures Suspect(parent) && m == Rot(old(m), d, parent, elm) && m.Keys == old(m.Keys) && root == old(root)
    {
      InnerSuspected(m, elems, root, d, elm, parent);
      var _ := Rotate(d, parent);
    }

    method UncleStep(d: Side, elm: Node, parent: Node, uncle: Node, gparent: Node)
      requires Suspect(elm) && parent in m && gparent in m && uncle in m
      requires m[elm].parent == parent && m[parent].parent == gparent && m[gparent].Kid(d) == parent && m[gparent].Kid(Other(d)) == uncle
      requires IsRed(m, parent) && !IsRed(m, gparent) && IsRed(m, uncle)
      modifies this`m, m.Keys
      ensures Suspect(gparent) && m.Keys == old(m.Keys) && root == old(root)
      ensures 0 <= Rise(gparent) < old(Rise(elm))
    {
      UncleSuspected(m, elems, root, d, elm, parent, uncle, gparent);
      InsertUncle(parent, uncle, gparent);
    }

    method TurnStep(d: Side, elm: Node, parent: Node, gparent: Node) returns (elm': Node)
      requires Suspect(elm) && parent in m && gparent in m
      requires m[elm].parent == parent && m[parent].parent == gparent && m[gparent].Kid(d) == parent
      requires IsRed(m, parent) && !IsRed(m, gparent) && !IsRed(m, m[gparent].Kid(Other(d)))
      modifies this`m, this`root, m.Keys
      ensures Suspect(elm') && m.Keys == old(m.Keys) && Rise(elm') == 0
    {
      AtNode(m, elems, root, elm);
      AtNode(m, elems, root, gparent);
      elm' := elm;
      var p := parent;
      if (if d.L? then parent.right else parent.left) == elm {
        InnerSuspected(m, elems, root, d, elm, parent);
        InnerTurnStep(d, elm, parent);
        elm', p := parent, elm;
      }
      OuterTurnStep(d, elm', p, gparent);
    }

    method InsertColor(e: Node)
      requires Suspect(e)
      modifies this`m, this`root, m.Keys
      ensures Tied() && m.Keys == old(m.Keys) && Balanced(m, root)
    {
      var elm: Node := e;
      while elm.parent != null && elm.parent.color == Red
        invariant Suspect(elm) && m.Keys == old(m.Keys)
        decreases Rise(elm)
      {
        var parent := elm.parent;
        assert ShapeAt(m, elems, root, elm);
        assert ShapeAt(m, elems, root, parent);
        var gparent := parent.parent;
        assert ShapeAt(m, elems, root, gparent);
        assert ColorAt(m, gparent, elm, null, L);
        var d := if parent == gparent.left then L else R;
        var tmp := if d.L? then gparent.right else gparent.left;
        if tmp != null && tmp.color == Red {
          UncleStep(d, elm, parent, tmp, gparent);
          elm := gparent;
        } else {
          elm := TurnStep(d, elm, parent, gparent);
        }
        assert ShapeAt(m, elems, root, elm);
      }
      InsertPaint(elm);
    }

    method InsertPaint(elm: Node)
      requires Suspect(elm) && !IsRed(m, m[elm].parent)
      modifies this`m, m.Keys
      ensures Tied() && m.Keys == old(m.Keys) && root == old(root) && Balanced(m, root)
    {
      assert ShapeAt(m, elems, root, elm);
      InsertDone(m, elems, root, elm);
      ghost var h := if IsRed(m, root) then m[root].bh + 1 else m[root].bh;
      PaintShape(m, elems, root, root, Black, h);
      SetColor(root, Black, h);
    }

    method LinkLeaf(e: Node, p: Node?, d: Side)
      requires Tied() && e !in m && (if p == null then root == null && elems == [] else p in m && m[p].Kid(d) == null)
      modifies this, m.Keys, e
      ensures var k := old(GrowIndex(m, p, d)); 0 <= k <= |old(elems)| && elems == old(elems)[..k] + [e] + old(elems)[k..]
      ensures m == Grow(old(m), e, p, d, old(GrowIndex(m, p, d))) && Tied() && root == if p == null then e else old(root)
    {
      ghost var m0, s0, r0, k := m, elems, root, GrowIndex(m, p, d);
      GrowShape(m0, s0, r0, e, p, d);
      GrowLinks(m0, s0, r0, e, p, d, k);
      Admit(e, null, null, p, Red, Cell(null, null, p, Red, k, k, k + 1, 0));
      PutBelow(p, d, e);
      Reseat(Grow(m0, e, p, d, k), s0[..k] + [e] + s0[k..]);
    }

    ghost predicate Between(key: int, lo: int, hi: int)
      reads this
    {
      && 0 <= lo <= hi <= |elems|
      && (forall i :: 0 <= i < lo ==> elems[i].key < key)
      && (forall i :: hi <= i < |elems| ==> key < elems[i].key)
    }

    ghost predicate Covers(tmp: Node?, lo: int, hi: int)
      reads this
    {
      if tmp == null then lo == hi else tmp in m && m[tmp].lo == lo && m[tmp].hi == hi
    }

    /** One step of every descent: which half of `tmp`'s range can still hold `key`. */
    lemma Narrow(key: int, tmp: Node)
      requires Valid() && tmp in m && Between(key, m[tmp].lo, m[tmp].hi)
      ensures tmp.left == m[tmp].left && tmp.right == m[tmp].right
      ensures 0 <= m[tmp].lo <= m[tmp].pos < m[tmp].hi <= |elems| && elems[m[tmp].pos] == tmp
      ensures key < tmp.key ==> Between(key, m[tmp].lo, m[tmp].pos) && Covers(tmp.left, m[tmp].lo, m[tmp].pos)
      ensures key > tmp.key ==> Between(key, m[tmp].pos + 1, m[tmp].hi) && Covers(tmp.right, m[tmp].pos + 1, m[tmp].hi)
    {
      assert ShapeAt(m, elems, root, tmp);
    }

    method Attach(elm: Node, parent: Node?, d: Side)
      requires Valid() && elm !in m && (if parent == null then root == null && elems == [] else parent in m && m[parent].Kid(d) == null)
      requires var k := GrowIndex(m, parent, d); Between(elm.key, k, k)
      modifies this, m.Keys, elm
      ensures Valid() && m.Keys == old(m.Keys) + {elm}
      ensures var k := old(GrowIndex(m, parent, d)); 0 <= k <= |old(elems)| && elems == old(elems)[..k] + [elm] + old(elems)[k..]
    {
      ghost var k := GrowIndex(m, parent, d);
      GrowColors(m, elems, root, elm, parent, d, k);
      SortedInsert(elems, elm, k);
      assert root != null ==> ShapeAt(m, elems, root, root);
      LinkLeaf(elm, parent, d);
      InsertColor(elm);
    }

    lemma Absent(key: int, k: int)
      requires Valid() && Between(key, k, k)
      ensures forall n :: n in m ==> n.key != key
    {
      forall n | n in m
        ensures n.key != key
      {
        assert ShapeAt(m, elems, root, n);
      }
    }

    /** Equal keys are one element. */
    lemma OneKey(a: Node, b: Node)
      requires Valid() && a in m && b in m && a.key == b.key
      ensures a == b
    {
      assert ShapeAt(m, elems, root, a) && ShapeAt(m, elems, root, b);
    }

    /** The element with the key, or the empty place where it belongs. */
    method Locate(key: int) returns (tmp: Node?, parent: Node?, d: Side)
      requires Valid()
      ensures tmp != null ==> tmp in m && tmp.key == key
      ensures tmp == null ==> if parent == null then root == null && elems == [] else parent in m && m[parent].Kid(d) == null
      ensures tmp == null ==> Between(key, GrowIndex(m, parent, d), GrowIndex(m, parent, d))
    {
      tmp, parent, d := root, null, L;
      ghost var lo, hi := 0, |elems|;
      if tmp != null { AtNode(m, elems, root, tmp); }
      while tmp != null
        invariant Between(key, lo, hi) && Covers(tmp, lo, hi)
        invariant if parent == null then tmp == root else parent in m && m[parent].Kid(d) == tmp && (tmp == null ==> GrowIndex(m, parent, d) == lo)
        decreases hi - lo, tmp != null
      {
        Narrow(key, tmp);
        if key == tmp.key { return; }
        parent := tmp;
        if key < tmp.key {
          lo, hi, d := m[tmp].lo, m[tmp].pos, L;
          tmp := tmp.left;
        } else {
          lo, hi, d := m[tmp].pos + 1, m[tmp].hi, R;
          tmp := tmp.right;
        }
      }
    }

    method Insert(elm: Node) returns (r: Node?)
      requires Valid()
      modifies this, m.Keys, elm
      ensures Valid()
      ensures r != null ==> r in m && r.key == elm.key && m == old(m) && elems == old(elems) && root == old(root)
      ensures elm in old(m) ==> r == elm
      ensures r == null ==> (forall n :: n in old(m) ==> n.key != elm.key) && m.Keys == old(m.Keys) + {elm}
      ensures r == null ==> exists k :: 0 <= k <= |old(elems)| && elems == old(elems)[..k] + [elm] + old(elems)[k..]
    {
      var parent, d;
      r, parent, d := Locate(elm.key);
      if r != null {
        if elm in m { OneKey(r, elm); }
        return;
      }
      Absent(elm.key, GrowIndex(m, parent, d));
      Attach(elm, parent, d);
    }

    /** The subtree `elm`, on side `d` of `parent`, is one black short; all else is in order. */
    ghost predicate Debt(parent: Node?, elm: Node?, d: Side)
      reads this, m.Keys
    {
      Tied() && Owing(m, root, parent, elm, d)
    }

    method RedSibling(d: Side, parent: Node, elm: Node?, tmp: Node)
      requires Debt(parent, elm, d) && !IsRed(m, elm) && m[parent].Kid(Other(d)) == tmp && tmp in m && IsRed(m, tmp)
      modifies this`m, this`root, m.Keys
      ensures Debt(parent, elm, d) && m.Keys == old(m.Keys)
      ensures IsRed(m, parent) && !IsRed(m, m[parent].Kid(Other(d))) && !IsRed(m, elm)
    {
      SiblingRedOwing(m, elems, root, d, parent, tmp, elm);
      PaintTurn(d, parent, Red, m[parent].bh - 1, tmp, Black, m[tmp].bh + 1);
    }

    method PaintPush(parent: Node, tmp: Node)
      requires Tied() && parent in m && tmp in m && parent != tmp
      modifies this`m, m.Keys
      ensures Tied() && m == PushUp(old(m), parent, tmp) && root == old(root)
    {
      ghost var m0 := m;
      PushUpShape(m, elems, root, parent, tmp);
      SetColor(tmp, Red, m[tmp].bh - 1);
      Relabel(PushUp(m0, parent, tmp));
    }

    method PushDebt(d: Side, parent: Node, elm: Node?, tmp: Node) returns (ghost ds: Side)
      requires Debt(parent, elm, d) && !IsRed(m, elm) && m[parent].Kid(Other(d)) == tmp && tmp in m
      requires !IsRed(m, tmp) && !IsRed(m, m[tmp].left) && !IsRed(m, m[tmp].right)
      modifies this`m, m.Keys
      ensures m.Keys == old(m.Keys) && Debt(m[parent].parent, parent, ds)
      ensures IsRed(m, parent) == old(IsRed(m, parent))
      ensures Climb(m[parent].parent, parent) < if IsRed(m, parent) then 1 else old(Climb(parent, elm))
    {
      ds := PushUpOwing(m, elems, root, d, parent, elm, tmp);
      PaintPush(parent, tmp);
    }

    method RaiseInner(d: Side, parent: Node, elm: Node?, tmp: Node, inner: Node)
      requires Debt(parent, elm, d) && !IsRed(m, elm) && m[parent].Kid(Other(d)) == tmp && tmp in m
      requires !IsRed(m, tmp) && m[tmp].Kid(d) == inner && inner in m && IsRed(m, inner) && !IsRed(m, m[tmp].Kid(Other(d)))
      modifies this`m, this`root, m.Keys
      ensures Debt(parent, elm, d) && m.Keys == old(m.Keys)
      ensures m[parent].Kid(Other(d)) == inner && !IsRed(m, inner) && m[inner].Kid(Other(d)) == tmp && IsRed(m, tmp)
      ensures !IsRed(m, elm)
    {
      InnerRedOwing(m, elems, root, d, parent, elm, tmp, inner);
      PaintTurn(Other(d), tmp, Red, m[tmp].bh - 1, inner, Black, m[inner].bh + 1);
    }

    method PaintTriple(x: Node, cx: Color, ghost hx: int, y: Node, cy: Color, ghost hy: int, z: Node, cz: Color, ghost hz: int)
      requires Tied() && x in m && y in m && z in m && x != y && y != z && x != z
      modifies this`m, m.Keys
      ensures Tied() && m == Paint(Paint(Paint(old(m), z, cz, hz), x, cx, hx), y, cy, hy)
    {
      PaintTripleShape(m, elems, root, x, cx, hx, y, cy, hy, z, cz, hz);
      SetColor(x, cx, hx);
      SetColor(y, cy, hy);
      SetColor(z, cz, hz);
    }

    method TurnOuter(d: Side, parent: Node, tmp: Node, outer: Node)
      requires Tied() && parent in m && m[parent].Kid(Other(d)) == tmp && tmp in m && outer in m
      requires parent != tmp && tmp != outer && outer != parent
      modifies this`m, this`root, m.Keys
      ensures Tied() && m == OuterRed(old(m), d, parent, tmp, outer) && root == if old(root) == parent then tmp else old(root)
    {
      PaintTriple(tmp, parent.color, m[parent].bh, parent, Black, m[tmp].bh, outer, Black, m[outer].bh + 1);
      var _ := Rotate(d, parent);
    }

    method RaiseOuter(d: Side, parent: Node, elm: Node?, tmp: Node, outer: Node)
      requires Debt(parent, elm, d) && !IsRed(m, elm) && m[parent].Kid(Other(d)) == tmp && tmp in m
      requires !IsRed(m, tmp) && m[tmp].Kid(Other(d)) == outer && outer in m && IsRed(m, outer)
      modifies this`m, this`root, m.Keys
      ensures Tied() && m.Keys == old(m.Keys) && Balanced(m, root)
    {
      AtNode(m, elems, root, parent);
      OuterRedRoot(m, elems, root, d, parent, tmp, outer);
      OwedBlack(m, elems, root, elm, parent, d);
      OuterRedColors(m, elems, root, d, parent, tmp, outer);
      TurnOuter(d, parent, tmp, outer);
    }

    method RaiseRed(d: Side, parent: Node, elm: Node?, sibling: Node)
      requires Debt(parent, elm, d) && !IsRed(m, elm) && m[parent].Kid(Other(d)) == sibling && sibling in m
      requires !IsRed(m, sibling) && (IsRed(m, m[sibling].left) || IsRed(m, m[sibling].right))
      modifies this`m, this`root, m.Keys
      ensures Tied() && m.Keys == old(m.Keys) && Balanced(m, root)
    {
      AtNode(m, elems, root, sibling);
      var tmp := sibling;
      var outer := if d.L? then tmp.right else tmp.left;
      if outer == null || outer.color == Black {
        var inner := if d.L? then tmp.left else tmp.right;
        RaiseInner(d, parent, elm, tmp, inner);
        tmp, outer := inner, tmp;
      }
      RaiseOuter(d, parent, elm, tmp, outer);
    }

    /** The head of the loop body: the sibling, turned black first if it was red. */
    method BlackSibling(d: Side, parent: Node, elm: Node?) returns (tmp: Node)
      requires Debt(parent, elm, d) && !IsRed(m, elm)
      modifies this`m, this`root, m.Keys
      ensures Debt(parent, elm, d) && m.Keys == old(m.Keys) && !IsRed(m, elm)
      ensures m[parent].Kid(Other(d)) == tmp && tmp in m && !IsRed(m, tmp)
      ensures !IsRed(m, parent) ==> m == old(m)
    {
      SiblingThere(m, elems, root, d, parent, elm);
      tmp := if d.L? then parent.right else parent.left;
      if tmp.color == Red {
        RedSibling(d, parent, elm, tmp);
        SiblingThere(m, elems, root, d, parent, elm);
        tmp := if d.L? then parent.right else parent.left;
      }
    }

    lemma DebtSide(parent: Node, elm: Node?, d: Side)
      requires Debt(parent, elm, d)
      ensures d == (if parent.left == elm then L else R) && 0 <= Climb(parent, elm)
    {
      SiblingThere(m, elems, root, d, parent, elm);
      AtNode(m, elems, root, parent);
    }

    /** How far the fix-up can still climb from here. */
    ghost function Climb(parent: Node?, elm: Node?): int
      reads this
    {
      if IsRed(m, elm) || parent == null || parent !in m then 0 else 1 + |elems| - (m[parent].hi - m[parent].lo)
    }

    /** One turn of the removal loop: either all is settled, or the debt sits one level up. */
    method RemoveStep(d: Side, parent: Node, elm: Node?) returns (done: bool, ghost ds: Side)
      requires Debt(parent, elm, d) && !IsRed(m, elm)
      modifies this`m, this`root, m.Keys
      ensures Tied() && m.Keys == old(m.Keys)
      ensures done ==> Balanced(m, root)
      ensures !done ==> Debt(m[parent].parent, parent, ds) && Climb(m[parent].parent, parent) < old(Climb(parent, elm))
    {
      AtNode(m, elems, root, parent);
      var tmp := BlackSibling(d, parent, elm);
      AtNode(m, elems, root, tmp);
      if (tmp.left == null || tmp.left.color == Black) && (tmp.right == null || tmp.right.color == Black) {
        ds := PushDebt(d, parent, elm, tmp);
        done := false;
      } else {
        RaiseRed(d, parent, elm, tmp);
        done, ds := true, L;
      }
    }

    method RemoveColor(p: Node?, e: Node?, ghost d0: Side)
      requires Debt(p, e, d0)
      modifies this`m, this`root, m.Keys
      ensures Tied() && m.Keys == old(m.Keys) && Balanced(m, root)
    {
      var parent, elm := p, e;
      ghost var ds := d0;
      while (elm == null || elm.color == Black) && elm != root
        invariant Debt(parent, elm, ds) && m.Keys == old(m.Keys)
        decreases Climb(parent, elm)
      {
        DebtSide(parent, elm, ds);
        var done;
        done, ds := RemoveStep(if parent.left == elm then L else R, parent, elm);
        if done {
          elm := root;
          break;
        }
        elm, parent := parent, parent.parent;
      }
      RemovePaint(parent, elm, ds);
    }

    method RemovePaint(parent: Node?, elm: Node?, ghost ds: Side)
      requires Tied() && ((Balanced(m, root) && elm == root) || (Debt(parent, elm, ds) && (IsRed(m, elm) || elm == root)))
      modifies this`m, m.Keys
      ensures Tied() && m.Keys == old(m.Keys) && root == old(root) && Balanced(m, root)
    {
      if elm != null {
        AtNode(m, elems, root, elm);
        ghost var h := if IsRed(m, elm) then m[elm].bh + 1 else m[elm].bh;
        PaintShape(m, elems, root, elm, Black, h);
        if elm.color == Red {
          Settle(m, elems, root, elm, parent, ds);
        } else {
          if !Balanced(m, root) { NothingOwed(m, elems, root, elm, ds); }
          assert m == Paint(m, elm, Black, h);
        }
        SetColor(elm, Black, h);
      } else if !Balanced(m, root) {
        if parent != null { AtNode(m, elems, root, parent); }
        NothingOwed(m, elems, root, elm, ds);
      }
    }

    /** Link `child` where `e`, which has no other child, was. */
    method SpliceOut(e: Node, child: Node?)
      requires Tied() && e in m && OneKid(m, e, child)
      modifies this, m.Keys
      ensures Tied() && m == Splice(old(m), e, child)
      ensures var k := old(m[e].pos); 0 <= k < |old(elems)| && old(elems)[k] == e && elems == old(elems)[..k] + old(elems)[k + 1..]
      ensures root == if old(root) == e then child else old(root)
    {
      ghost var m0, s0, r0, k := m, elems, root, m[e].pos;
      SpliceShape(m, elems, root, e, child);
      AtNode(m, elems, root, e);
      SpliceLinks(m, elems, root, e, child);
      var parent := e.parent;
      var side := if parent != null && parent.left == e then L else R;
      Adopt(child, parent);
      PutBelow(parent, side, child);
      Reseat(Splice(m0, e, child), s0[..k] + s0[k + 1..]);
    }

    /** `(e)->field = (o)->field` and the three links back to `e`. */
    method CopyLinks(o: Node, e: Node, parent: Node?, left: Node?, right: Node?)
      requires Linked() && o in m && e !in m && parent == m[o].parent && left == m[o].left && right == m[o].right
      requires (parent != null ==> parent in m) && (left != null ==> left in m) && (right != null ==> right in m)
      modifies this`m, this`root, m.Keys, e
      ensures Linked() && m == ReplaceSteps(old(m), o, e) && root == (if parent == null then e else old(root)) && elems == old(elems)
    {
      var side := if parent != null && parent.left == o then L else R;
      Admit(e, left, right, parent, o.color, m[o]);
      PutBelow(parent, side, e);
      Adopt(left, e);
      Adopt(right, e);
    }

    /** `e`, until now outside the tree, takes the place of `o`. */
    method TakeOver(o: Node, e: Node)
      requires Tied() && o in m && e !in m
      modifies this, m.Keys, e
      ensures Tied() && m == Replace(old(m), o, e)
      ensures var k := old(m[o].pos); 0 <= k < |old(elems)| && elems == old(elems)[k := e]
      ensures root == if old(root) == o then e else old(root)
    {
      ghost var m0, s0, k := m, elems, m[o].pos;
      ReplaceShape(m, elems, root, o, e);
      AtNode(m, elems, root, o);
      ReplaceLinks(m, elems, root, o, e);
      CopyLinks(o, e, o.parent, o.left, o.right);
      Reseat(Replace(m0, o, e), s0[k := e]);
    }

    /** Unlink a node with at most one child and rebalance. */
    method RemoveSimple(e: Node, child: Node?)
      requires Valid() && e in m && OneKid(m, e, child)
      modifies this, m.Keys
      ensures Tied() && m.Keys == old(m.Keys) - {e} && Balanced(m, root)
      ensures var k := old(m[e].pos); 0 <= k < |old(elems)| && old(elems)[k] == e && elems == old(elems)[..k] + old(elems)[k + 1..]
    {
      var parent, color := e.parent, e.color;
      ghost var d := if parent != null && m.Keys >= {parent} && m[parent].left == e then L else R;
      AtNode(m, elems, root, e);
      SpliceOwed(m, elems, root, e, child, d);
      SpliceDebt(m, elems, root, e, child, d);
      SpliceOut(e, child);
      if color == Black { RemoveColor(parent, child, d); }
    }

    /** The in-order successor of a node with two children is the leftmost node on its right. */
    method Successor(o: Node) returns (e: Node)
      requires Tied() && o in m && m[o].left != null && m[o].right != null
      ensures e in m && m[e].left == null && m[e].pos == m[o].pos + 1 && e != o && m[e].parent != null
    {
      AtNode(m, elems, root, o);
      e := o.right;
      AtNode(m, elems, root, e);
      while e.left != null
        invariant e in m && m[e].lo == m[o].pos + 1 && m[e].parent != null && m[e].pos >= m[e].lo
        decreases m[e].hi - m[e].lo
      {
        AtNode(m, elems, root, e);
        e := e.left;
        AtNode(m, elems, root, e);
      }
      AtNode(m, elems, root, e);
    }

    method SwapOut(o: Node, e: Node, child: Node?)
      requires Tied() && o in m && e in m && o != e && OneKid(m, e, child) && m[e].parent != null
      requires m[e].pos == m[o].pos + 1
      modifies this, m.Keys
      ensures Tied() && m == Swap(old(m), o, e, child) && root == if old(root) == o then e else old(root)
      ensures var k := old(m[o].pos); 0 <= k < |old(elems)| && old(elems)[k] == o && elems == old(elems)[..k] + old(elems)[k + 1..]
    {
      SwapPlace(m, elems, root, o, e, child);
      SpliceOut(e, child);
      TakeOver(o, e);
    }

    method SwapBalance(o: Node, e: Node, child: Node?, p: Node) returns (parent: Node, ghost d: Side)
      requires Tied() && Balanced(m, root) && o in m && e in m && o != e && OneKid(m, e, child) && m[e].parent == p
      requires m[e].pos == m[o].pos + 1 && p in m && child != o
      modifies this, m.Keys
      ensures Tied() && m.Keys == old(m.Keys) - {o}
      ensures if old(m[e].color) == Red then Balanced(m, root) else Debt(parent, child, d)
      ensures var k := old(m[o].pos); 0 <= k < |old(elems)| && old(elems)[k] == o && elems == old(elems)[..k] + old(elems)[k + 1..]
    {
      AtNode(m, elems, root, e);
      d := if m[p].left == e then L else R;
      SwapOwed(m, elems, root, o, e, child, p, d);
      SwapOut(o, e, child);
      parent := if p == o then e else p;
    }

    /** Remove a node with two children: its successor is unlinked and takes its place. */
    method RemoveInner(o: Node)
      requires Tied() && Balanced(m, root) && o in m && m[o].left != null && m[o].right != null
      modifies this, m.Keys
      ensures Tied() && m.Keys == old(m.Keys) - {o} && Balanced(m, root)
      ensures var k := old(m[o].pos); 0 <= k < |old(elems)| && old(elems)[k] == o && elems == old(elems)[..k] + old(elems)[k + 1..]
    {
      var e := Successor(o);
      AtNode(m, elems, root, e);
      var child, color := e.right, e.color;
      if child != null { AtNode(m, elems, root, child); }
      AtNode(m, elems, root, o);
      var parent, d := SwapBalance(o, e, child, e.parent);
      if color == Black { RemoveColor(parent, child, d); }
    }

    method Remove(elm: Node) returns (r: Node)
      requires Valid() && elm in m
      modifies this, m.Keys
      ensures Valid() && r == elm && m.Keys == old(m.Keys) - {elm}
      ensures var k := old(m[elm].pos); 0 <= k < |old(elems)| && old(elems)[k] == elm && elems == old(elems)[..k] + old(elems)[k + 1..]
    {
      AtNode(m, elems, root, elm);
      ghost var s0, k := elems, m[elm].pos;
      if elm.left == null {
        RemoveSimple(elm, elm.right);
      } else if elm.right == null {
        RemoveSimple(elm, elm.left);
      } else {
        RemoveInner(elm);
      }
      SortedRemove(s0, k);
      return elm;
    }

    method Find(key: int) returns (r: Node?)
      requires Valid()
      ensures r != null ==> r in m && r.key == key
      ensures r == null ==> forall n :: n in m ==> n.key != key
    {
      var tmp := root;
      ghost var lo, hi := 0, |elems|;
      if tmp != null { AtNode(m, elems, root, tmp); }
      while tmp != null
        invariant Between(key, lo, hi) && Covers(tmp, lo, hi)
        decreases hi - lo, tmp != null
      {
        Narrow(key, tmp);
        if key < tmp.key {
          lo, hi := m[tmp].lo, m[tmp].pos;
          tmp := tmp.left;
        } else if key > tmp.key {
          lo, hi := m[tmp].pos + 1, m[tmp].hi;
          tmp := tmp.right;
        } else {
          return tmp;
        }
      }
      Absent(key, lo);
      return null;
    }

    /** The first element not below `key`. */
    method NFind(key: int) returns (r: Node?)
      requires Valid()
      ensures r == null ==> forall i :: 0 <= i < |elems| ==> elems[i].key < key
      ensures r != null ==> r in m && 0 <= m[r].pos < |elems| && elems[m[r].pos] == r && key <= r.key
      ensures r != null ==> forall i :: 0 <= i < m[r].pos ==> elems[i].key < key
    {
      var tmp, res: Node? := root, null;
      ghost var lo, hi := 0, |elems|;
      if tmp != null { AtNode(m, elems, root, tmp); }
      while tmp != null
        invariant Between(key, lo, hi) && Covers(tmp, lo, hi)
        invariant if res == null then hi == |elems| else hi < |elems| && res == elems[hi] && res in m && m[res].pos == hi
        decreases hi - lo, tmp != null
      {
        Narrow(key, tmp);
        if key < tmp.key {
          lo, hi, res := m[tmp].lo, m[tmp].pos, tmp;
          tmp := tmp.left;
        } else if key > tmp.key {
          lo, hi := m[tmp].pos + 1, m[tmp].hi;
          tmp := tmp.right;
        } else {
          return tmp;
        }
      }
      return res;
    }

    ghost function NextOf(n: Node): Node?
      requires Tied() && n in m
      reads this, m.Keys
    {
      AtNode(m, elems, root, n);
      if m[n].pos + 1 < |elems| then elems[m[n].pos + 1] else null
    }

    ghost function PrevOf(n: Node): Node?
      requires Tied() && n in m
      reads this, m.Keys
    {
      AtNode(m, elems, root, n);
      if m[n].pos > 0 then elems[m[n].pos - 1] else null
    }

    lemma NextPrevInverse(n: Node)
      requires Tied() && n in m
      ensures NextOf(n) != null ==> NextOf(n) in m && PrevOf(NextOf(n)) == n
      ensures PrevOf(n) != null ==> PrevOf(n) in m && NextOf(PrevOf(n)) == n
    {
      AtNode(m, elems, root, n);
    }

    method Next(elm: Node) returns (r: Node?)
      requires Tied() && elm in m
      ensures r == NextOf(elm)
    {
      AtNode(m, elems, root, elm);
      ghost var k := m[elm].pos;
      if elm.right != null {
        var e := elm.right;
        AtNode(m, elems, root, e);
        while e.left != null
          invariant e in m && m[e].lo == k + 1
          decreases m[e].hi - m[e].lo
        {
          AtNode(m, elems, root, e);
          e := e.left;
          AtNode(m, elems, root, e);
        }
        AtNode(m, elems, root, e);
        return e;
      }
      if elm.parent != null && elm == elm.parent.left {
        AtNode(m, elems, root, elm.parent);
        return elm.parent;
      }
      var e := elm;
      while e.parent != null && e == e.parent.right
        invariant e in m && m[e].hi == k + 1
        decreases |elems| - (m[e].hi - m[e].lo)
      {
        AtNode(m, elems, root, e);
        e := e.parent;
        AtNode(m, elems, root, e);
      }
      AtNode(m, elems, root, e);
      if e.parent != null { AtNode(m, elems, root, e.parent); }
      return e.parent;
    }

    method Prev(elm: Node) returns (r: Node?)
      requires Tied() && elm in m
      ensures r == PrevOf(elm)
    {
      AtNode(m, elems, root, elm);
      ghost var k := m[elm].pos;
      if elm.left != null {
        var e := elm.left;
        AtNode(m, elems, root, e);
        while e.right != null
          invariant e in m && m[e].hi == k
          decreases m[e].hi - m[e].lo
        {
          AtNode(m, elems, root, e);
          e := e.right;
          AtNode(m, elems, root, e);
        }
        AtNode(m, elems, root, e);
        return e;
      }
      if elm.parent != null && elm == elm.parent.right {
        AtNode(m, elems, root, elm.parent);
        return elm.parent;
      }
      var e := elm;
      while e.parent != null && e == e.parent.left
        invariant e in m && m[e].lo == k
        decreases |elems| - (m[e].hi - m[e].lo)
      {
        AtNode(m, elems, root, e);
        e := e.parent;
        AtNode(m, elems, root, e);
      }
      AtNode(m, elems, root, e);
      if e.parent != null { AtNode(m, elems, root, e.parent); }
      return e.parent;
    }

    method MinMax(val: int) returns (parent: Node?)
      requires Tied()
      ensures parent == if elems == [] then null else if val < 0 then elems[0] else elems[|elems| - 1]
    {
      var tmp := root;
      parent := null;
      if tmp != null { AtNode(m, elems, root, tmp); }
      while tmp != null
        invariant tmp != null ==> tmp in m && (if val < 0 then m[tmp].lo == 0 else m[tmp].hi == |elems|)
        invariant parent == null ==> tmp == root
        invariant parent != null && tmp == null ==> elems != [] && parent == if val < 0 then elems[0] else elems[|elems| - 1]
        decreases if tmp == null then 0 else m[tmp].hi - m[tmp].lo
      {
        AtNode(m, elems, root, tmp);
        parent := tmp;
        tmp := if val < 0 then tmp.left else tmp.right;
        if tmp != null { AtNode(m, elems, root, tmp); }
      }
    }

    /** RB_FOREACH with a body that notes each element. */
    method Foreach() returns (visited: seq<Node>)
      requires Tied()
      ensures visited == elems
    {
      visited := [];
      var x := MinMax(-1);
      while x != null
        invariant |visited| <= |elems| && visited == elems[..|visited|]
        invariant x == if |visited| < |elems| then elems[|visited|] else null
        decreases |elems| - |visited|
      {
        visited := visited + [x];
        x := Next(x);
      }
    }

    /** The in-order walk along the real pointers. */
    ghost function InOrder(n: Node?): (r: seq<Node>)
      requires Tied() && (n != null ==> n in m)
      reads this, m.Keys
      ensures r == if n == null then [] else (AtNode(m, elems, root, n); elems[m[n].lo..m[n].hi])
      decreases if n == null then 0 else m[n].hi - m[n].lo
    {
      if n == null then [] else
        AtNode(m, elems, root, n);
        SliceAround(elems, m[n].lo, m[n].pos, m[n].hi);
        InOrder(n.left) + [n] + InOrder(n.right)
    }

    ghost function Height(n: Node?): nat
      requires Tied() && (n != null ==> n in m)
      reads this, m.Keys
      decreases if n == null then 0 else m[n].hi - m[n].lo
    {
      if n == null then 0 else
        AtNode(m, elems, root, n);
        var l, r := Height(n.left), Height(n.right);
        1 + if l < r then r else l
    }

    /** `path` leads from `n` off the tree, ending exactly there. */
    ghost predicate LeadsOut(n: Node?, path: seq<Side>)
      requires Tied() && (n != null ==> n in m)
      reads this, m.Keys
      decreases |path|
    {
      if n == null || path == [] then n == null && path == [] else
        AtNode(m, elems, root, n);
        LeadsOut(if path[0].L? then n.left else n.right, path[1..])
    }

    ghost function BlacksOn(n: Node?, path: seq<Side>): nat
      requires Tied() && (n != null ==> n in m)
      reads this, m.Keys
      decreases |path|
    {
      if n == null || path == [] then 0 else
        AtNode(m, elems, root, n);
        B(n.color) + BlacksOn(if path[0].L? then n.left else n.right, path[1..])
    }

    lemma {:induction false} BlacksOnPath(n: Node?, path: seq<Side>)
      requires Valid() && (n != null ==> n in m) && LeadsOut(n, path)
      ensures BlacksOn(n, path) == H(m, n)
      decreases |path|
    {
      if n != null {
        AtNode(m, elems, root, n);
        assert ColorAt(m, n, null, null, L);
        BlacksOnPath(if path[0].L? then n.left else n.right, path[1..]);
      }
    }

    /** Every way from the root off the tree meets the same number of black nodes. */
    lemma EqualBlackCounts(p: seq<Side>, q: seq<Side>)
      requires Valid() && (root != null ==> root in m) && LeadsOut(root, p) && LeadsOut(root, q)
      ensures BlacksOn(root, p) == BlacksOn(root, q)
    {
      BlacksOnPath(root, p);
      BlacksOnPath(root, q);
    }

    /** What validity says of the real fields of every node. */
    lemma NodeFacts(n: Node)
      requires Valid() && n in m
      ensures n.left != null ==> n.left in m && n.left.parent == n && n.left.key < n.key
      ensures n.right != null ==> n.right in m && n.right.parent == n && n.key < n.right.key
      ensures n.parent == null <==> n == root
      ensures n.parent != null ==> n.parent in m && (n.parent.left == n || n.parent.right == n)
      ensures n.color == Red ==> n.parent != null && n.parent.color == Black
    {
      AtNode(m, elems, root, n);
      AtNode(m, elems, root, root);
      if n.left != null { AtNode(m, elems, root, n.left); }
      if n.right != null { AtNode(m, elems, root, n.right); }
      if n.parent != null { assert ColorAt(m, n.parent, null, null, L); }
    }

    lemma {:induction false} HeightByBlacks(n: Node?)
      requires Valid() && (n != null ==> n in m)
      ensures 0 <= H(m, n)
      ensures Height(n) <= 2 * H(m, n) + (if IsRed(m, n) then 1 else 0)
      ensures n != null ==> Pow2(H(m, n)) <= m[n].hi - m[n].lo + 1
      decreases if n == null then 0 else m[n].hi - m[n].lo
    {
      if n != null {
        AtNode(m, elems, root, n);
        assert ColorAt(m, n, null, null, L);
        if n.left != null { AtNode(m, elems, root, n.left); }
        if n.right != null { AtNode(m, elems, root, n.right); }
        HeightByBlacks(n.left);
        HeightByBlacks(n.right);
      }
    }

    /** 2 to the height is at most (n + 1) squared: the height is at most 2 lg (n + 1). */
    lemma HeightBound()
      requires Valid() && (root != null ==> root in m)
      ensures Pow2(Height(root)) <= (|elems| + 1) * (|elems| + 1)
    {
      if root != null {
        AtNode(m, elems, root, root);
        HeightByBlacks(root);
        var b := H(m, root);
        Pow2Mono(Height(root), b + b);
        Pow2Sum(b, b);
        SquareMono(Pow2(b), |elems| + 1);
      }
    }
  }

  // ---------- Any run of inserts and removes ----------

  datatype Op = Put(key: int) | Del(key: int)

  /** What a run of operations leaves in a finite set of keys. */
  ghost function After(ops: seq<Op>): set<int>
  {
    if ops == [] then {} else
      var s, op := After(ops[..|ops| - 1]), ops[|ops| - 1];
      if op.Put? then s + {op.key} else s - {op.key}
  }

  lemma KeySetInsert(s: seq<Node>, e: Node, k: int)
    requires 0 <= k <= |s|
    ensures KeySet(s[..k] + [e] + s[k..]) == KeySet(s) + {e.key}
  {
    var t := s[..k] + [e] + s[k..];
    forall x | x in KeySet(s) + {e.key}
      ensures x in KeySet(t)
    {
      if x == e.key { assert t[k].key == x; } else {
        var i :| 0 <= i < |s| && s[i].key == x;
        assert t[if i < k then i else i + 1].key == x;
      }
    }
  }

  lemma KeySetRemove(s: seq<Node>, k: int)
    requires 0 <= k < |s| && Sorted(s)
    ensures KeySet(s[..k] + s[k + 1..]) == KeySet(s) - {s[k].key}
  {
    var t := s[..k] + s[k + 1..];
    forall x | x in KeySet(s) - {s[k].key}
      ensures x in KeySet(t)
    {
      var i :| 0 <= i < |s| && s[i].key == x;
      assert t[if i < k then i else i - 1].key == x;
    }
  }

  /** Every tree reached from RB_INIT by a run of inserts and find-then-removes holds exactly the keys a
      finite set would, is valid, and has height at most 2 lg (n + 1). */
  method Run(ops: seq<Op>) returns (t: Tree)
    ensures t.Valid() && KeySet(t.elems) == After(ops)
    ensures (t.root != null ==> t.root in t.m) && Pow2(t.Height(t.root)) <= (|t.elems| + 1) * (|t.elems| + 1)
  {
    t := new Tree();
    for i := 0 to |ops|
      invariant t.Valid() && fresh(t) && fresh(t.m.Keys) && KeySet(t.elems) == After(ops[..i])
    {
      assert ops[..i + 1][..i] == ops[..i];
      var op := ops[i];
      if op.Put? {
        RunPut(t, op.key);
      } else {
        RunDel(t, op.key);
      }
    }
    assert ops[..|ops|] == ops;
    t.HeightBound();
  }

  method RunPut(t: Tree, key: int)
    requires t.Valid()
    modifies t, t.m.Keys
    ensures t.Valid() && fresh(t.m.Keys - old(t.m.Keys)) && KeySet(t.elems) == old(KeySet(t.elems)) + {key}
  {
    var e := new Node(key);
    ghost var s := t.elems;
    assert t.Valid();
    var r := t.Insert(e);
    if r == null {
      ghost var k :| 0 <= k <= |s| && t.elems == s[..k] + [e] + s[k..];
      KeySetInsert(s, e, k);
    } else {
      AtNode(t.m, t.elems, t.root, r);
    }
  }

  method RunDel(t: Tree, key: int)
    requires t.Valid()
    modifies t, t.m.Keys
    ensures t.Valid() && t.m.Keys <= old(t.m.Keys) && KeySet(t.elems) == old(KeySet(t.elems)) - {key}
  {
    var r := t.Find(key);
    ghost var s := t.elems;
    if r != null {
      AtNode(t.m, t.elems, t.root, r);
      KeySetRemove(s, t.m[r].pos);
      var _ := t.Remove(r);
    }
  }
}
