/** The pure side of the red-black tree: the pointer fields of every node as a map, with each node's
    place in the in-order sequence and its black height, and what each pointer surgery does to them. */
module RbCells {
  import opened Trees

  datatype Color = Black | Red

  class Node {
    const key: int
    var left: Node?
    var right: Node?
    var parent: Node?
    var color: Color

    constructor (k: int)
      ensures key == k
    {
      key := k;
      left, right, parent, color := null, null, null, Black;
    }
  }

  /** The four link fields of one node, plus its index `pos` in the in-order sequence, the half-open
      range `lo..hi` of indices its subtree covers, and the black height of its subtree. */
  datatype Cell = Cell(left: Node?, right: Node?, parent: Node?, color: Color, pos: int, lo: int, hi: int, bh: int) {
    ghost function Kid(d: Side): Node? { if d.L? then left else right }
  }

  type Cells = map<Node, Cell>

  // ---------- Shape: a binary tree with consistent parent links and a given in-order sequence ----------

  ghost predicate KidAt(m: Cells, n: Node, k: Node?, lo: int, hi: int)
  {
    if k == null then lo == hi else k in m && m[k].parent == n && m[k].lo == lo && m[k].hi == hi
  }

  ghost predicate UpAt(m: Cells, s: seq<Node>, root: Node?, n: Node)
    requires n in m
  {
    var p := m[n].parent;
    if p == null then root == n && m[n].lo == 0 && m[n].hi == |s| else p in m && (m[p].left == n || m[p].right == n)
  }

  ghost predicate ShapeAt(m: Cells, s: seq<Node>, root: Node?, n: Node)
    requires n in m
  {
    var c := m[n];
    && 0 <= c.lo <= c.pos < c.hi <= |s| && s[c.pos] == n
    && KidAt(m, n, c.left, c.lo, c.pos)
    && KidAt(m, n, c.right, c.pos + 1, c.hi)
    && UpAt(m, s, root, n)
  }

  ghost predicate Placed(m: Cells, s: seq<Node>)
  {
    forall i {:trigger s[i]} :: 0 <= i < |s| ==> s[i] in m && m[s[i]].pos == i
  }

  ghost predicate RootAt(m: Cells, s: seq<Node>, root: Node?)
  {
    if root == null then s == [] else root in m && m[root].parent == null
  }

  ghost predicate Shape(m: Cells, s: seq<Node>, root: Node?)
  {
    && Placed(m, s)
    && RootAt(m, s, root)
    && (forall n {:trigger ShapeAt(m, s, root, n)} :: n in m ==> ShapeAt(m, s, root, n))
  }

  // ---------- Colours: at most the red child `viol` and the deficit of one black at `(dp, ds)` ----------

  ghost function H(m: Cells, k: Node?): int { if k != null && k in m then m[k].bh else 0 }

  ghost predicate IsRed(m: Cells, k: Node?) { k != null && k in m && m[k].color.Red? }

  ghost function B(c: Color): int { if c.Black? then 1 else 0 }

  ghost predicate BlackAt(m: Cells, n: Node, dp: Node?, ds: Side)
    requires n in m
  {
    && 0 <= m[n].bh
    && m[n].bh == H(m, m[n].left) + B(m[n].color) + (if n == dp && ds.L? then 1 else 0)
    && m[n].bh == H(m, m[n].right) + B(m[n].color) + (if n == dp && ds.R? then 1 else 0)
  }

  ghost predicate RedAt(m: Cells, n: Node, viol: Node?)
    requires n in m
  {
    m[n].color.Red? ==>
      && (IsRed(m, m[n].left) ==> m[n].left == viol)
      && (IsRed(m, m[n].right) ==> m[n].right == viol)
  }

  ghost predicate ColorAt(m: Cells, n: Node, viol: Node?, dp: Node?, ds: Side)
    requires n in m
  {
    BlackAt(m, n, dp, ds) && RedAt(m, n, viol)
  }

  ghost predicate Colors(m: Cells, viol: Node?, dp: Node?, ds: Side)
  {
    forall n {:trigger ColorAt(m, n, viol, dp, ds)} :: n in m ==> ColorAt(m, n, viol, dp, ds)
  }

  ghost predicate Balanced(m: Cells, root: Node?)
  {
    !IsRed(m, root) && Colors(m, null, null, L)
  }

  // ---------- Rotations ----------

  ghost function RotCell(m: Cells, d: Side, x: Node, y: Node, n: Node): Cell
    requires x in m && y in m && n in m
  {
    if n == x then
      if d.L? then m[n].(right := m[y].left, parent := y, hi := m[y].pos)
      else m[n].(left := m[y].right, parent := y, lo := m[y].pos + 1)
    else if n == y then
      if d.L? then m[n].(left := x, parent := m[x].parent, lo := m[x].lo, hi := m[x].hi)
      else m[n].(right := x, parent := m[x].parent, lo := m[x].lo, hi := m[x].hi)
    else
      m[n].(left := if m[n].left == x then y else m[n].left,
            right := if m[n].right == x then y else m[n].right,
            parent := if n == m[y].Kid(d) then x else m[n].parent)
  }

  /** The cells after rotating `x` down on side `d`, its other child `y` taking its place. */
  ghost function Rot(m: Cells, d: Side, x: Node, y: Node): Cells
    requires x in m && y in m
  {
    map n | n in m :: RotCell(m, d, x, y, n)
  }

  lemma RotShapePair(m: Cells, s: seq<Node>, root: Node?, d: Side, x: Node, y: Node, n: Node)
    requires Shape(m, s, root) && x in m && m[x].Kid(Other(d)) == y && y in m && (n == x || n == y)
    requires ShapeAt(m, s, root, x) && ShapeAt(m, s, root, y)
    ensures ShapeAt(Rot(m, d, x, y), s, if root == x then y else root, n)
  {
    var r' := if root == x then y else root;
    var m' := Rot(m, d, x, y);
    var p := m[x].parent;
    assert p != null ==> ShapeAt(m, s, root, p);
    assert KidAt(m', n, m'[n].left, m'[n].lo, m'[n].pos);
    assert KidAt(m', n, m'[n].right, m'[n].pos + 1, m'[n].hi);
    assert UpAt(m', s, r', n);
  }

  lemma RotShapeRest(m: Cells, s: seq<Node>, root: Node?, d: Side, x: Node, y: Node, n: Node)
    requires Shape(m, s, root) && x in m && m[x].Kid(Other(d)) == y && y in m && n in m && n != x && n != y
    requires ShapeAt(m, s, root, x) && ShapeAt(m, s, root, y) && ShapeAt(m, s, root, n)
    ensures ShapeAt(Rot(m, d, x, y), s, if root == x then y else root, n)
  {
    var r' := if root == x then y else root;
    var m' := Rot(m, d, x, y);
    assert KidAt(m', n, m'[n].left, m'[n].lo, m'[n].pos);
    assert KidAt(m', n, m'[n].right, m'[n].pos + 1, m'[n].hi);
    assert UpAt(m', s, r', n);
  }

  lemma RotShape(m: Cells, s: seq<Node>, root: Node?, d: Side, x: Node, y: Node)
    requires Shape(m, s, root) && x in m && m[x].Kid(Other(d)) == y
    ensures y in m && Shape(Rot(m, d, x, y), s, if root == x then y else root)
  {
    assert ShapeAt(m, s, root, x);
    var r' := if root == x then y else root;
    var m' := Rot(m, d, x, y);
    assert RootAt(m', s, r') && Placed(m', s) by {
      assert ShapeAt(m, s, root, y);
    }
    forall n | n in m'
      ensures ShapeAt(m', s, r', n)
    {
      assert ShapeAt(m, s, root, y);
      assert ShapeAt(m, s, root, n);
      if n == x || n == y { RotShapePair(m, s, root, d, x, y, n); } else { RotShapeRest(m, s, root, d, x, y, n); }
    }
  }

  // ---------- Single link assignments ----------

  ghost function PutKid(m: Cells, n: Node, d: Side, k: Node?): Cells
    requires n in m
  {
    m[n := if d.L? then m[n].(left := k) else m[n].(right := k)]
  }

  ghost function PutParent(m: Cells, n: Node?, p: Node?): Cells
    requires n != null ==> n in m
  {
    if n == null then m else m[n := m[n].(parent := p)]
  }

  ghost predicate SameLinks(m: Cells, m': Cells)
  {
    m'.Keys <= m.Keys && forall n {:trigger m'[n]} :: n in m' ==>
      m[n].left == m'[n].left && m[n].right == m'[n].right && m[n].parent == m'[n].parent && m[n].color == m'[n].color
  }

  /** The six link assignments of a rotation, in the order the macro makes them. */
  ghost function RotSteps(m: Cells, d: Side, x: Node, y: Node): Cells
    requires x in m && y in m && (m[y].Kid(d) != null ==> m[y].Kid(d) in m) && (m[x].parent != null ==> m[x].parent in m)
  {
    var c, p := m[y].Kid(d), m[x].parent;
    var m1 := PutParent(PutParent(PutKid(m, x, Other(d), c), c, x), y, p);
    var m2 := if p == null then m1 else PutKid(m1, p, if m[p].left == x then L else R, y);
    PutParent(PutKid(m2, y, d, x), x, y)
  }

  lemma RotLinksAt(m: Cells, d: Side, x: Node, y: Node, c: Node?, p: Node?, n: Node)
    requires x in m && y in m && n in m && x != y && m[x].Kid(Other(d)) == y && m[y].Kid(d) == c && m[x].parent == p
    requires c != null ==> c in m && c != x && c != y && c != p
    requires p != null ==> p in m && p != x && p != y && (m[p].left == x) != (m[p].right == x)
    requires n != p && n != y ==> m[n].left != x && m[n].right != x
    ensures var q, r := RotSteps(m, d, x, y)[n], Rot(m, d, x, y)[n];
      q.left == r.left && q.right == r.right && q.parent == r.parent && q.color == r.color
  {
  }

  lemma RotLinks(m: Cells, s: seq<Node>, root: Node?, d: Side, x: Node, y: Node)
    requires Shape(m, s, root) && x in m && m[x].Kid(Other(d)) == y && y in m
    requires (m[y].Kid(d) != null ==> m[y].Kid(d) in m) && (m[x].parent != null ==> m[x].parent in m)
    ensures SameLinks(RotSteps(m, d, x, y), Rot(m, d, x, y))
  {
    assert ShapeAt(m, s, root, x);
    assert ShapeAt(m, s, root, y);
    var c, p := m[y].Kid(d), m[x].parent;
    assert p != null ==> ShapeAt(m, s, root, p);
    var m', r := RotSteps(m, d, x, y), Rot(m, d, x, y);
    forall n | n in m
      ensures m'[n].left == r[n].left && m'[n].right == r[n].right && m'[n].parent == r[n].parent && m'[n].color == r[n].color
    {
      assert ShapeAt(m, s, root, n);
      RotLinksAt(m, d, x, y, c, p, n);
    }
  }

  // ---------- Recolouring ----------

  ghost function Paint(m: Cells, n: Node, c: Color, bh: int): Cells
    requires n in m
  {
    m[n := m[n].(color := c, bh := bh)]
  }

  lemma PaintShape(m: Cells, s: seq<Node>, root: Node?, x: Node, c: Color, bh: int)
    requires Shape(m, s, root) && x in m
    ensures Shape(Paint(m, x, c, bh), s, root)
  {
    var m' := Paint(m, x, c, bh);
    assert m'.Keys == m.Keys;
    forall n | n in m'
      ensures ShapeAt(m', s, root, n)
    {
      assert ShapeAt(m, s, root, n);
      assert KidAt(m', n, m'[n].left, m'[n].lo, m'[n].pos);
      assert KidAt(m', n, m'[n].right, m'[n].pos + 1, m'[n].hi);
      assert UpAt(m', s, root, n);
    }
  }

  /** Turning over recoloured `x` and `y` leaves every other node's colour condition as it was, when
      `y` afterwards has the black height `x` had and is red at most where `x` was. */
  lemma TurnRest(m: Cells, s: seq<Node>, root: Node?, d: Side, x: Node, y: Node, cx: Color, hx: int, cy: Color, hy: int,
                 n: Node, viol: Node?, dp: Node?, ds: Side)
    requires x in m && m[x].Kid(Other(d)) == y && y in m && n in m && n != x && n != y
    requires ShapeAt(m, s, root, n) && ShapeAt(m, s, root, x) && ShapeAt(m, s, root, y)
    requires hy == m[x].bh && (cy.Red? ==> !IsRed(m, m[x].parent))
    requires ColorAt(m, n, viol, dp, ds)
    ensures ColorAt(Rot(Paint(Paint(m, y, cy, hy), x, cx, hx), d, x, y), n, viol, dp, ds)
  {
  }

  /** What must hold of the three subtrees for the turned pair itself to be in order. */
  ghost predicate Turnable(m: Cells, d: Side, x: Node, y: Node, cx: Color, hx: int, cy: Color, hy: int, viol: Node?, dp: Node?)
    requires x in m && y in m
  {
    && m[x].Kid(Other(d)) == y && dp != y
    && 0 <= hx && hx == H(m, m[x].Kid(d)) + B(cx) + (if dp == x then 1 else 0) == H(m, m[y].Kid(d)) + B(cx)
    && hy == hx + B(cy) == H(m, m[y].Kid(Other(d))) + B(cy)
    && (cx.Red? ==> !IsRed(m, m[x].Kid(d)) && !IsRed(m, m[y].Kid(d)))
    && (cy.Red? ==> (cx.Red? ==> viol == x) && !IsRed(m, m[y].Kid(Other(d))))
  }

  lemma TurnLower(m: Cells, s: seq<Node>, root: Node?, d: Side, x: Node, y: Node, cx: Color, hx: int, cy: Color, hy: int,
                  viol: Node?, dp: Node?, ds: Side)
    requires x in m && y in m && ShapeAt(m, s, root, x) && ShapeAt(m, s, root, y)
    requires Turnable(m, d, x, y, cx, hx, cy, hy, viol, dp) && (dp == x ==> ds == d)
    ensures ColorAt(Rot(Paint(Paint(m, y, cy, hy), x, cx, hx), d, x, y), x, viol, dp, ds)
  {
  }

  lemma TurnUpper(m: Cells, s: seq<Node>, root: Node?, d: Side, x: Node, y: Node, cx: Color, hx: int, cy: Color, hy: int,
                  viol: Node?, dp: Node?, ds: Side)
    requires x in m && y in m && ShapeAt(m, s, root, x) && ShapeAt(m, s, root, y)
    requires Turnable(m, d, x, y, cx, hx, cy, hy, viol, dp)
    ensures ColorAt(Rot(Paint(Paint(m, y, cy, hy), x, cx, hx), d, x, y), y, viol, dp, ds)
  {
  }

  /** Every node but `x` and `y` meets its colour condition. */
  ghost predicate Others(m: Cells, x: Node, y: Node, viol: Node?, dp: Node?, ds: Side)
  {
    forall n {:trigger ColorAt(m, n, viol, dp, ds)} :: n in m && n != x && n != y ==> ColorAt(m, n, viol, dp, ds)
  }

  /** A recoloured turn with all else in order leaves the whole tree in order. */
  lemma TurnColors(m: Cells, s: seq<Node>, root: Node?, d: Side, x: Node, y: Node, cx: Color, hx: int, cy: Color, hy: int,
                   viol: Node?, dp: Node?, ds: Side)
    requires Shape(m, s, root) && x in m && y in m && Others(m, x, y, viol, dp, ds)
    requires Turnable(m, d, x, y, cx, hx, cy, hy, viol, dp) && (dp == x ==> ds == d)
    requires hy == m[x].bh && (cy.Red? ==> !IsRed(m, m[x].parent))
    ensures Colors(Rot(Paint(Paint(m, y, cy, hy), x, cx, hx), d, x, y), viol, dp, ds)
  {
    AtNode(m, s, root, x);
    AtNode(m, s, root, y);
    TurnLower(m, s, root, d, x, y, cx, hx, cy, hy, viol, dp, ds);
    TurnUpper(m, s, root, d, x, y, cx, hx, cy, hy, viol, dp, ds);
    forall n | n in m && n != x && n != y
      ensures ColorAt(Rot(Paint(Paint(m, y, cy, hy), x, cx, hx), d, x, y), n, viol, dp, ds)
    {
      AtNode(m, s, root, n);
      TurnRest(m, s, root, d, x, y, cx, hx, cy, hy, n, viol, dp, ds);
    }
  }

  // ---------- Insertion fix-up ----------

  /** Red uncle: parent `p` and uncle `u` go black, grandparent `g` red; the suspicion moves to `g`. */
  ghost function UncleRed(m: Cells, p: Node, u: Node, g: Node): Cells
    requires p in m && u in m && g in m
  {
    Paint(Paint(Paint(m, u, Black, m[u].bh + 1), p, Black, m[p].bh + 1), g, Red, m[g].bh)
  }

  lemma UncleRedShape(m: Cells, s: seq<Node>, root: Node?, p: Node, u: Node, g: Node)
    requires Shape(m, s, root) && p in m && u in m && g in m
    ensures Shape(UncleRed(m, p, u, g), s, root)
  {
    var m1 := Paint(m, u, Black, m[u].bh + 1);
    PaintShape(m, s, root, u, Black, m[u].bh + 1);
    PaintShape(m1, s, root, p, Black, m[p].bh + 1);
    PaintShape(Paint(m1, p, Black, m[p].bh + 1), s, root, g, Red, m[g].bh);
  }

  lemma UncleBlackAt(m: Cells, s: seq<Node>, root: Node?, d: Side, e: Node, p: Node, u: Node, g: Node, n: Node)
    requires e in m && p in m && u in m && g in m && m[e].parent == p && m[p].parent == g && m[g].Kid(Other(d)) == u && m[g].Kid(d) == p
    requires IsRed(m, e) && IsRed(m, p) && IsRed(m, u) && !IsRed(m, g) && n in m
    requires ShapeAt(m, s, root, g) && ShapeAt(m, s, root, n) && ColorAt(m, n, e, null, L)
    ensures BlackAt(UncleRed(m, p, u, g), n, null, L)
  {
  }

  lemma UncleRedAt(m: Cells, s: seq<Node>, root: Node?, d: Side, e: Node, p: Node, u: Node, g: Node, n: Node)
    requires e in m && p in m && u in m && g in m && m[e].parent == p && m[p].parent == g && m[g].Kid(Other(d)) == u && m[g].Kid(d) == p
    requires IsRed(m, e) && IsRed(m, p) && IsRed(m, u) && !IsRed(m, g) && n in m
    requires ShapeAt(m, s, root, g) && ShapeAt(m, s, root, n) && ColorAt(m, n, e, null, L)
    ensures RedAt(UncleRed(m, p, u, g), n, g)
  {
  }

  lemma UncleRedColors(m: Cells, s: seq<Node>, root: Node?, d: Side, e: Node, p: Node, u: Node, g: Node)
    requires Shape(m, s, root) && Colors(m, e, null, L)
    requires e in m && p in m && u in m && g in m && m[e].parent == p && m[p].parent == g && m[g].Kid(Other(d)) == u && m[g].Kid(d) == p
    requires IsRed(m, e) && IsRed(m, p) && IsRed(m, u) && !IsRed(m, g)
    ensures Colors(UncleRed(m, p, u, g), g, null, L)
  {
    AtNode(m, s, root, g);
    forall n | n in m
      ensures ColorAt(UncleRed(m, p, u, g), n, g, null, L)
    {
      AtNode(m, s, root, n);
      assert ColorAt(m, n, e, null, L);
      UncleBlackAt(m, s, root, d, e, p, u, g, n);
      UncleRedAt(m, s, root, d, e, p, u, g, n);
    }
  }

  /** Only the parent of the suspect `e` may offend. */
  lemma BesideSuspect(m: Cells, s: seq<Node>, root: Node?, e: Node, x: Node, y: Node, viol: Node?)
    requires Shape(m, s, root) && Colors(m, e, null, L) && e in m && (m[e].parent == x || m[e].parent == y)
    ensures Others(m, x, y, viol, null, L)
  {
    forall n | n in m && n != x && n != y
      ensures ColorAt(m, n, viol, null, L)
    {
      AtNode(m, s, root, n);
      assert ColorAt(m, n, e, null, L);
    }
  }

  /** Inner grandchild: the red pair `p`, `e` turns, `e` on top; `p` is now the offending child. */
  lemma InnerTurnColors(m: Cells, s: seq<Node>, root: Node?, d: Side, e: Node, p: Node)
    requires Shape(m, s, root) && Colors(m, e, null, L)
    requires p in m && m[p].Kid(Other(d)) == e && IsRed(m, e) && IsRed(m, p) && !IsRed(m, m[p].parent)
    ensures Colors(Rot(m, d, p, e), p, null, L)
  {
    AtNode(m, s, root, p);
    AtNode(m, s, root, e);
    assert ColorAt(m, p, e, null, L);
    assert ColorAt(m, e, e, null, L);
    assert Paint(Paint(m, e, Red, m[e].bh), p, Red, m[p].bh) == m;
    BesideSuspect(m, s, root, e, p, e, p);
    TurnColors(m, s, root, d, p, e, Red, m[p].bh, Red, m[e].bh, p, null, L);
  }

  /** All is in order but for the red node `e` and its parent. */
  ghost predicate Suspected(m: Cells, root: Node?, e: Node)
  {
    e in m && IsRed(m, e) && Colors(m, e, null, L) && (IsRed(m, root) ==> root == e)
  }

  lemma UncleSuspected(m: Cells, s: seq<Node>, root: Node?, d: Side, e: Node, p: Node, u: Node, g: Node)
    requires Shape(m, s, root) && Suspected(m, root, e) && p in m && u in m && g in m
    requires m[e].parent == p && m[p].parent == g && m[g].Kid(d) == p && m[g].Kid(Other(d)) == u
    requires IsRed(m, p) && IsRed(m, u) && !IsRed(m, g)
    ensures Suspected(UncleRed(m, p, u, g), root, g) && p != u && u != g && g != p
    ensures |s| >= m[g].hi - m[g].lo > m[e].hi - m[e].lo
  {
    UncleRedColors(m, s, root, d, e, p, u, g);
    AtNode(m, s, root, g);
    AtNode(m, s, root, p);
    AtNode(m, s, root, e);
  }

  lemma InnerSuspected(m: Cells, s: seq<Node>, root: Node?, d: Side, e: Node, p: Node)
    requires Shape(m, s, root) && Suspected(m, root, e) && p in m && m[p].Kid(Other(d)) == e
    requires IsRed(m, p) && !IsRed(m, m[p].parent)
    ensures root != p && Suspected(Rot(m, d, p, e), root, p) && Rot(m, d, p, e).Keys == m.Keys
    ensures var g := m[p].parent; g != null && g in m ==>
      var m' := Rot(m, d, p, e);
      m'[e].Kid(d) == p && IsRed(m', e) && !IsRed(m', g) && forall side ::
        m'[g].Kid(side) == (if m[g].Kid(side) == p then e else m[g].Kid(side)) && (m[g].Kid(side) != p && !IsRed(m, m[g].Kid(side)) ==> !IsRed(m', m[g].Kid(side)))
  {
    InnerTurnColors(m, s, root, d, e, p);
    AtNode(m, s, root, p);
    if m[p].parent != null { AtNode(m, s, root, m[p].parent); }
  }

  lemma OuterSettled(m: Cells, s: seq<Node>, root: Node?, d: Side, e: Node, p: Node, g: Node)
    requires Shape(m, s, root) && Suspected(m, root, e) && p in m && g in m && m[g].Kid(d) == p && m[p].Kid(d) == e
    requires IsRed(m, p) && !IsRed(m, g) && !IsRed(m, m[g].Kid(Other(d)))
    ensures var m' := OuterTurn(m, d, p, g);
      m'.Keys == m.Keys && Suspected(m', if root == g then p else root, e) && m'[e].parent == p && !IsRed(m', p)
  {
    OuterTurnColors(m, s, root, d, e, p, g);
    ColorsAllow(OuterTurn(m, d, p, g), e);
    AtNode(m, s, root, g);
    AtNode(m, s, root, p);
    AtNode(m, s, root, e);
  }

  /** Outer grandchild: parent black, grandparent red, then turn the grandparent down. */
  ghost function OuterTurn(m: Cells, d: Side, p: Node, g: Node): Cells
    requires p in m && g in m
  {
    Rot(Paint(Paint(m, p, Black, m[p].bh + 1), g, Red, m[g].bh - 1), Other(d), g, p)
  }

  lemma OuterTurnColors(m: Cells, s: seq<Node>, root: Node?, d: Side, e: Node, p: Node, g: Node)
    requires Shape(m, s, root) && Colors(m, e, null, L)
    requires p in m && g in m && m[g].Kid(d) == p && m[p].Kid(d) == e
    requires IsRed(m, e) && IsRed(m, p) && !IsRed(m, g) && !IsRed(m, m[g].Kid(Other(d)))
    ensures Colors(OuterTurn(m, d, p, g), null, null, L)
  {
    AtNode(m, s, root, g);
    AtNode(m, s, root, p);
    assert ColorAt(m, g, e, null, L);
    assert ColorAt(m, p, e, null, L);
    BesideSuspect(m, s, root, e, g, p, null);
    TurnColors(m, s, root, Other(d), g, p, Red, m[g].bh - 1, Black, m[p].bh + 1, null, null, L);
  }

  lemma ColorsAllow(m: Cells, e: Node)
    requires Colors(m, null, null, L)
    ensures Colors(m, e, null, L)
  {
    forall n | n in m
      ensures ColorAt(m, n, e, null, L)
    {
      assert ColorAt(m, n, null, null, L);
    }
  }

  /** Where the insertion loop stops, painting the root black leaves a balanced tree. */
  lemma InsertDone(m: Cells, s: seq<Node>, root: Node, e: Node)
    requires Shape(m, s, root) && root in m && e in m && Colors(m, e, null, L)
    requires !IsRed(m, m[e].parent) && (IsRed(m, root) ==> root == e)
    ensures Balanced(Paint(m, root, Black, if IsRed(m, root) then m[root].bh + 1 else m[root].bh), root)
  {
    var m' := Paint(m, root, Black, if IsRed(m, root) then m[root].bh + 1 else m[root].bh);
    forall n | n in m'
      ensures ColorAt(m', n, null, null, L)
    {
      assert ShapeAt(m, s, root, n);
      assert ColorAt(m, n, e, null, L);
      assert ShapeAt(m, s, root, root);
    }
  }

  // ---------- Removal fix-up: one black is missing on side `d` of `p`, whose other child is `t` ----------

  /** Red sibling: it goes black and rises over `p`, which goes red. */
  ghost function SiblingRed(m: Cells, d: Side, p: Node, t: Node): Cells
    requires p in m && t in m
  {
    Rot(Paint(Paint(m, t, Black, m[t].bh + 1), p, Red, m[p].bh - 1), d, p, t)
  }

  lemma SiblingRedColors(m: Cells, s: seq<Node>, root: Node?, d: Side, p: Node, t: Node)
    requires Shape(m, s, root) && Colors(m, null, p, d)
    requires p in m && m[p].Kid(Other(d)) == t && IsRed(m, t) && !IsRed(m, m[p].Kid(d))
    ensures Colors(SiblingRed(m, d, p, t), null, p, d)
  {
    AtNode(m, s, root, p);
    assert ColorAt(m, p, null, p, d);
    assert ColorAt(m, t, null, p, d);
    TurnColors(m, s, root, d, p, t, Red, m[p].bh - 1, Black, m[t].bh + 1, null, p, d);
  }

  lemma SiblingRedRoot(m: Cells, s: seq<Node>, root: Node?, d: Side, p: Node, t: Node, elm: Node?)
    requires Shape(m, s, root) && p in m && m[p].Kid(Other(d)) == t && t in m && IsRed(m, t) && m[p].Kid(d) == elm
    requires Colors(m, null, p, d) && !IsRed(m, root) && !IsRed(m, elm)
    ensures var m' := SiblingRed(m, d, p, t);
      && !IsRed(m', if root == p then t else root) && root != elm && (root == p || root != t)
      && p in m' && IsRed(m', p) && !IsRed(m', elm) && m'[p].Kid(d) == elm && (elm != null ==> elm in m && m'[elm].parent == p)
      && !IsRed(m', m'[p].Kid(Other(d)))
  {
    assert ShapeAt(m, s, root, p);
    assert ShapeAt(m, s, root, t);
    assert ColorAt(m, t, null, p, d);
  }

  lemma SiblingRedOwing(m: Cells, s: seq<Node>, root: Node?, d: Side, p: Node, t: Node, elm: Node?)
    requires Shape(m, s, root) && p in m && Owing(m, root, p, elm, d) && !IsRed(m, elm)
    requires m[p].Kid(Other(d)) == t && t in m && IsRed(m, t)
    ensures var m' := SiblingRed(m, d, p, t);
      && m'.Keys == m.Keys && Owing(m', if root == p then t else root, p, elm, d)
      && IsRed(m', p) && !IsRed(m', elm) && !IsRed(m', m'[p].Kid(Other(d)))
  {
    OwedBlack(m, s, root, elm, p, d);
    SiblingRedRoot(m, s, root, d, p, t, elm);
    SiblingRedColors(m, s, root, d, p, t);
    ColorsOwed(SiblingRed(m, d, p, t), elm, p, d);
  }

  /** Black sibling with black children: it goes red and the deficit moves up to `p`'s own edge. */
  ghost function PushUp(m: Cells, p: Node, t: Node): Cells
    requires p in m && t in m
  {
    Paint(Paint(m, t, Red, m[t].bh - 1), p, m[p].color, m[p].bh - 1)
  }

  /** The tree owes one black on side `ds` of `dp`; red pairs occur at most with `elm` as one of them. */
  ghost predicate OwedAt(m: Cells, n: Node, elm: Node?, dp: Node?, ds: Side)
    requires n in m
  {
    BlackAt(m, n, dp, ds) && (n != elm ==> RedAt(m, n, elm))
  }

  ghost predicate Owed(m: Cells, elm: Node?, dp: Node?, ds: Side)
  {
    forall n {:trigger OwedAt(m, n, elm, dp, ds)} :: n in m ==> OwedAt(m, n, elm, dp, ds)
  }

  /** The subtree `elm`, on side `d` of `parent`, is one black short; all else is in order. */
  ghost predicate Owing(m: Cells, root: Node?, parent: Node?, elm: Node?, d: Side)
  {
    && Owed(m, elm, parent, d)
    && (elm != null ==> elm in m && m[elm].parent == parent)
    && (if parent == null then elm == root else parent in m && m[parent].Kid(d) == elm)
    && (IsRed(m, root) ==> root == elm)
  }

  lemma OwedBlack(m: Cells, s: seq<Node>, root: Node?, elm: Node?, dp: Node?, ds: Side)
    requires Owed(m, elm, dp, ds) && !IsRed(m, elm)
    ensures Colors(m, null, dp, ds)
  {
    forall n | n in m
      ensures ColorAt(m, n, null, dp, ds)
    {
      assert OwedAt(m, n, elm, dp, ds);
    }
  }

  lemma ColorsOwed(m: Cells, elm: Node?, dp: Node?, ds: Side)
    requires Colors(m, null, dp, ds)
    ensures Owed(m, elm, dp, ds)
  {
    forall n | n in m
      ensures OwedAt(m, n, elm, dp, ds)
    {
      assert ColorAt(m, n, null, dp, ds);
    }
  }

  lemma HNonneg(m: Cells, k: Node?, viol: Node?, dp: Node?, ds: Side)
    requires Colors(m, viol, dp, ds)
    ensures 0 <= H(m, k)
  {
    if k != null && k in m { assert ColorAt(m, k, viol, dp, ds); }
  }

  lemma PushUpShape(m: Cells, s: seq<Node>, root: Node?, p: Node, t: Node)
    requires Shape(m, s, root) && p in m && t in m
    ensures Shape(PushUp(m, p, t), s, root)
    ensures SameLinks(Paint(m, t, Red, m[t].bh - 1), PushUp(m, p, t)) || p == t
  {
    var m1 := Paint(m, t, Red, m[t].bh - 1);
    PaintShape(m, s, root, t, Red, m[t].bh - 1);
    PaintShape(m1, s, root, p, m[p].color, m[p].bh - 1);
  }

  lemma PushUpRest(m: Cells, s: seq<Node>, root: Node?, d: Side, p: Node, t: Node, ds: Side, n: Node)
    requires p in m && m[p].Kid(Other(d)) == t && t in m && n in m && n != p && n != t
    requires m[p].parent != null ==> m[p].parent in m && m[m[p].parent].Kid(ds) == p
    requires ShapeAt(m, s, root, n) && ShapeAt(m, s, root, p) && ColorAt(m, n, null, p, d)
    ensures OwedAt(PushUp(m, p, t), n, p, m[p].parent, ds)
  {
  }

  lemma PushUpPair(m: Cells, d: Side, p: Node, t: Node, ds: Side)
    requires p in m && m[p].Kid(Other(d)) == t && t in m && p != t && m[p].parent != p && m[p].parent != t
    requires !IsRed(m, t) && !IsRed(m, m[t].left) && !IsRed(m, m[t].right)
    requires ColorAt(m, p, null, p, d) && ColorAt(m, t, null, p, d)
    requires m[p].left != p && m[p].right != p && m[t].left != t && m[t].right != t && m[p].left != m[p].right
    requires m[t].left != p && m[t].right != p && 0 <= H(m, m[p].Kid(d)) && 0 <= H(m, m[t].left)
    ensures OwedAt(PushUp(m, p, t), p, p, m[p].parent, ds) && OwedAt(PushUp(m, p, t), t, p, m[p].parent, ds)
  {
  }

  lemma PushUpOwed(m: Cells, s: seq<Node>, root: Node?, d: Side, p: Node, t: Node, ds: Side)
    requires Shape(m, s, root) && Colors(m, null, p, d)
    requires p in m && m[p].Kid(Other(d)) == t && t in m
    requires m[p].parent != null ==> m[p].parent in m && m[m[p].parent].Kid(ds) == p
    requires !IsRed(m, t) && !IsRed(m, m[t].left) && !IsRed(m, m[t].right)
    ensures Owed(PushUp(m, p, t), p, m[p].parent, ds)
  {
    assert ShapeAt(m, s, root, p);
    assert ShapeAt(m, s, root, t);
    HNonneg(m, m[p].Kid(d), null, p, d);
    HNonneg(m, m[t].left, null, p, d);
    assert ColorAt(m, p, null, p, d);
    assert ColorAt(m, t, null, p, d);
    PushUpPair(m, d, p, t, ds);
    forall n | n in m
      ensures OwedAt(PushUp(m, p, t), n, p, m[p].parent, ds)
    {
      if n != p && n != t {
        AtNode(m, s, root, n);
        assert ColorAt(m, n, null, p, d);
        PushUpRest(m, s, root, d, p, t, ds, n);
      }
    }
  }

  lemma PushUpOwing(m: Cells, s: seq<Node>, root: Node?, d: Side, p: Node, elm: Node?, t: Node) returns (ds: Side)
    requires Shape(m, s, root) && Owing(m, root, p, elm, d) && !IsRed(m, elm)
    requires m[p].Kid(Other(d)) == t && t in m && !IsRed(m, t) && !IsRed(m, m[t].left) && !IsRed(m, m[t].right)
    ensures p != t && Owing(PushUp(m, p, t), root, m[p].parent, p, ds) && |s| >= m[p].hi - m[p].lo
    ensures var g := m[p].parent; g != null ==> g in m && g != t && m[g].hi - m[g].lo > m[p].hi - m[p].lo
  {
    AtNode(m, s, root, p);
    if m[p].parent != null { AtNode(m, s, root, m[p].parent); }
    AtNode(m, s, root, t);
    ds := if m[p].parent != null && m[m[p].parent].left == p then L else R;
    OwedBlack(m, s, root, elm, p, d);
    PushUpOwed(m, s, root, d, p, t, ds);
  }

  /** Black sibling with a red inner child `i` only: `i` goes black and rises over the sibling, now red. */
  ghost function InnerRed(m: Cells, d: Side, t: Node, i: Node): Cells
    requires t in m && i in m
  {
    Rot(Paint(Paint(m, i, Black, m[i].bh + 1), t, Red, m[t].bh - 1), Other(d), t, i)
  }

  lemma InnerRedColors(m: Cells, s: seq<Node>, root: Node?, d: Side, p: Node, t: Node, i: Node)
    requires Shape(m, s, root) && Colors(m, null, p, d)
    requires p in m && m[p].Kid(Other(d)) == t && t in m && m[t].Kid(d) == i && i in m
    requires !IsRed(m, t) && IsRed(m, i) && !IsRed(m, m[t].Kid(Other(d)))
    ensures Colors(InnerRed(m, d, t, i), null, p, d)
  {
    AtNode(m, s, root, p);
    AtNode(m, s, root, t);
    assert ColorAt(m, t, null, p, d);
    assert ColorAt(m, i, null, p, d);
    TurnColors(m, s, root, Other(d), t, i, Red, m[t].bh - 1, Black, m[i].bh + 1, null, p, d);
  }

  lemma InnerRedLinks(m: Cells, s: seq<Node>, root: Node?, d: Side, p: Node, t: Node, i: Node)
    requires Shape(m, s, root) && p in m && m[p].Kid(Other(d)) == t && t in m && m[t].Kid(d) == i && i in m
    ensures var m' := InnerRed(m, d, t, i);
      && root != t && root != i && m'[p].Kid(Other(d)) == i && m'[i].Kid(Other(d)) == t && m'[p].Kid(d) == m[p].Kid(d)
      && (forall e :: e in m && e == m[p].Kid(d) ==> e != t && e != i && m'[e].parent == m[e].parent)
  {
    AtNode(m, s, root, p);
    AtNode(m, s, root, t);
    AtNode(m, s, root, i);
  }

  lemma InnerRedOwing(m: Cells, s: seq<Node>, root: Node?, d: Side, p: Node, elm: Node?, t: Node, i: Node)
    requires Shape(m, s, root) && p in m && Owing(m, root, p, elm, d) && !IsRed(m, elm)
    requires m[p].Kid(Other(d)) == t && t in m && m[t].Kid(d) == i && i in m
    requires !IsRed(m, t) && IsRed(m, i) && !IsRed(m, m[t].Kid(Other(d)))
    ensures var m' := InnerRed(m, d, t, i);
      && root != t && Owing(m', root, p, elm, d) && m'[p].Kid(Other(d)) == i && !IsRed(m', i)
      && m'[i].Kid(Other(d)) == t && IsRed(m', t) && !IsRed(m', elm)
  {
    OwedBlack(m, s, root, elm, p, d);
    InnerRedColors(m, s, root, d, p, t, i);
    ColorsOwed(InnerRed(m, d, t, i), elm, p, d);
    InnerRedLinks(m, s, root, d, p, t, i);
  }

  /** Black sibling with a red outer child `o`: it rises over `p` with `p`'s colour; `p` and `o` go black. */
  ghost function OuterRed(m: Cells, d: Side, p: Node, t: Node, o: Node): Cells
    requires p in m && t in m && o in m
  {
    var m1 := Paint(m, o, Black, m[o].bh + 1);
    Rot(Paint(Paint(m1, t, m[p].color, m[p].bh), p, Black, m[t].bh), d, p, t)
  }

  lemma PaintTripleShape(m: Cells, s: seq<Node>, root: Node?, x: Node, cx: Color, hx: int, y: Node, cy: Color, hy: int, z: Node, cz: Color, hz: int)
    requires Shape(m, s, root) && x in m && y in m && z in m && x != y && y != z && x != z
    ensures Shape(Paint(Paint(Paint(m, z, cz, hz), x, cx, hx), y, cy, hy), s, root)
    ensures Paint(Paint(Paint(m, x, cx, hx), y, cy, hy), z, cz, hz) == Paint(Paint(Paint(m, z, cz, hz), x, cx, hx), y, cy, hy)
  {
    var m1 := Paint(m, z, cz, hz);
    PaintShape(m, s, root, z, cz, hz);
    PaintShape(m1, s, root, x, cx, hx);
    PaintShape(Paint(m1, x, cx, hx), s, root, y, cy, hy);
  }

  lemma OuterRedRoot(m: Cells, s: seq<Node>, root: Node?, d: Side, p: Node, t: Node, o: Node)
    requires Shape(m, s, root) && p in m && m[p].Kid(Other(d)) == t && t in m && m[t].Kid(Other(d)) == o && o in m
    requires !IsRed(m, root)
    ensures !IsRed(OuterRed(m, d, p, t, o), if root == p then t else root)
    ensures p != t && t != o && o != p
  {
    assert ShapeAt(m, s, root, p);
    assert ShapeAt(m, s, root, t);
    assert ShapeAt(m, s, root, o);
  }

  lemma OuterRedOthers(m: Cells, s: seq<Node>, root: Node?, d: Side, p: Node, t: Node, o: Node)
    requires Shape(m, s, root) && Colors(m, null, p, d) && o in m && m[o].parent == t && IsRed(m, o)
    ensures Others(Paint(m, o, Black, m[o].bh + 1), p, t, null, null, L)
  {
    var m1 := Paint(m, o, Black, m[o].bh + 1);
    forall n | n in m && n != p && n != t
      ensures ColorAt(m1, n, null, null, L)
    {
      AtNode(m, s, root, n);
      assert ColorAt(m, n, null, p, d);
    }
  }

  lemma OuterRedColors(m: Cells, s: seq<Node>, root: Node?, d: Side, p: Node, t: Node, o: Node)
    requires Shape(m, s, root) && Colors(m, null, p, d)
    requires p in m && m[p].Kid(Other(d)) == t && t in m && m[t].Kid(Other(d)) == o && o in m
    requires !IsRed(m, t) && IsRed(m, o) && !IsRed(m, m[p].Kid(d))
    ensures Colors(OuterRed(m, d, p, t, o), null, null, L)
  {
    var m1 := Paint(m, o, Black, m[o].bh + 1);
    PaintShape(m, s, root, o, Black, m[o].bh + 1);
    AtNode(m, s, root, p);
    AtNode(m, s, root, t);
    OuterRedOthers(m, s, root, d, p, t, o);
    assert ColorAt(m, p, null, p, d);
    assert ColorAt(m, t, null, p, d);
    HNonneg(m, m[p].Kid(d), null, p, d);
    if m[p].parent != null { assert ColorAt(m, m[p].parent, null, p, d); }
    TurnColors(m1, s, root, d, p, t, Black, m[t].bh, m[p].color, m[p].bh, null, null, L);
  }

  /** The sibling of the owing side exists. */
  lemma SiblingThere(m: Cells, s: seq<Node>, root: Node?, d: Side, p: Node, elm: Node?)
    requires Shape(m, s, root) && p in m && Owed(m, elm, p, d) && m[p].Kid(d) == elm
    ensures m[p].Kid(Other(d)) != null && m[p].Kid(Other(d)) in m
  {
    assert ShapeAt(m, s, root, p);
    assert OwedAt(m, p, elm, p, d);
    if elm != null { assert OwedAt(m, elm, elm, p, d); }
  }

  /** Painting the owing child black settles the debt. */
  lemma Settle(m: Cells, s: seq<Node>, root: Node?, elm: Node, dp: Node?, ds: Side)
    requires Shape(m, s, root) && elm in m && Owed(m, elm, dp, ds)
    requires IsRed(m, elm) && m[elm].parent == dp && (dp != null ==> dp in m && m[dp].Kid(ds) == elm)
    requires IsRed(m, root) ==> root == elm
    ensures Balanced(Paint(m, elm, Black, m[elm].bh + 1), root)
  {
    var m' := Paint(m, elm, Black, m[elm].bh + 1);
    forall n | n in m'
      ensures ColorAt(m', n, null, null, L)
    {
      assert ShapeAt(m, s, root, n);
      assert OwedAt(m, n, elm, dp, ds);
      if n == dp { assert ShapeAt(m, s, root, elm); }
    }
  }

  /** Where the removal loop stops with the whole tree short, or no one, nothing is owed. */
  lemma NothingOwed(m: Cells, s: seq<Node>, root: Node?, elm: Node?, ds: Side)
    requires Owed(m, elm, null, ds) && !IsRed(m, elm) && elm == root
    ensures Balanced(m, root)
  {
    OwedBlack(m, s, root, elm, null, ds);
    forall n | n in m
      ensures ColorAt(m, n, null, null, L)
    {
      assert ColorAt(m, n, null, null, ds);
    }
  }

  // ---------- Adding and taking out nodes: positions after the gap shift by one ----------

  ghost function Up(x: int, k: int, strict: bool): int { if x > k || (x == k && !strict) then x + 1 else x }

  ghost function Down(x: int, k: int): int { if x > k then x - 1 else x }

  /** A new red leaf `e` below `p` on side `d`, or as the root when `p` is null. */
  ghost function Grow(m: Cells, e: Node, p: Node?, d: Side, k: int): Cells
    requires p != null ==> p in m
  {
    map n | n in m.Keys + {e} ::
      if n == e then Cell(null, null, p, Red, k, k, k + 1, 0)
      else
        var c := m[n];
        c.(pos := Up(c.pos, k, false), lo := Up(c.lo, k, d.L?), hi := Up(c.hi, k, d.L?),
           left := if n == p && d.L? then e else c.left, right := if n == p && d.R? then e else c.right)
  }

  ghost function GrowIndex(m: Cells, p: Node?, d: Side): int
    requires p != null ==> p in m
  {
    if p == null then 0 else if d.L? then m[p].pos else m[p].pos + 1
  }

  lemma GrowAt(m: Cells, s: seq<Node>, root: Node?, e: Node, p: Node, d: Side, n: Node)
    requires e !in m && p in m && m[p].Kid(d) == null && n in m
    requires ShapeAt(m, s, root, n) && ShapeAt(m, s, root, p)
    ensures var k := GrowIndex(m, p, d);
      ShapeAt(Grow(m, e, p, d, k), s[..k] + [e] + s[k..], root, n)
  {
    var k := GrowIndex(m, p, d);
    var m' := Grow(m, e, p, d, k);
    var s' := s[..k] + [e] + s[k..];
    assert KidAt(m', n, m'[n].left, m'[n].lo, m'[n].pos) by { assert m[n].left != null ==> m[n].left in m'; }
    assert KidAt(m', n, m'[n].right, m'[n].pos + 1, m'[n].hi) by { assert m[n].right != null ==> m[n].right in m'; }
    assert UpAt(m', s', root, n);
  }

  lemma GrowShape(m: Cells, s: seq<Node>, root: Node?, e: Node, p: Node?, d: Side)
    requires Shape(m, s, root) && e !in m && (if p == null then root == null && s == [] else p in m && m[p].Kid(d) == null)
    ensures var k := GrowIndex(m, p, d);
      0 <= k <= |s| && Shape(Grow(m, e, p, d, k), s[..k] + [e] + s[k..], if p == null then e else root)
  {
    if p != null { AtNode(m, s, root, p); }
    var k := GrowIndex(m, p, d);
    GrowLeaf(m, s, root, e, p, d);
    GrowPlaced(m, s, e, p, d, k);
    forall n | n in m
      ensures p != null && ShapeAt(Grow(m, e, p, d, k), s[..k] + [e] + s[k..], root, n)
    {
      AtNode(m, s, root, n);
      GrowAt(m, s, root, e, p, d, n);
    }
  }

  lemma GrowLeaf(m: Cells, s: seq<Node>, root: Node?, e: Node, p: Node?, d: Side)
    requires Shape(m, s, root) && e !in m && (if p == null then root == null && s == [] else p in m && m[p].Kid(d) == null)
    requires 0 <= GrowIndex(m, p, d) <= |s|
    ensures var k := GrowIndex(m, p, d);
      var m', s', r' := Grow(m, e, p, d, k), s[..k] + [e] + s[k..], if p == null then e else root;
      RootAt(m', s', r') && ShapeAt(m', s', r', e)
  {
    if root != null { AtNode(m, s, root, root); }
    if p != null { AtNode(m, s, root, p); }
  }

  lemma GrowPlaced(m: Cells, s: seq<Node>, e: Node, p: Node?, d: Side, k: int)
    requires Placed(m, s) && e !in m && (p != null ==> p in m) && 0 <= k <= |s|
    ensures Placed(Grow(m, e, p, d, k), s[..k] + [e] + s[k..])
  {
    var m' := Grow(m, e, p, d, k);
    var s' := s[..k] + [e] + s[k..];
    forall i | 0 <= i < |s'|
      ensures s'[i] in m' && m'[s'[i]].pos == i
    {
      if i < k { assert s'[i] == s[i]; } else if i > k { assert s'[i] == s[i - 1]; }
    }
  }

  lemma AtNode(m: Cells, s: seq<Node>, root: Node?, n: Node)
    requires Shape(m, s, root) && n in m
    ensures ShapeAt(m, s, root, n)
  {
  }

  lemma NoNodes(m: Cells)
    requires Shape(m, [], null)
    ensures m == map[]
  {
    if n: Node :| n in m { AtNode(m, [], null, n); }
  }

  lemma GrowLinks(m: Cells, s: seq<Node>, root: Node?, e: Node, p: Node?, d: Side, k: int)
    requires Shape(m, s, root) && e !in m && (if p == null then root == null && s == [] else p in m)
    ensures var m1 := m[e := Cell(null, null, p, Red, k, k, k + 1, 0)];
      SameLinks(if p == null then m1 else PutKid(m1, p, d, e), Grow(m, e, p, d, k))
  {
    if p == null { NoNodes(m); }
  }

  lemma GrowColors(m: Cells, s: seq<Node>, root: Node?, e: Node, p: Node?, d: Side, k: int)
    requires Shape(m, s, root) && Colors(m, null, null, L)
    requires e !in m && (if p == null then root == null && s == [] else p in m && m[p].Kid(d) == null)
    ensures Colors(Grow(m, e, p, d, k), e, null, L)
  {
    var m' := Grow(m, e, p, d, k);
    forall n | n in m'
      ensures ColorAt(m', n, e, null, L)
    {
      if n != e {
        assert ShapeAt(m, s, root, n);
        assert ColorAt(m, n, null, null, L);
      }
    }
  }

  ghost predicate OneKid(m: Cells, e: Node, c: Node?)
    requires e in m
  {
    (m[e].left == null && m[e].right == c) || (m[e].right == null && m[e].left == c)
  }

  /** `e`, which has at most the child `c`, taken out: `c` takes its place. */
  ghost function Splice(m: Cells, e: Node, c: Node?): Cells
    requires e in m
  {
    var k := m[e].pos;
    map n | n in m && n != e ::
      var q := m[n];
      q.(pos := Down(q.pos, k), lo := Down(q.lo, k), hi := Down(q.hi, k),
         left := if q.left == e then c else q.left, right := if q.right == e then c else q.right,
         parent := if n == c then m[e].parent else q.parent)
  }

  lemma SpliceKids(m: Cells, s: seq<Node>, root: Node?, e: Node, c: Node?, n: Node)
    requires e in m && OneKid(m, e, c) && n in m && n != e
    requires ShapeAt(m, s, root, n) && ShapeAt(m, s, root, e) && (c != null ==> c in m && ShapeAt(m, s, root, c))
    ensures var m' := Splice(m, e, c);
      KidAt(m', n, m'[n].left, m'[n].lo, m'[n].pos) && KidAt(m', n, m'[n].right, m'[n].pos + 1, m'[n].hi)
  {
  }

  lemma SpliceUp(m: Cells, s: seq<Node>, root: Node?, e: Node, c: Node?, n: Node)
    requires e in m && OneKid(m, e, c) && n in m && n != e
    requires ShapeAt(m, s, root, n) && ShapeAt(m, s, root, e) && (c != null ==> c in m && ShapeAt(m, s, root, c))
    ensures var k := m[e].pos; UpAt(Splice(m, e, c), s[..k] + s[k + 1..], if root == e then c else root, n)
  {
  }

  lemma SpliceAt(m: Cells, s: seq<Node>, root: Node?, e: Node, c: Node?, n: Node)
    requires e in m && OneKid(m, e, c) && n in m && n != e
    requires ShapeAt(m, s, root, n) && ShapeAt(m, s, root, e) && (c != null ==> c in m && ShapeAt(m, s, root, c))
    ensures var k := m[e].pos;
      ShapeAt(Splice(m, e, c), s[..k] + s[k + 1..], if root == e then c else root, n)
  {
    SpliceKids(m, s, root, e, c, n);
    SpliceUp(m, s, root, e, c, n);
  }

  lemma SplicePlaced(m: Cells, s: seq<Node>, e: Node, c: Node?)
    requires Placed(m, s) && e in m && 0 <= m[e].pos < |s| && s[m[e].pos] == e
    ensures var k := m[e].pos; Placed(Splice(m, e, c), s[..k] + s[k + 1..])
  {
    var k := m[e].pos;
    var m' := Splice(m, e, c);
    var s' := s[..k] + s[k + 1..];
    forall i | 0 <= i < |s'|
      ensures s'[i] in m' && m'[s'[i]].pos == i
    {
      if i < k { assert s'[i] == s[i]; } else { assert s'[i] == s[i + 1]; }
    }
  }

  lemma SpliceRoot(m: Cells, s: seq<Node>, root: Node?, e: Node, c: Node?)
    requires Shape(m, s, root) && e in m && OneKid(m, e, c)
    ensures var k := m[e].pos; 0 <= k < |s| && RootAt(Splice(m, e, c), s[..k] + s[k + 1..], if root == e then c else root)
  {
    AtNode(m, s, root, e);
    if c != null { AtNode(m, s, root, c); }
  }

  lemma SpliceShape(m: Cells, s: seq<Node>, root: Node?, e: Node, c: Node?)
    requires Shape(m, s, root) && e in m && OneKid(m, e, c)
    ensures var k := m[e].pos;
      0 <= k < |s| && s[k] == e && Shape(Splice(m, e, c), s[..k] + s[k + 1..], if root == e then c else root)
  {
    AtNode(m, s, root, e);
    SplicePlaced(m, s, e, c);
    SpliceRoot(m, s, root, e, c);
    forall n | n in m && n != e
      ensures ShapeAt(Splice(m, e, c), s[..m[e].pos] + s[m[e].pos + 1..], if root == e then c else root, n)
    {
      AtNode(m, s, root, n);
      if c != null { AtNode(m, s, root, c); }
      SpliceAt(m, s, root, e, c, n);
    }
  }

  lemma SpliceOwedAt(m: Cells, s: seq<Node>, root: Node?, e: Node, c: Node?, d: Side, n: Node)
    requires e in m && OneKid(m, e, c) && n in m && n != e && (c != null ==> c in m && c != e)
    requires ColorAt(m, e, null, null, L) && ColorAt(m, n, null, null, L) && ShapeAt(m, s, root, n) && 0 <= H(m, c)
    requires m[e].parent != null ==> m[e].parent in m && m[m[e].parent].Kid(d) == e
    ensures if m[e].color.Red? then ColorAt(Splice(m, e, c), n, null, null, L) else OwedAt(Splice(m, e, c), n, c, m[e].parent, d)
  {
  }

  lemma SpliceOwed(m: Cells, s: seq<Node>, root: Node?, e: Node, c: Node?, d: Side)
    requires Shape(m, s, root) && Colors(m, null, null, L) && e in m && OneKid(m, e, c)
    requires m[e].parent != null ==> m[e].parent in m && m[m[e].parent].Kid(d) == e
    ensures if m[e].color.Red? then Colors(Splice(m, e, c), null, null, L)
            else Owed(Splice(m, e, c), c, m[e].parent, d)
  {
    AtNode(m, s, root, e);
    HNonneg(m, c, null, null, L);
    assert ColorAt(m, e, null, null, L);
    forall n | n in m && n != e
      ensures if m[e].color.Red? then ColorAt(Splice(m, e, c), n, null, null, L) else OwedAt(Splice(m, e, c), n, c, m[e].parent, d)
    {
      AtNode(m, s, root, n);
      assert ColorAt(m, n, null, null, L);
      SpliceOwedAt(m, s, root, e, c, d, n);
    }
  }

  /** What else the removal fix-up needs to know after a splice. */
  lemma SpliceDebt(m: Cells, s: seq<Node>, root: Node?, e: Node, c: Node?, d: Side)
    requires Shape(m, s, root) && Balanced(m, root) && e in m && OneKid(m, e, c)
    requires m[e].parent != null ==> m[e].parent in m && m[m[e].parent].Kid(d) == e
    ensures var m', p, r := Splice(m, e, c), m[e].parent, if root == e then c else root;
      && m'.Keys == m.Keys - {e}
      && (c != null ==> c in m' && m'[c].parent == p)
      && (if p == null then c == r else p in m' && m'[p].Kid(d) == c)
      && (IsRed(m', r) ==> r == c && m[e].color.Black?)
  {
    AtNode(m, s, root, e);
    if root != null { AtNode(m, s, root, root); }
    if c != null { AtNode(m, s, root, c); }
  }

  /** `e` from outside the tree takes over all the links of `old`. */
  ghost function Replace(m: Cells, old_: Node, e: Node): Cells
    requires old_ in m
  {
    map n | n in m.Keys - {old_} + {e} ::
      if n == e then m[old_]
      else
        m[n].(left := if m[n].left == old_ then e else m[n].left,
              right := if m[n].right == old_ then e else m[n].right,
              parent := if m[n].parent == old_ then e else m[n].parent)
  }

  lemma ReplaceAt(m: Cells, s: seq<Node>, root: Node?, old_: Node, e: Node, o: Node)
    requires old_ in m && e !in m && o in m
    requires ShapeAt(m, s, root, old_) && ShapeAt(m, s, root, o)
    ensures ShapeAt(Replace(m, old_, e), s[m[old_].pos := e], if root == old_ then e else root, if o == old_ then e else o)
  {
    var m' := Replace(m, old_, e);
    var s' := s[m[old_].pos := e];
    var r' := if root == old_ then e else root;
    var n := if o == old_ then e else o;
    assert KidAt(m', n, m'[n].left, m'[n].lo, m'[n].pos);
    assert KidAt(m', n, m'[n].right, m'[n].pos + 1, m'[n].hi);
    assert UpAt(m', s', r', n);
  }

  lemma ReplaceShape(m: Cells, s: seq<Node>, root: Node?, old_: Node, e: Node)
    requires Shape(m, s, root) && old_ in m && e !in m
    ensures 0 <= m[old_].pos < |s| && Shape(Replace(m, old_, e), s[m[old_].pos := e], if root == old_ then e else root)
  {
    assert ShapeAt(m, s, root, old_);
    var m' := Replace(m, old_, e);
    var s' := s[m[old_].pos := e];
    var r' := if root == old_ then e else root;
    assert RootAt(m', s', r');
    assert Placed(m', s');
    forall n | n in m'
      ensures ShapeAt(m', s', r', n)
    {
      var o := if n == e then old_ else n;
      assert ShapeAt(m, s, root, o);
      ReplaceAt(m, s, root, old_, e, o);
    }
  }

  lemma ReplaceOwedAt(m: Cells, s: seq<Node>, root: Node?, old_: Node, e: Node, elm: Node?, dp: Node?, ds: Side, o: Node)
    requires old_ in m && e !in m && elm != old_ && dp != e && elm != e && o in m
    requires ShapeAt(m, s, root, o) && OwedAt(m, o, elm, dp, ds)
    ensures OwedAt(Replace(m, old_, e), if o == old_ then e else o, elm, if dp == old_ then e else dp, ds)
  {
  }

  lemma ReplaceOwed(m: Cells, s: seq<Node>, root: Node?, old_: Node, e: Node, elm: Node?, dp: Node?, ds: Side)
    requires Shape(m, s, root) && old_ in m && e !in m && Owed(m, elm, dp, ds) && elm != old_ && dp != e && elm != e
    ensures Owed(Replace(m, old_, e), elm, if dp == old_ then e else dp, ds)
  {
    forall n | n in Replace(m, old_, e)
      ensures OwedAt(Replace(m, old_, e), n, elm, if dp == old_ then e else dp, ds)
    {
      var o := if n == e then old_ else n;
      AtNode(m, s, root, o);
      assert OwedAt(m, o, elm, dp, ds);
      ReplaceOwedAt(m, s, root, old_, e, elm, dp, ds, o);
    }
  }

  /** The link assignments that take `e` out, its only child `c` moving up. */
  ghost function SpliceSteps(m: Cells, e: Node, c: Node?): Cells
    requires e in m && (c != null ==> c in m) && (m[e].parent != null ==> m[e].parent in m)
  {
    var p := m[e].parent;
    var m1 := PutParent(m, c, p);
    if p == null then m1 else PutKid(m1, p, if m[p].left == e then L else R, c)
  }

  lemma SpliceLinks(m: Cells, s: seq<Node>, root: Node?, e: Node, c: Node?)
    requires Shape(m, s, root) && e in m && OneKid(m, e, c)
    requires (c != null ==> c in m) && (m[e].parent != null ==> m[e].parent in m)
    ensures SameLinks(SpliceSteps(m, e, c), Splice(m, e, c))
  {
    var m', r, p := SpliceSteps(m, e, c), Splice(m, e, c), m[e].parent;
    AtNode(m, s, root, e);
    if p != null { AtNode(m, s, root, p); }
    forall n | n in r
      ensures m'[n].left == r[n].left && m'[n].right == r[n].right && m'[n].parent == r[n].parent && m'[n].color == r[n].color
    {
      AtNode(m, s, root, n);
    }
  }

  /** The link assignments by which `e` takes over from `o`. */
  ghost function ReplaceSteps(m: Cells, o: Node, e: Node): Cells
    requires o in m && (m[o].parent != null ==> m[o].parent in m)
    requires (m[o].left != null ==> m[o].left in m) && (m[o].right != null ==> m[o].right in m)
  {
    var p := m[o].parent;
    var m1 := m[e := m[o]];
    var m2 := if p == null then m1 else PutKid(m1, p, if m[p].left == o then L else R, e);
    PutParent(PutParent(m2, m[o].left, e), m[o].right, e)
  }

  lemma ReplaceLinksAt(m: Cells, o: Node, e: Node, p: Node?, n: Node)
    requires o in m && e !in m && n in m && n != o && m[o].parent == p && p != o
    requires (m[o].left != null ==> m[o].left in m) && (m[o].right != null ==> m[o].right in m)
    requires p != null ==> p in m && (m[p].left == o) != (m[p].right == o)
    requires n != p ==> m[n].left != o && m[n].right != o
    requires m[n].parent == o <==> m[o].left == n || m[o].right == n
    ensures var q, r := ReplaceSteps(m, o, e)[n], Replace(m, o, e)[n];
      q.left == r.left && q.right == r.right && q.parent == r.parent && q.color == r.color
  {
  }

  lemma ReplaceLinks(m: Cells, s: seq<Node>, root: Node?, o: Node, e: Node)
    requires Shape(m, s, root) && o in m && e !in m && (m[o].parent != null ==> m[o].parent in m)
    requires (m[o].left != null ==> m[o].left in m) && (m[o].right != null ==> m[o].right in m)
    ensures SameLinks(ReplaceSteps(m, o, e), Replace(m, o, e))
  {
    var m', r, p := ReplaceSteps(m, o, e), Replace(m, o, e), m[o].parent;
    AtNode(m, s, root, o);
    if p != null { AtNode(m, s, root, p); }
    forall n | n in r
      ensures m'[n].left == r[n].left && m'[n].right == r[n].right && m'[n].parent == r[n].parent && m'[n].color == r[n].color
    {
      if n != e {
        AtNode(m, s, root, n);
        ReplaceLinksAt(m, o, e, p, n);
      }
    }
  }

  lemma ReplaceDebt(m: Cells, root: Node?, o: Node, e: Node, c: Node?, p: Node, d: Side)
    requires o in m && e !in m && p in m && c != o && c != e && m[p].Kid(d) == c && (c != null ==> c in m && m[c].parent == p)
    requires (IsRed(m, root) ==> root == c) && root != e
    ensures var m', q := Replace(m, o, e), if p == o then e else p;
      && q in m' && m'[q].Kid(d) == c && (c != null ==> c in m' && m'[c].parent == q)
      && (IsRed(m', if root == o then e else root) ==> (if root == o then e else root) == c)
  {
  }

  /** A node `o` with two children gives way to its successor `e`, itself spliced out first. */
  ghost function Swap(m: Cells, o: Node, e: Node, c: Node?): Cells
    requires e in m && o in m && o != e
  {
    Replace(Splice(m, e, c), o, e)
  }

  lemma SwapSeq(s: seq<Node>, k: int)
    requires 0 <= k && k + 1 < |s|
    ensures (s[..k + 1] + s[k + 2..])[k := s[k + 1]] == s[..k] + s[k + 1..]
  {
  }

  lemma SwapPlace(m: Cells, s: seq<Node>, root: Node?, o: Node, e: Node, c: Node?)
    requires Shape(m, s, root) && o in m && e in m && o != e && m[e].pos == m[o].pos + 1
    ensures var m1, k := Splice(m, e, c), m[o].pos;
      && 0 <= k && k + 1 < |s| && s[k] == o && s[k + 1] == e && o in m1 && e !in m1 && m1[o].pos == k
      && (s[..k + 1] + s[k + 2..])[k := e] == s[..k] + s[k + 1..]
  {
    AtNode(m, s, root, o);
    AtNode(m, s, root, e);
    SwapSeq(s, m[o].pos);
  }

  /** The balance of the tree after the swap: intact if `e` was red, else one black short at `c`. */
  lemma SwapOwed(m: Cells, s: seq<Node>, root: Node?, o: Node, e: Node, c: Node?, p: Node, d: Side)
    requires Shape(m, s, root) && Balanced(m, root) && o in m && e in m && OneKid(m, e, c)
    requires m[e].pos == m[o].pos + 1 && p in m && m[e].parent == p && m[p].Kid(d) == e && c != o
    ensures var m', q, r := Swap(m, o, e, c), if p == o then e else p, if root == o then e else root;
      m'.Keys == m.Keys - {o} && if m[e].color.Red? then Balanced(m', r) else Owing(m', r, q, c, d)
  {
    var m1 := Splice(m, e, c);
    AtNode(m, s, root, e);
    if root != null { AtNode(m, s, root, root); }
    assert root != e;
    SpliceShape(m, s, root, e, c);
    SpliceOwed(m, s, root, e, c, d);
    SpliceDebt(m, s, root, e, c, d);
    var s1 := s[..m[e].pos] + s[m[e].pos + 1..];
    ReplaceDebt(m1, root, o, e, c, p, d);
    if m[e].color.Red? {
      ColorsOwed(m1, null, null, L);
      ReplaceOwed(m1, s1, root, o, e, null, null, L);
      OwedBlack(Replace(m1, o, e), s, root, null, null, L);
    } else {
      ReplaceOwed(m1, s1, root, o, e, c, p, d);
    }
  }
}
