/** The pure side of top-down splaying. A splay under way is a tree cut into three zones of the in-order
    sequence: left of `a`, the middle `a..b` still under the head, and right of `b`. The left zone hangs
    off the header's right link and is open below `lt`; the right zone off its left link, open below `rt`. */
module SplayCells {
  import opened Trees

  class Node {
    const key: int
    var left: Node?
    var right: Node?

    constructor (k: int)
      ensures key == k && left == null && right == null
    {
      key := k;
      left, right := null, null;
    }
  }

  /** Both links, the index in the in-order sequence, the range of indices below, and the node above. */
  datatype Cell = Cell(left: Node?, right: Node?, up: Node?, pos: int, lo: int, hi: int) {
    ghost function Kid(d: Side): Node? { if d.L? then left else right }
  }

  type Cells = map<Node, Cell>

  datatype Zones = Zones(a: int, b: int, lt: Node?, rt: Node?)

  /** Nothing cut off. */
  ghost function Whole(s: seq<Node>): Zones { Zones(0, |s|, null, null) }

  ghost predicate KidAt(m: Cells, n: Node?, k: Node?, lo: int, hi: int)
  {
    if k == null then lo == hi else k in m && m[k].up == n && m[k].lo == lo && m[k].hi == hi
  }

  ghost predicate LeftAt(m: Cells, s: seq<Node>, z: Zones, n: Node)
    requires n in m
  {
    if n == z.rt then m[n].lo == 0 && m[n].pos == z.b else
      KidAt(m, n, m[n].left, m[n].lo, m[n].pos) && (m[n].pos >= z.b ==> m[n].left != null ==> m[m[n].left].pos >= z.b)
  }

  ghost predicate RightAt(m: Cells, s: seq<Node>, z: Zones, n: Node)
    requires n in m
  {
    if n == z.lt then m[n].hi == |s| && m[n].pos == z.a - 1 else
      KidAt(m, n, m[n].right, m[n].pos + 1, m[n].hi) && (m[n].pos < z.a ==> m[n].right != null ==> m[m[n].right].pos < z.a)
  }

  ghost predicate At(m: Cells, s: seq<Node>, z: Zones, n: Node)
    requires n in m
  {
    && 0 <= m[n].lo <= m[n].pos < m[n].hi <= |s| && s[m[n].pos] == n
    && LeftAt(m, s, z, n)
    && RightAt(m, s, z, n)
  }

  ghost predicate Placed(m: Cells, s: seq<Node>)
  {
    forall i {:trigger s[i]} :: 0 <= i < |s| ==> s[i] in m && m[s[i]].pos == i
  }

  ghost predicate Zoned(m: Cells, s: seq<Node>, root: Node?, z: Zones)
  {
    && Placed(m, s)
    && 0 <= z.a <= z.b <= |s|
    && KidAt(m, null, root, z.a, z.b)
    && (root != null ==> z.a <= m[root].pos < z.b)
    && (forall n {:trigger At(m, s, z, n)} :: n in m ==> At(m, s, z, n))
  }

  /** A whole tree: one zone, nothing cut off. */
  ghost predicate Shape(m: Cells, s: seq<Node>, root: Node?)
  {
    Zoned(m, s, root, Whole(s))
  }

  lemma AtNode(m: Cells, s: seq<Node>, root: Node?, z: Zones, n: Node)
    requires Zoned(m, s, root, z) && n in m
    ensures At(m, s, z, n)
  {
  }

  /** The header's links to the tops of the cut-off parts. */
  ghost predicate Hung(m: Cells, s: seq<Node>, z: Zones, hdr: Node, hl: Node?, hr: Node?)
  {
    && hdr !in m
    && (if z.a == 0 then z.lt == hdr else z.lt != null && z.lt in m && KidAt(m, hdr, hr, 0, |s|) && hr != null && m[hr].pos < z.a)
    && (if z.b == |s| then z.rt == hdr else z.rt != null && z.rt in m && KidAt(m, hdr, hl, 0, |s|) && hl != null && m[hl].pos >= z.b)
  }

  /** Whatever lies in the range of a node of the middle zone has its whole range there. */
  lemma {:induction false} Nested(m: Cells, s: seq<Node>, root: Node?, z: Zones, y: Node, n: Node)
    requires Zoned(m, s, root, z) && y in m && n in m && z.a <= m[y].lo && m[y].hi <= z.b && m[y].lo <= m[n].pos < m[y].hi
    ensures m[y].lo <= m[n].lo && m[n].hi <= m[y].hi
    decreases m[y].hi - m[y].lo
  {
    AtNode(m, s, root, z, y);
    AtNode(m, s, root, z, n);
    if m[n].pos < m[y].pos {
      Nested(m, s, root, z, m[y].left, n);
    } else if m[n].pos > m[y].pos {
      Nested(m, s, root, z, m[y].right, n);
    }
  }

  // ---------- Rotation at the top of the middle zone ----------

  /** The head `x` goes down on side `o`, its child `y` on the other side comes up. */
  ghost function Rot(m: Cells, o: Side, x: Node, y: Node): Cells
    requires x in m && y in m
  {
    map n | n in m ::
      if n == x then
        if o.R? then m[n].(left := m[y].right, up := y, lo := m[y].pos + 1)
        else m[n].(right := m[y].left, up := y, hi := m[y].pos)
      else if n == y then
        if o.R? then m[n].(right := x, up := null, hi := m[x].hi) else m[n].(left := x, up := null, lo := m[x].lo)
      else m[n].(up := if n == m[y].Kid(o) then x else m[n].up)
  }

  lemma RotLeftAt(m: Cells, s: seq<Node>, x: Node, z: Zones, o: Side, y: Node, n: Node)
    requires 0 <= z.a <= z.b <= |s| && x in m && m[x].Kid(Other(o)) == y && y in m && n in m
    requires KidAt(m, null, x, z.a, z.b) && z.a <= m[x].pos < z.b && At(m, s, z, x) && At(m, s, z, y) && At(m, s, z, n) && m[y].Kid(o) != x && y != z.lt && y != z.rt
    ensures LeftAt(Rot(m, o, x, y), s, z, n)
  {
  }

  lemma RotRightAt(m: Cells, s: seq<Node>, x: Node, z: Zones, o: Side, y: Node, n: Node)
    requires 0 <= z.a <= z.b <= |s| && x in m && m[x].Kid(Other(o)) == y && y in m && n in m
    requires KidAt(m, null, x, z.a, z.b) && z.a <= m[x].pos < z.b && At(m, s, z, x) && At(m, s, z, y) && At(m, s, z, n) && m[y].Kid(o) != x && y != z.lt && y != z.rt
    ensures RightAt(Rot(m, o, x, y), s, z, n)
  {
  }

  lemma RotTop(m: Cells, s: seq<Node>, x: Node, z: Zones, o: Side, y: Node)
    requires Zoned(m, s, x, z) && x in m && m[x].Kid(Other(o)) == y
    ensures y in m && At(m, s, z, x) && At(m, s, z, y) && m[y].Kid(o) != x && y != z.lt && y != z.rt
    ensures z.a <= m[y].pos < z.b && KidAt(Rot(m, o, x, y), null, y, z.a, z.b) && Placed(Rot(m, o, x, y), s)
  {
    AtNode(m, s, x, z, x);
    AtNode(m, s, x, z, y);
  }

  lemma RotZoned(m: Cells, s: seq<Node>, x: Node, z: Zones, o: Side, y: Node)
    requires Zoned(m, s, x, z) && x in m && m[x].Kid(Other(o)) == y
    ensures y in m && z.a <= m[y].pos < z.b && Zoned(Rot(m, o, x, y), s, y, z)
  {
    RotTop(m, s, x, z, o, y);
    forall n | n in m
      ensures At(Rot(m, o, x, y), s, z, n)
    {
      AtNode(m, s, x, z, n);
      RotLeftAt(m, s, x, z, o, y, n);
      RotRightAt(m, s, x, z, o, y, n);
    }
  }

  lemma RotHung(m: Cells, s: seq<Node>, x: Node, z: Zones, o: Side, y: Node, hdr: Node, hl: Node?, hr: Node?)
    requires Zoned(m, s, x, z) && x in m && m[x].Kid(Other(o)) == y && y in m && z.a <= m[y].pos < z.b && Hung(m, s, z, hdr, hl, hr)
    ensures Hung(Rot(m, o, x, y), s, z, hdr, hl, hr)
  {
    AtNode(m, s, x, z, y);
  }

  // ---------- Cutting the head off to one side ----------

  ghost function Cut(s: seq<Node>, z: Zones, d: Side, x: Node, pos: int): Zones
  {
    if d.L? then z.(b := pos, rt := x) else z.(a := pos + 1, lt := x)
  }

  ghost function Open(z: Zones, d: Side): Node? { if d.L? then z.rt else z.lt }

  /** Going on to side `d`: the head `x` and its other subtree are linked to the opposite part. */
  ghost function Link(m: Cells, s: seq<Node>, z: Zones, d: Side, x: Node, y: Node): Cells
    requires x in m && y in m
  {
    map n | n in m ::
      if n == x then if d.L? then m[n].(up := z.rt, lo := 0) else m[n].(up := z.lt, hi := |s|)
      else if n == y then m[n].(up := null)
      else if n == Open(z, d) then if d.L? then m[n].(left := x) else m[n].(right := x)
      else m[n]
  }

  /** `n` is on one side of the head, and its children lie within their ranges. */
  ghost predicate Aside(m: Cells, z: Zones, x: Node, n: Node)
    requires x in m && n in m
  {
    && (z.a <= m[n].pos < z.b && m[n].pos < m[x].pos ==> m[n].hi <= m[x].pos)
    && (z.a <= m[n].pos < z.b && m[n].pos > m[x].pos ==> m[n].lo > m[x].pos)
    && (z.a <= m[n].pos < z.b ==> z.a <= m[n].lo && m[n].hi <= z.b)
    && (m[n].left != null && m[n].left in m ==> m[m[n].left].lo <= m[m[n].left].pos < m[m[n].left].hi)
    && (m[n].right != null && m[n].right in m ==> m[m[n].right].lo <= m[m[n].right].pos < m[m[n].right].hi)
  }

  lemma LinkLeftAt(m: Cells, s: seq<Node>, x: Node, z: Zones, d: Side, y: Node, n: Node)
    requires Zoned(m, s, x, z) && x in m && m[x].Kid(d) == y && y in m && n in m && z.a <= m[y].pos < z.b
    requires At(m, s, z, x) && At(m, s, z, y) && At(m, s, z, n)
    requires (d.L? && z.b < |s| ==> z.rt != null && z.rt in m) && (d.R? && z.a > 0 ==> z.lt != null && z.lt in m)
    requires Aside(m, z, x, n)
    ensures LeftAt(Link(m, s, z, d, x, y), s, Cut(s, z, d, x, m[x].pos), n)
  {
  }

  lemma LinkRightAt(m: Cells, s: seq<Node>, x: Node, z: Zones, d: Side, y: Node, n: Node)
    requires Zoned(m, s, x, z) && x in m && m[x].Kid(d) == y && y in m && n in m && z.a <= m[y].pos < z.b
    requires At(m, s, z, x) && At(m, s, z, y) && At(m, s, z, n)
    requires (d.L? && z.b < |s| ==> z.rt != null && z.rt in m) && (d.R? && z.a > 0 ==> z.lt != null && z.lt in m)
    requires Aside(m, z, x, n)
    ensures RightAt(Link(m, s, z, d, x, y), s, Cut(s, z, d, x, m[x].pos), n)
  {
  }

  lemma IsAside(m: Cells, s: seq<Node>, x: Node, z: Zones, n: Node)
    requires Zoned(m, s, x, z) && x in m && n in m
    ensures Aside(m, z, x, n)
  {
    AtNode(m, s, x, z, x);
    AtNode(m, s, x, z, n);
    if z.a <= m[n].pos < z.b {
      Nested(m, s, x, z, x, n);
      if m[n].pos < m[x].pos { AtNode(m, s, x, z, m[x].left); Nested(m, s, x, z, m[x].left, n); }
      if m[n].pos > m[x].pos { AtNode(m, s, x, z, m[x].right); Nested(m, s, x, z, m[x].right, n); }
    }
    if m[n].left != null && m[n].left in m { AtNode(m, s, x, z, m[n].left); }
    if m[n].right != null && m[n].right in m { AtNode(m, s, x, z, m[n].right); }
  }

  lemma LinkAt(m: Cells, s: seq<Node>, x: Node, z: Zones, d: Side, y: Node, n: Node)
    requires Zoned(m, s, x, z) && x in m && m[x].Kid(d) == y && y in m && n in m && z.a <= m[y].pos < z.b
    requires (d.L? && z.b < |s| ==> z.rt != null && z.rt in m) && (d.R? && z.a > 0 ==> z.lt != null && z.lt in m)
    ensures At(Link(m, s, z, d, x, y), s, Cut(s, z, d, x, m[x].pos), n)
  {
    AtNode(m, s, x, z, x);
    AtNode(m, s, x, z, y);
    AtNode(m, s, x, z, n);
    IsAside(m, s, x, z, n);
    LinkLeftAt(m, s, x, z, d, y, n);
    LinkRightAt(m, s, x, z, d, y, n);
  }

  lemma LinkZoned(m: Cells, s: seq<Node>, x: Node, z: Zones, d: Side, y: Node, hdr: Node, hl: Node?, hr: Node?)
    requires Zoned(m, s, x, z) && x in m && m[x].Kid(d) == y && Hung(m, s, z, hdr, hl, hr)
    ensures y in m && z.a <= m[x].pos < z.b
    ensures Zoned(Link(m, s, z, d, x, y), s, y, Cut(s, z, d, x, m[x].pos))
  {
    AtNode(m, s, x, z, x);
    AtNode(m, s, x, z, y);
    forall n | n in m
      ensures At(Link(m, s, z, d, x, y), s, Cut(s, z, d, x, m[x].pos), n)
    {
      LinkAt(m, s, x, z, d, y, n);
    }
  }

  lemma LinkHung(m: Cells, s: seq<Node>, x: Node, z: Zones, d: Side, y: Node, hdr: Node, hl: Node?, hr: Node?)
    requires Zoned(m, s, x, z) && x in m && m[x].Kid(d) == y && y in m && Hung(m, s, z, hdr, hl, hr)
    ensures Hung(Link(m, s, z, d, x, y), s, Cut(s, z, d, x, m[x].pos), hdr,
              if d.L? && z.rt == hdr then x else hl, if d.R? && z.lt == hdr then x else hr)
  {
    AtNode(m, s, x, z, x);
  }

  // ---------- Assembly: the two parts become the subtrees of the head ----------

  /** The head's subtrees fill the open ends; what hung off the header becomes its children. */
  ghost function Assemble(m: Cells, s: seq<Node>, z: Zones, x: Node, hl: Node?, hr: Node?): Cells
    requires x in m
  {
    var p, l, r := m[x].pos, m[x].left, m[x].right;
    map n | n in m ::
      if n == x then
        m[n].(left := if z.a == 0 then l else hr, right := if z.b == |s| then r else hl, lo := 0, hi := |s|)
      else
        m[n].(right := if n == z.lt then l else m[n].right, left := if n == z.rt then r else m[n].left,
              hi := if m[n].pos < z.a && m[n].hi == |s| then p else m[n].hi,
              lo := if m[n].pos >= z.b && m[n].lo == 0 then p + 1 else m[n].lo,
              up := if n == l && z.a > 0 then z.lt else if n == r && z.b < |s| then z.rt
                    else if (n == hr && z.a > 0) || (n == hl && z.b < |s|) then x else m[n].up)
  }

  lemma AssembleLeftAt(m: Cells, s: seq<Node>, x: Node, z: Zones, hdr: Node, hl: Node?, hr: Node?, n: Node)
    requires Zoned(m, s, x, z) && x in m && Hung(m, s, z, hdr, hl, hr) && n in m
    requires At(m, s, z, x) && At(m, s, z, n) && Aside(m, z, x, n)
    ensures LeftAt(Assemble(m, s, z, x, hl, hr), s, Whole(s), n)
  {
  }

  lemma AssembleRightAt(m: Cells, s: seq<Node>, x: Node, z: Zones, hdr: Node, hl: Node?, hr: Node?, n: Node)
    requires Zoned(m, s, x, z) && x in m && Hung(m, s, z, hdr, hl, hr) && n in m
    requires At(m, s, z, x) && At(m, s, z, n) && Aside(m, z, x, n)
    ensures RightAt(Assemble(m, s, z, x, hl, hr), s, Whole(s), n)
  {
  }

  lemma AssembleShape(m: Cells, s: seq<Node>, x: Node, z: Zones, hdr: Node, hl: Node?, hr: Node?)
    requires Zoned(m, s, x, z) && x in m && Hung(m, s, z, hdr, hl, hr)
    ensures Shape(Assemble(m, s, z, x, hl, hr), s, x)
  {
    var m', z' := Assemble(m, s, z, x, hl, hr), Whole(s);
    AtNode(m, s, x, z, x);
    forall n | n in m
      ensures At(m', s, z', n)
    {
      AtNode(m, s, x, z, n);
      IsAside(m, s, x, z, n);
      AssembleLeftAt(m, s, x, z, hdr, hl, hr, n);
      AssembleRightAt(m, s, x, z, hdr, hl, hr, n);
    }
  }

  // ---------- Single link assignments ----------

  /** Assign one child link; the header is not among the cells. */
  ghost function PutKid(m: Cells, n: Node?, d: Side, k: Node?): Cells
  {
    if n == null || n !in m then m else m[n := if d.L? then m[n].(left := k) else m[n].(right := k)]
  }

  ghost predicate SameLinks(m: Cells, m': Cells)
  {
    m'.Keys <= m.Keys && forall n {:trigger m'[n]} :: n in m' ==> m[n].left == m'[n].left && m[n].right == m'[n].right
  }

  lemma RotLinks(m: Cells, s: seq<Node>, x: Node, z: Zones, o: Side, y: Node)
    requires Zoned(m, s, x, z) && x in m && m[x].Kid(Other(o)) == y && y in m
    ensures SameLinks(PutKid(PutKid(m, x, Other(o), m[y].Kid(o)), y, o, x), Rot(m, o, x, y))
  {
    AtNode(m, s, x, z, x);
  }

  lemma LinkLinks(m: Cells, s: seq<Node>, x: Node, z: Zones, d: Side, y: Node)
    requires Zoned(m, s, x, z) && x in m && m[x].Kid(d) == y && y in m && Open(z, d) != x && Open(z, d) != y
    ensures SameLinks(PutKid(m, Open(z, d), d, x), Link(m, s, z, d, x, y))
  {
  }

  lemma AssembleLinks(m: Cells, s: seq<Node>, x: Node, z: Zones, hdr: Node, hl: Node?, hr: Node?)
    requires Zoned(m, s, x, z) && x in m && Hung(m, s, z, hdr, hl, hr)
    ensures var m1 := PutKid(PutKid(m, z.lt, R, m[x].left), z.rt, L, m[x].right);
      var hr', hl' := if z.lt == hdr then m[x].left else hr, if z.rt == hdr then m[x].right else hl;
      SameLinks(PutKid(PutKid(m1, x, L, hr'), x, R, hl'), Assemble(m, s, z, x, hl, hr))
  {
    AtNode(m, s, x, z, x);
  }

  lemma AssembleFacts(m: Cells, s: seq<Node>, x: Node, z: Zones, hdr: Node, hl: Node?, hr: Node?)
    requires Zoned(m, s, x, z) && x in m && Hung(m, s, z, hdr, hl, hr)
    ensures z.lt != x && z.rt != x
    ensures var m1 := PutKid(PutKid(m, z.lt, R, m[x].left), z.rt, L, m[x].right);
      var hr', hl' := if z.lt == hdr then m[x].left else hr, if z.rt == hdr then m[x].right else hl;
      var m' := Assemble(m, s, z, x, hl, hr);
      SameLinks(PutKid(PutKid(m1, x, L, hr'), x, R, hl'), m') && Shape(m', s, x) && m'.Keys == m.Keys && m'[x].pos == m[x].pos
  {
    AtNode(m, s, x, z, x);
    AssembleShape(m, s, x, z, hdr, hl, hr);
    AssembleLinks(m, s, x, z, hdr, hl, hr);
  }

  lemma RotFacts(m: Cells, s: seq<Node>, x: Node, z: Zones, o: Side, y: Node, hdr: Node, hl: Node?, hr: Node?)
    requires Zoned(m, s, x, z) && x in m && m[x].Kid(Other(o)) == y && Hung(m, s, z, hdr, hl, hr)
    ensures y in m && y != x
    ensures var m' := Rot(m, o, x, y);
      && m'.Keys == m.Keys && Zoned(m', s, y, z) && Hung(m', s, z, hdr, hl, hr)
      && SameLinks(PutKid(PutKid(m, x, Other(o), m[y].Kid(o)), y, o, x), m')
      && z.a <= m'[y].pos < z.b && m'[y].Kid(Other(o)) == m[y].Kid(Other(o))
  {
    AtNode(m, s, x, z, x);
    RotZoned(m, s, x, z, o, y);
    RotHung(m, s, x, z, o, y, hdr, hl, hr);
    RotLinks(m, s, x, z, o, y);
  }

  lemma LinkFacts(m: Cells, s: seq<Node>, x: Node, z: Zones, d: Side, y: Node, hdr: Node, hl: Node?, hr: Node?)
    requires Zoned(m, s, x, z) && x in m && m[x].Kid(d) == y && Hung(m, s, z, hdr, hl, hr)
    ensures y in m && z.a <= m[x].pos < z.b && s[m[x].pos] == x && Open(z, d) != x
    ensures var m', z' := Link(m, s, z, d, x, y), Cut(s, z, d, x, m[x].pos);
      && m'.Keys == m.Keys && Zoned(m', s, y, z') && SameLinks(PutKid(m, Open(z, d), d, x), m')
      && Hung(m', s, z', hdr, if d.L? && z.rt == hdr then x else hl, if d.R? && z.lt == hdr then x else hr)
  {
    AtNode(m, s, x, z, x);
    LinkZoned(m, s, x, z, d, y, hdr, hl, hr);
    LinkHung(m, s, x, z, d, y, hdr, hl, hr);
    AtNode(m, s, x, z, y);
    LinkLinks(m, s, x, z, d, y);
  }

  // ---------- Adding the new root, taking the old one out, joining ----------

  ghost predicate Sorted(s: seq<Node>)
  {
    forall i, j :: 0 <= i < j < |s| ==> s[i].key < s[j].key
  }

  /** All before index `p` is below `key`, all after it above: `s[p]` is `key` itself or its neighbour. */
  ghost predicate Focus(s: seq<Node>, p: int, key: int)
  {
    && 0 <= p < |s|
    && (forall i :: 0 <= i < p ==> s[i].key < key)
    && (forall i :: p < i < |s| ==> key < s[i].key)
  }

  /** `e` becomes the root above `x`, which keeps its subtree on side `d`; `k` is the new index. */
  ghost function Crown(m: Cells, s: seq<Node>, x: Node, d: Side, e: Node): Cells
    requires x in m
  {
    var k := if d.L? then m[x].pos else m[x].pos + 1;
    map n | n in m.Keys + {e} ::
      if n == e then
        if d.L? then Cell(m[x].left, x, null, k, 0, |s| + 1) else Cell(x, m[x].right, null, k, 0, |s| + 1)
      else
        var c := if m[n].pos < k then m[n] else m[n].(pos := m[n].pos + 1, lo := m[n].lo + 1, hi := m[n].hi + 1);
        if n == x then
          if d.L? then c.(left := null, up := e, lo := c.pos) else c.(right := null, up := e, hi := c.pos + 1)
        else c.(up := if n == m[x].Kid(d) then e else c.up)
  }

  lemma CrownLeftAt(m: Cells, s: seq<Node>, x: Node, d: Side, e: Node, n: Node)
    requires Shape(m, s, x) && x in m && e !in m && n in m
    requires At(m, s, Whole(s), x) && At(m, s, Whole(s), n) && Aside(m, Whole(s), x, n)
    ensures var k := if d.L? then m[x].pos else m[x].pos + 1;
      var s' := s[..k] + [e] + s[k..];
      LeftAt(Crown(m, s, x, d, e), s', Whole(s'), n)
  {
  }

  lemma CrownRightAt(m: Cells, s: seq<Node>, x: Node, d: Side, e: Node, n: Node)
    requires Shape(m, s, x) && x in m && e !in m && n in m
    requires At(m, s, Whole(s), x) && At(m, s, Whole(s), n) && Aside(m, Whole(s), x, n)
    ensures var k := if d.L? then m[x].pos else m[x].pos + 1;
      var s' := s[..k] + [e] + s[k..];
      RightAt(Crown(m, s, x, d, e), s', Whole(s'), n)
  {
  }

  lemma CrownAt(m: Cells, s: seq<Node>, x: Node, d: Side, e: Node, n: Node)
    requires Shape(m, s, x) && x in m && e !in m && n in m
    ensures var k := if d.L? then m[x].pos else m[x].pos + 1;
      var s' := s[..k] + [e] + s[k..];
      At(Crown(m, s, x, d, e), s', Whole(s'), n)
  {
    AtNode(m, s, x, Whole(s), x);
    AtNode(m, s, x, Whole(s), n);
    IsAside(m, s, x, Whole(s), n);
    CrownLeftAt(m, s, x, d, e, n);
    CrownRightAt(m, s, x, d, e, n);
  }

  lemma CrownPlaced(m: Cells, s: seq<Node>, x: Node, d: Side, e: Node, k: int)
    requires Placed(m, s) && x in m && e !in m && k == (if d.L? then m[x].pos else m[x].pos + 1) && 0 <= k <= |s|
    ensures Placed(Crown(m, s, x, d, e), s[..k] + [e] + s[k..])
  {
    var m', s' := Crown(m, s, x, d, e), s[..k] + [e] + s[k..];
    forall i | 0 <= i < |s'|
      ensures s'[i] in m' && m'[s'[i]].pos == i
    {
      if i < k { assert s'[i] == s[i]; } else if i > k { assert s'[i] == s[i - 1]; }
    }
  }

  lemma CrownShape(m: Cells, s: seq<Node>, x: Node, d: Side, e: Node)
    requires Shape(m, s, x) && x in m && e !in m
    ensures var k := if d.L? then m[x].pos else m[x].pos + 1;
      0 <= k <= |s| && Shape(Crown(m, s, x, d, e), s[..k] + [e] + s[k..], e)
  {
    var k := if d.L? then m[x].pos else m[x].pos + 1;
    AtNode(m, s, x, Whole(s), x);
    CrownPlaced(m, s, x, d, e, k);
    CrownTop(m, s, x, d, e);
    forall n | n in m
      ensures var s' := s[..k] + [e] + s[k..]; At(Crown(m, s, x, d, e), s', Whole(s'), n)
    {
      CrownAt(m, s, x, d, e, n);
    }
  }

  lemma CrownTop(m: Cells, s: seq<Node>, x: Node, d: Side, e: Node)
    requires Shape(m, s, x) && x in m && e !in m
    ensures var k := if d.L? then m[x].pos else m[x].pos + 1;
      var m', s' := Crown(m, s, x, d, e), s[..k] + [e] + s[k..];
      At(m', s', Whole(s'), e) && KidAt(m', null, e, 0, |s'|)
  {
    AtNode(m, s, x, Whole(s), x);
    IsAside(m, s, x, Whole(s), x);
  }

  lemma CrownLinks(m: Cells, s: seq<Node>, x: Node, d: Side, e: Node)
    requires Shape(m, s, x) && x in m && e !in m
    ensures var m1 := m[e := if d.L? then Cell(m[x].left, x, null, 0, 0, 0) else Cell(x, m[x].right, null, 0, 0, 0)];
      SameLinks(PutKid(m1, x, d, null), Crown(m, s, x, d, e))
  {
  }

  /** The subtree on the left of the root, as a tree of its own. */
  ghost function Below(m: Cells, x: Node): Cells
    requires x in m
  {
    map n | n in m && m[n].pos < m[x].pos :: m[n].(up := if n == m[x].left then null else m[n].up)
  }

  /** The subtree on the right of the root once the root is gone, under `r`. */
  ghost function Above(m: Cells, x: Node, r: Node?): Cells
    requires x in m
  {
    map n | n in m && m[n].pos > m[x].pos ::
      m[n].(pos := m[n].pos - 1, lo := m[n].lo - 1, hi := m[n].hi - 1, up := if n == m[x].right then r else m[n].up)
  }

  lemma BelowShape(m: Cells, s: seq<Node>, x: Node)
    requires Shape(m, s, x) && x in m
    ensures 0 <= m[x].pos < |s| && Shape(Below(m, x), s[..m[x].pos], m[x].left)
  {
    var m', s', z := Below(m, x), s[..m[x].pos], Whole(s);
    AtNode(m, s, x, z, x);
    IsAside(m, s, x, z, x);
    forall n | n in m'
      ensures At(m', s', Whole(s'), n)
    {
      AtNode(m, s, x, z, n);
      IsAside(m, s, x, z, n);
      assert LeftAt(m', s', Whole(s'), n);
      assert RightAt(m', s', Whole(s'), n);
    }
  }

  /** The left part, its maximum `r` on top, with the right part below it. */
  ghost function Joined(l: Cells, m: Cells, x: Node, r: Node?, n: int): Cells
    requires x in m
  {
    var u := Above(m, x, r);
    map q | q in l.Keys + u.Keys ::
      if q in l then (if q == r then l[q].(right := m[x].right, hi := n) else l[q]) else u[q]
  }

  lemma AboveAt(m: Cells, s: seq<Node>, x: Node, r: Node?, l: Cells, q: Node)
    requires Shape(m, s, x) && x in m && 0 <= m[x].pos < |s| && q in m && m[q].pos > m[x].pos && q !in l && (r == null || r != m[x].right)
    requires l.Keys == Below(m, x).Keys
    ensures var s' := s[..m[x].pos] + s[m[x].pos + 1..];
      At(Joined(l, m, x, r, |s| - 1), s', Whole(s'), q)
  {
    var s' := s[..m[x].pos] + s[m[x].pos + 1..];
    var m' := Joined(l, m, x, r, |s| - 1);
    AtNode(m, s, x, Whole(s), x);
    AtNode(m, s, x, Whole(s), q);
    IsAside(m, s, x, Whole(s), q);
    assert LeftAt(m', s', Whole(s'), q);
    assert RightAt(m', s', Whole(s'), q);
  }

  lemma JoinedPlaced(l: Cells, t: seq<Node>, m: Cells, s: seq<Node>, x: Node, r: Node?)
    requires Shape(m, s, x) && x in m && 0 <= m[x].pos < |s| && t == s[..m[x].pos] && Placed(l, t) && l.Keys == Below(m, x).Keys
    ensures var s' := s[..m[x].pos] + s[m[x].pos + 1..];
      Placed(Joined(l, m, x, r, |s| - 1), s')
  {
    var p := m[x].pos;
    var m', s' := Joined(l, m, x, r, |s| - 1), s[..p] + s[p + 1..];
    forall i | 0 <= i < |s'|
      ensures s'[i] in m' && m'[s'[i]].pos == i
    {
      if i < p { assert s'[i] == t[i]; } else { assert s'[i] == s[i + 1]; }
    }
  }

  lemma LowerAt(l: Cells, t: seq<Node>, m: Cells, s: seq<Node>, x: Node, r: Node, n: Node)
    requires Shape(l, t, r) && r in l && n in l && x in m && 0 <= m[x].pos < |s| && t == s[..m[x].pos] && l[r].pos == m[x].pos - 1
    requires KidAt(m, x, m[x].right, m[x].pos + 1, |s|) && (m[x].right != null ==> m[m[x].right].pos > m[x].pos && m[x].right !in l)
    ensures var s' := s[..m[x].pos] + s[m[x].pos + 1..];
      At(Joined(l, m, x, r, |s| - 1), s', Whole(s'), n)
  {
    var s' := s[..m[x].pos] + s[m[x].pos + 1..];
    var m' := Joined(l, m, x, r, |s| - 1);
    AtNode(l, t, r, Whole(t), r);
    AtNode(l, t, r, Whole(t), n);
    IsAside(l, t, r, Whole(t), n);
    assert LeftAt(m', s', Whole(s'), n);
    assert RightAt(m', s', Whole(s'), n);
  }

  /** With the maximum of the left part on top of it, the join is a tree without the old root. */
  lemma JoinedShape(l: Cells, t: seq<Node>, m: Cells, s: seq<Node>, x: Node, r: Node)
    requires Shape(m, s, x) && x in m && 0 <= m[x].pos < |s| && t == s[..m[x].pos] && l.Keys == Below(m, x).Keys
    requires Shape(l, t, r) && r in l && l[r].pos == m[x].pos - 1
    ensures var s' := s[..m[x].pos] + s[m[x].pos + 1..];
      Shape(Joined(l, m, x, r, |s| - 1), s', r)
  {
    var p := m[x].pos;
    var m', s' := Joined(l, m, x, r, |s| - 1), s[..p] + s[p + 1..];
    JoinedPlaced(l, t, m, s, x, r);
    JoinedTop(l, t, m, s, x, r);
    forall n | n in m'
      ensures At(m', s', Whole(s'), n)
    {
      if n in l {
        LowerAt(l, t, m, s, x, r, n);
      } else {
        AboveAt(m, s, x, r, l, n);
      }
    }
  }

  lemma JoinedTop(l: Cells, t: seq<Node>, m: Cells, s: seq<Node>, x: Node, r: Node)
    requires Shape(m, s, x) && x in m && 0 <= m[x].pos < |s| && t == s[..m[x].pos] && l.Keys == Below(m, x).Keys
    requires Shape(l, t, r) && r in l && l[r].pos == m[x].pos - 1
    ensures KidAt(Joined(l, m, x, r, |s| - 1), null, r, 0, |s| - 1) && r != m[x].right
    ensures KidAt(m, x, m[x].right, m[x].pos + 1, |s|) && (m[x].right != null ==> m[m[x].right].pos > m[x].pos && m[x].right !in l)
  {
    AtNode(m, s, x, Whole(s), x);
    AtNode(l, t, r, Whole(t), r);
    IsAside(m, s, x, Whole(s), x);
  }

  /** Without a left subtree the right one is the tree that remains. */
  lemma DropShape(m: Cells, s: seq<Node>, x: Node)
    requires Shape(m, s, x) && x in m && m[x].left == null
    ensures m[x].pos == 0 && |s| > 0 && Shape(Joined(map[], m, x, null, |s| - 1), s[1..], m[x].right)
  {
    var m', s' := Joined(map[], m, x, null, |s| - 1), s[..0] + s[0 + 1..];
    assert s' == s[1..];
    AtNode(m, s, x, Whole(s), x);
    IsAside(m, s, x, Whole(s), x);
    NoneBelow(m, s, x);
    JoinedPlaced(map[], [], m, s, x, null);
    forall n | n in m'
      ensures At(m', s', Whole(s'), n)
    {
      AboveAt(m, s, x, null, map[], n);
    }
  }

  lemma NoneBelow(m: Cells, s: seq<Node>, x: Node)
    requires Shape(m, s, x) && x in m && m[x].pos == 0
    ensures Below(m, x).Keys == {}
  {
    forall n | n in m
      ensures m[n].pos >= 0
    {
      AtNode(m, s, x, Whole(s), n);
    }
  }

  /** The link that joins the two parts, seen on all the old cells. */
  lemma JoinedLinks(l: Cells, m: Cells, x: Node, r: Node, n: int)
    requires x in m && r in l && l.Keys == Below(m, x).Keys
    ensures SameLinks(PutKid(m + l, r, R, m[x].right), Joined(l, m, x, r, n))
  {
  }

  lemma DropKeys(m: Cells, s: seq<Node>, x: Node)
    requires Shape(m, s, x) && x in m && m[x].left == null
    ensures Joined(map[], m, x, null, |s| - 1).Keys == m.Keys - {x}
    ensures SameLinks(m, Joined(map[], m, x, null, |s| - 1))
  {
    AtNode(m, s, x, Whole(s), x);
    IsAside(m, s, x, Whole(s), x);
    forall n | n in m && n != x
      ensures m[n].pos > m[x].pos
    {
      AtNode(m, s, x, Whole(s), n);
    }
  }

  lemma JoinedKeys(l: Cells, m: Cells, s: seq<Node>, x: Node, r: Node, n: int)
    requires Shape(m, s, x) && x in m && l.Keys == Below(m, x).Keys
    ensures Joined(l, m, x, r, n).Keys == m.Keys - {x} && (m[x].right != null ==> m[x].right !in l && m[x].right in m)
    ensures x !in l
  {
    AtNode(m, s, x, Whole(s), x);
    IsAside(m, s, x, Whole(s), x);
    forall q | q in m && q != x
      ensures m[q].pos != m[x].pos
    {
      AtNode(m, s, x, Whole(s), q);
    }
  }

  lemma JoinedTree(l: Cells, t: seq<Node>, m: Cells, s: seq<Node>, x: Node, r: Node)
    requires Shape(m, s, x) && x in m && 0 <= m[x].pos < |s| && t == s[..m[x].pos] && l.Keys == Below(m, x).Keys
    requires Shape(l, t, r) && r in l && l[r].pos == m[x].pos - 1
    ensures Shape(Joined(l, m, x, r, |s| - 1), s[..m[x].pos] + s[m[x].pos + 1..], r)
    ensures Joined(l, m, x, r, |s| - 1).Keys == m.Keys - {x}
    ensures SameLinks(PutKid(m + l, r, R, m[x].right), Joined(l, m, x, r, |s| - 1))
  {
    JoinedKeys(l, m, s, x, r, |s| - 1);
    JoinedShape(l, t, m, s, x, r);
    JoinedLinks(l, m, x, r, |s| - 1);
  }
}
