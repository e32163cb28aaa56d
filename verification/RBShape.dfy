/**
  The shape of a red-black tree of nodes with parent links, as a value: what each node holds, and for
  the proofs the open interval of keys its subtree may hold and its number of black nodes downwards.

  With these intervals search order is a property of single nodes and of pairs of nodes, so a rotation
  disturbs it only where it turns.
 */
module RBShapes {
  import opened Types

  type Key = Price

  /** The tree does not look into its values; a number stands for each. */
  type Value = int

  class Node {
    const key: Key
    var value: Value
    var red: bool
    var parent: Node?
    var left: Node?
    var right: Node?

    constructor (key: Key, value: Value, red: bool, parent: Node?)
      ensures this.key == key && this.value == value && this.red == red && this.parent == parent
      ensures left == null && right == null
    {
      this.key, this.value, this.red, this.parent := key, value, red, parent;
      left, right := null, null;
    }
  }

  /** What a node holds; `lo` and `hi` bound its subtree, `blacks` counts black nodes downwards. */
  datatype Cell = Cell(
    key: Key,
    value: Value,
    red: bool,
    parent: Node?,
    left: Node?,
    right: Node?,
    lo: int,
    hi: int,
    blacks: int)

  const LOWEST: int := -1
  const HIGHEST: int := MAX_U64 + 1

  type Graph = map<Node, Cell>

  // ---- search order and links -----------------------------------------------------------------------

  /** No key lies strictly between a and b. */
  ghost predicate Free(g: Graph, a: int, b: int) {
    forall n {:trigger g[n]} :: n in g ==> !(a < g[n].key < b)
  }

  /** The interval of n lies on one side of m's key within the interval of m. */
  predicate Within(m: Cell, n: Cell) {
    (m.lo <= n.lo && n.hi <= m.key) || (m.key <= n.lo && n.hi <= m.hi)
  }

  /** The intervals of two nodes are disjoint, or one is within the other. */
  predicate Apart(m: Cell, n: Cell) {
    m.hi <= n.lo || n.hi <= m.lo || Within(m, n) || Within(n, m)
  }

  predicate RangeOk(c: Cell) {
    LOWEST <= c.lo < c.key < c.hi <= HIGHEST
  }

  /** Children point back, and have their share of the interval. */
  ghost predicate LeftOk(g: Graph, n: Node) {
    n in g && var c := g[n];
      c.left != null ==> c.left in g && g[c.left].parent == n && g[c.left].lo == c.lo && g[c.left].hi == c.key
  }

  ghost predicate RightOk(g: Graph, n: Node) {
    n in g && var c := g[n];
      c.right != null ==> c.right in g && g[c.right].parent == n && g[c.right].lo == c.key && g[c.right].hi == c.hi
  }

  /** Only the root has no parent, and every other node is a child of its parent. */
  ghost predicate ParentOk(g: Graph, root: Node?, n: Node) {
    n in g && var c := g[n];
      if c.parent == null then n == root && c.lo == LOWEST && c.hi == HIGHEST
      else n != root && c.parent in g && (g[c.parent].left == n || g[c.parent].right == n)
  }

  /** Where a node has no child, there is no key. */
  ghost predicate SlotsOk(g: Graph, n: Node) {
    n in g && var c := g[n];
      (c.left == null ==> Free(g, c.lo, c.key)) && (c.right == null ==> Free(g, c.key, c.hi))
  }

  ghost predicate NodeOk(g: Graph, root: Node?, n: Node) {
    LeftOk(g, n) && RightOk(g, n) && ParentOk(g, root, n) && SlotsOk(g, n) && RangeOk(g[n])
  }

  ghost predicate PairOk(g: Graph, m: Node, n: Node) {
    m in g && n in g && Apart(g[m], g[n])
  }

  ghost predicate ShapeOk(g: Graph, root: Node?) {
    && (root == null ==> g == map[])
    && (root != null ==> root in g && g[root].parent == null)
    && (forall n {:trigger NodeOk(g, root, n)} :: n in g ==> NodeOk(g, root, n))
    && (forall m, n {:trigger PairOk(g, m, n)} :: m in g && n in g && m != n ==> PairOk(g, m, n))
  }

  /** Different nodes have different keys. */
  lemma KeysDiffer(g: Graph, root: Node?, m: Node, n: Node)
    requires ShapeOk(g, root) && m in g && n in g && m != n
    ensures g[m].key != g[n].key
  {
    assert NodeOk(g, root, m) && NodeOk(g, root, n) && PairOk(g, m, n);
  }

  lemma KeysApart(g: Graph, root: Node?, m: Node, n: Node)
    requires ShapeOk(g, root) && m in g && n in g
    ensures m != n ==> g[m].key != g[n].key
  {
    if m != n {
      KeysDiffer(g, root, m, n);
    }
  }

  // ---- rotations ------------------------------------------------------------------------------------

  /** The same nodes with the same keys. */
  ghost predicate SameKeys(g: Graph, g': Graph) {
    && (forall n {:trigger n in g'} :: n in g ==> n in g')
    && (forall n {:trigger n in g} :: n in g' ==> n in g)
    && (forall n {:trigger g[n]} {:trigger g'[n]} :: n in g ==> g'[n].key == g[n].key)
  }

  /** In g', x went down to the left and its right child came up. */
  ghost predicate TurnedLeft(g: Graph, x: Node, g': Graph) {
    && SameKeys(g, g')
    && x in g && g[x].right != null && g[x].right in g
    && var y := g[x].right; var b := g[y].left; var p := g[x].parent;
    && g'[x] == g[x].(right := b, parent := y, hi := g[y].key)
    && g'[y] == g[y].(left := x, parent := p, lo := g[x].lo)
    && (b != null ==> b in g && g'[b] == g[b].(parent := x))
    && (p != null ==> p in g && g'[p] == if g[p].left == x then g[p].(left := y) else g[p].(right := y))
    && (forall n {:trigger g'[n]} :: n in g && n != x && n != y && n != b && n != p ==> g'[n] == g[n])
  }

  /** In g', x went down to the right and its left child came up. */
  ghost predicate TurnedRight(g: Graph, x: Node, g': Graph) {
    && SameKeys(g, g')
    && x in g && g[x].left != null && g[x].left in g
    && var y := g[x].left; var b := g[y].right; var p := g[x].parent;
    && g'[x] == g[x].(left := b, parent := y, lo := g[y].key)
    && g'[y] == g[y].(right := x, parent := p, hi := g[x].hi)
    && (b != null ==> b in g && g'[b] == g[b].(parent := x))
    && (p != null ==> p in g && g'[p] == if g[p].right == x then g[p].(right := y) else g[p].(left := y))
    && (forall n {:trigger g'[n]} :: n in g && n != x && n != y && n != b && n != p ==> g'[n] == g[n])
  }

  lemma FreeSame(g: Graph, g': Graph, a: int, b: int)
    requires SameKeys(g, g')
    ensures Free(g, a, b) <==> Free(g', a, b)
  {
  }

  /** The turned graph. */
  lemma TurnLeft(g: Graph, root: Node?, x: Node) returns (g': Graph)
    requires ShapeOk(g, root) && x in g && g[x].right != null && g[x].right in g
    ensures TurnedLeft(g, x, g')
  {
    hide ShapeOk, NodeOk;
    AroundLeft(g, root, x);
    var y := g[x].right;
    var b, p := g[y].left, g[x].parent;
    g' := g[x := g[x].(right := b, parent := y, hi := g[y].key)][y := g[y].(left := x, parent := p, lo := g[x].lo)];
    if b != null {
      g' := g'[b := g[b].(parent := x)];
    }
    if p != null {
      g' := g'[p := if g[p].left == x then g[p].(left := y) else g[p].(right := y)];
    }
  }

  /** The turned graph. */
  lemma TurnRight(g: Graph, root: Node?, x: Node) returns (g': Graph)
    requires ShapeOk(g, root) && x in g && g[x].left != null && g[x].left in g
    ensures TurnedRight(g, x, g')
  {
    hide ShapeOk, NodeOk;
    AroundRight(g, root, x);
    var y := g[x].left;
    var b, p := g[y].right, g[x].parent;
    g' := g[x := g[x].(left := b, parent := y, lo := g[y].key)][y := g[y].(right := x, parent := p, hi := g[x].hi)];
    if b != null {
      g' := g'[b := g[b].(parent := x)];
    }
    if p != null {
      g' := g'[p := if g[p].right == x then g[p].(right := y) else g[p].(left := y)];
    }
  }

  lemma RightIn(g: Graph, root: Node?, x: Node)
    requires ShapeOk(g, root) && x in g
    ensures g[x].right != null ==> g[x].right in g
  {
    assert NodeOk(g, root, x);
  }

  lemma LeftIn(g: Graph, root: Node?, x: Node)
    requires ShapeOk(g, root) && x in g
    ensures g[x].left != null ==> g[x].left in g
  {
    assert NodeOk(g, root, x);
  }

  /** What the shape says of a node and of its neighbours. */
  lemma Neighbours(g: Graph, root: Node?, n: Node)
    requires ShapeOk(g, root) && n in g
    ensures NodeOk(g, root, n)
    ensures g[n].left != null ==> NodeOk(g, root, g[n].left) && g[n].left != n
    ensures g[n].right != null ==> NodeOk(g, root, g[n].right) && g[n].right != n
    ensures g[n].parent != null ==> NodeOk(g, root, g[n].parent) && g[n].parent != n
    ensures g[n].left != null && g[n].right != null ==> g[n].left != g[n].right
  {
    assert NodeOk(g, root, n);
  }

  /** The nodes around a left turn are different ones. */
  lemma AroundLeft(g: Graph, root: Node?, x: Node)
    requires ShapeOk(g, root) && x in g && g[x].right != null && g[x].right in g
    ensures var y := g[x].right; var b := g[y].left; var p := g[x].parent;
      && NodeOk(g, root, x) && NodeOk(g, root, y)
      && x != y && b != x && b != y && p != x && p != y && (b != null ==> b != p)
      && (b != null ==> b in g && NodeOk(g, root, b)) && (p != null ==> p in g && NodeOk(g, root, p))
      && (p == null <==> x == root)
  {
    var y := g[x].right;
    assert NodeOk(g, root, x) && NodeOk(g, root, y);
    if g[y].left != null {
      assert NodeOk(g, root, g[y].left);
    }
    if g[x].parent != null {
      assert NodeOk(g, root, g[x].parent);
    }
  }

  /** The nodes around a right turn are different ones. */
  lemma AroundRight(g: Graph, root: Node?, x: Node)
    requires ShapeOk(g, root) && x in g && g[x].left != null && g[x].left in g
    ensures var y := g[x].left; var b := g[y].right; var p := g[x].parent;
      && NodeOk(g, root, x) && NodeOk(g, root, y)
      && x != y && b != x && b != y && p != x && p != y && (b != null ==> b != p)
      && (b != null ==> b in g && NodeOk(g, root, b)) && (p != null ==> p in g && NodeOk(g, root, p))
      && (p == null <==> x == root)
  {
    var y := g[x].left;
    assert NodeOk(g, root, x) && NodeOk(g, root, y);
    if g[y].right != null {
      assert NodeOk(g, root, g[y].right);
    }
    if g[x].parent != null {
      assert NodeOk(g, root, g[x].parent);
    }
  }

  /** Two nodes, if they are different. */
  lemma Others(g: Graph, root: Node?, m: Node, n: Node)
    requires ShapeOk(g, root) && m in g && n in g
    ensures m != n ==> PairOk(g, m, n) && Apart(g[n], g[m])
    ensures RangeOk(g[m]) && RangeOk(g[n])
  {
    assert NodeOk(g, root, m) && NodeOk(g, root, n);
    assert m != n ==> PairOk(g, m, n);
  }

  /** The intervals of a turned pair against that of another node. */
  lemma TurnedApart(x: Cell, y: Cell, n: Cell, x': Cell, y': Cell)
    requires RangeOk(x) && RangeOk(y) && RangeOk(n)
    requires Apart(n, x) && Apart(n, y)
    requires x'.key == x.key && y'.key == y.key && y'.lo == x.lo && y'.hi == x.hi
    requires (y.lo == x.key && y.hi == x.hi && x'.lo == x.lo && x'.hi == y.key) ||
             (y.hi == x.key && y.lo == x.lo && x'.hi == x.hi && x'.lo == y.key)
    ensures Apart(x', n) && Apart(y', n) && Apart(n, x') && Apart(n, y')
  {
  }

  /** Being apart depends on intervals and keys only. */
  lemma ApartAlike(m: Cell, n: Cell, n': Cell)
    requires n.lo == n'.lo && n.key == n'.key && n.hi == n'.hi
    ensures Apart(m, n) ==> Apart(m, n') && Apart(n', m)
  {
  }

  lemma Nested(m: Cell, n: Cell)
    requires Within(m, n)
    ensures Apart(m, n) && Apart(n, m)
  {
  }

  lemma LeftTurnLeft(g: Graph, root: Node?, x: Node, g': Graph, n: Node)
    requires ShapeOk(g, root) && TurnedLeft(g, x, g') && n in g
    ensures LeftOk(g', n)
  {
    hide ShapeOk, SlotsOk;
    AroundLeft(g, root, x);
    Neighbours(g, root, n);
    Neighbours(g, root, x);
  }

  lemma LeftTurnRight(g: Graph, root: Node?, x: Node, g': Graph, n: Node)
    requires ShapeOk(g, root) && TurnedLeft(g, x, g') && n in g
    ensures RightOk(g', n) && RangeOk(g'[n])
  {
    hide ShapeOk, SlotsOk;
    AroundLeft(g, root, x);
    Neighbours(g, root, n);
    Neighbours(g, root, x);
  }

  lemma LeftTurnParent(g: Graph, root: Node?, x: Node, g': Graph, n: Node)
    requires ShapeOk(g, root) && TurnedLeft(g, x, g') && n in g
    ensures ParentOk(g', if x == root then g[x].right else root, n)
  {
    hide ShapeOk, SlotsOk;
    AroundLeft(g, root, x);
    Neighbours(g, root, n);
    Neighbours(g, root, x);
  }

  lemma LeftTurnSlots(g: Graph, root: Node?, x: Node, g': Graph, n: Node)
    requires ShapeOk(g, root) && TurnedLeft(g, x, g') && n in g
    ensures SlotsOk(g', n)
  {
    hide ShapeOk, Free;
    AroundLeft(g, root, x);
    Neighbours(g, root, n);
    FreeSame(g, g', g'[n].lo, g'[n].key);
    FreeSame(g, g', g'[n].key, g'[n].hi);
  }

  lemma LeftTurnPair(g: Graph, root: Node?, x: Node, g': Graph, m: Node, n: Node)
    requires ShapeOk(g, root) && TurnedLeft(g, x, g') && m in g && n in g && m != n
    ensures PairOk(g', m, n)
  {
    hide ShapeOk, SlotsOk, LeftOk, ParentOk, Apart;
    AroundLeft(g, root, x);
    var y := g[x].right;
    Others(g, root, m, n);
    Others(g, root, m, x);
    Others(g, root, m, y);
    Others(g, root, n, x);
    Others(g, root, n, y);
    if m != x && m != y {
      TurnedApart(g[x], g[y], g[m], g'[x], g'[y]);
      if n != x && n != y {
        ApartAlike(g[m], g[n], g'[n]);
      }
      ApartAlike(g'[n], g[m], g'[m]);
    } else if n != x && n != y {
      TurnedApart(g[x], g[y], g[n], g'[x], g'[y]);
      ApartAlike(g'[m], g[n], g'[n]);
    } else {
      Nested(g'[y], g'[x]);
    }
  }

  lemma LeftTurnNode(g: Graph, root: Node?, x: Node, g': Graph, n: Node)
    requires ShapeOk(g, root) && TurnedLeft(g, x, g') && n in g
    ensures NodeOk(g', if x == root then g[x].right else root, n)
  {
    hide ShapeOk, SlotsOk, LeftOk, RightOk, ParentOk, TurnedLeft;
    LeftTurnLeft(g, root, x, g', n);
    LeftTurnRight(g, root, x, g', n);
    LeftTurnParent(g, root, x, g', n);
    LeftTurnSlots(g, root, x, g', n);
  }

  /** The new root. */
  lemma LeftTurnRoot(g: Graph, root: Node?, x: Node, g': Graph)
    requires ShapeOk(g, root) && TurnedLeft(g, x, g')
    ensures var root' := if x == root then g[x].right else root;
      root' != null && root' in g' && g'[root'].parent == null
    ensures forall n :: n in g' <==> n in g
  {
    hide SlotsOk, LeftOk, RightOk, PairOk;
    AroundLeft(g, root, x);
    LeftTurnNode(g, root, x, g', if x == root then g[x].right else root);
  }

  /** A left rotation keeps search order and links. */
  lemma TurnedLeftKeeps(g: Graph, root: Node?, x: Node, g': Graph)
    requires ShapeOk(g, root) && TurnedLeft(g, x, g')
    ensures ShapeOk(g', if x == root then g[x].right else root)
  {
    hide NodeOk, PairOk, TurnedLeft;
    LeftTurnRoot(g, root, x, g');
    var root' := if x == root then g[x].right else root;
    forall n | n in g'
      ensures NodeOk(g', root', n)
    {
      LeftTurnNode(g, root, x, g', n);
    }
    forall m, n | m in g' && n in g' && m != n
      ensures PairOk(g', m, n)
    {
      LeftTurnPair(g, root, x, g', m, n);
    }
  }

  lemma RightTurnRight(g: Graph, root: Node?, x: Node, g': Graph, n: Node)
    requires ShapeOk(g, root) && TurnedRight(g, x, g') && n in g
    ensures RightOk(g', n)
  {
    hide ShapeOk, SlotsOk;
    AroundRight(g, root, x);
    Neighbours(g, root, n);
    Neighbours(g, root, x);
  }

  lemma RightTurnLeft(g: Graph, root: Node?, x: Node, g': Graph, n: Node)
    requires ShapeOk(g, root) && TurnedRight(g, x, g') && n in g
    ensures LeftOk(g', n) && RangeOk(g'[n])
  {
    hide ShapeOk, SlotsOk;
    AroundRight(g, root, x);
    Neighbours(g, root, n);
    Neighbours(g, root, x);
  }

  lemma RightTurnParent(g: Graph, root: Node?, x: Node, g': Graph, n: Node)
    requires ShapeOk(g, root) && TurnedRight(g, x, g') && n in g
    ensures ParentOk(g', if x == root then g[x].left else root, n)
  {
    hide ShapeOk, SlotsOk;
    AroundRight(g, root, x);
    Neighbours(g, root, n);
    Neighbours(g, root, x);
  }

  lemma RightTurnSlots(g: Graph, root: Node?, x: Node, g': Graph, n: Node)
    requires ShapeOk(g, root) && TurnedRight(g, x, g') && n in g
    ensures SlotsOk(g', n)
  {
    hide ShapeOk, Free;
    AroundRight(g, root, x);
    Neighbours(g, root, n);
    FreeSame(g, g', g'[n].lo, g'[n].key);
    FreeSame(g, g', g'[n].key, g'[n].hi);
  }

  lemma RightTurnPair(g: Graph, root: Node?, x: Node, g': Graph, m: Node, n: Node)
    requires ShapeOk(g, root) && TurnedRight(g, x, g') && m in g && n in g && m != n
    ensures PairOk(g', m, n)
  {
    hide ShapeOk, SlotsOk, RightOk, ParentOk, Apart;
    AroundRight(g, root, x);
    var y := g[x].left;
    Others(g, root, m, n);
    Others(g, root, m, x);
    Others(g, root, m, y);
    Others(g, root, n, x);
    Others(g, root, n, y);
    if m != x && m != y {
      TurnedApart(g[x], g[y], g[m], g'[x], g'[y]);
      if n != x && n != y {
        ApartAlike(g[m], g[n], g'[n]);
      }
      ApartAlike(g'[n], g[m], g'[m]);
    } else if n != x && n != y {
      TurnedApart(g[x], g[y], g[n], g'[x], g'[y]);
      ApartAlike(g'[m], g[n], g'[n]);
    } else {
      Nested(g'[y], g'[x]);
    }
  }

  lemma RightTurnNode(g: Graph, root: Node?, x: Node, g': Graph, n: Node)
    requires ShapeOk(g, root) && TurnedRight(g, x, g') && n in g
    ensures NodeOk(g', if x == root then g[x].left else root, n)
  {
    hide ShapeOk, SlotsOk, LeftOk, RightOk, ParentOk, TurnedRight;
    RightTurnLeft(g, root, x, g', n);
    RightTurnRight(g, root, x, g', n);
    RightTurnParent(g, root, x, g', n);
    RightTurnSlots(g, root, x, g', n);
  }

  /** The new root. */
  lemma RightTurnRoot(g: Graph, root: Node?, x: Node, g': Graph)
    requires ShapeOk(g, root) && TurnedRight(g, x, g')
    ensures var root' := if x == root then g[x].left else root; root' != null && root' in g' && g'[root'].parent == null
    ensures forall n :: n in g' <==> n in g
  {
    hide SlotsOk, LeftOk, RightOk, PairOk;
    AroundRight(g, root, x);
    RightTurnNode(g, root, x, g', if x == root then g[x].left else root);
  }

  /** A right rotation keeps search order and links. */
  lemma TurnedRightKeeps(g: Graph, root: Node?, x: Node, g': Graph)
    requires ShapeOk(g, root) && TurnedRight(g, x, g')
    ensures ShapeOk(g', if x == root then g[x].left else root)
  {
    hide NodeOk, PairOk, TurnedRight;
    RightTurnRoot(g, root, x, g');
    var root' := if x == root then g[x].left else root;
    forall n | n in g'
      ensures NodeOk(g', root', n)
    {
      RightTurnNode(g, root, x, g', n);
    }
    forall m, n | m in g' && n in g' && m != n
      ensures PairOk(g', m, n)
    {
      RightTurnPair(g, root, x, g', m, n);
    }
  }


  /** The width of a node's interval. */
  function Span(c: Cell): nat {
    if RangeOk(c) then c.hi - c.lo else 0
  }

  /** Children are in the tree and have narrower intervals; where there is none, there is no key. */
  lemma Below(g: Graph, root: Node?, n: Node)
    requires ShapeOk(g, root) && n in g
    ensures RangeOk(g[n])
    ensures var c := g[n]; if c.left == null then Free(g, c.lo, c.key) else
      c.left in g && g[c.left].lo == c.lo && g[c.left].hi == c.key && Span(g[c.left]) < Span(c)
    ensures var c := g[n]; if c.right == null then Free(g, c.key, c.hi) else
      c.right in g && g[c.right].lo == c.key && g[c.right].hi == c.hi && Span(g[c.right]) < Span(c)
  {
    Neighbours(g, root, n);
  }

  // ---- a new leaf -----------------------------------------------------------------------------------

  lemma RootIn(g: Graph, root: Node?, n: Node)
    requires ShapeOk(g, root) && n in g
    ensures root != null && root in g && g[root].parent == null && g[root].lo == LOWEST && g[root].hi == HIGHEST
  {
    assert NodeOk(g, root, root);
  }

  /** In g', the new leaf z hangs on the empty left side of p. */
  ghost predicate LeafLeft(g: Graph, p: Node, z: Node, g': Graph) {
    && z !in g && z in g' && p in g && g[p].left == null
    && (forall n {:trigger n in g'} :: n in g ==> n in g')
    && (forall n {:trigger n in g} :: n in g' && n != z ==> n in g)
    && g'[z].parent == p && g'[z].left == null && g'[z].right == null
    && g'[z].lo == g[p].lo && g'[z].hi == g[p].key && RangeOk(g'[z])
    && p in g' && g'[p] == g[p].(left := z)
    && (forall n {:trigger g[n]} {:trigger g'[n]} :: n in g && n != p ==> n in g' && g'[n] == g[n])
  }

  lemma LeafLeftLinks(g: Graph, root: Node?, p: Node, z: Node, g': Graph, n: Node)
    requires ShapeOk(g, root) && LeafLeft(g, p, z, g') && n in g'
    ensures LeftOk(g', n) && RightOk(g', n) && ParentOk(g', root, n) && RangeOk(g'[n])
  {
    hide ShapeOk, SlotsOk;
    RootIn(g, root, p);
    Neighbours(g, root, p);
    if n != z {
      Neighbours(g, root, n);
    }
  }

  /** The key of the new leaf lies in no other empty place. */
  lemma LeafLeftSlots(g: Graph, root: Node?, p: Node, z: Node, g': Graph, n: Node)
    requires ShapeOk(g, root) && LeafLeft(g, p, z, g') && n in g'
    ensures SlotsOk(g', n)
  {
    hide ShapeOk, LeftOk, RightOk, ParentOk;
    Neighbours(g, root, p);
    if n != z {
      Neighbours(g, root, n);
      Others(g, root, n, p);
    }
  }

  lemma LeafLeftPair(g: Graph, root: Node?, p: Node, z: Node, g': Graph, n: Node)
    requires ShapeOk(g, root) && LeafLeft(g, p, z, g') && n in g
    ensures PairOk(g', z, n) && PairOk(g', n, z)
  {
    hide ShapeOk, LeftOk, RightOk, ParentOk;
    Neighbours(g, root, p);
    Neighbours(g, root, n);
    Others(g, root, n, p);
  }

  /** A leaf put where its key belongs keeps search order and links. */
  lemma LeafLeftKeeps(g: Graph, root: Node?, p: Node, z: Node, g': Graph)
    requires ShapeOk(g, root) && LeafLeft(g, p, z, g')
    ensures ShapeOk(g', root)
  {
    hide SlotsOk, LeftOk, RightOk, Apart;
    RootIn(g, root, p);
    forall n | n in g'
      ensures NodeOk(g', root, n)
    {
      LeafLeftLinks(g, root, p, z, g', n);
      LeafLeftSlots(g, root, p, z, g', n);
    }
    forall m, n | m in g' && n in g' && m != n
      ensures PairOk(g', m, n)
    {
      if m == z {
        LeafLeftPair(g, root, p, z, g', n);
      } else if n == z {
        LeafLeftPair(g, root, p, z, g', m);
      } else {
        Others(g, root, m, n);
        ApartAlike(g[m], g[n], g'[n]);
        ApartAlike(g'[n], g[m], g'[m]);
      }
    }
  }

  /** In g', the new leaf z hangs on the empty right side of p. */
  ghost predicate LeafRight(g: Graph, p: Node, z: Node, g': Graph) {
    && z !in g && z in g' && p in g && g[p].right == null
    && (forall n {:trigger n in g'} :: n in g ==> n in g')
    && (forall n {:trigger n in g} :: n in g' && n != z ==> n in g)
    && g'[z].parent == p && g'[z].right == null && g'[z].left == null
    && g'[z].hi == g[p].hi && g'[z].lo == g[p].key && RangeOk(g'[z])
    && p in g' && g'[p] == g[p].(right := z)
    && (forall n {:trigger g[n]} {:trigger g'[n]} :: n in g && n != p ==> n in g' && g'[n] == g[n])
  }

  lemma LeafRightLinks(g: Graph, root: Node?, p: Node, z: Node, g': Graph, n: Node)
    requires ShapeOk(g, root) && LeafRight(g, p, z, g') && n in g'
    ensures RightOk(g', n) && LeftOk(g', n) && ParentOk(g', root, n) && RangeOk(g'[n])
  {
    hide ShapeOk, SlotsOk;
    RootIn(g, root, p);
    Neighbours(g, root, p);
    if n != z {
      Neighbours(g, root, n);
    }
  }

  /** The key of the new leaf lies in no other empty place. */
  lemma LeafRightSlots(g: Graph, root: Node?, p: Node, z: Node, g': Graph, n: Node)
    requires ShapeOk(g, root) && LeafRight(g, p, z, g') && n in g'
    ensures SlotsOk(g', n)
  {
    hide ShapeOk, RightOk, LeftOk, ParentOk;
    Neighbours(g, root, p);
    if n != z {
      Neighbours(g, root, n);
      Others(g, root, n, p);
    }
  }

  lemma LeafRightPair(g: Graph, root: Node?, p: Node, z: Node, g': Graph, n: Node)
    requires ShapeOk(g, root) && LeafRight(g, p, z, g') && n in g
    ensures PairOk(g', z, n) && PairOk(g', n, z)
  {
    hide ShapeOk, RightOk, LeftOk, ParentOk;
    Neighbours(g, root, p);
    Neighbours(g, root, n);
    Others(g, root, n, p);
  }

  /** A leaf put where its key belongs keeps search order and links. */
  lemma LeafRightKeeps(g: Graph, root: Node?, p: Node, z: Node, g': Graph)
    requires ShapeOk(g, root) && LeafRight(g, p, z, g')
    ensures ShapeOk(g', root)
  {
    hide SlotsOk, RightOk, LeftOk, Apart;
    RootIn(g, root, p);
    forall n | n in g'
      ensures NodeOk(g', root, n)
    {
      LeafRightLinks(g, root, p, z, g', n);
      LeafRightSlots(g, root, p, z, g', n);
    }
    forall m, n | m in g' && n in g' && m != n
      ensures PairOk(g', m, n)
    {
      if m == z {
        LeafRightPair(g, root, p, z, g', n);
      } else if n == z {
        LeafRightPair(g, root, p, z, g', m);
      } else {
        Others(g, root, m, n);
        ApartAlike(g[m], g[n], g'[n]);
        ApartAlike(g'[n], g[m], g'[m]);
      }
    }
  }

  /** A single node is a tree. */
  lemma FirstKeeps(z: Node, c: Cell)
    requires c.parent == null && c.left == null && c.right == null && c.lo == LOWEST && c.hi == HIGHEST && RangeOk(c)
    ensures ShapeOk(map[z := c], z)
  {
  }

  /** Colours, counts and values do not matter for the shape. */
  ghost predicate SameLinks(g: Graph, g': Graph) {
    && (forall n {:trigger n in g'} :: n in g ==> n in g')
    && (forall n {:trigger n in g} :: n in g' ==> n in g)
    && (forall n {:trigger g[n]} {:trigger g'[n]} :: n in g ==>
          g'[n] == g[n].(red := g'[n].red, blacks := g'[n].blacks, value := g'[n].value))
  }

  lemma SameLinksKeeps(g: Graph, root: Node?, g': Graph)
    requires ShapeOk(g, root) && SameLinks(g, g')
    ensures ShapeOk(g', root)
  {
    hide Apart, Free;
    forall n | n in g'
      ensures NodeOk(g', root, n)
    {
      assert NodeOk(g, root, n);
      FreeSame(g, g', g[n].lo, g[n].key);
      FreeSame(g, g', g[n].key, g[n].hi);
    }
    forall m, n | m in g' && n in g' && m != n
      ensures PairOk(g', m, n)
    {
      Others(g, root, m, n);
      ApartAlike(g[m], g[n], g'[n]);
      ApartAlike(g'[n], g[m], g'[m]);
    }
  }

  // ---- contents -------------------------------------------------------------------------------------

  ghost function KeySet(g: Graph): set<Key> {
    set n | n in g :: g[n].key
  }

  /** What the tree maps keys to. */
  ghost function Contents(g: Graph): map<Key, Value> {
    map k | k in KeySet(g) :: (var n :| n in g && g[n].key == k; g[n].value)
  }

  lemma ContentsAt(g: Graph, root: Node?, n: Node)
    requires ShapeOk(g, root) && n in g
    ensures g[n].key in Contents(g) && Contents(g)[g[n].key] == g[n].value
  {
    forall m | m in g && g[m].key == g[n].key
      ensures m == n
    {
      if m != n {
        KeysDiffer(g, root, m, n);
      }
    }
  }

  lemma ContentsOnly(g: Graph, k: Key)
    ensures k in Contents(g) <==> exists n :: n in g && g[n].key == k
  {
  }

  /** The same nodes with the same keys and values. */
  ghost predicate SameEntries(g: Graph, g': Graph) {
    SameKeys(g, g') && forall n {:trigger g[n]} {:trigger g'[n]} :: n in g ==> g'[n].value == g[n].value
  }

  lemma SameContents(g: Graph, root: Node?, g': Graph, root': Node?)
    requires ShapeOk(g, root) && ShapeOk(g', root') && SameEntries(g, g')
    ensures Contents(g) == Contents(g')
  {
    forall k | k in Contents(g) || k in Contents(g')
      ensures k in Contents(g) && k in Contents(g') && Contents(g)[k] == Contents(g')[k]
    {
      ContentsOnly(g, k);
      ContentsOnly(g', k);
      var n :| n in g && g[n].key == k;
      ContentsAt(g, root, n);
      ContentsAt(g', root', n);
    }
  }

  /** The contents when one entry is new or has a new value. */
  lemma ContentsWith(g: Graph, root: Node?, g': Graph, root': Node?, z: Node)
    requires ShapeOk(g, root) && ShapeOk(g', root') && z in g'
    requires forall n :: n in g && n != z ==> n in g' && g'[n].key == g[n].key && g'[n].value == g[n].value
    requires forall n :: n in g' && n != z ==> n in g
    requires z in g ==> g[z].key == g'[z].key
    requires z !in g ==> g'[z].key !in Contents(g)
    ensures Contents(g') == Contents(g)[g'[z].key := g'[z].value]
  {
    var c := Contents(g)[g'[z].key := g'[z].value];
    forall k | k in Contents(g') || k in c
      ensures k in Contents(g') && k in c && Contents(g')[k] == c[k]
    {
      ContentsOnly(g, k);
      ContentsOnly(g', k);
      ContentsAt(g', root', z);
      if k != g'[z].key {
        var n :| (n in g && g[n].key == k) || (n in g' && g'[n].key == k);
        ContentsAt(g, root, n);
        ContentsAt(g', root', n);
      }
    }
  }
}
