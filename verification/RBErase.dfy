/**
  Taking a node out of a red-black tree: search order and links.
 */
module RBErase {
  import opened RBShapes

  /** v lies strictly between a and b, whichever is the larger. */
  predicate Inside(a: int, v: int, b: int) {
    a < v < b || b < v < a
  }

  lemma FreeBelow(g: Graph, n: Node)
    requires n in g && RangeOk(g[n])
    requires forall m :: m in g ==> (g[n].left == null ==> !Inside(g[n].lo, g[m].key, g[n].key))
    requires forall m :: m in g ==> (g[n].right == null ==> !Inside(g[n].hi, g[m].key, g[n].key))
    ensures SlotsOk(g, n)
  {
  }

  // ---- a node without a left child -------------------------------------------------------------------

  /** The cell of n once z, which has no left child, has given way to its right child. */
  ghost function CellNoLeft(g: Graph, z: Node, n: Node): Cell
    requires z in g && n in g
  {
    var p, x, c := g[z].parent, g[z].right, g[n];
    c.(parent := if n == x then p else c.parent,
       left := if n == p && c.left == z then x else c.left,
       right := if n == p && c.left != z then x else c.right,
       lo := if c.lo == g[z].key then g[z].lo else c.lo)
  }

  ghost predicate ErasedNoLeft(g: Graph, z: Node, g': Graph) {
    && z in g && g[z].left == null && z !in g'
    && (forall n {:trigger n in g'} :: n in g && n != z ==> n in g')
    && (forall n {:trigger n in g} :: n in g' ==> n in g)
    && (forall n {:trigger g'[n]} :: n in g' ==> g'[n] == CellNoLeft(g, z, n))
  }

  lemma MakeNoLeft(g: Graph, z: Node) returns (g': Graph)
    requires z in g && g[z].left == null
    ensures ErasedNoLeft(g, z, g') && g'.Keys == g.Keys - {z}
  {
    g' := map n | n in g && n != z :: CellNoLeft(g, z, n);
  }

  /** The interval of another node does not end in the empty part of z's. */
  lemma EndsNoLeft(g: Graph, root: Node?, z: Node, n: Node)
    requires ShapeOk(g, root) && z in g && n in g && n != z && g[z].left == null
    ensures g[n].hi != g[z].key && g[n].key != g[z].key
    ensures !Inside(g[z].lo, g[n].lo, g[z].key) && !Inside(g[z].lo, g[n].hi, g[z].key)
    ensures !Inside(g[z].lo, g[n].key, g[z].key)
    ensures RangeOk(g[z]) && RangeOk(g[n]) && Apart(g[z], g[n])
  {
    Others(g, root, z, n);
    Below(g, root, z);
    KeysDiffer(g, root, z, n);
  }

  lemma NoLeftRange(g: Graph, root: Node?, z: Node, n: Node)
    requires ShapeOk(g, root) && z in g && n in g && n != z && g[z].left == null
    ensures RangeOk(CellNoLeft(g, z, n))
  {
    hide ShapeOk;
    EndsNoLeft(g, root, z, n);
  }

  lemma NoLeftPair(g: Graph, root: Node?, z: Node, m: Node, n: Node)
    requires ShapeOk(g, root) && z in g && m in g && n in g && m != z && n != z && m != n && g[z].left == null
    ensures Apart(CellNoLeft(g, z, m), CellNoLeft(g, z, n))
  {
    hide ShapeOk;
    EndsNoLeft(g, root, z, m);
    EndsNoLeft(g, root, z, n);
    Others(g, root, m, n);
  }

  lemma NoLeftLinks(g: Graph, root: Node?, z: Node, g': Graph, n: Node)
    requires ShapeOk(g, root) && ErasedNoLeft(g, z, g') && n in g'
    ensures LeftOk(g', n) && RightOk(g', n)
  {
    hide ShapeOk, SlotsOk;
    Neighbours(g, root, z);
    Neighbours(g, root, n);
    EndsNoLeft(g, root, z, n);
  }

  lemma NoLeftParent(g: Graph, root: Node?, z: Node, g': Graph, n: Node)
    requires ShapeOk(g, root) && ErasedNoLeft(g, z, g') && n in g'
    ensures ParentOk(g', if z == root then g[z].right else root, n)
  {
    hide ShapeOk, SlotsOk;
    Neighbours(g, root, z);
    Neighbours(g, root, n);
    EndsNoLeft(g, root, z, n);
  }

  lemma NoLeftSlots(g: Graph, root: Node?, z: Node, g': Graph, n: Node)
    requires ShapeOk(g, root) && ErasedNoLeft(g, z, g') && n in g'
    ensures SlotsOk(g', n)
  {
    hide ShapeOk, LeftOk, RightOk, Free;
    var c := g'[n];
    forall m | m in g'
      ensures c.left == null ==> !Inside(c.lo, g'[m].key, c.key)
      ensures c.right == null ==> !Inside(c.hi, g'[m].key, c.key)
    {
      NoLeftSlot(g, root, z, g', n, m);
    }
    NoLeftRange(g, root, z, n);
    FreeBelow(g', n);
  }

  lemma NoLeftSlot(g: Graph, root: Node?, z: Node, g': Graph, n: Node, m: Node)
    requires ShapeOk(g, root) && ErasedNoLeft(g, z, g') && n in g' && m in g'
    ensures var c := g'[n];
      (c.left == null ==> !Inside(c.lo, g'[m].key, c.key)) && (c.right == null ==> !Inside(c.hi, g'[m].key, c.key))
  {
    hide ShapeOk;
    Neighbours(g, root, z);
    Neighbours(g, root, n);
    EndsNoLeft(g, root, z, n);
    EndsNoLeft(g, root, z, m);
  }

  lemma ErasedNoLeftKeeps(g: Graph, root: Node?, z: Node, g': Graph)
    requires ShapeOk(g, root) && ErasedNoLeft(g, z, g')
    ensures ShapeOk(g', if z == root then g[z].right else root)
  {
    hide LeftOk, RightOk, ParentOk, SlotsOk, Apart;
    var root' := if z == root then g[z].right else root;
    forall n | n in g'
      ensures NodeOk(g', root', n)
    {
      NoLeftLinks(g, root, z, g', n);
      NoLeftParent(g, root, z, g', n);
      NoLeftSlots(g, root, z, g', n);
      NoLeftRange(g, root, z, n);
    }
    forall m, n | m in g' && n in g' && m != n
      ensures PairOk(g', m, n)
    {
      NoLeftPair(g, root, z, m, n);
    }
    NoLeftRoot(g, root, z, g');
  }

  lemma NoLeftRoot(g: Graph, root: Node?, z: Node, g': Graph)
    requires ShapeOk(g, root) && ErasedNoLeft(g, z, g')
    ensures var root' := if z == root then g[z].right else root;
      (root' == null ==> g' == map[]) && (root' != null ==> root' in g' && g'[root'].parent == null)
  {
    RootIn(g, root, z);
    Neighbours(g, root, z);
    if z == root && g[z].right == null {
      forall n | n in g'
        ensures false
      {
        EndsNoLeft(g, root, z, n);
        Below(g, root, z);
      }
    }
  }

  // ---- a node without a right child -------------------------------------------------------------------

  /** The cell of n once z, which has no right child, has given way to its left child. */
  ghost function CellNoRight(g: Graph, z: Node, n: Node): Cell
    requires z in g && n in g
  {
    var p, x, c := g[z].parent, g[z].left, g[n];
    c.(parent := if n == x then p else c.parent,
       right := if n == p && c.right == z then x else c.right,
       left := if n == p && c.right != z then x else c.left,
       hi := if c.hi == g[z].key then g[z].hi else c.hi)
  }

  ghost predicate ErasedNoRight(g: Graph, z: Node, g': Graph) {
    && z in g && g[z].right == null && z !in g'
    && (forall n {:trigger n in g'} :: n in g && n != z ==> n in g')
    && (forall n {:trigger n in g} :: n in g' ==> n in g)
    && (forall n {:trigger g'[n]} :: n in g' ==> g'[n] == CellNoRight(g, z, n))
  }

  lemma MakeNoRight(g: Graph, z: Node) returns (g': Graph)
    requires z in g && g[z].right == null
    ensures ErasedNoRight(g, z, g') && g'.Keys == g.Keys - {z}
  {
    g' := map n | n in g && n != z :: CellNoRight(g, z, n);
  }

  /** The interval of another node does not end in the empty part of z's. */
  lemma EndsNoRight(g: Graph, root: Node?, z: Node, n: Node)
    requires ShapeOk(g, root) && z in g && n in g && n != z && g[z].right == null
    ensures g[n].lo != g[z].key && g[n].key != g[z].key
    ensures !Inside(g[z].hi, g[n].hi, g[z].key) && !Inside(g[z].hi, g[n].lo, g[z].key)
    ensures !Inside(g[z].hi, g[n].key, g[z].key)
    ensures RangeOk(g[z]) && RangeOk(g[n]) && Apart(g[z], g[n])
  {
    Others(g, root, z, n);
    Below(g, root, z);
    KeysDiffer(g, root, z, n);
  }

  lemma NoRightRange(g: Graph, root: Node?, z: Node, n: Node)
    requires ShapeOk(g, root) && z in g && n in g && n != z && g[z].right == null
    ensures RangeOk(CellNoRight(g, z, n))
  {
    hide ShapeOk;
    EndsNoRight(g, root, z, n);
  }

  lemma NoRightPair(g: Graph, root: Node?, z: Node, m: Node, n: Node)
    requires ShapeOk(g, root) && z in g && m in g && n in g && m != z && n != z && m != n && g[z].right == null
    ensures Apart(CellNoRight(g, z, m), CellNoRight(g, z, n))
  {
    hide ShapeOk;
    EndsNoRight(g, root, z, m);
    EndsNoRight(g, root, z, n);
    Others(g, root, m, n);
  }

  lemma NoRightLinks(g: Graph, root: Node?, z: Node, g': Graph, n: Node)
    requires ShapeOk(g, root) && ErasedNoRight(g, z, g') && n in g'
    ensures RightOk(g', n) && LeftOk(g', n)
  {
    hide ShapeOk, SlotsOk;
    Neighbours(g, root, z);
    Neighbours(g, root, n);
    EndsNoRight(g, root, z, n);
  }

  lemma NoRightParent(g: Graph, root: Node?, z: Node, g': Graph, n: Node)
    requires ShapeOk(g, root) && ErasedNoRight(g, z, g') && n in g'
    ensures ParentOk(g', if z == root then g[z].left else root, n)
  {
    hide ShapeOk, SlotsOk;
    Neighbours(g, root, z);
    Neighbours(g, root, n);
    EndsNoRight(g, root, z, n);
  }

  lemma NoRightSlots(g: Graph, root: Node?, z: Node, g': Graph, n: Node)
    requires ShapeOk(g, root) && ErasedNoRight(g, z, g') && n in g'
    ensures SlotsOk(g', n)
  {
    hide ShapeOk, RightOk, LeftOk, Free;
    var c := g'[n];
    forall m | m in g'
      ensures c.right == null ==> !Inside(c.hi, g'[m].key, c.key)
      ensures c.left == null ==> !Inside(c.lo, g'[m].key, c.key)
    {
      NoRightSlot(g, root, z, g', n, m);
    }
    NoRightRange(g, root, z, n);
    FreeBelow(g', n);
  }

  lemma NoRightSlot(g: Graph, root: Node?, z: Node, g': Graph, n: Node, m: Node)
    requires ShapeOk(g, root) && ErasedNoRight(g, z, g') && n in g' && m in g'
    ensures var c := g'[n];
      (c.right == null ==> !Inside(c.hi, g'[m].key, c.key)) && (c.left == null ==> !Inside(c.lo, g'[m].key, c.key))
  {
    hide ShapeOk;
    Neighbours(g, root, z);
    Neighbours(g, root, n);
    EndsNoRight(g, root, z, n);
    EndsNoRight(g, root, z, m);
  }

  lemma ErasedNoRightKeeps(g: Graph, root: Node?, z: Node, g': Graph)
    requires ShapeOk(g, root) && ErasedNoRight(g, z, g')
    ensures ShapeOk(g', if z == root then g[z].left else root)
  {
    hide RightOk, LeftOk, ParentOk, SlotsOk, Apart;
    var root' := if z == root then g[z].left else root;
    forall n | n in g'
      ensures NodeOk(g', root', n)
    {
      NoRightLinks(g, root, z, g', n);
      NoRightParent(g, root, z, g', n);
      NoRightSlots(g, root, z, g', n);
      NoRightRange(g, root, z, n);
    }
    forall m, n | m in g' && n in g' && m != n
      ensures PairOk(g', m, n)
    {
      NoRightPair(g, root, z, m, n);
    }
    NoRightRoot(g, root, z, g');
  }

  lemma NoRightRoot(g: Graph, root: Node?, z: Node, g': Graph)
    requires ShapeOk(g, root) && ErasedNoRight(g, z, g')
    ensures var root' := if z == root then g[z].left else root;
      (root' == null ==> g' == map[]) && (root' != null ==> root' in g' && g'[root'].parent == null)
  {
    RootIn(g, root, z);
    Neighbours(g, root, z);
    if z == root && g[z].left == null {
      forall n | n in g'
        ensures false
      {
        EndsNoRight(g, root, z, n);
        Below(g, root, z);
      }
    }
  }

  // ---- a node with two children ----------------------------------------------------------------------

  /** y is the node that follows z, which has two children. */
  ghost predicate Follows(g: Graph, z: Node, y: Node) {
    && z in g && y in g && y != z && g[z].left != null && g[z].right != null
    && g[y].left == null && g[y].lo == g[z].key
  }

  function Moved(v: int, from: int, to: int): int {
    if v == from then to else v
  }

  /** The cell of n once y has taken the place of z. */
  ghost function CellBoth(g: Graph, z: Node, y: Node, n: Node): Cell
    requires z in g && y in g && n in g
  {
    var a, c := g[z], g[n];
    if n == y then
      c.(parent := a.parent, left := a.left, right := if y == a.right then c.right else a.right,
         red := a.red, blacks := a.blacks, lo := a.lo, hi := a.hi)
    else
      c.(parent := if n == a.left || n == a.right then y
           else if n == g[y].right && y != a.right then g[y].parent
           else c.parent,
         left := if n == a.parent && c.left == z then y
           else if n == g[y].parent && y != a.right then g[y].right
           else c.left,
         right := if n == a.parent && c.left != z then y else c.right,
         lo := Moved(c.lo, a.key, g[y].key),
         hi := Moved(c.hi, a.key, g[y].key))
  }

  /** The cell of n once y, unless it is z's right child, has left its place and taken z's right child. */
  ghost function CellLifted(g: Graph, z: Node, y: Node, n: Node): Cell
    requires z in g && y in g && n in g
  {
    var a, c := g[z], g[n];
    if y == a.right then c
    else if n == y then c.(right := a.right)
    else c.(parent := if n == a.right then y else if n == g[y].right then g[y].parent else c.parent,
            left := if n == g[y].parent then g[y].right else c.left)
  }

  ghost predicate ErasedBoth(g: Graph, z: Node, y: Node, g': Graph) {
    && Follows(g, z, y) && z !in g'
    && (forall n {:trigger n in g'} :: n in g && n != z ==> n in g')
    && (forall n {:trigger n in g} :: n in g' ==> n in g)
    && (forall n {:trigger g'[n]} :: n in g' ==> g'[n] == CellBoth(g, z, y, n))
  }

  lemma MakeBoth(g: Graph, z: Node, y: Node) returns (g': Graph)
    requires Follows(g, z, y)
    ensures ErasedBoth(g, z, y, g') && g'.Keys == g.Keys - {z}
  {
    g' := map n | n in g && n != z :: CellBoth(g, z, y, n);
  }

  /** Where y hangs, and how its interval lies to z's. */
  lemma FollowsPlace(g: Graph, root: Node?, z: Node, y: Node)
    requires ShapeOk(g, root) && Follows(g, z, y)
    ensures var q := g[y].parent;
      q != null && q in g && q != y && (q == z <==> y == g[z].right) && (q != z ==> g[q].left == y)
    ensures g[z].key < g[y].key < g[y].hi <= g[z].hi && RangeOk(g[z]) && RangeOk(g[y]) && y != g[z].left
    ensures g[y].parent != g[z].parent && g[z].parent != y
    ensures var x := g[y].right; x != null ==> x in g && x != z && x != g[z].left && x != g[z].parent && x != y
  {
    hide ShapeOk, SlotsOk;
    Neighbours(g, root, z);
    Neighbours(g, root, y);
    Others(g, root, z, y);
    RootIn(g, root, y);
    var q := g[y].parent;
    if q != null && q != z {
      KeysDiffer(g, root, q, z);
      Others(g, root, q, z);
    }
  }

  /** From the lifted cells to the final ones: only z's parent, its left child and y still change. */
  lemma BothFromLifted(g: Graph, root: Node?, z: Node, y: Node, n: Node)
    requires ShapeOk(g, root) && Follows(g, z, y) && n in g && n != z
    ensures var a, c, d := g[z], CellLifted(g, z, y, n), CellBoth(g, z, y, n);
      && d.key == c.key && d.value == c.value && (n != y ==> d.red == c.red) && (n == y ==> d.red == a.red)
      && d.parent == (if n == y then a.parent else if n == a.left then y else c.parent)
      && d.left == (if n == y then a.left else if n == a.parent && c.left == z then y else c.left)
      && d.right == if n == a.parent && c.left != z then y else c.right
  {
    hide ShapeOk, SlotsOk, RangeOk;
    FollowsPlace(g, root, z, y);
    Neighbours(g, root, z);
    Neighbours(g, root, y);
  }

  /** The lifted cells of z, its parent and its left child. */
  lemma LiftedPlace(g: Graph, root: Node?, z: Node, y: Node)
    requires ShapeOk(g, root) && Follows(g, z, y)
    ensures var a, c := g[z], CellLifted(g, z, y, z);
      && y != z && c.parent == a.parent && c.left == a.left && c.red == a.red
      && a.left != null && a.left in g && a.left != z && a.left != y && a.parent != z && a.parent != y
      && a.parent != a.left
      && (a.parent == null <==> z == root)
      && (a.parent != null ==> a.parent in g && var d := CellLifted(g, z, y, a.parent); d.left == z || d.right == z)
  {
    hide ShapeOk, SlotsOk;
    FollowsPlace(g, root, z, y);
    Neighbours(g, root, z);
    Neighbours(g, root, y);
  }

  lemma BothRange(g: Graph, root: Node?, z: Node, y: Node, n: Node)
    requires ShapeOk(g, root) && Follows(g, z, y) && n in g && n != z
    ensures RangeOk(CellBoth(g, z, y, n))
  {
    hide ShapeOk;
    FollowsPlace(g, root, z, y);
    if n != y {
      EndsNoLeft(g, root, y, n);
      KeysDiffer(g, root, n, z);
    }
  }

  lemma BothPair(g: Graph, root: Node?, z: Node, y: Node, m: Node, n: Node)
    requires ShapeOk(g, root) && Follows(g, z, y) && m in g && n in g && m != z && n != z && m != n && m != y && n != y
    ensures Apart(CellBoth(g, z, y, m), CellBoth(g, z, y, n))
  {
    hide ShapeOk;
    FollowsPlace(g, root, z, y);
    EndsNoLeft(g, root, y, m);
    EndsNoLeft(g, root, y, n);
    KeysDiffer(g, root, m, z);
    KeysDiffer(g, root, n, z);
    Others(g, root, m, n);
  }

  lemma BothPairY(g: Graph, root: Node?, z: Node, y: Node, n: Node)
    requires ShapeOk(g, root) && Follows(g, z, y) && n in g && n != z && n != y
    ensures Apart(CellBoth(g, z, y, y), CellBoth(g, z, y, n)) && Apart(CellBoth(g, z, y, n), CellBoth(g, z, y, y))
  {
    hide ShapeOk;
    FollowsPlace(g, root, z, y);
    EndsNoLeft(g, root, y, n);
    Others(g, root, z, n);
    KeysDiffer(g, root, n, z);
  }

  lemma BothLeft(g: Graph, root: Node?, z: Node, y: Node, g': Graph, n: Node)
    requires ShapeOk(g, root) && ErasedBoth(g, z, y, g') && n in g'
    ensures LeftOk(g', n)
  {
    hide ShapeOk, SlotsOk;
    FollowsPlace(g, root, z, y);
    Neighbours(g, root, g[y].parent);
    Neighbours(g, root, z);
    Neighbours(g, root, y);
    Neighbours(g, root, n);
    KeysApart(g, root, n, z);
  }

  lemma BothRight(g: Graph, root: Node?, z: Node, y: Node, g': Graph, n: Node)
    requires ShapeOk(g, root) && ErasedBoth(g, z, y, g') && n in g'
    ensures RightOk(g', n)
  {
    hide ShapeOk, SlotsOk, RangeOk;
    FollowsPlace(g, root, z, y);
    Neighbours(g, root, z);
    Neighbours(g, root, y);
    Neighbours(g, root, n);
    KeysApart(g, root, n, z);
  }

  lemma BothParent(g: Graph, root: Node?, z: Node, y: Node, g': Graph, n: Node)
    requires ShapeOk(g, root) && ErasedBoth(g, z, y, g') && n in g'
    ensures ParentOk(g', if z == root then y else root, n)
  {
    hide ShapeOk, SlotsOk, RangeOk, LeftOk, RightOk, ParentOk;
    if n == y {
      BothParentY(g, root, z, y, g');
    } else {
      BothParentOther(g, root, z, y, g', n);
    }
  }

  lemma BothParentY(g: Graph, root: Node?, z: Node, y: Node, g': Graph)
    requires ShapeOk(g, root) && ErasedBoth(g, z, y, g')
    ensures ParentOk(g', if z == root then y else root, y)
  {
    hide ShapeOk, SlotsOk, RangeOk, LeftOk, RightOk;
    FollowsPlace(g, root, z, y);
    Neighbours(g, root, z);
    Neighbours(g, root, y);
  }

  lemma BothParentOther(g: Graph, root: Node?, z: Node, y: Node, g': Graph, n: Node)
    requires ShapeOk(g, root) && ErasedBoth(g, z, y, g') && n in g' && n != y
    ensures ParentOk(g', if z == root then y else root, n)
  {
    hide ShapeOk, SlotsOk, RangeOk;
    FollowsPlace(g, root, z, y);
    Neighbours(g, root, z);
    Neighbours(g, root, y);
    Neighbours(g, root, n);
  }

  lemma BothSlot(g: Graph, root: Node?, z: Node, y: Node, g': Graph, n: Node, m: Node)
    requires ShapeOk(g, root) && ErasedBoth(g, z, y, g') && n in g' && m in g'
    ensures var c := g'[n];
      (c.left == null ==> !Inside(c.lo, g'[m].key, c.key)) && (c.right == null ==> !Inside(c.hi, g'[m].key, c.key))
  {
    hide ShapeOk;
    FollowsPlace(g, root, z, y);
    Neighbours(g, root, y);
    Neighbours(g, root, n);
    if m != y {
      EndsNoLeft(g, root, y, m);
    }
    if n != y {
      EndsNoLeft(g, root, y, n);
    }
    KeysDiffer(g, root, m, z);
    KeysDiffer(g, root, n, z);
  }

  lemma ErasedBothKeeps(g: Graph, root: Node?, z: Node, y: Node, g': Graph)
    requires ShapeOk(g, root) && ErasedBoth(g, z, y, g')
    ensures ShapeOk(g', if z == root then y else root)
  {
    hide LeftOk, RightOk, ParentOk, SlotsOk, Apart;
    var root' := if z == root then y else root;
    forall n | n in g'
      ensures NodeOk(g', root', n)
    {
      BothLeft(g, root, z, y, g', n);
      BothRight(g, root, z, y, g', n);
      BothParent(g, root, z, y, g', n);
      BothRange(g, root, z, y, n);
      forall m | m in g'
        ensures g'[n].left == null ==> !Inside(g'[n].lo, g'[m].key, g'[n].key)
        ensures g'[n].right == null ==> !Inside(g'[n].hi, g'[m].key, g'[n].key)
      {
        BothSlot(g, root, z, y, g', n, m);
      }
      FreeBelow(g', n);
    }
    forall m, n | m in g' && n in g' && m != n
      ensures PairOk(g', m, n)
    {
      if m == y {
        BothPairY(g, root, z, y, n);
      } else if n == y {
        BothPairY(g, root, z, y, m);
      } else {
        BothPair(g, root, z, y, m, n);
      }
    }
    BothRoot(g, root, z, y, g');
  }

  lemma BothRoot(g: Graph, root: Node?, z: Node, y: Node, g': Graph)
    requires ShapeOk(g, root) && ErasedBoth(g, z, y, g')
    ensures var root' := if z == root then y else root;
      root' != null && root' in g' && g'[root'].parent == null
  {
    RootIn(g, root, z);
    FollowsPlace(g, root, z, y);
    Neighbours(g, root, z);
    Neighbours(g, root, y);
    Neighbours(g, root, root);
  }
}
