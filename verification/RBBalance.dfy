/**
  The balance of a red-black tree: no red node has a red child, and every way down from a node passes
  the same number of black nodes.  What the repair after an insertion does to it.
 */
module RBBalance {
  import opened RBShapes

  predicate IsRed(g: Graph, n: Node?) {
    n != null && n in g && g[n].red
  }

  function BlacksOf(g: Graph, n: Node?): int {
    if n != null && n in g then g[n].blacks else 0
  }

  /** Below both children there are as many black nodes, and the count of the node is right. */
  ghost predicate BlackOk(g: Graph, n: Node) {
    && n in g
    && BlacksOf(g, g[n].left) == BlacksOf(g, g[n].right)
    && g[n].blacks == BlacksOf(g, g[n].left) + if g[n].red then 0 else 1
  }

  /** A red node has no red child, except possibly z. */
  ghost predicate RedOk(g: Graph, n: Node, z: Node?) {
    && n in g
    && (g[n].red && IsRed(g, g[n].left) ==> g[n].left == z)
    && (g[n].red && IsRed(g, g[n].right) ==> g[n].right == z)
  }

  ghost predicate ColorOk(g: Graph, n: Node, z: Node?) {
    BlackOk(g, n) && RedOk(g, n, z)
  }

  ghost predicate Balanced(g: Graph, root: Node?) {
    && !IsRed(g, root)
    && forall n {:trigger ColorOk(g, n, null)} :: n in g ==> ColorOk(g, n, null)
  }

  /** Balanced but for the red node z, which may have a red parent or be the root. */
  ghost predicate Almost(g: Graph, root: Node?, z: Node) {
    && z in g && g[z].red
    && (IsRed(g, root) ==> root == z)
    && forall n {:trigger ColorOk(g, n, z)} :: n in g ==> ColorOk(g, n, z)
  }

  /** A red parent of z is not the root: there is a grandparent, and it is black. */
  lemma Grandparent(g: Graph, root: Node?, z: Node)
    requires ShapeOk(g, root) && Almost(g, root, z) && z != root && IsRed(g, g[z].parent)
    ensures var p := g[z].parent;
      && p in g && p != root && g[p].parent != null && g[p].parent in g && !g[g[p].parent].red
      && g[p].parent != z && g[p].parent != p
  {
    var p := g[z].parent;
    Neighbours(g, root, z);
    Neighbours(g, root, p);
    if g[p].parent != null {
      assert ColorOk(g, g[p].parent, z);
    }
  }

  /** The colours at one node, and those of its neighbours. */
  lemma ColorAt(g: Graph, root: Node?, z: Node, n: Node?)
    requires Almost(g, root, z)
    ensures n != null && n in g ==> ColorOk(g, n, z)
    ensures z in g && g[z].red && (IsRed(g, root) ==> root == z)
  {
  }

  // ---- parent on the left of the grandparent ---------------------------------------------------------

  /** z's parent p is red and a left child; a is the grandparent. */
  ghost predicate TroubleLeft(g: Graph, root: Node?, z: Node, p: Node, a: Node) {
    && ShapeOk(g, root) && Almost(g, root, z) && z in g && z != root
    && g[z].parent == p && p in g && g[p].red && g[p].parent == a && a in g && g[a].left == p
  }

  /** The new colours when the uncle u is red: the trouble moves up to the grandparent. */
  ghost predicate RecoloredLeft(g: Graph, p: Node, a: Node, u: Node, g': Graph) {
    && p in g && a in g && u in g && p != u && a != p && a != u && g[a].right == u
    && SameLinks(g, g')
    && g'[p] == g[p].(red := false, blacks := g[p].blacks + 1)
    && g'[u] == g[u].(red := false, blacks := g[u].blacks + 1)
    && g'[a] == g[a].(red := true)
    && (forall n {:trigger g'[n]} :: n in g && n != p && n != u && n != a ==> g'[n] == g[n])
  }

  lemma RecolorLeft(g: Graph, root: Node?, z: Node, p: Node, a: Node, u: Node, g': Graph)
    requires TroubleLeft(g, root, z, p, a) && RecoloredLeft(g, p, a, u, g') && g[u].red
    ensures Almost(g', root, a)
  {
    Grandparent(g, root, z);
    forall n | n in g'
      ensures ColorOk(g', n, a)
    {
      RecolorOneLeft(g, root, z, p, a, u, g', n);
    }
  }

  lemma RecolorOneLeft(g: Graph, root: Node?, z: Node, p: Node, a: Node, u: Node, g': Graph, n: Node)
    requires TroubleLeft(g, root, z, p, a) && RecoloredLeft(g, p, a, u, g') && g[u].red && n in g
    ensures ColorOk(g', n, a)
  {
    hide ShapeOk, Almost, SlotsOk, RangeOk;
    Grandparent(g, root, z);
    Neighbours(g, root, z);
    Neighbours(g, root, p);
    Neighbours(g, root, a);
    Neighbours(g, root, n);
    ColorAt(g, root, z, n);
    ColorAt(g, root, z, a);
    ColorAt(g, root, z, p);
  }

  /** When z is the inner child, turning its parent makes the parent the outer one. */
  lemma InnerTurnLeft(g: Graph, root: Node?, z: Node, p: Node, a: Node, g': Graph)
    requires TroubleLeft(g, root, z, p, a) && g[p].right == z && TurnedLeft(g, p, g')
    ensures ShapeOk(g', root) && TroubleLeft(g', root, p, z, a) && g'[z].left == p
  {
    Grandparent(g, root, z);
    AroundLeft(g, root, p);
    TurnedLeftKeeps(g, root, p, g');
    forall n | n in g'
      ensures ColorOk(g', n, p)
    {
      InnerOneLeft(g, root, z, p, a, g', n);
    }
  }

  lemma InnerOneLeft(g: Graph, root: Node?, z: Node, p: Node, a: Node, g': Graph, n: Node)
    requires TroubleLeft(g, root, z, p, a) && g[p].right == z && TurnedLeft(g, p, g') && n in g
    ensures ColorOk(g', n, p)
  {
    hide ShapeOk, Almost, SlotsOk, RangeOk;
    Grandparent(g, root, z);
    AroundLeft(g, root, p);
    Neighbours(g, root, n);
    Neighbours(g, root, p);
    ColorAt(g, root, z, n);
    ColorAt(g, root, z, z);
    ColorAt(g, root, z, p);
    ColorAt(g, root, z, a);
  }

  /** The colours and counts before the last turn: the parent takes the grandparent's place. */
  ghost predicate SwappedLeft(g: Graph, p: Node, a: Node, g': Graph) {
    && p in g && a in g && a != p
    && SameLinks(g, g')
    && g'[p] == g[p].(red := false, blacks := g[p].blacks + 1)
    && g'[a] == g[a].(red := true, blacks := g[a].blacks - 1)
    && (forall n {:trigger g'[n]} :: n in g && n != p && n != a ==> g'[n] == g[n])
  }

  lemma OuterTurnRight(g: Graph, root: Node?, z: Node, p: Node, a: Node, g': Graph, g'': Graph)
    requires TroubleLeft(g, root, z, p, a) && g[p].left == z && !IsRed(g, g[a].right)
    requires SwappedLeft(g, p, a, g') && TurnedRight(g', a, g'')
    ensures Balanced(g'', if a == root then p else root) && g''[z].red && g''[z].parent == p && !g''[p].red
  {
    Grandparent(g, root, z);
    SameLinksKeeps(g, root, g');
    AroundRight(g', root, a);
    Neighbours(g, root, z);
    forall n | n in g''
      ensures ColorOk(g'', n, null)
    {
      OuterOneRight(g, root, z, p, a, g', g'', n);
    }
    RootIn(g, root, z);
  }

  lemma OuterOneRight(g: Graph, root: Node?, z: Node, p: Node, a: Node, g': Graph, g'': Graph, n: Node)
    requires TroubleLeft(g, root, z, p, a) && g[p].left == z && !IsRed(g, g[a].right) && ShapeOk(g', root)
    requires SwappedLeft(g, p, a, g') && TurnedRight(g', a, g'') && n in g
    ensures ColorOk(g'', n, null)
  {
    hide ShapeOk, Almost, SlotsOk, RangeOk, ColorOk;
    Grandparent(g, root, z);
    AroundRight(g', root, a);
    if n == p || n == a {
      OuterPairRight(g, root, z, p, a, g', g'');
    } else {
      OuterOtherRight(g, root, z, p, a, g', g'', n);
    }
  }

  lemma OuterPairRight(g: Graph, root: Node?, z: Node, p: Node, a: Node, g': Graph, g'': Graph)
    requires TroubleLeft(g, root, z, p, a) && g[p].left == z && !IsRed(g, g[a].right) && ShapeOk(g', root)
    requires SwappedLeft(g, p, a, g') && TurnedRight(g', a, g'')
    ensures ColorOk(g'', p, null) && ColorOk(g'', a, null)
  {
    hide ShapeOk, Almost, SlotsOk, RangeOk;
    Grandparent(g, root, z);
    AroundRight(g', root, a);
    Neighbours(g, root, p);
    Neighbours(g, root, a);
    ColorAt(g, root, z, z);
    ColorAt(g, root, z, p);
    ColorAt(g, root, z, a);
  }

  /** A turn changes no colour and no count. */
  lemma TurnRightKeepsColor(g: Graph, x: Node, g': Graph, m: Node)
    requires TurnedRight(g, x, g') && m in g
    ensures m in g' && g'[m].red == g[m].red && g'[m].blacks == g[m].blacks
  {
  }

  /** What another node sees of its child c: the same count and colour as before. */
  lemma OuterChildRight(g: Graph, p: Node, a: Node, g': Graph, g'': Graph, c: Node?)
    requires p in g && a in g && g[p].red && !g[a].red && g[p].blacks + 1 == g[a].blacks
    requires SwappedLeft(g, p, a, g') && TurnedRight(g', a, g'') && c != p && (c != null ==> c in g)
    ensures var c' := if c == a then p else c;
      BlacksOf(g'', c') == BlacksOf(g, c) && IsRed(g'', c') == IsRed(g, c)
  {
    if c != null {
      TurnRightKeepsColor(g', a, g'', c);
    }
    TurnRightKeepsColor(g', a, g'', p);
  }

  lemma OuterLinksRight(g: Graph, root: Node?, p: Node, a: Node, g': Graph, g'': Graph, n: Node)
    requires ShapeOk(g, root) && ShapeOk(g', root) && p in g && g[p].parent == a && a in g && g[a].left == p
    requires SwappedLeft(g, p, a, g') && TurnedRight(g', a, g'') && n in g && n != p && n != a
    ensures n in g'' && g''[n].red == g[n].red && g''[n].blacks == g[n].blacks
    ensures g''[n].left == if g[n].left == a then p else g[n].left
    ensures g''[n].right == if g[n].right == a then p else g[n].right
  {
    hide ShapeOk, SlotsOk, RangeOk;
    AroundRight(g', root, a);
    Neighbours(g, root, n);
    Neighbours(g, root, a);
  }

  lemma OuterOtherRight(g: Graph, root: Node?, z: Node, p: Node, a: Node, g': Graph, g'': Graph, n: Node)
    requires TroubleLeft(g, root, z, p, a) && g[p].left == z && !IsRed(g, g[a].right) && ShapeOk(g', root)
    requires SwappedLeft(g, p, a, g') && TurnedRight(g', a, g'') && n in g && n != p && n != a
    ensures ColorOk(g'', n, null)
  {
    hide ShapeOk, Almost, SlotsOk, RangeOk, SwappedLeft, TurnedRight;
    Grandparent(g, root, z);
    Neighbours(g, root, n);
    Neighbours(g, root, p);
    ColorAt(g, root, z, n);
    ColorAt(g, root, z, a);
    ColorAt(g, root, z, p);
    OuterLinksRight(g, root, p, a, g', g'', n);
    OuterChildRight(g, p, a, g', g'', g[n].left);
    OuterChildRight(g, p, a, g', g'', g[n].right);
  }

  // ---- parent on the right of the grandparent ---------------------------------------------------------

  /** z's parent p is red and a right child; a is the grandparent. */
  ghost predicate TroubleRight(g: Graph, root: Node?, z: Node, p: Node, a: Node) {
    && ShapeOk(g, root) && Almost(g, root, z) && z in g && z != root
    && g[z].parent == p && p in g && g[p].red && g[p].parent == a && a in g && g[a].right == p
  }

  /** The new colours when the uncle u is red: the trouble moves up to the grandparent. */
  ghost predicate RecoloredRight(g: Graph, p: Node, a: Node, u: Node, g': Graph) {
    && p in g && a in g && u in g && p != u && a != p && a != u && g[a].left == u
    && SameLinks(g, g')
    && g'[p] == g[p].(red := false, blacks := g[p].blacks + 1)
    && g'[u] == g[u].(red := false, blacks := g[u].blacks + 1)
    && g'[a] == g[a].(red := true)
    && (forall n {:trigger g'[n]} :: n in g && n != p && n != u && n != a ==> g'[n] == g[n])
  }

  lemma RecolorRight(g: Graph, root: Node?, z: Node, p: Node, a: Node, u: Node, g': Graph)
    requires TroubleRight(g, root, z, p, a) && RecoloredRight(g, p, a, u, g') && g[u].red
    ensures Almost(g', root, a)
  {
    Grandparent(g, root, z);
    forall n | n in g'
      ensures ColorOk(g', n, a)
    {
      RecolorOneRight(g, root, z, p, a, u, g', n);
    }
  }

  lemma RecolorOneRight(g: Graph, root: Node?, z: Node, p: Node, a: Node, u: Node, g': Graph, n: Node)
    requires TroubleRight(g, root, z, p, a) && RecoloredRight(g, p, a, u, g') && g[u].red && n in g
    ensures ColorOk(g', n, a)
  {
    hide ShapeOk, Almost, SlotsOk, RangeOk;
    Grandparent(g, root, z);
    Neighbours(g, root, z);
    Neighbours(g, root, p);
    Neighbours(g, root, a);
    Neighbours(g, root, n);
    ColorAt(g, root, z, n);
    ColorAt(g, root, z, a);
    ColorAt(g, root, z, p);
  }

  /** When z is the inner child, turning its parent makes the parent the outer one. */
  lemma InnerTurnRight(g: Graph, root: Node?, z: Node, p: Node, a: Node, g': Graph)
    requires TroubleRight(g, root, z, p, a) && g[p].left == z && TurnedRight(g, p, g')
    ensures ShapeOk(g', root) && TroubleRight(g', root, p, z, a) && g'[z].right == p
  {
    Grandparent(g, root, z);
    AroundRight(g, root, p);
    TurnedRightKeeps(g, root, p, g');
    forall n | n in g'
      ensures ColorOk(g', n, p)
    {
      InnerOneRight(g, root, z, p, a, g', n);
    }
  }

  lemma InnerOneRight(g: Graph, root: Node?, z: Node, p: Node, a: Node, g': Graph, n: Node)
    requires TroubleRight(g, root, z, p, a) && g[p].left == z && TurnedRight(g, p, g') && n in g
    ensures ColorOk(g', n, p)
  {
    hide ShapeOk, Almost, SlotsOk, RangeOk;
    Grandparent(g, root, z);
    AroundRight(g, root, p);
    Neighbours(g, root, n);
    Neighbours(g, root, p);
    ColorAt(g, root, z, n);
    ColorAt(g, root, z, z);
    ColorAt(g, root, z, p);
    ColorAt(g, root, z, a);
  }

  /** The colours and counts before the last turn: the parent takes the grandparent's place. */
  ghost predicate SwappedRight(g: Graph, p: Node, a: Node, g': Graph) {
    && p in g && a in g && a != p
    && SameLinks(g, g')
    && g'[p] == g[p].(red := false, blacks := g[p].blacks + 1)
    && g'[a] == g[a].(red := true, blacks := g[a].blacks - 1)
    && (forall n {:trigger g'[n]} :: n in g && n != p && n != a ==> g'[n] == g[n])
  }

  lemma OuterTurnLeft(g: Graph, root: Node?, z: Node, p: Node, a: Node, g': Graph, g'': Graph)
    requires TroubleRight(g, root, z, p, a) && g[p].right == z && !IsRed(g, g[a].left)
    requires SwappedRight(g, p, a, g') && TurnedLeft(g', a, g'')
    ensures Balanced(g'', if a == root then p else root) && g''[z].red && g''[z].parent == p && !g''[p].red
  {
    Grandparent(g, root, z);
    SameLinksKeeps(g, root, g');
    AroundLeft(g', root, a);
    Neighbours(g, root, z);
    forall n | n in g''
      ensures ColorOk(g'', n, null)
    {
      OuterOneLeft(g, root, z, p, a, g', g'', n);
    }
    RootIn(g, root, z);
  }

  lemma OuterOneLeft(g: Graph, root: Node?, z: Node, p: Node, a: Node, g': Graph, g'': Graph, n: Node)
    requires TroubleRight(g, root, z, p, a) && g[p].right == z && !IsRed(g, g[a].left) && ShapeOk(g', root)
    requires SwappedRight(g, p, a, g') && TurnedLeft(g', a, g'') && n in g
    ensures ColorOk(g'', n, null)
  {
    hide ShapeOk, Almost, SlotsOk, RangeOk, ColorOk;
    Grandparent(g, root, z);
    AroundLeft(g', root, a);
    if n == p || n == a {
      OuterPairLeft(g, root, z, p, a, g', g'');
    } else {
      OuterOtherLeft(g, root, z, p, a, g', g'', n);
    }
  }

  lemma OuterPairLeft(g: Graph, root: Node?, z: Node, p: Node, a: Node, g': Graph, g'': Graph)
    requires TroubleRight(g, root, z, p, a) && g[p].right == z && !IsRed(g, g[a].left) && ShapeOk(g', root)
    requires SwappedRight(g, p, a, g') && TurnedLeft(g', a, g'')
    ensures ColorOk(g'', p, null) && ColorOk(g'', a, null)
  {
    hide ShapeOk, Almost, SlotsOk, RangeOk;
    Grandparent(g, root, z);
    AroundLeft(g', root, a);
    Neighbours(g, root, p);
    Neighbours(g, root, a);
    ColorAt(g, root, z, z);
    ColorAt(g, root, z, p);
    ColorAt(g, root, z, a);
  }

  /** A turn changes no colour and no count. */
  lemma TurnLeftKeepsColor(g: Graph, x: Node, g': Graph, m: Node)
    requires TurnedLeft(g, x, g') && m in g
    ensures m in g' && g'[m].red == g[m].red && g'[m].blacks == g[m].blacks
  {
  }

  /** What another node sees of its child c: the same count and colour as before. */
  lemma OuterChildLeft(g: Graph, p: Node, a: Node, g': Graph, g'': Graph, c: Node?)
    requires p in g && a in g && g[p].red && !g[a].red && g[p].blacks + 1 == g[a].blacks
    requires SwappedRight(g, p, a, g') && TurnedLeft(g', a, g'') && c != p && (c != null ==> c in g)
    ensures var c' := if c == a then p else c;
      BlacksOf(g'', c') == BlacksOf(g, c) && IsRed(g'', c') == IsRed(g, c)
  {
    if c != null {
      TurnLeftKeepsColor(g', a, g'', c);
    }
    TurnLeftKeepsColor(g', a, g'', p);
  }

  lemma OuterLinksLeft(g: Graph, root: Node?, p: Node, a: Node, g': Graph, g'': Graph, n: Node)
    requires ShapeOk(g, root) && ShapeOk(g', root) && p in g && g[p].parent == a && a in g && g[a].right == p
    requires SwappedRight(g, p, a, g') && TurnedLeft(g', a, g'') && n in g && n != p && n != a
    ensures n in g'' && g''[n].red == g[n].red && g''[n].blacks == g[n].blacks
    ensures g''[n].right == if g[n].right == a then p else g[n].right
    ensures g''[n].left == if g[n].left == a then p else g[n].left
  {
    hide ShapeOk, SlotsOk, RangeOk;
    AroundLeft(g', root, a);
    Neighbours(g, root, n);
    Neighbours(g, root, a);
  }

  lemma OuterOtherLeft(g: Graph, root: Node?, z: Node, p: Node, a: Node, g': Graph, g'': Graph, n: Node)
    requires TroubleRight(g, root, z, p, a) && g[p].right == z && !IsRed(g, g[a].left) && ShapeOk(g', root)
    requires SwappedRight(g, p, a, g') && TurnedLeft(g', a, g'') && n in g && n != p && n != a
    ensures ColorOk(g'', n, null)
  {
    hide ShapeOk, Almost, SlotsOk, RangeOk, SwappedRight, TurnedLeft;
    Grandparent(g, root, z);
    Neighbours(g, root, n);
    Neighbours(g, root, p);
    ColorAt(g, root, z, n);
    ColorAt(g, root, z, a);
    ColorAt(g, root, z, p);
    OuterLinksLeft(g, root, p, a, g', g'', n);
    OuterChildLeft(g, p, a, g', g'', g[n].right);
    OuterChildLeft(g, p, a, g', g'', g[n].left);
  }

  // ---- start and end of the repair ------------------------------------------------------------------

  /** A red leaf is the only trouble. */
  lemma LeafAlmostLeft(g: Graph, root: Node?, p: Node, z: Node, g': Graph)
    requires ShapeOk(g, root) && Balanced(g, root) && LeafLeft(g, p, z, g')
    requires g'[z].red && g'[z].blacks == 0
    ensures Almost(g', root, z)
  {
    RootIn(g, root, p);
    forall n | n in g'
      ensures ColorOk(g', n, z)
    {
      if n != z {
        assert ColorOk(g, n, null);
        Neighbours(g, root, n);
      }
    }
  }

  lemma LeafAlmostRight(g: Graph, root: Node?, p: Node, z: Node, g': Graph)
    requires ShapeOk(g, root) && Balanced(g, root) && LeafRight(g, p, z, g')
    requires g'[z].red && g'[z].blacks == 0
    ensures Almost(g', root, z)
  {
    RootIn(g, root, p);
    forall n | n in g'
      ensures ColorOk(g', n, z)
    {
      if n != z {
        assert ColorOk(g, n, null);
        Neighbours(g, root, n);
      }
    }
  }

  /** The repair ends at the root or below a black parent; blackening the root restores balance. */
  lemma BlackRoot(g: Graph, root: Node, z: Node, g': Graph)
    requires ShapeOk(g, root) && Almost(g, root, z) && (z == root || !IsRed(g, g[z].parent))
    requires SameLinks(g, g') && root in g
    requires g'[root] == g[root].(red := false, blacks := g[root].blacks + if g[root].red then 1 else 0)
    requires forall n {:trigger g'[n]} :: n in g && n != root ==> g'[n] == g[n]
    ensures Balanced(g', root)
  {
    forall n | n in g'
      ensures ColorOk(g', n, null)
    {
      assert ColorOk(g, n, z);
      Neighbours(g, root, n);
      Neighbours(g, root, z);
    }
  }

  // ---- what balance means ---------------------------------------------------------------------------

  /** A way down from a node: at each node to the left (true) or to the right, until there is none. */
  ghost predicate WayDown(g: Graph, n: Node?, turns: seq<bool>)
    decreases |turns|
  {
    if n == null then turns == []
    else turns != [] && n in g && WayDown(g, if turns[0] then g[n].left else g[n].right, turns[1..])
  }

  /** The black nodes and the longest stretch of red ones on a way down. */
  ghost function BlacksOn(g: Graph, n: Node?, turns: seq<bool>): int
    requires WayDown(g, n, turns)
    decreases |turns|
  {
    if n == null then 0
    else (if g[n].red then 0 else 1) + BlacksOn(g, if turns[0] then g[n].left else g[n].right, turns[1..])
  }

  /** In a balanced tree every way down from a node passes the same number of black nodes. */
  lemma {:induction false} SameBlacksDown(g: Graph, root: Node?, n: Node?, turns: seq<bool>)
    requires ShapeOk(g, root) && Balanced(g, root) && WayDown(g, n, turns)
    ensures BlacksOn(g, n, turns) == BlacksOf(g, n)
    decreases |turns|
  {
    if n != null {
      assert ColorOk(g, n, null);
      Neighbours(g, root, n);
      SameBlacksDown(g, root, if turns[0] then g[n].left else g[n].right, turns[1..]);
    }
  }

  /** So no way down is more than twice as long as another, plus one. */
  lemma {:induction false} WayIsShort(g: Graph, root: Node?, n: Node?, turns: seq<bool>)
    requires ShapeOk(g, root) && Balanced(g, root) && WayDown(g, n, turns)
    ensures BlacksOf(g, n) <= |turns| <= 2 * BlacksOf(g, n) + if IsRed(g, n) then 1 else 0
    decreases |turns|
  {
    if n != null {
      assert ColorOk(g, n, null);
      Neighbours(g, root, n);
      WayIsShort(g, root, if turns[0] then g[n].left else g[n].right, turns[1..]);
    }
  }
}
