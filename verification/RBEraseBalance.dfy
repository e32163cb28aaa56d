/**
  What erasing does to the balance.  The repair after an erasure does nothing when the child that has
  moved up is missing or red, and in a balanced tree it always is.  So a balanced tree stays balanced
  exactly if the node that goes is red, or is the last one.
 */
module RBEraseBalance {
  import opened RBShapes
  import opened RBBalance
  import opened RBErase
  import opened RBRepairs

  /** The same tree with the given counts of black nodes, by key. */
  ghost function Counted(g: Graph, counts: map<Key, int>): Graph {
    map n | n in g :: g[n].(blacks := if g[n].key in counts then counts[g[n].key] else 0)
  }

  /** With the right counts the tree is balanced. */
  ghost predicate CanBalance(g: Graph, root: Node?) {
    exists counts {:trigger Counted(g, counts)} :: Balanced(Counted(g, counts), root)
  }

  lemma BalancedCan(g: Graph, root: Node?)
    requires ShapeOk(g, root) && Balanced(g, root)
    ensures CanBalance(g, root)
  {
    var counts := CountsOf(g, root, g.Keys);
    assert Counted(g, counts) == g;
  }

  lemma {:induction false} CountsOf(g: Graph, root: Node?, nodes: set<Node>) returns (counts: map<Key, int>)
    requires ShapeOk(g, root) && nodes <= g.Keys
    ensures forall n :: n in nodes ==> g[n].key in counts && counts[g[n].key] == g[n].blacks
    decreases |nodes|
  {
    counts := map[];
    if nodes != {} {
      var n :| n in nodes;
      counts := CountsOf(g, root, nodes - {n});
      counts := counts[g[n].key := g[n].blacks];
      forall m | m in nodes && m != n
        ensures g[m].key != g[n].key
      {
        KeysDiffer(g, root, m, n);
      }
    }
  }

  /** The node that is taken out of its place when z is erased is red: z itself, or the node that follows it
      if z has two children. */
  ghost predicate SplicesRed(g: Graph, z: Node)
    requires z in g
  {
    if g[z].left == null || g[z].right == null then g[z].red
    else exists y :: y in g && Follows(g, z, y) && g[y].red
  }

  /** Only one node follows z. */
  lemma FollowsOnce(g: Graph, root: Node?, z: Node, y: Node, y': Node)
    requires ShapeOk(g, root) && Follows(g, z, y) && Follows(g, z, y')
    ensures y == y'
  {
    if y != y' {
      Others(g, root, y, y');
      Neighbours(g, root, y);
      Neighbours(g, root, y');
    }
  }

  // ---- counts ---------------------------------------------------------------------------------------

  lemma ColorsAt(g: Graph, root: Node?, n: Node)
    requires Balanced(g, root) && n in g
    ensures ColorOk(g, n, null)
  {
  }

  lemma {:induction false} NotNegative(g: Graph, root: Node?, n: Node?)
    requires ShapeOk(g, root) && Balanced(g, root) && (n != null ==> n in g)
    ensures BlacksOf(g, n) >= 0
    decreases if n == null then 0 else if RangeOk(g[n]) then g[n].hi - g[n].lo else 0
  {
    hide ShapeOk, Balanced, SlotsOk;
    if n != null {
      ColorsAt(g, root, n);
      Neighbours(g, root, n);
      NotNegative(g, root, g[n].left);
    }
  }

  /** A node that counts nothing is a red leaf. */
  lemma NothingIsRedLeaf(g: Graph, root: Node?, n: Node)
    requires ShapeOk(g, root) && Balanced(g, root) && n in g && BlacksOf(g, n) == 0
    ensures g[n].red && g[n].left == null && g[n].right == null
  {
    hide ShapeOk, Balanced, SlotsOk, RangeOk;
    ColorsAt(g, root, n);
    Neighbours(g, root, n);
    NotNegative(g, root, g[n].left);
    if g[n].left != null {
      ColorsAt(g, root, g[n].left);
      Neighbours(g, root, g[n].left);
      NotNegative(g, root, g[g[n].left].left);
    }
    if g[n].right != null {
      ColorsAt(g, root, g[n].right);
      Neighbours(g, root, g[n].right);
      NotNegative(g, root, g[g[n].right].left);
    }
  }

  /** A red node with an empty side is a leaf, and a black one has at most a red leaf below it. */
  lemma OneSideEmpty(g: Graph, root: Node?, n: Node)
    requires ShapeOk(g, root) && Balanced(g, root) && n in g && (g[n].left == null || g[n].right == null)
    ensures var c := if g[n].left == null then g[n].right else g[n].left;
      c != null ==> !g[n].red && c in g && g[c].red && g[c].left == null && g[c].right == null
    ensures BlacksOf(g, n) == if g[n].red then 0 else 1
  {
    hide ShapeOk, Balanced, SlotsOk, RangeOk;
    ColorsAt(g, root, n);
    Neighbours(g, root, n);
    var c := if g[n].left == null then g[n].right else g[n].left;
    if c != null {
      NothingIsRedLeaf(g, root, c);
    }
  }

  /** Where a red leaf or nothing is on one side, nothing that has counted before can be on the other: it
      still counts. */
  lemma StillCounts(g: Graph, root: Node?, h: Graph, root': Node?, s: Node)
    requires ShapeOk(g, root) && Balanced(g, root) && ShapeOk(h, root') && Balanced(h, root')
    requires s in g && s in h && BlacksOf(g, s) > 0 && h[s].red == g[s].red && h[s].left == g[s].left
    requires var l := g[s].left; l != null && l in g ==> l in h && h[l].red == g[l].red
    ensures BlacksOf(h, s) > 0
  {
    hide ShapeOk, Balanced, SlotsOk, RangeOk;
    ColorsAt(g, root, s);
    Neighbours(g, root, s);
    NotNegative(h, root', s);
    if BlacksOf(h, s) == 0 {
      NothingIsRedLeaf(h, root', s);
    }
  }

  /** In h, where p has only a red leaf or nothing on one side and s on the other, counts do not agree. */
  lemma Uneven(g: Graph, root: Node?, h: Graph, root': Node?, p: Node, c: Node?, s: Node?)
    requires ShapeOk(g, root) && Balanced(g, root) && ShapeOk(h, root')
    requires p in h && ((h[p].left == c && h[p].right == s) || (h[p].right == c && h[p].left == s))
    requires c != null ==> c in h && h[c].red && h[c].left == null
    requires s != null ==> s in g && s in h && h[s].red == g[s].red && h[s].left == g[s].left
    requires s != null ==> var l := g[s].left; l != null && l in g ==> l in h && h[l].red == g[l].red
    requires BlacksOf(g, s) > 0
    ensures !Balanced(h, root')
  {
    hide ShapeOk, SlotsOk, RangeOk;
    if Balanced(h, root') {
      hide Balanced;
      StillCounts(g, root, h, root', s);
      ColorsAt(h, root', p);
      if c != null {
        ColorsAt(h, root', c);
      }
    }
  }

  /** The child on the other side. */
  function Beside(g: Graph, p: Node, n: Node): Node?
    requires p in g
  {
    if g[p].left == n then g[p].right else g[p].left
  }

  /** Both children of a node count the same. */
  lemma BesideCounts(g: Graph, root: Node?, p: Node, n: Node)
    requires ShapeOk(g, root) && Balanced(g, root) && n in g && p in g && g[n].parent == p
    ensures BlacksOf(g, Beside(g, p, n)) == BlacksOf(g, n)
    ensures Beside(g, p, n) != n && (Beside(g, p, n) != null ==> Beside(g, p, n) in g && g[Beside(g, p, n)].parent == p)
  {
    hide ShapeOk, Balanced, SlotsOk, RangeOk;
    ColorsAt(g, root, p);
    Neighbours(g, root, n);
    Neighbours(g, root, p);
  }

  lemma CountedKeeps(g: Graph, root: Node?, counts: map<Key, int>)
    requires ShapeOk(g, root)
    ensures ShapeOk(Counted(g, counts), root)
    ensures forall n :: n in g <==> n in Counted(g, counts)
    ensures forall n {:trigger Counted(g, counts)[n]} :: n in g ==>
      Counted(g, counts)[n] == g[n].(blacks := Counted(g, counts)[n].blacks)
  {
    hide ShapeOk;
    SameLinksKeeps(g, root, Counted(g, counts));
  }

  // ---- a node without a left child ------------------------------------------------------------------

  /** A red node goes: it was a leaf, and no count changes. */
  lemma NoLeftRed(g: Graph, root: Node?, z: Node, g': Graph)
    requires ShapeOk(g, root) && Balanced(g, root) && ErasedNoLeft(g, z, g') && g[z].red
    ensures z != root && g[z].right == null && Balanced(g', root)
  {
    hide ShapeOk, Balanced, SlotsOk, RangeOk;
    OneSideEmpty(g, root, z);
    RedIsNotRoot(g, root, z);
    forall n | n in g'
      ensures ColorOk(g', n, null)
    {
      NoLeftColor(g, root, z, g', n);
    }
    ColorsBalance(g, root, g');
  }

  lemma RedIsNotRoot(g: Graph, root: Node?, z: Node)
    requires Balanced(g, root) && z in g && g[z].red
    ensures z != root
  {
  }

  lemma ColorsBalance(g: Graph, root: Node?, g': Graph)
    requires Balanced(g, root) && (root != null && root in g' ==> root in g && g'[root].red == g[root].red)
    requires forall n :: n in g' ==> ColorOk(g', n, null)
    ensures Balanced(g', root)
  {
  }

  lemma NoLeftColor(g: Graph, root: Node?, z: Node, g': Graph, n: Node)
    requires ShapeOk(g, root) && Balanced(g, root) && ErasedNoLeft(g, z, g') && g[z].red && g[z].right == null
    requires n in g'
    ensures ColorOk(g', n, null)
  {
    hide ShapeOk, Balanced, SlotsOk, RangeOk;
    ColorsAt(g, root, n);
    ColorsAt(g, root, z);
    Neighbours(g, root, n);
    Neighbours(g, root, z);
  }

  /** A black node goes, and it is not the last one: what has moved up is missing or red, and no counts balance
      the tree. */
  lemma NoLeftBlack(g: Graph, root: Node?, z: Node, g': Graph)
    requires ShapeOk(g, root) && Balanced(g, root) && ErasedNoLeft(g, z, g') && !g[z].red
    ensures var x := g[z].right; x != null ==> x in g' && g'[x].red
    ensures g' == map[] || !CanBalance(g', if z == root then g[z].right else root)
  {
    hide ShapeOk, Balanced, SlotsOk, RangeOk;
    var root' := if z == root then g[z].right else root;
    ErasedNoLeftKeeps(g, root, z, g');
    OneSideEmpty(g, root, z);
    if counts {:trigger Counted(g', counts)} :| Balanced(Counted(g', counts), root') {
      var h := Counted(g', counts);
      CountedKeeps(g', root', counts);
      if z == root {
        RootAlone(g, root, z, g', h, root');
      } else {
        NoLeftUneven(g, root, z, g', h, root');
      }
    }
  }

  /** The child of the root becomes a red root, unless there is none. */
  lemma RootAlone(g: Graph, root: Node?, z: Node, g': Graph, h: Graph, root': Node?)
    requires ShapeOk(g', root') && (root' != null ==> root' in g' && g'[root'].red)
    requires h.Keys == g'.Keys && forall n {:trigger h[n]} :: n in g' ==> h[n].red == g'[n].red
    ensures g' == map[] || !Balanced(h, root')
  {
  }

  lemma NoLeftUneven(g: Graph, root: Node?, z: Node, g': Graph, h: Graph, root': Node?)
    requires ShapeOk(g, root) && Balanced(g, root) && ErasedNoLeft(g, z, g') && !g[z].red && z != root
    requires ShapeOk(h, root') && (forall n :: n in g' <==> n in h)
    requires forall n {:trigger h[n]} :: n in g' ==> h[n] == g'[n].(blacks := h[n].blacks)
    ensures !Balanced(h, root')
  {
    hide ShapeOk, Balanced, SlotsOk, RangeOk;
    OneSideEmpty(g, root, z);
    Neighbours(g, root, z);
    var p := g[z].parent;
    BesideCounts(g, root, p, z);
    var s := Beside(g, p, z);
    Neighbours(g, root, s);
    Uneven(g, root, h, root', p, g[z].right, s);
  }

  // ---- a node without a right child ------------------------------------------------------------------

  /** A red node goes: it was a leaf, and no count changes. */
  lemma NoRightRed(g: Graph, root: Node?, z: Node, g': Graph)
    requires ShapeOk(g, root) && Balanced(g, root) && ErasedNoRight(g, z, g') && g[z].red
    ensures z != root && g[z].left == null && Balanced(g', root)
  {
    hide ShapeOk, Balanced, SlotsOk, RangeOk;
    OneSideEmpty(g, root, z);
    RedIsNotRoot(g, root, z);
    forall n | n in g'
      ensures ColorOk(g', n, null)
    {
      NoRightColor(g, root, z, g', n);
    }
    ColorsBalance(g, root, g');
  }

  lemma NoRightColor(g: Graph, root: Node?, z: Node, g': Graph, n: Node)
    requires ShapeOk(g, root) && Balanced(g, root) && ErasedNoRight(g, z, g') && g[z].red && g[z].left == null
    requires n in g'
    ensures ColorOk(g', n, null)
  {
    hide ShapeOk, Balanced, SlotsOk, RangeOk;
    ColorsAt(g, root, n);
    ColorsAt(g, root, z);
    Neighbours(g, root, n);
    Neighbours(g, root, z);
  }

  /** A black node goes, and it is not the last one: what has moved up is missing or red, and no counts balance
      the tree. */
  lemma NoRightBlack(g: Graph, root: Node?, z: Node, g': Graph)
    requires ShapeOk(g, root) && Balanced(g, root) && ErasedNoRight(g, z, g') && !g[z].red
    ensures var x := g[z].left; x != null ==> x in g' && g'[x].red
    ensures g' == map[] || !CanBalance(g', if z == root then g[z].left else root)
  {
    hide ShapeOk, Balanced, SlotsOk, RangeOk;
    var root' := if z == root then g[z].left else root;
    ErasedNoRightKeeps(g, root, z, g');
    OneSideEmpty(g, root, z);
    if counts {:trigger Counted(g', counts)} :| Balanced(Counted(g', counts), root') {
      var h := Counted(g', counts);
      CountedKeeps(g', root', counts);
      if z == root {
        RootAlone(g, root, z, g', h, root');
      } else {
        NoRightUneven(g, root, z, g', h, root');
      }
    }
  }

  lemma NoRightUneven(g: Graph, root: Node?, z: Node, g': Graph, h: Graph, root': Node?)
    requires ShapeOk(g, root) && Balanced(g, root) && ErasedNoRight(g, z, g') && !g[z].red && z != root
    requires ShapeOk(h, root') && (forall n :: n in g' <==> n in h)
    requires forall n {:trigger h[n]} :: n in g' ==> h[n] == g'[n].(blacks := h[n].blacks)
    ensures !Balanced(h, root')
  {
    hide ShapeOk, Balanced, SlotsOk, RangeOk;
    OneSideEmpty(g, root, z);
    Neighbours(g, root, z);
    var p := g[z].parent;
    BesideCounts(g, root, p, z);
    var s := Beside(g, p, z);
    Neighbours(g, root, s);
    Uneven(g, root, h, root', p, g[z].left, s);
  }

  // ---- a node with two children ---------------------------------------------------------------------

  /** The child beside y counts what y counts, and lies apart from z and its parent. */
  lemma BesideNext(g: Graph, root: Node?, z: Node, y: Node)
    requires ShapeOk(g, root) && Balanced(g, root) && Follows(g, z, y)
    ensures g[y].parent != null && g[y].parent in g
    ensures var s := Beside(g, g[y].parent, y);
      && BlacksOf(g, s) == BlacksOf(g, y)
      && (s != null ==> s in g && s != z && s != y && s != g[z].parent && g[s].left != z && g[s].left != y)
  {
    hide ShapeOk, Balanced, SlotsOk;
    FollowsPlace(g, root, z, y);
    var q := g[y].parent;
    BesideCounts(g, root, q, y);
    Neighbours(g, root, q);
    Neighbours(g, root, y);
    Neighbours(g, root, z);
    var s := Beside(g, q, y);
    if s != null {
      Neighbours(g, root, s);
    }
  }

  /** A red node goes from below z and takes its place: it was a leaf, and no count changes. */
  lemma BothRed(g: Graph, root: Node?, z: Node, y: Node, g': Graph)
    requires ShapeOk(g, root) && Balanced(g, root) && ErasedBoth(g, z, y, g') && g[y].red
    ensures Balanced(g', if z == root then y else root)
  {
    hide ShapeOk, Balanced, SlotsOk, RangeOk;
    OneSideEmpty(g, root, y);
    FollowsPlace(g, root, z, y);
    forall n | n in g'
      ensures ColorOk(g', n, null)
    {
      BothColor(g, root, z, y, g', n);
    }
    BothRootColor(g, root, z, y, g');
  }

  lemma BothRootColor(g: Graph, root: Node?, z: Node, y: Node, g': Graph)
    requires ShapeOk(g, root) && Balanced(g, root) && ErasedBoth(g, z, y, g') && g[y].red
    requires forall n :: n in g' ==> ColorOk(g', n, null)
    ensures Balanced(g', if z == root then y else root)
  {
    RootIn(g, root, z);
  }

  lemma BothColor(g: Graph, root: Node?, z: Node, y: Node, g': Graph, n: Node)
    requires ShapeOk(g, root) && Balanced(g, root) && ErasedBoth(g, z, y, g') && g[y].red && g[y].right == null
    requires n in g'
    ensures ColorOk(g', n, null)
  {
    hide ShapeOk, Balanced, SlotsOk, RangeOk;
    FollowsPlace(g, root, z, y);
    ColorsAt(g, root, n);
    ColorsAt(g, root, z);
    ColorsAt(g, root, y);
    Neighbours(g, root, n);
    Neighbours(g, root, z);
    Neighbours(g, root, y);
  }

  /** A black node goes from below z: what has moved up into its place is missing or red, and no counts balance
      the tree. */
  lemma BothBlack(g: Graph, root: Node?, z: Node, y: Node, g': Graph)
    requires ShapeOk(g, root) && Balanced(g, root) && ErasedBoth(g, z, y, g') && !g[y].red
    ensures var x := g[y].right; x != null ==> x in g' && g'[x].red
    ensures !CanBalance(g', if z == root then y else root)
  {
    hide ShapeOk, Balanced, SlotsOk, RangeOk;
    var root' := if z == root then y else root;
    ErasedBothKeeps(g, root, z, y, g');
    OneSideEmpty(g, root, y);
    FollowsPlace(g, root, z, y);
    if counts {:trigger Counted(g', counts)} :| Balanced(Counted(g', counts), root') {
      CountedKeeps(g', root', counts);
      BothUneven(g, root, z, y, g', Counted(g', counts), root');
    }
  }

  lemma BothUneven(g: Graph, root: Node?, z: Node, y: Node, g': Graph, h: Graph, root': Node?)
    requires ShapeOk(g, root) && Balanced(g, root) && ErasedBoth(g, z, y, g') && !g[y].red
    requires ShapeOk(h, root') && (forall n :: n in g' <==> n in h)
    requires forall n {:trigger h[n]} :: n in g' ==> h[n] == g'[n].(blacks := h[n].blacks)
    ensures !Balanced(h, root')
  {
    hide ShapeOk, Balanced, SlotsOk, RangeOk;
    OneSideEmpty(g, root, y);
    FollowsPlace(g, root, z, y);
    BesideNext(g, root, z, y);
    Neighbours(g, root, z);
    Neighbours(g, root, y);
    var q := g[y].parent;
    var s := Beside(g, q, y);
    Neighbours(g, root, s);
    Uneven(g, root, h, root', if q == z then y else q, g[y].right, s);
  }

  // ---- a node that has lost a child -----------------------------------------------------------------

  /** The tree is balanced, but for the black node z: one of its sides is empty, and the other child is
      black.  That is how a black leaf leaves its parent when it is erased. */
  ghost predicate LoneChild(g: Graph, root: Node?, z: Node) {
    && z in g && !g[z].red && (g[z].left == null || g[z].right == null) && !IsRed(g, root)
    && var x := if g[z].left == null then g[z].right else g[z].left;
    && x != null && x in g && !g[x].red && g[z].blacks == g[x].blacks + 1
    && forall n {:trigger ColorOk(g, n, null)} :: n in g ==> g[n].blacks >= 0 && (n != z ==> ColorOk(g, n, null))
  }

  /** A black leaf with a black sibling leaves its black parent like that. */
  lemma LeafLeavesLone(g: Graph, root: Node?, z: Node, p: Node, g': Graph)
    requires ShapeOk(g, root) && Balanced(g, root) && ErasedNoLeft(g, z, g') && !g[z].red && g[z].right == null
    requires p in g && g[z].parent == p && !g[p].red && !IsRed(g, Beside(g, p, z))
    ensures LoneChild(g', root, p)
  {
    hide ShapeOk, SlotsOk, RangeOk, Balanced;
    BesideCounts(g, root, p, z);
    OneSideEmpty(g, root, z);
    ColorsAt(g, root, p);
    Neighbours(g, root, z);
    Neighbours(g, root, p);
    forall n | n in g'
      ensures g'[n].blacks >= 0 && (n != p ==> ColorOk(g', n, null))
    {
      NotNegative(g, root, n);
      ColorsAt(g, root, n);
      Neighbours(g, root, n);
    }
    BlackStays(g, root, g');
  }

  lemma BlackStays(g: Graph, root: Node?, g': Graph)
    requires Balanced(g, root) && (root != null && root in g' ==> root in g && g'[root].red == g[root].red)
    ensures !IsRed(g', root)
  {
  }

  lemma LoneColors(g: Graph, root: Node?, z: Node, n: Node)
    requires LoneChild(g, root, z) && n in g && n != z
    ensures ColorOk(g, n, null) && g[n].blacks >= 0
  {
    assert g[n].blacks >= 0 && ColorOk(g, n, null);
  }

  /** When z goes too, its child has moved up and is one black node short. */
  lemma NoLeftShort(g: Graph, root: Node?, z: Node, g': Graph)
    requires ShapeOk(g, root) && LoneChild(g, root, z) && ErasedNoLeft(g, z, g') && g[z].right != null
    ensures g[z].right in g' && !g'[g[z].right].red && Short(g', if z == root then g[z].right else root, g[z].right)
  {
    hide ShapeOk, SlotsOk, RangeOk, LoneChild;
    LoneRoot(g, root, z);
    Neighbours(g, root, z);
    var x := g[z].right;
    forall n | n in g'
      ensures ShortOk(g', n, x)
    {
      LoneColors(g, root, z, n);
      Neighbours(g, root, n);
    }
    RootIn(g, root, z);
    IsShort(g', if z == root then x else root, x);
  }

  lemma LoneRoot(g: Graph, root: Node?, z: Node)
    requires LoneChild(g, root, z)
    ensures z in g && !g[z].red && !IsRed(g, root) && (g[z].left == null || g[z].right == null)
    ensures var x := if g[z].left == null then g[z].right else g[z].left;
      x != null && x in g && !g[x].red && g[z].blacks == g[x].blacks + 1
  {
  }

  lemma NoRightShort(g: Graph, root: Node?, z: Node, g': Graph)
    requires ShapeOk(g, root) && LoneChild(g, root, z) && ErasedNoRight(g, z, g') && g[z].left != null
    ensures g[z].left in g' && !g'[g[z].left].red && Short(g', if z == root then g[z].left else root, g[z].left)
  {
    hide ShapeOk, SlotsOk, RangeOk, LoneChild;
    LoneRoot(g, root, z);
    Neighbours(g, root, z);
    var x := g[z].left;
    forall n | n in g'
      ensures ShortOk(g', n, x)
    {
      LoneColors(g, root, z, n);
      Neighbours(g, root, n);
    }
    RootIn(g, root, z);
    IsShort(g', if z == root then x else root, x);
  }

  // ---- any node -------------------------------------------------------------------------------------

  /** What taking z out does to a balanced tree, when x has moved up and the colour that went was black or
      red.  If red went the tree is balanced again.  If black went, x is missing or red, and no counts make
      what is left balanced, unless nothing is left.  From a tree in which z has lost a child, x is one black
      node short. */
  ghost predicate SplicedFrom(g: Graph, root: Node?, z: Node, x: Node?, black: bool, g': Graph, root': Node?) {
    && z in g && (black <==> !SplicesRed(g, z))
    && (Balanced(g, root) && !black ==> Balanced(g', root'))
    && (Balanced(g, root) && black ==> (x != null ==> x in g' && g'[x].red) && (g' == map[] || !CanBalance(g', root')))
    && (LoneChild(g, root, z) ==> black && x != null && x in g' && Short(g', root', x))
  }

  lemma SplicedNoLeft(g: Graph, root: Node?, z: Node, g': Graph)
    requires ShapeOk(g, root) && ErasedNoLeft(g, z, g')
    ensures SplicedFrom(g, root, z, g[z].right, !g[z].red, g', if z == root then g[z].right else root)
  {
    hide ShapeOk, Balanced, ErasedNoLeft, CanBalance, LoneChild, Short;
    NoLeftOf(g, z, g');
    if Balanced(g, root) {
      if g[z].red {
        NoLeftRed(g, root, z, g');
      } else {
        NoLeftBlack(g, root, z, g');
      }
    }
    if LoneChild(g, root, z) {
      LoneRoot(g, root, z);
      NoLeftShort(g, root, z, g');
    }
  }

  lemma NoLeftOf(g: Graph, z: Node, g': Graph)
    requires ErasedNoLeft(g, z, g')
    ensures z in g && g[z].left == null
  {
  }

  lemma SplicedNoRight(g: Graph, root: Node?, z: Node, g': Graph)
    requires ShapeOk(g, root) && ErasedNoRight(g, z, g') && g[z].left != null
    ensures SplicedFrom(g, root, z, g[z].left, !g[z].red, g', if z == root then g[z].left else root)
  {
    hide ShapeOk, Balanced, ErasedNoRight, CanBalance, LoneChild, Short;
    NoRightOf(g, z, g');
    if Balanced(g, root) {
      if g[z].red {
        NoRightRed(g, root, z, g');
      } else {
        NoRightBlack(g, root, z, g');
      }
    }
    if LoneChild(g, root, z) && g[z].left != null {
      LoneRoot(g, root, z);
      NoRightShort(g, root, z, g');
    }
  }

  lemma NoRightOf(g: Graph, z: Node, g': Graph)
    requires ErasedNoRight(g, z, g')
    ensures z in g && g[z].right == null
  {
  }

  lemma SplicedBoth(g: Graph, root: Node?, z: Node, y: Node, g': Graph)
    requires ShapeOk(g, root) && ErasedBoth(g, z, y, g')
    ensures SplicedFrom(g, root, z, g[y].right, !g[y].red, g', if z == root then y else root)
  {
    hide ShapeOk, Balanced, ErasedBoth, CanBalance, Short;
    BothOf(g, z, y, g');
    if y' :| y' in g && Follows(g, z, y') && g[y'].red {
      FollowsOnce(g, root, z, y, y');
    }
    if Balanced(g, root) {
      if g[y].red {
        BothRed(g, root, z, y, g');
      } else {
        BothBlack(g, root, z, y, g');
      }
    }
  }

  lemma BothOf(g: Graph, z: Node, y: Node, g': Graph)
    requires ErasedBoth(g, z, y, g')
    ensures Follows(g, z, y)
  {
  }

  /** An empty tree is balanced. */
  lemma NothingIsBalanced(root: Node?)
    requires ShapeOk(map[], root)
    ensures root == null && Balanced(map[], root)
  {
  }

  /** What erasing does to a balanced tree, when the repair leaves it alone. */
  lemma ErasedBalance(g: Graph, root: Node?, z: Node, x: Node?, black: bool, g': Graph, root': Node?)
    requires ShapeOk(g', root') && SplicedFrom(g, root, z, x, black, g', root') && Balanced(g, root)
    ensures CanBalance(g', root') <==> SplicesRed(g, z) || g' == map[]
    ensures SplicesRed(g, z) || g' == map[] ==> Balanced(g', root')
  {
    hide ShapeOk, Balanced, CanBalance;
    if g' == map[] {
      NothingIsBalanced(root');
    }
    if SplicesRed(g, z) || g' == map[] {
      BalancedCan(g', root');
    }
  }

  // ---- a tree that loses its balance ----------------------------------------------------------------

  /** A black root with two black children. */
  ghost predicate ThreeBlack(g: Graph, a: Node, r: Node, b: Node, j: Key, k: Key, l: Key) {
    && a != r && a != b && r != b && j < k < l
    && (forall n {:trigger g[n]} :: n in g ==> n == a || n == r || n == b)
    && a in g && g[a] == Cell(j, 0, false, r, null, null, LOWEST, k, 1)
    && r in g && g[r] == Cell(k, 0, false, null, a, b, LOWEST, HIGHEST, 2)
    && b in g && g[b] == Cell(l, 0, false, r, null, null, k, HIGHEST, 1)
  }

  lemma ThreeNode(g: Graph, a: Node, r: Node, b: Node, j: Key, k: Key, l: Key, n: Node)
    requires ThreeBlack(g, a, r, b, j, k, l) && n in g
    ensures NodeOk(g, r, n) && ColorOk(g, n, null)
  {
    assert g[n] == g[n];
    assert Free(g, LOWEST, j) && Free(g, j, k) && Free(g, k, l) && Free(g, l, HIGHEST);
  }

  lemma ThreePair(g: Graph, a: Node, r: Node, b: Node, j: Key, k: Key, l: Key, m: Node, n: Node)
    requires ThreeBlack(g, a, r, b, j, k, l) && m in g && n in g && m != n
    ensures PairOk(g, m, n)
  {
    assert g[m] == g[m] && g[n] == g[n];
  }

  lemma ThreeBalanced(g: Graph, a: Node, r: Node, b: Node, j: Key, k: Key, l: Key)
    requires ThreeBlack(g, a, r, b, j, k, l)
    ensures ShapeOk(g, r) && Balanced(g, r)
  {
    hide NodeOk, PairOk, ColorOk;
    forall n | n in g
      ensures NodeOk(g, r, n) && ColorOk(g, n, null)
    {
      ThreeNode(g, a, r, b, j, k, l, n);
    }
    forall m, n | m in g && n in g && m != n
      ensures PairOk(g, m, n)
    {
      ThreePair(g, a, r, b, j, k, l, m, n);
    }
  }

  /** It is balanced, and what is left when one child is erased is not. */
  lemma BlackLeafUnbalances(a: Node, r: Node, b: Node, j: Key, k: Key, l: Key) returns (g: Graph, g': Graph)
    requires a != r && a != b && r != b && j < k < l
    ensures ThreeBlack(g, a, r, b, j, k, l) && ShapeOk(g, r) && Balanced(g, r) && !SplicesRed(g, a)
    ensures ErasedNoLeft(g, a, g') && ShapeOk(g', r) && !CanBalance(g', r)
  {
    hide ShapeOk, Balanced, CanBalance;
    g := map[
      a := Cell(j, 0, false, r, null, null, LOWEST, k, 1),
      r := Cell(k, 0, false, null, a, b, LOWEST, HIGHEST, 2),
      b := Cell(l, 0, false, r, null, null, k, HIGHEST, 1)];
    ThreeBalanced(g, a, r, b, j, k, l);
    g' := MakeNoLeft(g, a);
    ErasedNoLeftKeeps(g, r, a, g');
    NoLeftBlack(g, r, a, g');
    assert r in g';
  }
}
