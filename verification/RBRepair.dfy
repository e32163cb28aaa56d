/**
  What the repair after an erasure does: to a tree that is balanced but for one node x whose subtree is one
  black node short.  Each case either ends it, or moves the shortage up, or prepares the next case.
 */
module RBRepairs {
  import opened RBShapes
  import opened RBBalance

  /** What n would count if x counted one more. */
  function Topped(g: Graph, n: Node?, x: Node): int {
    BlacksOf(g, n) + if n == x then 1 else 0
  }

  /** With x topped up, counts and colours at n are right.  If x is red, it is taken to be black. */
  ghost predicate ShortOk(g: Graph, n: Node, x: Node) {
    && n in g
    && Topped(g, g[n].left, x) == Topped(g, g[n].right, x)
    && g[n].blacks == Topped(g, g[n].left, x) + (if g[n].red then 0 else 1)
    && g[n].blacks >= 0
    && (n != x ==> RedOk(g, n, x))
  }

  /** The tree is balanced, but for the subtree of x, which is one black node short. */
  ghost predicate Short(g: Graph, root: Node?, x: Node) {
    && x in g
    && (IsRed(g, root) ==> root == x)
    && forall n {:trigger ShortOk(g, n, x)} :: n in g ==> ShortOk(g, n, x)
  }

  lemma ShortAt(g: Graph, root: Node?, x: Node, n: Node)
    requires Short(g, root, x) && n in g
    ensures ShortOk(g, n, x)
  {
  }

  /** x with the colour black. */
  ghost function Blackened(g: Graph, x: Node): Graph
    requires x in g
  {
    g[x := g[x].(red := false, blacks := g[x].blacks + if g[x].red then 1 else 0)]
  }

  /** At the root there is no shortage, and a red node is mended by blackening it. */
  lemma ShortEnds(g: Graph, root: Node?, x: Node)
    requires ShapeOk(g, root) && Short(g, root, x) && (x == root || g[x].red)
    ensures Balanced(Blackened(g, x), root)
  {
    hide ShapeOk, Short, SlotsOk, RangeOk;
    ShortRoot(g, root, x);
    var h := Blackened(g, x);
    forall n | n in h
      ensures ColorOk(h, n, null)
    {
      ShortAt(g, root, x, n);
      ShortAt(g, root, x, x);
      Neighbours(g, root, n);
      Neighbours(g, root, x);
    }
  }

  lemma ShortRoot(g: Graph, root: Node?, x: Node)
    requires Short(g, root, x)
    ensures x in g && (IsRed(g, root) ==> root == x)
  {
  }

  /** p is the parent of the black node x, and s is its other child. */
  ghost predicate Trouble(g: Graph, root: Node?, x: Node, p: Node, s: Node?) {
    && ShapeOk(g, root) && Short(g, root, x) && x in g && p in g && !g[x].red && g[x].parent == p && x != s
    && ((g[p].left == x && g[p].right == s) || (g[p].right == x && g[p].left == s))
  }

  /** The sibling is there and counts one more than x; a black sibling has two children. */
  lemma SiblingThere(g: Graph, root: Node?, x: Node, p: Node, s: Node?)
    requires Trouble(g, root, x, p, s)
    ensures s != null && s in g && s != p && g[s].parent == p && g[s].blacks == g[x].blacks + 1 && g[x].blacks >= 1
    ensures g[s].left != null && g[s].left in g && g[s].right != null && g[s].right in g
    ensures g[p].red ==> !g[s].red
    ensures g[s].red ==> !g[p].red && !g[g[s].left].red && !g[g[s].right].red
  {
    hide ShapeOk, Short, SlotsOk, RangeOk;
    Neighbours(g, root, x);
    Neighbours(g, root, p);
    ShortAt(g, root, x, x);
    ShortAt(g, root, x, p);
    BelowCounts(g, root, x, x);
    if s != null {
      Neighbours(g, root, s);
      ShortAt(g, root, x, s);
    }
  }

  /** A black node counts at least one. */
  lemma BelowCounts(g: Graph, root: Node?, x: Node, n: Node)
    requires ShapeOk(g, root) && Short(g, root, x) && n in g && !g[n].red
    ensures g[n].blacks >= 1
  {
    hide ShapeOk, Short, SlotsOk, RangeOk;
    ShortAt(g, root, x, n);
    Neighbours(g, root, n);
    if g[n].left != null {
      ShortAt(g, root, x, g[n].left);
    }
  }

  // ---- a black sibling without a red child ----------------------------------------------------------

  /** The sibling turns red, and the shortage moves up to the parent. */
  lemma ShortageUp(g: Graph, root: Node?, x: Node, p: Node, s: Node, g': Graph)
    requires Trouble(g, root, x, p, s) && s in g && !g[s].red && !IsRed(g, g[s].left) && !IsRed(g, g[s].right)
    requires s != p
    requires g' == g[s := g[s].(red := true, blacks := g[s].blacks - 1)][p := g[p].(blacks := g[p].blacks - 1)]
    ensures Short(g', root, p)
  {
    hide ShapeOk, Short, SlotsOk, RangeOk;
    ShortRoot(g, root, x);
    forall n | n in g'
      ensures ShortOk(g', n, p)
    {
      ShortageUpAt(g, root, x, p, s, g', n);
    }
    SiblingIsNotRoot(g, root, x, p, s);
    IsShort(g', root, p);
  }

  lemma SiblingIsNotRoot(g: Graph, root: Node?, x: Node, p: Node, s: Node)
    requires Trouble(g, root, x, p, s)
    ensures s != root && x != root && !IsRed(g, root)
  {
    hide SlotsOk, RangeOk;
    SiblingThere(g, root, x, p, s);
    Neighbours(g, root, s);
    Neighbours(g, root, x);
  }

  lemma IsShort(g: Graph, root: Node?, x: Node)
    requires x in g && (IsRed(g, root) ==> root == x) && forall n :: n in g ==> ShortOk(g, n, x)
    ensures Short(g, root, x)
  {
  }

  lemma ShortageUpAt(g: Graph, root: Node?, x: Node, p: Node, s: Node, g': Graph, n: Node)
    requires Trouble(g, root, x, p, s) && s in g && !g[s].red && !IsRed(g, g[s].left) && !IsRed(g, g[s].right)
    requires s != p && n in g
    requires g' == g[s := g[s].(red := true, blacks := g[s].blacks - 1)][p := g[p].(blacks := g[p].blacks - 1)]
    ensures ShortOk(g', n, p)
  {
    hide ShapeOk, Short, SlotsOk, RangeOk;
    SiblingThere(g, root, x, p, s);
    ShortAt(g, root, x, n);
    ShortAt(g, root, x, p);
    ShortAt(g, root, x, s);
    Neighbours(g, root, n);
    Neighbours(g, root, p);
    Neighbours(g, root, s);
    Neighbours(g, root, x);
  }

  // ---- x on the left: turning the parent ------------------------------------------------------------

  /** x hangs on the left of p, and s on the right. */
  ghost predicate LeftOf(g: Graph, root: Node?, x: Node, p: Node, s: Node) {
    Trouble(g, root, x, p, s) && g[p].left == x && g[p].right == s && s in g && s != p
  }

  /** The links of another node when p turns left and s takes its place. */
  lemma TurnedLinksLeft(g: Graph, root: Node?, p: Node, s: Node, g1: Graph, g2: Graph, n: Node)
    requires ShapeOk(g, root) && p in g && g[p].right == s && s in g && SameLinks(g, g1) && TurnedLeft(g1, p, g2)
    requires n in g && n != p && n != s
    ensures n in g2 && n in g1 && g2[n].red == g1[n].red && g2[n].blacks == g1[n].blacks
    ensures g2[n].left == (if g[n].left == p then s else g[n].left)
    ensures g2[n].right == (if g[n].right == p then s else g[n].right)
    ensures g[n].left != s && g[n].right != s
  {
    hide ShapeOk, SlotsOk, RangeOk;
    SameLinksKeeps(g, root, g1);
    AroundLeft(g1, root, p);
    Neighbours(g, root, n);
    Neighbours(g, root, p);
    Neighbours(g, root, s);
  }

  /** The cells of p and s when p turns left. */
  lemma TurnedPairLeft(g: Graph, root: Node?, p: Node, s: Node, g1: Graph, g2: Graph)
    requires ShapeOk(g, root) && p in g && g[p].right == s && s in g && SameLinks(g, g1) && TurnedLeft(g1, p, g2)
    ensures p in g1 && s in g1 && p in g2 && s in g2
    ensures g2[p].red == g1[p].red && g2[p].blacks == g1[p].blacks
    ensures g2[s].red == g1[s].red && g2[s].blacks == g1[s].blacks
    ensures g2[p].left == g[p].left && g2[p].right == g[s].left && g2[s].left == p && g2[s].right == g[s].right
    ensures g2[p].parent == s
    ensures g[p].left != null && g[p].left in g ==> g[p].left in g2 && g2[g[p].left].parent == p
    ensures ShapeOk(g2, if p == root then s else root) && forall n :: n in g2 ==> n in g
  {
    SameLinksKeeps(g, root, g1);
    TurnedLeftKeeps(g1, root, p, g2);
    hide ShapeOk, SlotsOk, RangeOk;
    AroundLeft(g1, root, p);
    Neighbours(g, root, p);
    if g[p].left != null {
      Neighbours(g, root, g[p].left);
    }
  }

  /** A child of another node is seen as before. */
  lemma SeenLeft(g: Graph, root: Node?, x: Node, p: Node, s: Node, g1: Graph, g2: Graph, c: Node?)
    requires ShapeOk(g, root) && p in g && g[p].right == s && s in g && SameLinks(g, g1) && TurnedLeft(g1, p, g2)
    requires x != p && x != s && c != s && (c != null ==> c in g)
    requires g1[s].red == g[p].red && g1[s].blacks == g[p].blacks
    requires c != null && c != p ==> g1[c] == g[c]
    ensures var c' := if c == p then s else c; Topped(g2, c', x) == Topped(g, c, x) && IsRed(g2, c') == IsRed(g, c)
  {
    hide ShapeOk, SlotsOk, RangeOk, SameLinks, TurnedLeft;
    TurnedPairLeft(g, root, p, s, g1, g2);
    if c != null && c != p {
      TurnedLinksLeft(g, root, p, s, g1, g2, c);
    }
  }

  // ---- a red sibling ----------------------------------------------------------------------------------

  /** The sibling turns black and the parent red. */
  ghost function SiblingBlack(g: Graph, p: Node, s: Node): Graph
    requires p in g && s in g
  {
    g[s := g[s].(red := false, blacks := g[s].blacks + 1)][p := g[p].(red := true, blacks := g[p].blacks - 1)]
  }

  /** A red sibling comes up, and x gets a black one. */
  lemma RedSiblingLeft(g: Graph, root: Node?, x: Node, p: Node, s: Node, g2: Graph)
    requires LeftOf(g, root, x, p, s) && g[s].red && TurnedLeft(SiblingBlack(g, p, s), p, g2)
    ensures var near := g[s].left;
      && near != null && LeftOf(g2, if p == root then s else root, x, p, near) && !g2[near].red
  {
    hide ShapeOk, Short, SlotsOk, RangeOk, TurnedLeft;
    SiblingThere(g, root, x, p, s);
    SiblingIsNotRoot(g, root, x, p, s);
    var g1 := SiblingBlack(g, p, s);
    TurnedPairLeft(g, root, p, s, g1, g2);
    Neighbours(g, root, p);
    Neighbours(g, root, s);
    AroundLeft(g, root, p);
    TurnedLinksLeft(g, root, p, s, g1, g2, x);
    TurnedLinksLeft(g, root, p, s, g1, g2, g[s].left);
    forall n | n in g2
      ensures ShortOk(g2, n, x)
    {
      RedSiblingLeftAt(g, root, x, p, s, g2, n);
    }
    ShortRoot(g, root, x);
    RootStaysLeft(g, root, x, p, s, g1, g2);
    IsShort(g2, if p == root then s else root, x);
  }

  lemma RootStaysLeft(g: Graph, root: Node?, x: Node, p: Node, s: Node, g1: Graph, g2: Graph)
    requires LeftOf(g, root, x, p, s) && SameLinks(g, g1) && TurnedLeft(g1, p, g2)
    requires g1[s].red == g[p].red && forall n :: n in g && n != p && n != s && g1[n].red ==> g[n].red
    ensures !IsRed(g2, if p == root then s else root)
  {
    hide ShapeOk, Short, SlotsOk, RangeOk, TurnedLeft;
    SiblingIsNotRoot(g, root, x, p, s);
    TurnedPairLeft(g, root, p, s, g1, g2);
    RootIn(g, root, p);
    if p != root {
      TurnedLinksLeft(g, root, p, s, g1, g2, root);
    }
  }

  lemma RedSiblingLeftAt(g: Graph, root: Node?, x: Node, p: Node, s: Node, g2: Graph, n: Node)
    requires LeftOf(g, root, x, p, s) && g[s].red && TurnedLeft(SiblingBlack(g, p, s), p, g2) && n in g
    ensures ShortOk(g2, n, x)
  {
    hide ShapeOk, Short, SlotsOk, RangeOk, TurnedLeft, ShortOk;
    if n == p || n == s {
      RedSiblingLeftPair(g, root, x, p, s, g2);
    } else {
      SiblingThere(g, root, x, p, s);
      RedSiblingCounts(g, root, x, p, s);
      ElsewhereLeft(g, root, x, p, s, SiblingBlack(g, p, s), g2, n);
    }
  }

  lemma RedSiblingCounts(g: Graph, root: Node?, x: Node, p: Node, s: Node)
    requires Trouble(g, root, x, p, s) && s in g && s != p && g[s].red
    ensures g[p].blacks == g[s].blacks + 1
  {
    hide ShapeOk, Short, SlotsOk, RangeOk;
    SiblingThere(g, root, x, p, s);
    ShortAt(g, root, x, p);
    Neighbours(g, root, p);
  }

  lemma RedSiblingLeftPair(g: Graph, root: Node?, x: Node, p: Node, s: Node, g2: Graph)
    requires LeftOf(g, root, x, p, s) && g[s].red && TurnedLeft(SiblingBlack(g, p, s), p, g2)
    ensures ShortOk(g2, p, x) && ShortOk(g2, s, x)
  {
    hide ShapeOk, Short, SlotsOk, RangeOk, TurnedLeft;
    SiblingThere(g, root, x, p, s);
    var g1 := SiblingBlack(g, p, s);
    ShortAt(g, root, x, p);
    ShortAt(g, root, x, s);
    Neighbours(g, root, p);
    Neighbours(g, root, s);
    TurnedPairLeft(g, root, p, s, g1, g2);
    SeenLeft(g, root, x, p, s, g1, g2, x);
    SeenLeft(g, root, x, p, s, g1, g2, g[s].left);
    SeenLeft(g, root, x, p, s, g1, g2, g[s].right);
  }

  /** When s takes the colour and the count of p, the other nodes notice nothing. */
  lemma ElsewhereLeft(g: Graph, root: Node?, x: Node, p: Node, s: Node, g1: Graph, g2: Graph, n: Node)
    requires LeftOf(g, root, x, p, s) && SameLinks(g, g1) && TurnedLeft(g1, p, g2) && n in g && n != p && n != s
    requires g1[s].red == g[p].red && g1[s].blacks == g[p].blacks
    requires forall m :: m in g && m != p && m != s && (m == n || g[m].parent == n) ==> m in g1 && g1[m] == g[m]
    ensures ShortOk(g2, n, x)
  {
    hide ShapeOk, Short, SlotsOk, RangeOk, TurnedLeft, SameLinks;
    SiblingIsNotRoot(g, root, x, p, s);
    ShortAt(g, root, x, n);
    Neighbours(g, root, n);
    Neighbours(g, root, p);
    Neighbours(g, root, x);
    TurnedLinksLeft(g, root, p, s, g1, g2, n);
    SeenLeft(g, root, x, p, s, g1, g2, g[n].left);
    SeenLeft(g, root, x, p, s, g1, g2, g[n].right);
  }

  // ---- the last turn ----------------------------------------------------------------------------------

  /** The sibling takes the colour of the parent, and the parent and the sibling's far child turn black. */
  ghost function LastColors(g: Graph, p: Node, s: Node, f: Node): Graph
    requires p in g && s in g && f in g
  {
    g[s := g[s].(red := g[p].red, blacks := g[p].blacks)][p := g[p].(red := false, blacks := g[s].blacks)]
     [f := g[f].(red := false, blacks := g[f].blacks + 1)]
  }

  /** With a red far child, turning the parent ends the shortage: the tree is balanced. */
  lemma LastTurnLeft(g: Graph, root: Node?, x: Node, p: Node, s: Node, f: Node, g2: Graph)
    requires LeftOf(g, root, x, p, s) && !g[s].red && g[s].right == f && f in g && f != p && f != s && g[f].red
    requires TurnedLeft(LastColors(g, p, s, f), p, g2)
    ensures Balanced(g2, if p == root then s else root)
  {
    hide ShapeOk, Short, SlotsOk, RangeOk, TurnedLeft, ColorOk;
    var g1 := LastColors(g, p, s, f);
    TurnedPairLeft(g, root, p, s, g1, g2);
    forall n | n in g2
      ensures ColorOk(g2, n, null)
    {
      LastTurnLeftAt(g, root, x, p, s, f, g2, n);
    }
    RootStaysLeft(g, root, x, p, s, g1, g2);
  }

  lemma LastTurnLeftAt(g: Graph, root: Node?, x: Node, p: Node, s: Node, f: Node, g2: Graph, n: Node)
    requires LeftOf(g, root, x, p, s) && !g[s].red && g[s].right == f && f in g && f != p && f != s && g[f].red
    requires TurnedLeft(LastColors(g, p, s, f), p, g2) && n in g
    ensures ColorOk(g2, n, null)
  {
    hide ShapeOk, Short, SlotsOk, RangeOk, TurnedLeft, ColorOk;
    if n == p || n == s {
      LastTurnLeftPair(g, root, x, p, s, f, g2);
    } else if n == f {
      LastTurnLeftFar(g, root, x, p, s, f, g2);
    } else {
      LastTurnLeftOther(g, root, x, p, s, f, g2, n);
    }
  }

  lemma LastTurnLeftPair(g: Graph, root: Node?, x: Node, p: Node, s: Node, f: Node, g2: Graph)
    requires LeftOf(g, root, x, p, s) && !g[s].red && g[s].right == f && f in g && f != p && f != s && g[f].red
    requires TurnedLeft(LastColors(g, p, s, f), p, g2)
    ensures ColorOk(g2, p, null) && ColorOk(g2, s, null)
  {
    hide ShapeOk, Short, SlotsOk, RangeOk, TurnedLeft;
    SiblingThere(g, root, x, p, s);
    var g1 := LastColors(g, p, s, f);
    ShortAt(g, root, x, p);
    ShortAt(g, root, x, s);
    Neighbours(g, root, p);
    Neighbours(g, root, s);
    AroundLeft(g, root, p);
    TurnedPairLeft(g, root, p, s, g1, g2);
    TurnedLinksLeft(g, root, p, s, g1, g2, x);
    TurnedLinksLeft(g, root, p, s, g1, g2, g[s].left);
    TurnedLinksLeft(g, root, p, s, g1, g2, f);
  }

  /** Below the far child there is neither p nor s. */
  lemma FarChildLeft(g: Graph, root: Node?, p: Node, s: Node, f: Node, c: Node)
    requires ShapeOk(g, root) && p in g && g[p].right == s && s in g && g[s].right == f && f in g
    requires g[f].left == c || g[f].right == c
    ensures c in g && c != p && c != s
  {
    hide ShapeOk, SlotsOk;
    Neighbours(g, root, p);
    Neighbours(g, root, s);
    Neighbours(g, root, f);
  }

  lemma LastTurnLeftFar(g: Graph, root: Node?, x: Node, p: Node, s: Node, f: Node, g2: Graph)
    requires LeftOf(g, root, x, p, s) && !g[s].red && g[s].right == f && f in g && f != p && f != s && g[f].red
    requires TurnedLeft(LastColors(g, p, s, f), p, g2)
    ensures ColorOk(g2, f, null)
  {
    hide ShapeOk, Short, SlotsOk, RangeOk, TurnedLeft;
    var g1 := LastColors(g, p, s, f);
    ShortAt(g, root, x, f);
    Neighbours(g, root, f);
    Neighbours(g, root, s);
    TurnedLinksLeft(g, root, p, s, g1, g2, f);
    if g[f].left != null {
      FarChildLeft(g, root, p, s, f, g[f].left);
      TurnedLinksLeft(g, root, p, s, g1, g2, g[f].left);
    }
    if g[f].right != null {
      FarChildLeft(g, root, p, s, f, g[f].right);
      TurnedLinksLeft(g, root, p, s, g1, g2, g[f].right);
    }
  }

  lemma LastTurnLeftOther(g: Graph, root: Node?, x: Node, p: Node, s: Node, f: Node, g2: Graph, n: Node)
    requires LeftOf(g, root, x, p, s) && !g[s].red && g[s].right == f && f in g && f != p && f != s && g[f].red
    requires TurnedLeft(LastColors(g, p, s, f), p, g2) && n in g && n != p && n != s && n != f
    ensures ColorOk(g2, n, null)
  {
    hide ShapeOk, Short, SlotsOk, RangeOk, TurnedLeft;
    Neighbours(g, root, s);
    ElsewhereLeft(g, root, x, p, s, LastColors(g, p, s, f), g2, n);
    TurnedPairLeft(g, root, p, s, LastColors(g, p, s, f), g2);
    if n == x {
      TurnedLinksLeft(g, root, p, s, LastColors(g, p, s, f), g2, x);
    }
    NotBelow(g2, if p == root then s else root, x, n);
  }

  /** A node that is not x's parent, and not x itself if x is red, does not notice the shortage. */
  lemma NotBelow(g: Graph, root: Node?, x: Node, n: Node)
    requires ShapeOk(g, root) && x in g && n in g && ShortOk(g, n, x) && g[x].parent != n && (n == x ==> !g[x].red)
    ensures ColorOk(g, n, null)
  {
    hide ShapeOk, SlotsOk, RangeOk;
    Neighbours(g, root, n);
  }

  // ---- a red near child -------------------------------------------------------------------------------

  /** The sibling turns red and its child c black. */
  ghost function NearColors(g: Graph, s: Node, c: Node): Graph
    requires s in g && c in g
  {
    g[c := g[c].(red := false, blacks := g[c].blacks + 1)][s := g[s].(red := true, blacks := g[s].blacks - 1)]
  }

  /** With a red near child c and a black far one, turning the sibling gives x a black sibling with a red far
      child. */
  lemma NearChildLeft(g: Graph, root: Node?, x: Node, p: Node, s: Node, c: Node, g2: Graph)
    requires LeftOf(g, root, x, p, s) && !g[s].red && g[s].left == c && c in g && c != s && g[c].red
    requires !IsRed(g, g[s].right) && TurnedRight(NearColors(g, s, c), s, g2)
    ensures s != root && LeftOf(g2, root, x, p, c) && !g2[c].red && g2[c].right == s && g2[s].red
  {
    hide ShapeOk, Short, SlotsOk, RangeOk, TurnedRight, ShortOk;
    var g1 := NearColors(g, s, c);
    SiblingIsNotRoot(g, root, x, p, s);
    TurnedPairRight(g, root, s, c, g1, g2);
    Neighbours(g, root, p);
    Neighbours(g, root, s);
    Neighbours(g, root, x);
    NearPlaceLeft(g, root, x, p, s, c);
    TurnedLinksRight(g, root, s, c, g1, g2, p);
    TurnedLinksRight(g, root, s, c, g1, g2, x);
    Neighbours(g2, root, p);
    forall n | n in g2
      ensures ShortOk(g2, n, x)
    {
      NearChildLeftAt(g, root, x, p, s, c, g2, n);
    }
    RootIn(g, root, p);
    if root != c {
      TurnedLinksRight(g, root, s, c, g1, g2, root);
    }
    IsShort(g2, root, x);
  }

  lemma NearPlaceLeft(g: Graph, root: Node?, x: Node, p: Node, s: Node, c: Node)
    requires LeftOf(g, root, x, p, s) && g[s].left == c && c in g
    ensures p != c && x != c && x != s && c != root
  {
    hide ShapeOk, Short, SlotsOk, RangeOk;
    AroundLeft(g, root, p);
    Neighbours(g, root, c);
    Neighbours(g, root, x);
    Neighbours(g, root, s);
  }

  lemma NearChildLeftAt(g: Graph, root: Node?, x: Node, p: Node, s: Node, c: Node, g2: Graph, n: Node)
    requires LeftOf(g, root, x, p, s) && !g[s].red && g[s].left == c && c in g && c != s && g[c].red
    requires !IsRed(g, g[s].right) && TurnedRight(NearColors(g, s, c), s, g2) && n in g
    ensures ShortOk(g2, n, x)
  {
    hide ShapeOk, Short, SlotsOk, RangeOk, TurnedRight, ShortOk;
    if n == s || n == c {
      NearPairLeft(g, root, x, p, s, c, g2);
    } else {
      NearOtherLeft(g, root, x, p, s, c, g2, n);
    }
  }

  lemma NearPairLeft(g: Graph, root: Node?, x: Node, p: Node, s: Node, c: Node, g2: Graph)
    requires LeftOf(g, root, x, p, s) && !g[s].red && g[s].left == c && c in g && c != s && g[c].red
    requires !IsRed(g, g[s].right) && TurnedRight(NearColors(g, s, c), s, g2)
    ensures ShortOk(g2, s, x) && ShortOk(g2, c, x)
  {
    hide ShapeOk, Short, SlotsOk, RangeOk, TurnedRight;
    var g1 := NearColors(g, s, c);
    NearPlaceLeft(g, root, x, p, s, c);
    SiblingThere(g, root, x, p, s);
    ShortAt(g, root, x, s);
    ShortAt(g, root, x, c);
    Neighbours(g, root, s);
    Neighbours(g, root, c);
    TurnedPairRight(g, root, s, c, g1, g2);
    SeenRight(g, root, x, s, c, g1, g2, g[c].left);
    SeenRight(g, root, x, s, c, g1, g2, g[c].right);
    SeenRight(g, root, x, s, c, g1, g2, g[s].right);
    ChildrenApart(g, root, s, c);
    Neighbours(g, root, x);
  }

  /** The children of a child of s are not s. */
  lemma ChildrenApart(g: Graph, root: Node?, s: Node, c: Node)
    requires ShapeOk(g, root) && s in g && c in g && (g[s].left == c || g[s].right == c)
    ensures g[c].left != s && g[c].right != s
  {
    hide ShapeOk, SlotsOk;
    Neighbours(g, root, s);
    Neighbours(g, root, c);
  }

  lemma NearOtherLeft(g: Graph, root: Node?, x: Node, p: Node, s: Node, c: Node, g2: Graph, n: Node)
    requires LeftOf(g, root, x, p, s) && !g[s].red && g[s].left == c && c in g && c != s && g[c].red
    requires TurnedRight(NearColors(g, s, c), s, g2) && n in g && n != s && n != c
    ensures ShortOk(g2, n, x)
  {
    hide ShapeOk, Short, SlotsOk, RangeOk, TurnedRight;
    var g1 := NearColors(g, s, c);
    NearPlaceLeft(g, root, x, p, s, c);
    ShortAt(g, root, x, n);
    ShortAt(g, root, x, s);
    SiblingThere(g, root, x, p, s);
    Neighbours(g, root, n);
    Neighbours(g, root, s);
    TurnedLinksRight(g, root, s, c, g1, g2, n);
    NearCount(g, root, x, p, s, c);
    SeenRight(g, root, x, s, c, g1, g2, g[n].left);
    SeenRight(g, root, x, s, c, g1, g2, g[n].right);
  }

  lemma NearCount(g: Graph, root: Node?, x: Node, p: Node, s: Node, c: Node)
    requires Trouble(g, root, x, p, s) && s in g && s != p && !g[s].red && c in g && (g[s].left == c || g[s].right == c)
    ensures g[s].blacks == g[c].blacks + 1
  {
    hide ShapeOk, Short, SlotsOk, RangeOk;
    SiblingThere(g, root, x, p, s);
    ShortAt(g, root, x, s);
    Neighbours(g, root, s);
    Neighbours(g, root, x);
  }

  // ---- x on the right: the same, mirrored ------------------------------------------------------------

  /** x hangs on the right of p, and s on the left. */
  ghost predicate RightOf(g: Graph, root: Node?, x: Node, p: Node, s: Node) {
    Trouble(g, root, x, p, s) && g[p].right == x && g[p].left == s && s in g && s != p
  }

  /** The links of another node when p turns right and s takes its place. */
  lemma TurnedLinksRight(g: Graph, root: Node?, p: Node, s: Node, g1: Graph, g2: Graph, n: Node)
    requires ShapeOk(g, root) && p in g && g[p].left == s && s in g && SameLinks(g, g1) && TurnedRight(g1, p, g2)
    requires n in g && n != p && n != s
    ensures n in g2 && n in g1 && g2[n].red == g1[n].red && g2[n].blacks == g1[n].blacks
    ensures g2[n].right == (if g[n].right == p then s else g[n].right)
    ensures g2[n].left == (if g[n].left == p then s else g[n].left)
    ensures g[n].right != s && g[n].left != s
  {
    hide ShapeOk, SlotsOk, RangeOk;
    SameLinksKeeps(g, root, g1);
    AroundRight(g1, root, p);
    Neighbours(g, root, n);
    Neighbours(g, root, p);
    Neighbours(g, root, s);
  }

  /** The cells of p and s when p turns right. */
  lemma TurnedPairRight(g: Graph, root: Node?, p: Node, s: Node, g1: Graph, g2: Graph)
    requires ShapeOk(g, root) && p in g && g[p].left == s && s in g && SameLinks(g, g1) && TurnedRight(g1, p, g2)
    ensures p in g1 && s in g1 && p in g2 && s in g2
    ensures g2[p].red == g1[p].red && g2[p].blacks == g1[p].blacks
    ensures g2[s].red == g1[s].red && g2[s].blacks == g1[s].blacks
    ensures g2[p].right == g[p].right && g2[p].left == g[s].right && g2[s].right == p && g2[s].left == g[s].left
    ensures g2[p].parent == s
    ensures g[p].right != null && g[p].right in g ==> g[p].right in g2 && g2[g[p].right].parent == p
    ensures ShapeOk(g2, if p == root then s else root) && forall n :: n in g2 ==> n in g
  {
    SameLinksKeeps(g, root, g1);
    TurnedRightKeeps(g1, root, p, g2);
    hide ShapeOk, SlotsOk, RangeOk;
    AroundRight(g1, root, p);
    Neighbours(g, root, p);
    if g[p].right != null {
      Neighbours(g, root, g[p].right);
    }
  }

  /** A child of another node is seen as before. */
  lemma SeenRight(g: Graph, root: Node?, x: Node, p: Node, s: Node, g1: Graph, g2: Graph, c: Node?)
    requires ShapeOk(g, root) && p in g && g[p].left == s && s in g && SameLinks(g, g1) && TurnedRight(g1, p, g2)
    requires x != p && x != s && c != s && (c != null ==> c in g)
    requires g1[s].red == g[p].red && g1[s].blacks == g[p].blacks
    requires c != null && c != p ==> g1[c] == g[c]
    ensures var c' := if c == p then s else c; Topped(g2, c', x) == Topped(g, c, x) && IsRed(g2, c') == IsRed(g, c)
  {
    hide ShapeOk, SlotsOk, RangeOk, SameLinks, TurnedRight;
    TurnedPairRight(g, root, p, s, g1, g2);
    if c != null && c != p {
      TurnedLinksRight(g, root, p, s, g1, g2, c);
    }
  }

  /** A red sibling comes up, and x gets a black one. */
  lemma RedSiblingRight(g: Graph, root: Node?, x: Node, p: Node, s: Node, g2: Graph)
    requires RightOf(g, root, x, p, s) && g[s].red && TurnedRight(SiblingBlack(g, p, s), p, g2)
    ensures var near := g[s].right;
      && near != null && RightOf(g2, if p == root then s else root, x, p, near) && !g2[near].red
  {
    hide ShapeOk, Short, SlotsOk, RangeOk, TurnedRight;
    SiblingThere(g, root, x, p, s);
    SiblingIsNotRoot(g, root, x, p, s);
    var g1 := SiblingBlack(g, p, s);
    TurnedPairRight(g, root, p, s, g1, g2);
    Neighbours(g, root, p);
    Neighbours(g, root, s);
    AroundRight(g, root, p);
    TurnedLinksRight(g, root, p, s, g1, g2, x);
    TurnedLinksRight(g, root, p, s, g1, g2, g[s].right);
    forall n | n in g2
      ensures ShortOk(g2, n, x)
    {
      RedSiblingRightAt(g, root, x, p, s, g2, n);
    }
    ShortRoot(g, root, x);
    RootStaysRight(g, root, x, p, s, g1, g2);
    IsShort(g2, if p == root then s else root, x);
  }

  lemma RootStaysRight(g: Graph, root: Node?, x: Node, p: Node, s: Node, g1: Graph, g2: Graph)
    requires RightOf(g, root, x, p, s) && SameLinks(g, g1) && TurnedRight(g1, p, g2)
    requires g1[s].red == g[p].red && forall n :: n in g && n != p && n != s && g1[n].red ==> g[n].red
    ensures !IsRed(g2, if p == root then s else root)
  {
    hide ShapeOk, Short, SlotsOk, RangeOk, TurnedRight;
    SiblingIsNotRoot(g, root, x, p, s);
    TurnedPairRight(g, root, p, s, g1, g2);
    RootIn(g, root, p);
    if p != root {
      TurnedLinksRight(g, root, p, s, g1, g2, root);
    }
  }

  lemma RedSiblingRightAt(g: Graph, root: Node?, x: Node, p: Node, s: Node, g2: Graph, n: Node)
    requires RightOf(g, root, x, p, s) && g[s].red && TurnedRight(SiblingBlack(g, p, s), p, g2) && n in g
    ensures ShortOk(g2, n, x)
  {
    hide ShapeOk, Short, SlotsOk, RangeOk, TurnedRight, ShortOk;
    if n == p || n == s {
      RedSiblingRightPair(g, root, x, p, s, g2);
    } else {
      SiblingThere(g, root, x, p, s);
      RedSiblingCounts(g, root, x, p, s);
      ElsewhereRight(g, root, x, p, s, SiblingBlack(g, p, s), g2, n);
    }
  }

  lemma RedSiblingRightPair(g: Graph, root: Node?, x: Node, p: Node, s: Node, g2: Graph)
    requires RightOf(g, root, x, p, s) && g[s].red && TurnedRight(SiblingBlack(g, p, s), p, g2)
    ensures ShortOk(g2, p, x) && ShortOk(g2, s, x)
  {
    hide ShapeOk, Short, SlotsOk, RangeOk, TurnedRight;
    SiblingThere(g, root, x, p, s);
    var g1 := SiblingBlack(g, p, s);
    ShortAt(g, root, x, p);
    ShortAt(g, root, x, s);
    Neighbours(g, root, p);
    Neighbours(g, root, s);
    TurnedPairRight(g, root, p, s, g1, g2);
    SeenRight(g, root, x, p, s, g1, g2, x);
    SeenRight(g, root, x, p, s, g1, g2, g[s].right);
    SeenRight(g, root, x, p, s, g1, g2, g[s].left);
  }

  /** When s takes the colour and the count of p, the other nodes notice nothing. */
  lemma ElsewhereRight(g: Graph, root: Node?, x: Node, p: Node, s: Node, g1: Graph, g2: Graph, n: Node)
    requires RightOf(g, root, x, p, s) && SameLinks(g, g1) && TurnedRight(g1, p, g2) && n in g && n != p && n != s
    requires g1[s].red == g[p].red && g1[s].blacks == g[p].blacks
    requires forall m :: m in g && m != p && m != s && (m == n || g[m].parent == n) ==> m in g1 && g1[m] == g[m]
    ensures ShortOk(g2, n, x)
  {
    hide ShapeOk, Short, SlotsOk, RangeOk, TurnedRight, SameLinks;
    SiblingIsNotRoot(g, root, x, p, s);
    ShortAt(g, root, x, n);
    Neighbours(g, root, n);
    Neighbours(g, root, p);
    Neighbours(g, root, x);
    TurnedLinksRight(g, root, p, s, g1, g2, n);
    SeenRight(g, root, x, p, s, g1, g2, g[n].right);
    SeenRight(g, root, x, p, s, g1, g2, g[n].left);
  }

  /** With a red far child, turning the parent ends the shortage: the tree is balanced. */
  lemma LastTurnRight(g: Graph, root: Node?, x: Node, p: Node, s: Node, f: Node, g2: Graph)
    requires RightOf(g, root, x, p, s) && !g[s].red && g[s].left == f && f in g && f != p && f != s && g[f].red
    requires TurnedRight(LastColors(g, p, s, f), p, g2)
    ensures Balanced(g2, if p == root then s else root)
  {
    hide ShapeOk, Short, SlotsOk, RangeOk, TurnedRight, ColorOk;
    var g1 := LastColors(g, p, s, f);
    TurnedPairRight(g, root, p, s, g1, g2);
    forall n | n in g2
      ensures ColorOk(g2, n, null)
    {
      LastTurnRightAt(g, root, x, p, s, f, g2, n);
    }
    RootStaysRight(g, root, x, p, s, g1, g2);
  }

  lemma LastTurnRightAt(g: Graph, root: Node?, x: Node, p: Node, s: Node, f: Node, g2: Graph, n: Node)
    requires RightOf(g, root, x, p, s) && !g[s].red && g[s].left == f && f in g && f != p && f != s && g[f].red
    requires TurnedRight(LastColors(g, p, s, f), p, g2) && n in g
    ensures ColorOk(g2, n, null)
  {
    hide ShapeOk, Short, SlotsOk, RangeOk, TurnedRight, ColorOk;
    if n == p || n == s {
      LastTurnRightPair(g, root, x, p, s, f, g2);
    } else if n == f {
      LastTurnRightFar(g, root, x, p, s, f, g2);
    } else {
      LastTurnRightOther(g, root, x, p, s, f, g2, n);
    }
  }

  lemma LastTurnRightPair(g: Graph, root: Node?, x: Node, p: Node, s: Node, f: Node, g2: Graph)
    requires RightOf(g, root, x, p, s) && !g[s].red && g[s].left == f && f in g && f != p && f != s && g[f].red
    requires TurnedRight(LastColors(g, p, s, f), p, g2)
    ensures ColorOk(g2, p, null) && ColorOk(g2, s, null)
  {
    hide ShapeOk, Short, SlotsOk, RangeOk, TurnedRight;
    SiblingThere(g, root, x, p, s);
    var g1 := LastColors(g, p, s, f);
    ShortAt(g, root, x, p);
    ShortAt(g, root, x, s);
    Neighbours(g, root, p);
    Neighbours(g, root, s);
    AroundRight(g, root, p);
    TurnedPairRight(g, root, p, s, g1, g2);
    TurnedLinksRight(g, root, p, s, g1, g2, x);
    TurnedLinksRight(g, root, p, s, g1, g2, g[s].right);
    TurnedLinksRight(g, root, p, s, g1, g2, f);
  }

  /** Below the far child there is neither p nor s. */
  lemma FarChildRight(g: Graph, root: Node?, p: Node, s: Node, f: Node, c: Node)
    requires ShapeOk(g, root) && p in g && g[p].left == s && s in g && g[s].left == f && f in g
    requires g[f].right == c || g[f].left == c
    ensures c in g && c != p && c != s
  {
    hide ShapeOk, SlotsOk;
    Neighbours(g, root, p);
    Neighbours(g, root, s);
    Neighbours(g, root, f);
  }

  lemma LastTurnRightFar(g: Graph, root: Node?, x: Node, p: Node, s: Node, f: Node, g2: Graph)
    requires RightOf(g, root, x, p, s) && !g[s].red && g[s].left == f && f in g && f != p && f != s && g[f].red
    requires TurnedRight(LastColors(g, p, s, f), p, g2)
    ensures ColorOk(g2, f, null)
  {
    hide ShapeOk, Short, SlotsOk, RangeOk, TurnedRight;
    var g1 := LastColors(g, p, s, f);
    ShortAt(g, root, x, f);
    Neighbours(g, root, f);
    Neighbours(g, root, s);
    TurnedLinksRight(g, root, p, s, g1, g2, f);
    if g[f].right != null {
      FarChildRight(g, root, p, s, f, g[f].right);
      TurnedLinksRight(g, root, p, s, g1, g2, g[f].right);
    }
    if g[f].left != null {
      FarChildRight(g, root, p, s, f, g[f].left);
      TurnedLinksRight(g, root, p, s, g1, g2, g[f].left);
    }
  }

  lemma LastTurnRightOther(g: Graph, root: Node?, x: Node, p: Node, s: Node, f: Node, g2: Graph, n: Node)
    requires RightOf(g, root, x, p, s) && !g[s].red && g[s].left == f && f in g && f != p && f != s && g[f].red
    requires TurnedRight(LastColors(g, p, s, f), p, g2) && n in g && n != p && n != s && n != f
    ensures ColorOk(g2, n, null)
  {
    hide ShapeOk, Short, SlotsOk, RangeOk, TurnedRight;
    Neighbours(g, root, s);
    ElsewhereRight(g, root, x, p, s, LastColors(g, p, s, f), g2, n);
    TurnedPairRight(g, root, p, s, LastColors(g, p, s, f), g2);
    if n == x {
      TurnedLinksRight(g, root, p, s, LastColors(g, p, s, f), g2, x);
    }
    NotBelow(g2, if p == root then s else root, x, n);
  }

  /** With a red near child c and a black far one, turning the sibling gives x a black sibling with a red far
      child. */
  lemma NearChildRight(g: Graph, root: Node?, x: Node, p: Node, s: Node, c: Node, g2: Graph)
    requires RightOf(g, root, x, p, s) && !g[s].red && g[s].right == c && c in g && c != s && g[c].red
    requires !IsRed(g, g[s].left) && TurnedLeft(NearColors(g, s, c), s, g2)
    ensures s != root && RightOf(g2, root, x, p, c) && !g2[c].red && g2[c].left == s && g2[s].red
  {
    hide ShapeOk, Short, SlotsOk, RangeOk, TurnedLeft, ShortOk;
    var g1 := NearColors(g, s, c);
    SiblingIsNotRoot(g, root, x, p, s);
    TurnedPairLeft(g, root, s, c, g1, g2);
    Neighbours(g, root, p);
    Neighbours(g, root, s);
    Neighbours(g, root, x);
    NearPlaceRight(g, root, x, p, s, c);
    TurnedLinksLeft(g, root, s, c, g1, g2, p);
    TurnedLinksLeft(g, root, s, c, g1, g2, x);
    Neighbours(g2, root, p);
    forall n | n in g2
      ensures ShortOk(g2, n, x)
    {
      NearChildRightAt(g, root, x, p, s, c, g2, n);
    }
    RootIn(g, root, p);
    if root != c {
      TurnedLinksLeft(g, root, s, c, g1, g2, root);
    }
    IsShort(g2, root, x);
  }

  lemma NearPlaceRight(g: Graph, root: Node?, x: Node, p: Node, s: Node, c: Node)
    requires RightOf(g, root, x, p, s) && g[s].right == c && c in g
    ensures p != c && x != c && x != s && c != root
  {
    hide ShapeOk, Short, SlotsOk, RangeOk;
    AroundRight(g, root, p);
    Neighbours(g, root, c);
    Neighbours(g, root, x);
    Neighbours(g, root, s);
  }

  lemma NearChildRightAt(g: Graph, root: Node?, x: Node, p: Node, s: Node, c: Node, g2: Graph, n: Node)
    requires RightOf(g, root, x, p, s) && !g[s].red && g[s].right == c && c in g && c != s && g[c].red
    requires !IsRed(g, g[s].left) && TurnedLeft(NearColors(g, s, c), s, g2) && n in g
    ensures ShortOk(g2, n, x)
  {
    hide ShapeOk, Short, SlotsOk, RangeOk, TurnedLeft, ShortOk;
    if n == s || n == c {
      NearPairRight(g, root, x, p, s, c, g2);
    } else {
      NearOtherRight(g, root, x, p, s, c, g2, n);
    }
  }

  lemma NearPairRight(g: Graph, root: Node?, x: Node, p: Node, s: Node, c: Node, g2: Graph)
    requires RightOf(g, root, x, p, s) && !g[s].red && g[s].right == c && c in g && c != s && g[c].red
    requires !IsRed(g, g[s].left) && TurnedLeft(NearColors(g, s, c), s, g2)
    ensures ShortOk(g2, s, x) && ShortOk(g2, c, x)
  {
    hide ShapeOk, Short, SlotsOk, RangeOk, TurnedLeft;
    var g1 := NearColors(g, s, c);
    NearPlaceRight(g, root, x, p, s, c);
    SiblingThere(g, root, x, p, s);
    ShortAt(g, root, x, s);
    ShortAt(g, root, x, c);
    Neighbours(g, root, s);
    Neighbours(g, root, c);
    TurnedPairLeft(g, root, s, c, g1, g2);
    SeenLeft(g, root, x, s, c, g1, g2, g[c].right);
    SeenLeft(g, root, x, s, c, g1, g2, g[c].left);
    SeenLeft(g, root, x, s, c, g1, g2, g[s].left);
    ChildrenApart(g, root, s, c);
    Neighbours(g, root, x);
  }

  lemma NearOtherRight(g: Graph, root: Node?, x: Node, p: Node, s: Node, c: Node, g2: Graph, n: Node)
    requires RightOf(g, root, x, p, s) && !g[s].red && g[s].right == c && c in g && c != s && g[c].red
    requires TurnedLeft(NearColors(g, s, c), s, g2) && n in g && n != s && n != c
    ensures ShortOk(g2, n, x)
  {
    hide ShapeOk, Short, SlotsOk, RangeOk, TurnedLeft;
    var g1 := NearColors(g, s, c);
    NearPlaceRight(g, root, x, p, s, c);
    ShortAt(g, root, x, n);
    ShortAt(g, root, x, s);
    SiblingThere(g, root, x, p, s);
    Neighbours(g, root, n);
    Neighbours(g, root, s);
    TurnedLinksLeft(g, root, s, c, g1, g2, n);
    NearCount(g, root, x, p, s, c);
    SeenLeft(g, root, x, s, c, g1, g2, g[n].right);
    SeenLeft(g, root, x, s, c, g1, g2, g[n].left);
  }

  // ---- either side ------------------------------------------------------------------------------------

  /** x hangs on the given side of p, and s on the other one. */
  ghost predicate OnSide(g: Graph, root: Node?, leftChild: bool, x: Node, p: Node, s: Node) {
    if leftChild then LeftOf(g, root, x, p, s) else RightOf(g, root, x, p, s)
  }

  /** The child of s that lies away from x. */
  function FarOf(g: Graph, s: Node, leftChild: bool): Node?
    requires s in g
  {
    if leftChild then g[s].right else g[s].left
  }

  lemma OnSideThere(g: Graph, root: Node?, leftChild: bool, x: Node, p: Node, s: Node)
    requires OnSide(g, root, leftChild, x, p, s)
    ensures Trouble(g, root, x, p, s) && s in g && s != p && p in g
    ensures g[s].left != null && g[s].left in g && g[s].right != null && g[s].right in g
    ensures g[s].left != p && g[s].right != p && g[s].left != s && g[s].right != s
  {
    hide ShapeOk, Short, SlotsOk, RangeOk;
    SiblingThere(g, root, x, p, s);
    Neighbours(g, root, s);
    if leftChild {
      AroundLeft(g, root, p);
    } else {
      AroundRight(g, root, p);
    }
    ChildrenApart(g, root, p, s);
  }

  /** A black node that is short, and not the root, has a parent and a sibling. */
  lemma ShortHasSibling(g: Graph, root: Node?, x: Node, p: Node, leftChild: bool, s: Node?)
    requires ShapeOk(g, root) && Short(g, root, x) && x in g && !g[x].red && p in g && g[x].parent == p
    requires leftChild <==> x == g[p].left
    requires s == if leftChild then g[p].right else g[p].left
    ensures s != null && s in g && OnSide(g, root, leftChild, x, p, s)
  {
    hide ShapeOk, Short, SlotsOk, RangeOk;
    Neighbours(g, root, x);
    Neighbours(g, root, p);
    SiblingThere(g, root, x, p, s);
  }

  /** The red sibling has been turned up. */
  lemma SiblingTurned(g: Graph, root: Node?, leftChild: bool, x: Node, p: Node, s: Node, g2: Graph, root2: Node?)
    requires OnSide(g, root, leftChild, x, p, s) && g[s].red
    requires if leftChild then TurnedLeft(SiblingBlack(g, p, s), p, g2) else TurnedRight(SiblingBlack(g, p, s), p, g2)
    requires root2 == if p == root then s else root
    ensures Short(g2, root2, x) && x in g2 && !g2[x].red && p in g2 && g2[x].parent == p
    ensures var s' := if leftChild then g2[p].right else g2[p].left;
      s' != null && s' in g2 && OnSide(g2, root2, leftChild, x, p, s') && !g2[s'].red
  {
    hide ShapeOk, Short, SlotsOk, RangeOk, TurnedLeft, TurnedRight;
    if leftChild {
      RedSiblingLeft(g, root, x, p, s, g2);
    } else {
      RedSiblingRight(g, root, x, p, s, g2);
    }
  }

  /** The last turn has been made. */
  lemma LastTurned(g: Graph, root: Node?, leftChild: bool, x: Node, p: Node, s: Node, f: Node, g2: Graph, root2: Node?)
    requires OnSide(g, root, leftChild, x, p, s) && !g[s].red && FarOf(g, s, leftChild) == f && f in g && g[f].red
    requires f != p && f != s
    requires if leftChild then TurnedLeft(LastColors(g, p, s, f), p, g2) else TurnedRight(LastColors(g, p, s, f), p, g2)
    requires root2 == if p == root then s else root
    ensures Balanced(g2, root2)
  {
    hide ShapeOk, Short, SlotsOk, RangeOk, TurnedLeft, TurnedRight, Balanced;
    if leftChild {
      LastTurnLeft(g, root, x, p, s, f, g2);
    } else {
      LastTurnRight(g, root, x, p, s, f, g2);
    }
  }
}
