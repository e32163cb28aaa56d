/**
  The red-black tree: nodes with parent links, rotations, the repairs after an insertion and an
  erasure, searching and visiting, all in place.
 */
module RBTrees {
  import opened Types
  import opened RBShapes
  import opened RBBalance
  import opened RBErase
  import opened RBEraseBalance
  import opened RBRepairs

  // ---- places in the tree, for the repair -------------------------------------------------------------

  /** The interval of c is wider than that of b. */
  predicate Wider(b: Cell, c: Cell) {
    RangeOk(b) && RangeOk(c) && c.hi - c.lo > b.hi - b.lo
  }

  /** How much wider an interval can get. */
  function Room(c: Cell): nat {
    if RangeOk(c) then HIGHEST - LOWEST - (c.hi - c.lo) else 0
  }

  lemma StartPlace(g: Graph, root: Node?, n: Node)
    requires ShapeOk(g, root) && n in g
    ensures root != null && root in g && RangeOk(g[n])
    ensures n != root <==> g[n].parent != null
    ensures g[n].parent != null ==> g[n].parent in g && (g[g[n].parent].left == n || g[g[n].parent].right == n)
  {
    assert NodeOk(g, root, n);
    RootIn(g, root, n);
  }

  lemma SameLinksAgain(g: Graph, g': Graph, g'': Graph)
    requires SameLinks(g, g') && SameLinks(g', g'')
    ensures SameLinks(g, g'')
  {
  }

  lemma SameEntriesAgain(g: Graph, g': Graph, g'': Graph)
    requires SameEntries(g, g') && SameEntries(g', g'')
    ensures SameEntries(g, g'')
  {
  }

  /** A node, its parent and its grandparent, and the uncle. */
  lemma RepairPlace(g: Graph, root: Node?, z: Node, p: Node, a: Node)
    requires ShapeOk(g, root) && z in g && p in g && a in g && g[z].parent == p && g[p].parent == a
    ensures z != p && z != a && p != a && Wider(g[z], g[a])
    ensures g[a].parent != z && (g[p].left != null ==> g[p].left != g[p].right)
    ensures g[a].left != null ==> g[a].left in g && g[a].left != a && g[a].left != z
    ensures g[a].right != null ==> g[a].right in g && g[a].right != a && g[a].right != z
    ensures g[a].left != null ==> g[a].left != g[a].right
    ensures g[p].left == z || g[p].right == z
    ensures g[a].left == p || g[a].right == p
  {
    hide ShapeOk, SlotsOk;
    Neighbours(g, root, z);
    Neighbours(g, root, p);
    Neighbours(g, root, a);
  }

  lemma BalancedIsAlmost(g: Graph, root: Node?, z: Node)
    requires Balanced(g, root) && z in g && g[z].red
    ensures Almost(g, root, z)
  {
    forall n | n in g
      ensures ColorOk(g, n, z)
    {
      assert ColorOk(g, n, null);
    }
  }

  /** A search that ends in an empty place has found that the key is not there. */
  lemma NotThere(g: Graph, root: Node?, last: Node?, key: Key)
    requires ShapeOk(g, root)
    requires if last == null then root == null else
      last in g && g[last].lo < key < g[last].hi && key != g[last].key &&
      (if key < g[last].key then g[last].left == null else g[last].right == null)
    ensures key !in Contents(g)
  {
    hide Contents;
    ContentsOnly(g, key);
    if last != null {
      assert NodeOk(g, root, last);
    }
  }

  lemma SmallestKey(g: Graph, root: Node?, n: Node)
    requires ShapeOk(g, root) && n in g && g[n].left == null && g[n].lo == LOWEST
    ensures forall j :: j in Contents(g) ==> g[n].key <= j
  {
    hide Contents;
    assert NodeOk(g, root, n);
    forall j | j in Contents(g)
      ensures g[n].key <= j
    {
      ContentsOnly(g, j);
    }
  }

  lemma LargestKey(g: Graph, root: Node?, n: Node)
    requires ShapeOk(g, root) && n in g && g[n].right == null && g[n].hi == HIGHEST
    ensures forall j :: j in Contents(g) ==> j <= g[n].key
  {
    hide Contents;
    assert NodeOk(g, root, n);
    forall j | j in Contents(g)
      ensures j <= g[n].key
    {
      ContentsOnly(g, j);
    }
  }

  // ---- what a traversal lists -------------------------------------------------------------------------

  ghost predicate Holds(g: Graph, k: Key, v: Value) {
    exists n :: n in g && g[n].key == k && g[n].value == v
  }

  /** The list has exactly the entries with keys between lo and hi, in ascending order. */
  ghost predicate Lists(g: Graph, s: seq<(Key, Value)>, lo: int, hi: int) {
    && (forall i, j :: 0 <= i < j < |s| ==> s[i].0 < s[j].0)
    && (forall i :: 0 <= i < |s| ==> lo < s[i].0 < hi && Holds(g, s[i].0, s[i].1))
    && (forall n {:trigger g[n]} :: n in g && lo < g[n].key < hi ==> (g[n].key, g[n].value) in s)
  }

  lemma ListsAround(g: Graph, root: Node?, n: Node, before: seq<(Key, Value)>, after: seq<(Key, Value)>)
    requires ShapeOk(g, root) && n in g && RangeOk(g[n])
    requires Lists(g, before, g[n].lo, g[n].key) && Lists(g, after, g[n].key, g[n].hi)
    ensures Lists(g, before + [(g[n].key, g[n].value)] + after, g[n].lo, g[n].hi)
  {
    hide ShapeOk;
    var here := (g[n].key, g[n].value);
    var s := before + [here] + after;
    assert Holds(g, here.0, here.1);
    forall m | m in g && g[n].lo < g[m].key < g[n].hi
      ensures (g[m].key, g[m].value) in s
    {
      if g[m].key == g[n].key {
        KeysApart(g, root, m, n);
        assert s[|before|] == here;
      }
    }
  }

  lemma ListsContents(g: Graph, root: Node?, s: seq<(Key, Value)>)
    requires ShapeOk(g, root) && Lists(g, s, LOWEST, HIGHEST)
    ensures forall k, v :: (k, v) in s <==> k in Contents(g) && Contents(g)[k] == v
  {
    hide Contents, ShapeOk;
    forall k, v
      ensures (k, v) in s <==> k in Contents(g) && Contents(g)[k] == v
    {
      ContentsOnly(g, k);
      if (k, v) in s {
        assert Holds(g, k, v);
        var n :| n in g && g[n].key == k && g[n].value == v;
        ContentsAt(g, root, n);
      }
      if k in Contents(g) && Contents(g)[k] == v {
        var n :| n in g && g[n].key == k;
        ContentsAt(g, root, n);
      }
    }
  }

  lemma FirstAlmost(z: Node, c: Cell)
    requires c.red && c.blacks == 0 && c.left == null && c.right == null
    ensures Almost(map[z := c], z, z)
  {
  }

  /** A new value changes no colours. */
  lemma ValueKeepsBalance(g: Graph, root: Node?, g': Graph)
    requires g'.Keys == g.Keys
    requires forall n {:trigger g[n]} {:trigger g'[n]} :: n in g ==> n in g' && g'[n] == g[n].(value := g'[n].value)
    ensures Balanced(g, root) ==> Balanced(g', root)
  {
    if Balanced(g, root) {
      forall n | n in g'
        ensures ColorOk(g', n, null)
      {
        assert ColorOk(g, n, null);
      }
    }
  }

  lemma NoChange(g: Graph)
    ensures SameEntries(g, g)
  {
  }

  lemma TurnedEntriesLeft(g: Graph, x: Node, g': Graph)
    requires TurnedLeft(g, x, g')
    ensures SameEntries(g, g')
  {
  }

  lemma TurnedEntriesRight(g: Graph, x: Node, g': Graph)
    requires TurnedRight(g, x, g')
    ensures SameEntries(g, g')
  {
  }

  /** The node on the other side of a parent is red. */
  ghost predicate RedSibling(g: Graph, x: Node?) {
    x != null && x in g && g[x].parent != null && g[x].parent in g &&
    IsRed(g, if g[g[x].parent].left == x then g[g[x].parent].right else g[g[x].parent].left)
  }

  lemma ParentWider(g: Graph, root: Node?, x: Node)
    requires ShapeOk(g, root) && x in g && g[x].parent != null
    ensures g[x].parent in g && Wider(g[x], g[g[x].parent])
  {
    Neighbours(g, root, x);
  }

  /** The other child of a turning node does not move. */
  lemma LeftChildStays(g: Graph, root: Node?, x: Node, c: Node)
    requires ShapeOk(g, root) && x in g && g[x].left == c && c in g && g[x].right != null && g[x].right in g
    ensures c != x && c != g[x].right && c != g[g[x].right].left && c != g[x].parent
  {
    Neighbours(g, root, x);
    Neighbours(g, root, c);
    Neighbours(g, root, g[x].right);
  }

  /** The other child of a turning node does not move. */
  lemma RightChildStays(g: Graph, root: Node?, x: Node, c: Node)
    requires ShapeOk(g, root) && x in g && g[x].right == c && c in g && g[x].left != null && g[x].left in g
    ensures c != x && c != g[x].left && c != g[g[x].left].right && c != g[x].parent
  {
    Neighbours(g, root, x);
    Neighbours(g, root, c);
    Neighbours(g, root, g[x].left);
  }

  lemma ContentsWithout(g: Graph, root: Node?, g': Graph, root': Node?, z: Node)
    requires ShapeOk(g, root) && ShapeOk(g', root') && z in g && g'.Keys == g.Keys - {z} && Entries(g, g')
    ensures Contents(g') == Drop(Contents(g), g[z].key)
  {
    hide Contents, ShapeOk;
    var c := Drop(Contents(g), g[z].key);
    forall k | k in Contents(g') || k in c
      ensures k in Contents(g') && k in c && Contents(g')[k] == c[k]
    {
      ContentsOnly(g, k);
      ContentsOnly(g', k);
      var n :| n in g && g[n].key == k && (k in Contents(g') ==> n in g');
      ContentsAt(g, root, n);
      if n in g' {
        ContentsAt(g', root', n);
        KeysApart(g, root, n, z);
      }
    }
  }

  /** The tree is balanced, or would be if one red node were black. */
  ghost predicate NearlyBalanced(g: Graph, root: Node?) {
    Balanced(g, root) || exists x :: x in g && g[x].red && Balanced(Blackened(g, x), root)
  }

  /** The repair has stopped at the root or at a red node. */
  lemma RepairEnds(g: Graph, root: Node?, x: Node)
    requires ShapeOk(g, root) && Short(g, root, x) && x in g && (x == root || g[x].red)
    ensures NearlyBalanced(g, root)
  {
    hide ShapeOk, Short, Balanced;
    ShortEnds(g, root, x);
    if !g[x].red {
      assert Blackened(g, x) == g;
    }
  }

  /** A turn leaves a node and its parent together that are not part of it. */
  lemma TurnedRightElsewhere(g: Graph, root: Node?, s: Node, x: Node, p: Node, g': Graph)
    requires ShapeOk(g, root) && TurnedRight(g, s, g') && x in g && p in g && g[x].parent == p && g[p].left == x
    requires g[p].right == s && s in g && g[s].parent == p
    ensures g'[x] == g[x] && g'[p].left == x && g'[p].right == g[s].left && g'[g[s].left].parent == p
  {
    hide ShapeOk, SlotsOk, RangeOk;
    AroundRight(g, root, s);
    Neighbours(g, root, p);
    Neighbours(g, root, x);
  }

  lemma TurnedLeftElsewhere(g: Graph, root: Node?, s: Node, x: Node, p: Node, g': Graph)
    requires ShapeOk(g, root) && TurnedLeft(g, s, g') && x in g && p in g && g[x].parent == p && g[p].right == x
    requires g[p].left == s && s in g && g[s].parent == p
    ensures g'[x] == g[x] && g'[p].right == x && g'[p].left == g[s].right && g'[g[s].right].parent == p
  {
    hide ShapeOk, SlotsOk, RangeOk;
    AroundLeft(g, root, s);
    Neighbours(g, root, p);
    Neighbours(g, root, x);
  }

  /** The node with a key is the only one, if there is one. */
  lemma OnlyHolder(g: Graph, root: Node?, node: Node?, key: Key)
    requires ShapeOk(g, root)
    requires if node == null then key !in Contents(g) else node in g && g[node].key == key
    ensures forall n :: n in g && g[n].key == key ==> n == node
  {
    hide ShapeOk, Contents;
    forall n | n in g && g[n].key == key
      ensures n == node
    {
      ContentsAt(g, root, n);
      if node != null {
        KeysApart(g, root, n, node);
      }
    }
  }

  lemma DropNone(m: map<Key, Value>, k: Key)
    requires k !in m
    ensures Drop(m, k) == m
  {
  }

  lemma DropOne(m: map<Key, Value>, k: Key)
    requires k in m
    ensures |Drop(m, k)| == |m| - 1
  {
    assert Drop(m, k).Keys == m.Keys - {k};
  }

  /** The same keys and values for the nodes that are left. */
  ghost predicate Entries(g: Graph, g': Graph) {
    forall n {:trigger g'[n]} :: n in g' ==> n in g && g'[n].key == g[n].key && g'[n].value == g[n].value
  }

  /** Around a node that is to be erased. */
  lemma ErasePlace(g: Graph, root: Node?, z: Node)
    requires ShapeOk(g, root) && z in g
    ensures var c := g[z];
      && (c.parent == null <==> z == root) && c.parent != z && c.left != z && c.right != z
      && (c.parent != null ==> c.parent in g && c.parent != c.left && c.parent != c.right)
      && (c.parent != null ==>
        (g[c.parent].left == z || g[c.parent].right == z) && g[c.parent].left != g[c.parent].right)
      && (c.left != null ==> c.left in g && c.left != c.right && g[c.left].parent == z)
      && (c.right != null ==> c.right in g && g[c.right].parent == z)
  {
    Neighbours(g, root, z);
    if g[z].parent != null {
      Neighbours(g, root, g[z].parent);
    }
  }

  /** After the inner turn the old parent hangs on the left of z, and z on the left of a. */
  lemma InnerPlaceLeft(g: Graph, root: Node?, z: Node, p: Node, a: Node, g': Graph)
    requires ShapeOk(g, root) && z in g && p in g && a in g && g[z].parent == p && g[p].parent == a
    requires g[p].right == z && g[a].left == p && TurnedLeft(g, p, g')
    ensures p in g' && z in g' && a in g' && p != root
    ensures g'[p].parent == z && g'[z].left == p && g'[z].parent == a && g'[a].left == z && g'[a].right == g[a].right
    ensures g'[a].right != null ==> g'[a].right in g && g'[g'[a].right].red == g[g'[a].right].red
    ensures SameEntries(g, g')
  {
    hide ShapeOk, SlotsOk, RangeOk;
    AroundLeft(g, root, p);
    Neighbours(g, root, a);
    RightIn(g, root, a);
  }

  /** The tree after the last rotation. */
  lemma FinishedLeft(g: Graph, root: Node?, z: Node, p: Node, a: Node, g': Graph, g'': Graph, root'': Node?, bal: bool)
    requires ShapeOk(g, root) && z in g && z != root && p in g && a in g
    requires g[z].parent == p && g[p].left == z && g[p].parent == a && g[a].left == p
    requires bal ==> TroubleLeft(g, root, z, p, a) && !IsRed(g, g[a].right)
    requires SwappedLeft(g, p, a, g') && TurnedRight(g', a, g'')
    requires root'' == if a == root then p else root
    ensures z in g'' && g''[z].parent == p && p in g'' && !g''[p].red
    ensures SameEntries(g, g'')
    ensures bal ==> Almost(g'', root'', z)
  {
    hide ShapeOk, SlotsOk, RangeOk, Almost, Balanced;
    SameLinksKeeps(g, root, g');
    AroundRight(g', root, a);
    RepairPlace(g, root, z, p, a);
    AroundRight(g', root, a);
    if bal {
      OuterTurnRight(g, root, z, p, a, g', g'');
      BalancedIsAlmost(g'', root'', z);
    }
  }

  /** After the inner turn the old parent hangs on the right of z, and z on the right of a. */
  lemma InnerPlaceRight(g: Graph, root: Node?, z: Node, p: Node, a: Node, g': Graph)
    requires ShapeOk(g, root) && z in g && p in g && a in g && g[z].parent == p && g[p].parent == a
    requires g[p].left == z && g[a].right == p && TurnedRight(g, p, g')
    ensures p in g' && z in g' && a in g' && p != root
    ensures g'[p].parent == z && g'[z].right == p && g'[z].parent == a && g'[a].right == z && g'[a].left == g[a].left
    ensures g'[a].left != null ==> g'[a].left in g && g'[g'[a].left].red == g[g'[a].left].red
    ensures SameEntries(g, g')
  {
    hide ShapeOk, SlotsOk, RangeOk;
    AroundRight(g, root, p);
    Neighbours(g, root, a);
    LeftIn(g, root, a);
  }

  /** The tree after the last rotation. */
  lemma FinishedRight(g: Graph, root: Node?, z: Node, p: Node, a: Node, g': Graph, g'': Graph, root'': Node?, bal: bool)
    requires ShapeOk(g, root) && z in g && z != root && p in g && a in g
    requires g[z].parent == p && g[p].right == z && g[p].parent == a && g[a].right == p
    requires bal ==> TroubleRight(g, root, z, p, a) && !IsRed(g, g[a].left)
    requires SwappedRight(g, p, a, g') && TurnedLeft(g', a, g'')
    requires root'' == if a == root then p else root
    ensures z in g'' && g''[z].parent == p && p in g'' && !g''[p].red
    ensures SameEntries(g, g'')
    ensures bal ==> Almost(g'', root'', z)
  {
    hide ShapeOk, SlotsOk, RangeOk, Almost, Balanced;
    SameLinksKeeps(g, root, g');
    AroundLeft(g', root, a);
    RepairPlace(g, root, z, p, a);
    AroundLeft(g', root, a);
    if bal {
      OuterTurnLeft(g, root, z, p, a, g', g'');
      BalancedIsAlmost(g'', root'', z);
    }
  }

  class RBTree {
    var root: Node?
    var size: nat

    /** What each node of the tree holds. */
    ghost var g: Graph

    ghost predicate TiedAt(n: Node)
      reads this`g, n
    {
      n in g &&
      var c := g[n];
      && n.key == c.key && n.value == c.value && n.red == c.red
      && n.parent == c.parent && n.left == c.left && n.right == c.right
    }

    ghost predicate Tied()
      reads this`g, g.Keys
    {
      forall n {:trigger TiedAt(n)} :: n in g ==> TiedAt(n)
    }

    ghost predicate Valid()
      reads this, g.Keys
    {
      Tied() && ShapeOk(g, root) && size == |Contents(g)|
    }

    constructor ()
      ensures Valid() && Contents(g) == map[] && Balanced(g, root) && g.Keys == {}
    {
      root := null;
      size := 0;
      g := map[];
    }

    // ---- rotations ----------------------------------------------------------------------------------

    /** The writes of a left rotation. */
    method LinkLeft(x: Node)
      requires x.right != null && x.right != x && x.parent != x && x.parent != x.right
      requires x.right.left != null ==> x.right.left != x && x.right.left != x.right && x.right.left != x.parent
      modifies this`root, x, x.right, x.right.left, x.parent
      ensures var y, p := old(x.right), old(x.parent);
        && unchanged(x`value) && unchanged(x`red) && unchanged(x`left) && x.right == old(x.right.left) && x.parent == y
        && y.value == old(x.right.value) && y.red == old(x.right.red) && y.right == old(x.right.right)
        && y.left == x && y.parent == p
        && root == if p == null then y else old(root)
      ensures var b := old(x.right.left); b != null ==>
        && b.value == old(x.right.left.value) && b.red == old(x.right.left.red)
        && b.left == old(x.right.left.left) && b.right == old(x.right.left.right) && b.parent == x
      ensures var y, p := old(x.right), old(x.parent); p != null ==>
        && p.value == old(x.parent.value) && p.red == old(x.parent.red) && p.parent == old(x.parent.parent)
        && p.left == (if old(x.parent.left) == x then y else old(x.parent.left))
        && p.right == (if old(x.parent.left) == x then old(x.parent.right) else y)
    {
      var y := x.right;
      x.right := y.left;
      if y.left != null {
        y.left.parent := x;
      }
      y.parent := x.parent;
      if x.parent == null {
        root := y;
      } else if x == x.parent.left {
        x.parent.left := y;
      } else {
        x.parent.right := y;
      }
      y.left := x;
      x.parent := y;
    }

    method RotateLeft(x: Node?)
      requires Tied() && ShapeOk(g, root) && (x != null ==> x in g)
      modifies this`root, this`g, g.Keys
      ensures g.Keys == old(g.Keys) && Tied() && ShapeOk(g, root)
      ensures x == null || old(g)[x].right == null ==> g == old(g) && root == old(root)
      ensures x != null && old(g)[x].right != null ==>
        TurnedLeft(old(g), x, g) && root == if x == old(root) then old(g)[x].right else old(root)
    {
      hide ShapeOk, NodeOk;
      ghost var g0, root0 := g, root;
      assert x != null ==> TiedAt(x);
      if x == null || x.right == null {
        return;
      }
      RightIn(g, root, x);
      AroundLeft(g, root, x);
      ghost var y := x.right;
      assert TiedAt(y);
      ghost var b, p := y.left, x.parent;
      assert b != null ==> TiedAt(b);
      assert p != null ==> TiedAt(p);
      LinkLeft(x);
      g := TurnLeft(g0, root0, x);
      assert g.Keys == g0.Keys;
      forall n | n in g
        ensures TiedAt(n)
      {
        assert old(TiedAt(n));
      }
      TurnedLeftKeeps(g0, root0, x, g);
    }

    /** The writes of a right rotation. */
    method LinkRight(x: Node)
      requires x.left != null && x.left != x && x.parent != x && x.parent != x.left
      requires x.left.right != null ==> x.left.right != x && x.left.right != x.left && x.left.right != x.parent
      modifies this`root, x, x.left, x.left.right, x.parent
      ensures var y, p := old(x.left), old(x.parent);
        && unchanged(x`value) && unchanged(x`red) && unchanged(x`right) && x.left == old(x.left.right) && x.parent == y
        && y.value == old(x.left.value) && y.red == old(x.left.red) && y.left == old(x.left.left)
        && y.right == x && y.parent == p
        && root == if p == null then y else old(root)
      ensures var b := old(x.left.right); b != null ==>
        && b.value == old(x.left.right.value) && b.red == old(x.left.right.red)
        && b.right == old(x.left.right.right) && b.left == old(x.left.right.left) && b.parent == x
      ensures var y, p := old(x.left), old(x.parent); p != null ==>
        && p.value == old(x.parent.value) && p.red == old(x.parent.red) && p.parent == old(x.parent.parent)
        && p.right == (if old(x.parent.right) == x then y else old(x.parent.right))
        && p.left == (if old(x.parent.right) == x then old(x.parent.left) else y)
    {
      var y := x.left;
      x.left := y.right;
      if y.right != null {
        y.right.parent := x;
      }
      y.parent := x.parent;
      if x.parent == null {
        root := y;
      } else if x == x.parent.right {
        x.parent.right := y;
      } else {
        x.parent.left := y;
      }
      y.right := x;
      x.parent := y;
    }

    method RotateRight(x: Node)
      requires Tied() && ShapeOk(g, root) && x in g && g[x].left != null
      modifies this`root, this`g, g.Keys
      ensures g.Keys == old(g.Keys) && Tied() && ShapeOk(g, root)
      ensures TurnedRight(old(g), x, g) && root == if x == old(root) then old(g)[x].left else old(root)
    {
      hide ShapeOk, NodeOk;
      ghost var g0, root0 := g, root;
      assert TiedAt(x);
      LeftIn(g, root, x);
      AroundRight(g, root, x);
      ghost var y := x.left;
      assert TiedAt(y);
      ghost var b, p := y.right, x.parent;
      assert b != null ==> TiedAt(b);
      assert p != null ==> TiedAt(p);
      LinkRight(x);
      g := TurnRight(g0, root0, x);
      assert g.Keys == g0.Keys;
      forall n | n in g
        ensures TiedAt(n)
      {
        assert old(TiedAt(n));
      }
      TurnedRightKeeps(g0, root0, x, g);
    }

    // ---- repair after an insertion ------------------------------------------------------------------

    /** Gives a node a colour, and the proofs its new count. */
    method Paint(n: Node, red: bool, ghost blacks: int)
      requires Tied() && n in g
      modifies this`g, n`red
      ensures Tied() && g.Keys == old(g.Keys) && SameLinks(old(g), g)
      ensures g == old(g)[n := old(g)[n].(red := red, blacks := blacks)]
    {
      n.red := red;
      g := g[n := g[n].(red := red, blacks := blacks)];
      forall m | m in g
        ensures TiedAt(m)
      {
        assert old(TiedAt(m));
      }
    }

    /** The parent and the uncle turn black, the grandparent red. */
    method Recolor(parent: Node, uncle: Node, grand: Node)
      requires Tied() && parent in g && uncle in g && grand in g
      requires parent != uncle && parent != grand && uncle != grand
      modifies this`g, parent`red, uncle`red, grand`red
      ensures Tied() && SameLinks(old(g), g) && g.Keys == old(g.Keys)
      ensures g == old(g)[parent := old(g)[parent].(red := false, blacks := old(g)[parent].blacks + 1)]
                         [uncle := old(g)[uncle].(red := false, blacks := old(g)[uncle].blacks + 1)]
                         [grand := old(g)[grand].(red := true)]
    {
      hide Tied, TiedAt, SameLinks;
      ghost var g0 := g;
      Paint(parent, false, g[parent].blacks + 1);
      ghost var g1 := g;
      Paint(uncle, false, g[uncle].blacks + 1);
      ghost var g2 := g;
      Paint(grand, true, g[grand].blacks);
      SameLinksAgain(g0, g1, g2);
      SameLinksAgain(g0, g2, g);
    }

    /** The parent turns black, the grandparent red. */
    method SwapColors(parent: Node, grand: Node)
      requires Tied() && parent in g && grand in g && parent != grand
      modifies this`g, parent`red, grand`red
      ensures Tied() && SameLinks(old(g), g) && g.Keys == old(g.Keys)
      ensures g == old(g)[parent := old(g)[parent].(red := false, blacks := old(g)[parent].blacks + 1)]
                         [grand := old(g)[grand].(red := true, blacks := old(g)[grand].blacks - 1)]
    {
      hide Tied, TiedAt, SameLinks;
      ghost var g0 := g;
      Paint(parent, false, g[parent].blacks + 1);
      ghost var g1 := g;
      Paint(grand, true, g[grand].blacks - 1);
      SameLinksAgain(g0, g1, g);
    }

    /** One round where the parent is a left child: either the trouble moves up two levels, or one or
        two rotations end it. */
    method RepairLeft(z: Node, parent: Node, grand: Node, ghost bal: bool) returns (node: Node)
      requires Tied() && ShapeOk(g, root) && z in g && z != root && parent in g && grand in g
      requires g[z].parent == parent && g[parent].red && g[parent].parent == grand && g[grand].left == parent
      requires bal ==> Almost(g, root, z)
      modifies this`root, this`g, g.Keys
      ensures Tied() && ShapeOk(g, root) && g.Keys == old(g.Keys) && SameEntries(old(g), g)
      ensures node in g && (bal ==> Almost(g, root, node))
      ensures (g[node].parent != null && !IsRed(g, g[node].parent)) || Wider(old(g)[z], g[node])
    {
      hide ShapeOk, NodeOk, Almost, Balanced, TurnedLeft, TurnedRight;
      ghost var g0, root0 := g, root;
      RepairPlace(g, root, z, parent, grand);
      assert TiedAt(z) && TiedAt(parent) && TiedAt(grand);
      var uncle := grand.right;
      assert uncle != null ==> TiedAt(uncle);
      if uncle != null && uncle.red {
        Recolor(parent, uncle, grand);
        SameLinksKeeps(g0, root, g);
        if bal {
          RecolorLeft(g0, root, z, parent, grand, uncle, g);
        }
        return grand;
      }
      node := z;
      var upper := parent;
      if z == parent.right {
        node := parent;
        RotateLeft(node);
        InnerPlaceLeft(g0, root0, z, parent, grand, g);
        if bal {
          InnerTurnLeft(g0, root0, z, parent, grand, g);
        }
        assert TiedAt(node);
        upper := node.parent;
      }
      node := FinishLeft(node, upper, grand, bal);
    }

    /** The last rotation. */
    method FinishLeft(z: Node, parent: Node, grand: Node, ghost bal: bool) returns (node: Node)
      requires Tied() && ShapeOk(g, root) && z in g && z != root && parent in g && grand in g
      requires g[z].parent == parent && g[parent].left == z && g[parent].parent == grand && g[grand].left == parent
      requires bal ==> TroubleLeft(g, root, z, parent, grand) && !IsRed(g, g[grand].right)
      modifies this`root, this`g, g.Keys
      ensures Tied() && ShapeOk(g, root) && g.Keys == old(g.Keys) && SameEntries(old(g), g)
      ensures node == z && (bal ==> Almost(g, root, node))
      ensures g[node].parent != null && !IsRed(g, g[node].parent)
    {
      hide ShapeOk, NodeOk, Almost, Balanced, TroubleLeft, Tied, TiedAt, TurnedLeft, TurnedRight, SameEntries;
      ghost var g0, root0 := g, root;
      RepairPlace(g, root, z, parent, grand);
      SwapColors(parent, grand);
      ghost var g1 := g;
      SameLinksKeeps(g0, root, g1);
      RotateRight(grand);
      AroundRight(g1, root0, grand);
      FinishedLeft(g0, root0, z, parent, grand, g1, g, root, bal);
      node := z;
    }

    /** One round where the parent is a right child: either the trouble moves up two levels, or one or
        two rotations end it. */
    method RepairRight(z: Node, parent: Node, grand: Node, ghost bal: bool) returns (node: Node)
      requires Tied() && ShapeOk(g, root) && z in g && z != root && parent in g && grand in g
      requires g[z].parent == parent && g[parent].red && g[parent].parent == grand && g[grand].right == parent
      requires bal ==> Almost(g, root, z)
      modifies this`root, this`g, g.Keys
      ensures Tied() && ShapeOk(g, root) && g.Keys == old(g.Keys) && SameEntries(old(g), g)
      ensures node in g && (bal ==> Almost(g, root, node))
      ensures (g[node].parent != null && !IsRed(g, g[node].parent)) || Wider(old(g)[z], g[node])
    {
      hide ShapeOk, NodeOk, Almost, Balanced, TurnedLeft, TurnedRight;
      ghost var g0, root0 := g, root;
      RepairPlace(g, root, z, parent, grand);
      assert TiedAt(z) && TiedAt(parent) && TiedAt(grand);
      var uncle := grand.left;
      assert uncle != null ==> TiedAt(uncle);
      if uncle != null && uncle.red {
        Recolor(parent, uncle, grand);
        SameLinksKeeps(g0, root, g);
        if bal {
          RecolorRight(g0, root, z, parent, grand, uncle, g);
        }
        return grand;
      }
      node := z;
      var upper := parent;
      if z == parent.left {
        node := parent;
        RotateRight(node);
        InnerPlaceRight(g0, root0, z, parent, grand, g);
        if bal {
          InnerTurnRight(g0, root0, z, parent, grand, g);
        }
        assert TiedAt(node);
        upper := node.parent;
      }
      node := FinishRight(node, upper, grand, bal);
    }

    /** The last rotation. */
    method FinishRight(z: Node, parent: Node, grand: Node, ghost bal: bool) returns (node: Node)
      requires Tied() && ShapeOk(g, root) && z in g && z != root && parent in g && grand in g
      requires g[z].parent == parent && g[parent].right == z && g[parent].parent == grand && g[grand].right == parent
      requires bal ==> TroubleRight(g, root, z, parent, grand) && !IsRed(g, g[grand].left)
      modifies this`root, this`g, g.Keys
      ensures Tied() && ShapeOk(g, root) && g.Keys == old(g.Keys) && SameEntries(old(g), g)
      ensures node == z && (bal ==> Almost(g, root, node))
      ensures g[node].parent != null && !IsRed(g, g[node].parent)
    {
      hide ShapeOk, NodeOk, Almost, Balanced, TroubleRight, Tied, TiedAt, TurnedLeft, TurnedRight, SameEntries;
      ghost var g0, root0 := g, root;
      RepairPlace(g, root, z, parent, grand);
      SwapColors(parent, grand);
      ghost var g1 := g;
      SameLinksKeeps(g0, root, g1);
      RotateLeft(grand);
      AroundLeft(g1, root0, grand);
      FinishedRight(g0, root0, z, parent, grand, g1, g, root, bal);
      node := z;
    }

    /** One round of the repair; without a grandparent it is stuck. */
    method RepairRound(node: Node, ghost bal: bool) returns (next: Node, stuck: bool)
      requires Tied() && ShapeOk(g, root) && node in g && node != root && IsRed(g, g[node].parent)
      requires bal ==> Almost(g, root, node)
      modifies this`root, this`g, g.Keys
      ensures Tied() && ShapeOk(g, root) && g.Keys == old(g.Keys) && SameEntries(old(g), g)
      ensures next in g && (bal ==> Almost(g, root, next) && !stuck)
      ensures !stuck ==> (g[next].parent != null && !IsRed(g, g[next].parent)) || Wider(old(g)[node], g[next])
    {
      hide ShapeOk, NodeOk, Almost, Balanced;
      StartPlace(g, root, node);
      assert TiedAt(node);
      var parent := node.parent;
      StartPlace(g, root, parent);
      assert TiedAt(parent);
      var grand := parent.parent;
      if grand == null {
        if bal {
          Grandparent(g, root, node);
        }
        return node, true;
      }
      stuck := false;
      assert TiedAt(grand);
      if parent == grand.left {
        next := RepairLeft(node, parent, grand, bal);
      } else {
        next := RepairRight(node, parent, grand, bal);
      }
    }

    method BlackenRoot(node: Node, ghost bal: bool)
      requires Tied() && ShapeOk(g, root) && node in g
      requires bal ==> Almost(g, root, node) && (node == root || !IsRed(g, g[node].parent))
      modifies this`g, g.Keys
      ensures Tied() && ShapeOk(g, root) && g.Keys == old(g.Keys) && SameEntries(old(g), g)
      ensures bal ==> Balanced(g, root)
    {
      hide ShapeOk, NodeOk, Almost, Balanced, Tied, TiedAt;
      ghost var g0 := g;
      StartPlace(g, root, node);
      Paint(root, false, g[root].blacks + if g[root].red then 1 else 0);
      SameLinksKeeps(g0, root, g);
      if bal {
        BlackRoot(g0, root, node, g);
      }
    }

    method FixInsert(start: Node, ghost bal: bool)
      requires Tied() && ShapeOk(g, root) && start in g
      requires bal ==> Almost(g, root, start)
      modifies this`root, this`g, g.Keys
      ensures Tied() && ShapeOk(g, root) && g.Keys == old(g.Keys) && SameEntries(old(g), g)
      ensures bal ==> Balanced(g, root)
    {
      hide ShapeOk, NodeOk, Almost, Balanced;
      var node := start;
      AtNode(node);
      while node != root && node.parent.red
        invariant Tied() && ShapeOk(g, root) && g.Keys == old(g.Keys) && SameEntries(old(g), g)
        invariant node in g && (bal ==> Almost(g, root, node))
        invariant node != root ==> node.parent != null && node.parent in g && node.parent == g[node].parent
        invariant node != root ==> node.parent.red == IsRed(g, g[node].parent)
        decreases if node != root && node.parent.red then 1 else 0, Room(g[node])
      {
        ghost var g0 := g;
        var next, stuck := RepairRound(node, bal);
        SameEntriesAgain(old(g), g0, g);
        node := next;
        AtNode(node);
        if stuck {
          break;
        }
      }
      ghost var g1 := g;
      BlackenRoot(node, bal);
      SameEntriesAgain(old(g), g1, g);
    }

    /** What a node of the tree really holds. */
    lemma AtNode(n: Node)
      requires Tied() && ShapeOk(g, root) && n in g
      ensures n.parent == g[n].parent && (n != root <==> n.parent != null)
      ensures n.parent != null ==> n.parent in g && n.parent.red == IsRed(g, n.parent)
    {
      StartPlace(g, root, n);
      assert TiedAt(n);
      if n.parent != null {
        assert TiedAt(n.parent);
      }
    }

    // ---- searching ----------------------------------------------------------------------------------

    /** Goes down from the root to the node with the key, or to the empty place where it belongs. */
    method Descend(key: Key) returns (found: Node?, last: Node?)
      requires Tied() && ShapeOk(g, root)
      ensures found != null ==> found in g && g[found].key == key
      ensures found == null ==> key !in Contents(g)
      ensures found == null ==> if last == null then root == null else
        last in g && g[last].lo < key < g[last].hi && key != g[last].key &&
        (if key < g[last].key then g[last].left == null else g[last].right == null)
    {
      hide ShapeOk, NodeOk, Contents;
      last := null;
      var cur := root;
      AtRoot();
      while cur != null
        invariant cur != null ==> cur in g && g[cur].lo < key < g[cur].hi
        invariant last == null ==> cur == root
        invariant last != null ==>
          last in g && g[last].lo < key < g[last].hi && key != g[last].key &&
          cur == if key < g[last].key then g[last].left else g[last].right
        decreases if cur == null then 0 else Span(g[cur])
      {
        Below(g, root, cur);
        assert TiedAt(cur);
        last := cur;
        if key < cur.key {
          cur := cur.left;
        } else if cur.key < key {
          cur := cur.right;
        } else {
          return cur, last;
        }
      }
      found := null;
      NotThere(g, root, last, key);
    }

    /** The root may hold every key. */
    lemma AtRoot()
      requires ShapeOk(g, root)
      ensures root != null ==> root in g && g[root].lo == LOWEST && g[root].hi == HIGHEST
      ensures root == null ==> g == map[]
    {
      if root != null {
        RootIn(g, root, root);
      }
    }

    /** The value of a key, if it is in the tree. */
    method Find(key: Key) returns (r: Option<Value>)
      requires Valid()
      ensures r == if key in Contents(g) then Some(Contents(g)[key]) else None
    {
      var node, _ := Descend(key);
      if node == null {
        return None;
      }
      ContentsAt(g, root, node);
      assert TiedAt(node);
      return Some(node.value);
    }

    /** The leftmost node from start on. */
    method MinNode(start: Node) returns (n: Node)
      requires Tied() && ShapeOk(g, root) && start in g
      ensures n in g && g[n].left == null && g[n].lo == g[start].lo && g[n].hi <= g[start].hi
      ensures n != start ==> g[n].hi <= g[start].key
    {
      hide ShapeOk, NodeOk;
      n := start;
      StartPlace(g, root, start);
      assert TiedAt(n);
      while n.left != null
        invariant n in g && TiedAt(n) && g[n].lo == g[start].lo && g[n].hi <= g[start].hi
        invariant n != start ==> g[n].hi <= g[start].key
        decreases Span(g[n])
      {
        Below(g, root, n);
        n := n.left;
        assert TiedAt(n);
      }
    }

    method MaxNode(start: Node) returns (n: Node)
      requires Tied() && ShapeOk(g, root) && start in g
      ensures n in g && g[n].right == null && g[n].hi == g[start].hi
    {
      hide ShapeOk, NodeOk;
      n := start;
      StartPlace(g, root, start);
      assert TiedAt(n);
      while n.right != null
        invariant n in g && TiedAt(n) && g[n].hi == g[start].hi
        decreases Span(g[n])
      {
        Below(g, root, n);
        n := n.right;
        assert TiedAt(n);
      }
    }

    /** The value of the smallest key. */
    method FindMin() returns (r: Option<Value>)
      requires Valid()
      ensures r.None? <==> Contents(g) == map[]
      ensures r.Some? ==> exists k ::
        k in Contents(g) && Contents(g)[k] == r.value && forall j :: j in Contents(g) ==> k <= j
    {
      AtRoot();
      if root == null {
        return None;
      }
      var n := MinNode(root);
      ContentsAt(g, root, n);
      SmallestKey(g, root, n);
      assert TiedAt(n);
      return Some(n.value);
    }

    /** The value of the largest key. */
    method FindMax() returns (r: Option<Value>)
      requires Valid()
      ensures r.None? <==> Contents(g) == map[]
      ensures r.Some? ==> exists k ::
        k in Contents(g) && Contents(g)[k] == r.value && forall j :: j in Contents(g) ==> j <= k
    {
      AtRoot();
      if root == null {
        return None;
      }
      var n := MaxNode(root);
      ContentsAt(g, root, n);
      LargestKey(g, root, n);
      assert TiedAt(n);
      return Some(n.value);
    }

    /** Visits the subtree of a node in order. */
    method InOrderFrom(node: Node?, ghost lo: int, ghost hi: int) returns (visited: seq<(Key, Value)>)
      requires Tied() && ShapeOk(g, root)
      requires if node == null then Free(g, lo, hi) else node in g && g[node].lo == lo && g[node].hi == hi
      ensures Lists(g, visited, lo, hi)
      decreases if node == null then 0 else Span(g[node]) + 1
    {
      hide ShapeOk, NodeOk;
      if node == null {
        return [];
      }
      Below(g, root, node);
      assert TiedAt(node);
      var before := InOrderFrom(node.left, lo, node.key);
      var after := InOrderFrom(node.right, node.key, hi);
      visited := before + [(node.key, node.value)] + after;
      ListsAround(g, root, node, before, after);
    }

    /** Visits all entries in ascending order of their keys. */
    method InOrder() returns (visited: seq<(Key, Value)>)
      requires Valid()
      ensures forall i, j :: 0 <= i < j < |visited| ==> visited[i].0 < visited[j].0
      ensures forall k, v :: (k, v) in visited <==> k in Contents(g) && Contents(g)[k] == v
    {
      AtRoot();
      visited := InOrderFrom(root, LOWEST, HIGHEST);
      ListsContents(g, root, visited);
    }

    // ---- inserting ----------------------------------------------------------------------------------

    /** Hangs a new red node on the empty left side of a node. */
    method HangLeft(node: Node, last: Node)
      requires Tied() && ShapeOk(g, root) && node !in g && last in g
      requires node.left == null && node.right == null && node.parent == last && node.red
      requires g[last].lo < node.key < g[last].key && g[last].left == null
      modifies this`g, last`left
      ensures Tied() && ShapeOk(g, root) && g.Keys == old(g.Keys) + {node}
      ensures LeafLeft(old(g), last, node, g) && g[node].key == node.key && g[node].value == node.value
      ensures g[node].red && g[node].blacks == 0
    {
      hide ShapeOk, NodeOk;
      ghost var g0 := g;
      StartPlace(g, root, last);
      assert TiedAt(last);
      last.left := node;
      g := g[last := g[last].(left := node)]
            [node := Cell(node.key, node.value, true, last, null, null, g[last].lo, g[last].key, 0)];
      forall n | n in g
        ensures TiedAt(n)
      {
        assert n != node ==> old(TiedAt(n));
      }
      LeafLeftKeeps(g0, root, last, node, g);
    }

    /** Hangs a new red node on the empty right side of a node. */
    method HangRight(node: Node, last: Node)
      requires Tied() && ShapeOk(g, root) && node !in g && last in g
      requires node.right == null && node.left == null && node.parent == last && node.red
      requires g[last].key < node.key < g[last].hi && g[last].right == null
      modifies this`g, last`right
      ensures Tied() && ShapeOk(g, root) && g.Keys == old(g.Keys) + {node}
      ensures LeafRight(old(g), last, node, g) && g[node].key == node.key && g[node].value == node.value
      ensures g[node].red && g[node].blacks == 0
    {
      hide ShapeOk, NodeOk;
      ghost var g0 := g;
      StartPlace(g, root, last);
      assert TiedAt(last);
      last.right := node;
      g := g[last := g[last].(right := node)]
            [node := Cell(node.key, node.value, true, last, null, null, g[last].key, g[last].hi, 0)];
      forall n | n in g
        ensures TiedAt(n)
      {
        assert n != node ==> old(TiedAt(n));
      }
      LeafRightKeeps(g0, root, last, node, g);
    }

    /** Hangs a new red node on the empty place found for it. */
    method Attach(node: Node, last: Node?)
      requires Tied() && ShapeOk(g, root) && node !in g
      requires node.left == null && node.right == null && node.parent == last && node.red
      requires if last == null then root == null else
        last in g && g[last].lo < node.key < g[last].hi && node.key != g[last].key &&
        (if node.key < g[last].key then g[last].left == null else g[last].right == null)
      modifies this`root, this`g, last
      ensures Tied() && ShapeOk(g, root) && g.Keys == old(g.Keys) + {node}
      ensures g[node].key == node.key && g[node].value == node.value
      ensures forall n :: n in old(g) ==> n in g && g[n].key == old(g)[n].key && g[n].value == old(g)[n].value
      ensures Balanced(old(g), old(root)) ==> Almost(g, root, node)
    {
      hide ShapeOk, NodeOk, Balanced, Almost, Tied;
      ghost var g0, root0 := g, root;
      if last == null {
        AtRoot();
        root := node;
        g := map[node := Cell(node.key, node.value, true, null, null, null, LOWEST, HIGHEST, 0)];
        FirstKeeps(node, g[node]);
        FirstAlmost(node, g[node]);
        OnlyTied(node);
      } else {
        KeyAt(last);
        if node.key < last.key {
          HangLeft(node, last);
          if Balanced(g0, root0) {
            LeafAlmostLeft(g0, root, last, node, g);
          }
        } else {
          HangRight(node, last);
          if Balanced(g0, root0) {
            LeafAlmostRight(g0, root, last, node, g);
          }
        }
      }
    }

    lemma KeyAt(n: Node)
      requires Tied() && n in g
      ensures n.key == g[n].key
    {
      assert TiedAt(n);
    }

    lemma OnlyTied(n: Node)
      requires g.Keys == {n} && TiedAt(n)
      ensures Tied()
    {
      forall m | m in g
        ensures TiedAt(m)
      {
        assert m in g.Keys;
      }
    }

    /** A new node comes in where its key belongs, and the balance is repaired. */
    method InsertNode(node: Node, last: Node?)
      requires Tied() && ShapeOk(g, root) && node !in g && node.key !in Contents(g)
      requires node.left == null && node.right == null && node.parent == last && node.red
      requires if last == null then root == null else
        last in g && g[last].lo < node.key < g[last].hi && node.key != g[last].key &&
        (if node.key < g[last].key then g[last].left == null else g[last].right == null)
      modifies this`root, this`g, g.Keys, node
      ensures Tied() && ShapeOk(g, root) && g.Keys == old(g.Keys) + {node}
      ensures Contents(g) == old(Contents(g))[node.key := old(node.value)]
      ensures Balanced(old(g), old(root)) ==> Balanced(g, root)
    {
      hide ShapeOk, NodeOk, Balanced, Almost, Contents, Tied;
      ghost var g0, root0 := g, root;
      Attach(node, last);
      ghost var g1, root1 := g, root;
      ContentsWith(g0, root0, g1, root1, node);
      FixInsert(node, Balanced(g0, root0));
      SameContents(g1, root1, g, root);
    }

    /** Puts a value under a key; true if the key is new.  Balance is kept. */
    method Insert(key: Key, val: Value) returns (inserted: bool)
      requires Valid()
      modifies this, g.Keys
      ensures Valid() && Contents(g) == old(Contents(g))[key := val]
      ensures inserted <==> key !in old(Contents(g))
      ensures fresh(g.Keys - old(g.Keys))
      ensures old(Balanced(g, root)) ==> Balanced(g, root)
    {
      hide ShapeOk, NodeOk, Balanced, Contents, Tied;
      var found, last := Descend(key);
      if found != null {
        SetValue(found, val);
        return false;
      }
      var node := new Node(key, val, true, last);
      InsertNode(node, last);
      size := size + 1;
      inserted := true;
    }

    method SetValue(n: Node, val: Value)
      requires Valid() && n in g
      modifies this`g, n`value
      ensures Valid() && g.Keys == old(g.Keys)
      ensures Contents(g) == old(Contents(g))[old(g)[n].key := val] && old(g)[n].key in old(Contents(g))
      ensures old(Balanced(g, root)) ==> Balanced(g, root)
    {
      hide ShapeOk, NodeOk, Contents;
      ghost var g0 := g;
      n.value := val;
      g := g[n := g[n].(value := val)];
      forall m | m in g
        ensures TiedAt(m)
      {
        assert old(TiedAt(m));
      }
      SameLinksKeeps(g0, root, g);
      ContentsAt(g0, root, n);
      ContentsWith(g0, root, g, root, n);
      ValueKeepsBalance(g0, root, g);
    }

    // ---- the steps after an erasure -----------------------------------------------------------------

    /** A node gets a colour, and the proofs its new count; nothing else changes. */
    method Recolored(n: Node, red: bool, ghost blacks: int)
      requires Tied() && ShapeOk(g, root) && n in g
      modifies this`g, n`red
      ensures Tied() && ShapeOk(g, root) && g.Keys == old(g.Keys) && SameEntries(old(g), g)
      ensures g == old(g)[n := old(g)[n].(red := red, blacks := blacks)] && SameLinks(old(g), g)
    {
      hide ShapeOk, NodeOk, Tied, TiedAt;
      ghost var g0 := g;
      Paint(n, red, blacks);
      SameLinksKeeps(g0, root, g);
    }

    /** Only the proofs give a node a new count. */
    ghost method Recounted(n: Node, blacks: int)
      requires Tied() && ShapeOk(g, root) && n in g
      modifies this`g
      ensures Tied() && ShapeOk(g, root) && g.Keys == old(g.Keys) && SameEntries(old(g), g)
      ensures g == old(g)[n := old(g)[n].(blacks := blacks)]
    {
      hide ShapeOk, NodeOk;
      ghost var g0 := g;
      g := g[n := g[n].(blacks := blacks)];
      forall m | m in g
        ensures TiedAt(m)
      {
        assert old(TiedAt(m));
      }
      SameLinksKeeps(g0, root, g);
    }

    /** Turns a node away from its child x, towards it. */
    method RotateTowards(parent: Node, leftChild: bool, ghost x: Node)
      requires Tied() && ShapeOk(g, root) && parent in g && x in g && g[x].parent == parent
      requires leftChild ==> g[parent].left == x && g[parent].right != null
      requires !leftChild ==> g[parent].right == x && g[parent].left != null
      modifies this`root, this`g, g.Keys
      ensures Tied() && ShapeOk(g, root) && g.Keys == old(g.Keys) && SameEntries(old(g), g)
      ensures g[x] == old(g)[x] && (if leftChild then g[parent].left == x else g[parent].right == x)
      ensures g[parent].red == old(g)[parent].red
      ensures if leftChild then TurnedLeft(old(g), parent, g) else TurnedRight(old(g), parent, g)
      ensures var up := if leftChild then old(g)[parent].right else old(g)[parent].left;
        root == if parent == old(root) then up else old(root)
    {
      hide ShapeOk, NodeOk, Tied, TiedAt;
      ghost var g0, root0 := g, root;
      if leftChild {
        RightIn(g, root, parent);
        AroundLeft(g, root, parent);
        LeftChildStays(g, root, parent, x);
        RotateLeft(parent);
      } else {
        LeftIn(g, root, parent);
        AroundRight(g, root, parent);
        RightChildStays(g, root, parent, x);
        RotateRight(parent);
      }
    }

    /** The child of a node on one side. */
    ghost predicate ChildAt(parent: Node, leftChild: bool, x: Node)
      reads this`g
    {
      x in g && parent in g && g[x].parent == parent && x == (if leftChild then g[parent].left else g[parent].right)
    }

    /** Turns the sibling so that its red child comes to lie on the far side. */
    method Straighten(x: Node, parent: Node, sibling: Node, leftChild: bool, ghost bal: bool) returns (s: Node)
      requires Tied() && ShapeOk(g, root) && ChildAt(parent, leftChild, x) && ChildAt(parent, !leftChild, sibling)
      requires IsRed(g, g[sibling].left) || IsRed(g, g[sibling].right)
      requires bal ==> OnSide(g, root, leftChild, x, parent, sibling) && !g[sibling].red
      modifies this`root, this`g, g.Keys
      ensures Tied() && ShapeOk(g, root) && g.Keys == old(g.Keys) && SameEntries(old(g), g)
      ensures ChildAt(parent, leftChild, x) && ChildAt(parent, !leftChild, s) && g[x] == old(g)[x]
      ensures bal ==> OnSide(g, root, leftChild, x, parent, s) && !g[s].red && IsRed(g, FarOf(g, s, leftChild))
    {
      hide ShapeOk, NodeOk, Tied, TiedAt, SameEntries, LeftOf, RightOf, Short, Trouble;
      s := sibling;
      ChildrenTied(sibling);
      NoChange(g);
      if bal {
        OnSideThere(g, root, leftChild, x, parent, sibling);
      }
      if leftChild {
        if sibling.right != null && !sibling.right.red {
          s := StraightenRight(x, parent, sibling, bal);
        }
      } else if sibling.left != null && !sibling.left.red {
        s := StraightenLeft(x, parent, sibling, bal);
      }
    }

    method StraightenRight(x: Node, parent: Node, sibling: Node, ghost bal: bool) returns (s: Node)
      requires Tied() && ShapeOk(g, root) && ChildAt(parent, true, x) && ChildAt(parent, false, sibling)
      requires g[sibling].left != null && g[sibling].left in g
      requires bal ==> LeftOf(g, root, x, parent, sibling) && !g[sibling].red
      requires bal ==> IsRed(g, g[sibling].left) && !IsRed(g, g[sibling].right)
      modifies this`root, this`g, g.Keys
      ensures Tied() && ShapeOk(g, root) && g.Keys == old(g.Keys) && SameEntries(old(g), g)
      ensures ChildAt(parent, true, x) && ChildAt(parent, false, s) && g[x] == old(g)[x]
      ensures bal ==> LeftOf(g, root, x, parent, s) && !g[s].red && IsRed(g, g[s].right)
    {
      hide ShapeOk, NodeOk, Tied, TiedAt, SameEntries, SameLinks, Short, Trouble, TurnedRight;
      ghost var g0, root0 := g, root;
      ChildrenTied(sibling);
      ErasePlace(g, root, sibling);
      var near := sibling.left;
      Recolored(near, false, g[near].blacks + 1);
      ghost var g1 := g;
      Recolored(sibling, true, g[sibling].blacks - 1);
      ghost var g2, root2 := g, root;
      SameEntriesAgain(g0, g1, g2);
      AroundRight(g2, root2, sibling);
      ErasePlace(g2, root2, x);
      RotateRight(sibling);
      TurnedEntriesRight(g2, sibling, g);
      TurnedRightElsewhere(g2, root2, sibling, x, parent, g);
      SameEntriesAgain(g0, g2, g);
      ChildrenTied(parent);
      s := parent.right;
      if bal {
        NearChildLeft(g0, root0, x, parent, sibling, near, g);
      }
    }

    method StraightenLeft(x: Node, parent: Node, sibling: Node, ghost bal: bool) returns (s: Node)
      requires Tied() && ShapeOk(g, root) && ChildAt(parent, false, x) && ChildAt(parent, true, sibling)
      requires g[sibling].right != null && g[sibling].right in g
      requires bal ==> RightOf(g, root, x, parent, sibling) && !g[sibling].red
      requires bal ==> IsRed(g, g[sibling].right) && !IsRed(g, g[sibling].left)
      modifies this`root, this`g, g.Keys
      ensures Tied() && ShapeOk(g, root) && g.Keys == old(g.Keys) && SameEntries(old(g), g)
      ensures ChildAt(parent, false, x) && ChildAt(parent, true, s) && g[x] == old(g)[x]
      ensures bal ==> RightOf(g, root, x, parent, s) && !g[s].red && IsRed(g, g[s].left)
    {
      hide ShapeOk, NodeOk, Tied, TiedAt, SameEntries, SameLinks, Short, Trouble, TurnedLeft;
      ghost var g0, root0 := g, root;
      ChildrenTied(sibling);
      ErasePlace(g, root, sibling);
      var near := sibling.right;
      Recolored(near, false, g[near].blacks + 1);
      ghost var g1 := g;
      Recolored(sibling, true, g[sibling].blacks - 1);
      ghost var g2, root2 := g, root;
      SameEntriesAgain(g0, g1, g2);
      AroundLeft(g2, root2, sibling);
      ErasePlace(g2, root2, x);
      RotateLeft(sibling);
      TurnedEntriesLeft(g2, sibling, g);
      TurnedLeftElsewhere(g2, root2, sibling, x, parent, g);
      SameEntriesAgain(g0, g2, g);
      ChildrenTied(parent);
      s := parent.left;
      if bal {
        NearChildRight(g0, root0, x, parent, sibling, near, g);
      }
    }

    lemma ChildrenTied(n: Node)
      requires Tied() && ShapeOk(g, root) && n in g
      ensures n.left == g[n].left && n.right == g[n].right && n.red == g[n].red
      ensures n.left != null ==> n.left in g && g[n.left].parent == n && n.left.red == IsRed(g, n.left)
      ensures n.right != null ==> n.right in g && g[n.right].parent == n && n.right.red == IsRed(g, n.right)
    {
      assert TiedAt(n);
      ErasePlace(g, root, n);
      if n.left != null {
        assert TiedAt(n.left);
      }
      if n.right != null {
        assert TiedAt(n.right);
      }
    }

    /** The sibling is black or was turned up: it takes a colour, or the parent is turned once. */
    method DeleteTurn(x: Node, parent: Node, sibling: Node, leftChild: bool, ghost bal: bool)
      returns (next: Node, done: bool)
      requires Tied() && ShapeOk(g, root) && ChildAt(parent, leftChild, x) && ChildAt(parent, !leftChild, sibling)
      requires bal ==> OnSide(g, root, leftChild, x, parent, sibling) && !g[sibling].red
      modifies this`root, this`g, g.Keys
      ensures Tied() && ShapeOk(g, root) && g.Keys == old(g.Keys) && SameEntries(old(g), g)
      ensures next in g && (done || Wider(old(g)[x], g[next]))
      ensures bal ==> if done then Balanced(g, root) else Short(g, root, next)
    {
      hide ShapeOk, NodeOk, Tied, TiedAt, SameEntries, SameLinks, OnSide, Short, Balanced;
      ghost var g0 := g;
      ChildrenTied(sibling);
      var leftBlack := sibling.left == null || !sibling.left.red;
      var rightBlack := sibling.right == null || !sibling.right.red;
      if leftBlack && rightBlack {
        Recolored(sibling, true, g[sibling].blacks - 1);
        ghost var g1 := g;
        Recounted(parent, g[parent].blacks - 1);
        SameEntriesAgain(g0, g1, g);
        ParentWider(g, root, x);
        if bal {
          OnSideThere(g0, root, leftChild, x, parent, sibling);
          ShortageUp(g0, root, x, parent, sibling, g);
        }
        return parent, false;
      }
      var s := Straighten(x, parent, sibling, leftChild, bal);
      ghost var g1 := g;
      LastTurn(x, parent, s, leftChild, bal);
      SameEntriesAgain(g0, g1, g);
      next, done := x, true;
    }

    /** Colour and children of a node, as they really are. */
    lemma AtColor(n: Node)
      requires Tied() && n in g
      ensures n.red == g[n].red && n.left == g[n].left && n.right == g[n].right
    {
      assert TiedAt(n);
    }

    lemma LastPlace(parent: Node, sibling: Node, leftChild: bool)
      requires ShapeOk(g, root) && parent in g && ChildAt(parent, !leftChild, sibling)
      ensures sibling in g && sibling != parent
      ensures var far := FarOf(g, sibling, leftChild); far != null ==> far in g && far != sibling
    {
      ErasePlace(g, root, sibling);
      ErasePlace(g, root, parent);
    }

    /** The sibling takes the parent's colour, and the parent and the sibling's far child turn black. */
    method LastPaint(parent: Node, sibling: Node, leftChild: bool)
      requires Tied() && ShapeOk(g, root) && parent in g && ChildAt(parent, !leftChild, sibling)
      modifies this`g, g.Keys
      ensures Tied() && ShapeOk(g, root) && g.Keys == old(g.Keys) && SameEntries(old(g), g)
      ensures SameLinks(old(g), g)
      ensures var far := FarOf(old(g), sibling, leftChild); far != null && far in old(g) && far != parent ==>
        g == LastColors(old(g), parent, sibling, far)
    {
      hide ShapeOk, NodeOk, Tied, TiedAt, SameEntries, SameLinks, ChildAt;
      ghost var g0 := g;
      LastPlace(parent, sibling, leftChild);
      AtColor(parent);
      Recolored(sibling, parent.red, g[parent].blacks);
      ghost var g1 := g;
      Recolored(parent, false, g0[sibling].blacks);
      ghost var g2 := g;
      SameEntriesAgain(g0, g1, g2);
      SameLinksAgain(g0, g1, g2);
      AtColor(sibling);
      var far := if leftChild then sibling.right else sibling.left;
      if far != null {
        Recolored(far, false, g[far].blacks + 1);
        SameEntriesAgain(g0, g2, g);
        SameLinksAgain(g0, g2, g);
      }
    }

    /** The sibling takes the parent's colour, its far child turns black, and the parent is turned. */
    method LastTurn(x: Node, parent: Node, sibling: Node, leftChild: bool, ghost bal: bool)
      requires Tied() && ShapeOk(g, root) && ChildAt(parent, leftChild, x) && ChildAt(parent, !leftChild, sibling)
      requires bal ==> OnSide(g, root, leftChild, x, parent, sibling) && !g[sibling].red
      requires bal ==> IsRed(g, FarOf(g, sibling, leftChild))
      modifies this`root, this`g, g.Keys
      ensures Tied() && ShapeOk(g, root) && g.Keys == old(g.Keys) && SameEntries(old(g), g)
      ensures bal ==> Balanced(g, root)
    {
      hide ShapeOk, NodeOk, Tied, TiedAt, SameEntries, OnSide, Balanced, TurnedLeft, TurnedRight, LastColors;
      ghost var g0, root0, far := g, root, FarOf(g, sibling, leftChild);
      ErasePlace(g, root, sibling);
      ErasePlace(g, root, x);
      if bal {
        OnSideThere(g, root, leftChild, x, parent, sibling);
      }
      LastPaint(parent, sibling, leftChild);
      ghost var g3 := g;
      RotateTowards(parent, leftChild, x);
      SameEntriesAgain(g0, g3, g);
      if bal {
        LastTurned(g0, root0, leftChild, x, parent, sibling, far, g, root);
      }
    }

    /** A red sibling turns black, the parent red, and the parent is turned, so that x gets another sibling. */
    method TurnSibling(x: Node, parent: Node, sibling: Node, leftChild: bool, ghost bal: bool)
      requires Tied() && ShapeOk(g, root) && ChildAt(parent, leftChild, x) && ChildAt(parent, !leftChild, sibling)
      requires bal ==> OnSide(g, root, leftChild, x, parent, sibling) && g[sibling].red
      modifies this`root, this`g, g.Keys
      ensures Tied() && ShapeOk(g, root) && g.Keys == old(g.Keys) && SameEntries(old(g), g)
      ensures ChildAt(parent, leftChild, x) && g[x] == old(g)[x] && g[parent].red
      ensures bal ==>
        var s := if leftChild then g[parent].right else g[parent].left;
        s != null && s in g && OnSide(g, root, leftChild, x, parent, s) && !g[s].red
    {
      hide ShapeOk, NodeOk, Tied, TiedAt, SameEntries, SameLinks, OnSide, Short, TurnedLeft, TurnedRight;
      ghost var g0, root0 := g, root;
      ErasePlace(g, root, sibling);
      ErasePlace(g, root, x);
      ErasePlace(g, root, parent);
      Recolored(sibling, false, g[sibling].blacks + 1);
      ghost var g1 := g;
      Recolored(parent, true, g[parent].blacks - 1);
      ghost var g2 := g;
      SameEntriesAgain(g0, g1, g2);
      RotateTowards(parent, leftChild, x);
      SameEntriesAgain(g0, g2, g);
      if bal {
        SiblingTurned(g0, root0, leftChild, x, parent, sibling, g, root);
      }
    }

    /** One round after an erasure, at a black node x that is not the root. */
    method DeleteRound(x: Node, parent: Node, ghost bal: bool) returns (next: Node, done: bool)
      requires Tied() && ShapeOk(g, root) && x in g && g[x].parent == parent
      requires bal ==> Short(g, root, x) && !g[x].red
      modifies this`root, this`g, g.Keys
      ensures Tied() && ShapeOk(g, root) && g.Keys == old(g.Keys) && SameEntries(old(g), g)
      ensures next in g
      ensures done || Wider(old(g)[x], g[next]) ||
        (next == x && g[x] == old(g)[x] && RedSibling(old(g), x) && !RedSibling(g, x))
      ensures bal ==> if done then Balanced(g, root) else Short(g, root, next)
    {
      hide ShapeOk, NodeOk, Tied, TiedAt, SameEntries, OnSide, Short, Balanced;
      ghost var g0 := g;
      NoChange(g);
      ErasePlace(g, root, x);
      ChildrenTied(parent);
      ErasePlace(g, root, parent);
      var leftChild := x == parent.left;
      var sibling := if leftChild then parent.right else parent.left;
      if bal {
        ShortHasSibling(g, root, x, parent, leftChild, sibling);
      }
      if sibling == null {
        ParentWider(g, root, x);
        return parent, false;
      }
      if sibling.red {
        TurnSibling(x, parent, sibling, leftChild, bal);
        ChildrenTied(parent);
        ErasePlace(g, root, parent);
        sibling := if leftChild then parent.right else parent.left;
        if sibling == null {
          return x, false;
        }
      }
      ghost var g4 := g;
      next, done := DeleteTurn(x, parent, sibling, leftChild, bal);
      SameEntriesAgain(g0, g4, g);
    }

    /** The repair after an erasure.  Where the tree is balanced but for a subtree that is one black node short,
        it ends with a balanced tree, or with one in which a single red node would have to be black; the code
        never blackens it.  If it starts at a red node or at none, it does nothing. */
    method FixDelete(start: Node?)
      requires Tied() && ShapeOk(g, root) && (start != null ==> start in g)
      modifies this`root, this`g, g.Keys
      ensures Tied() && ShapeOk(g, root) && g.Keys == old(g.Keys) && SameEntries(old(g), g)
      ensures start == null || old(g)[start].red ==> g == old(g) && root == old(root)
      ensures start != null && old(Short(g, root, start)) ==> NearlyBalanced(g, root)
    {
      hide ShapeOk, NodeOk, Short, Balanced;
      ghost var bal, ended := start != null && Short(g, root, start), false;
      var x := start;
      if x != null {
        ChildrenTied(x);
      }
      while x != root && (x == null || !x.red)
        invariant Tied() && ShapeOk(g, root) && g.Keys == old(g.Keys) && SameEntries(old(g), g)
        invariant x != null ==> x in g && x.red == g[x].red
        invariant start == null || old(g)[start].red ==> x == start && g == old(g) && root == old(root)
        invariant start != null && old(g)[start].red ==> x.red
        invariant bal ==> x != null && Short(g, root, x)
        decreases if x == null then 0 else Room(g[x]), if RedSibling(g, x) then 1 else 0
      {
        if x != null {
          AtNode(x);
        }
        var parent := if x != null then x.parent else null;
        if parent == null {
          break;
        }
        ghost var g0 := g;
        var next, done := DeleteRound(x, parent, bal);
        SameEntriesAgain(old(g), g0, g);
        x := next;
        ChildrenTied(x);
        if done {
          ended := true;
          break;
        }
      }
      if bal && !ended {
        RepairEnds(g, root, x);
      }
    }

    // ---- erasing ------------------------------------------------------------------------------------

    /** v comes into the place of u. */
    method Transplant(u: Node, v: Node?)
      requires u.parent != u && v != u && (v != null ==> v != u.parent)
      requires u.parent != null ==> u == u.parent.left || u == u.parent.right
      modifies this`root, u.parent, v
      ensures root == if old(u.parent) == null then v else old(root)
      ensures v != null ==> v.parent == old(u.parent) && v.value == old(v.value) && v.red == old(v.red)
      ensures v != null ==> v.left == old(v.left) && v.right == old(v.right)
      ensures var p := old(u.parent); p != null ==>
        && p.left == (if old(u.parent.left) == u then v else old(u.parent.left))
        && p.right == (if old(u.parent.left) == u then old(u.parent.right) else v)
        && p.value == old(u.parent.value) && p.red == old(u.parent.red) && p.parent == old(u.parent.parent)
    {
      if u.parent == null {
        root := v;
      } else if u == u.parent.left {
        u.parent.left := v;
      } else {
        u.parent.right := v;
      }
      if v != null {
        v.parent := u.parent;
      }
    }

    /** A node without a left child gives way to its right child. */
    method RemoveNoLeft(z: Node)
      requires Tied() && ShapeOk(g, root) && z in g && g[z].left == null
      modifies this`root, this`g, g.Keys
      ensures Tied() && ShapeOk(g, root) && g.Keys == old(g.Keys) - {z} && Entries(old(g), g)
      ensures ErasedNoLeft(old(g), z, g) && root == if z == old(root) then old(g)[z].right else old(root)
    {
      hide ShapeOk, NodeOk;
      ghost var g0, root0 := g, root;
      ErasePlace(g, root, z);
      assert TiedAt(z);
      ghost var p, x := z.parent, z.right;
      assert p != null ==> TiedAt(p);
      Transplant(z, z.right);
      g := MakeNoLeft(g0, z);
      assert g.Keys == old(g.Keys) - {z};
      forall n | n in g
        ensures TiedAt(n)
      {
        assert old(TiedAt(n));
      }
      ErasedNoLeftKeeps(g0, root0, z, g);
      assert root == if z == root0 then g0[z].right else root0;
    }

    /** A node without a right child gives way to its left child. */
    method RemoveNoRight(z: Node)
      requires Tied() && ShapeOk(g, root) && z in g && g[z].right == null
      modifies this`root, this`g, g.Keys
      ensures Tied() && ShapeOk(g, root) && g.Keys == old(g.Keys) - {z} && Entries(old(g), g)
      ensures ErasedNoRight(old(g), z, g) && root == if z == old(root) then old(g)[z].left else old(root)
    {
      hide ShapeOk, NodeOk;
      ghost var g0, root0 := g, root;
      ErasePlace(g, root, z);
      assert TiedAt(z);
      ghost var p, x := z.parent, z.left;
      assert p != null ==> TiedAt(p);
      Transplant(z, z.left);
      g := MakeNoRight(g0, z);
      assert g.Keys == old(g.Keys) - {z};
      forall n | n in g
        ensures TiedAt(n)
      {
        assert old(TiedAt(n));
      }
      ErasedNoRightKeeps(g0, root0, z, g);
      assert root == if z == root0 then g0[z].left else root0;
    }

    ghost predicate Fits(n: Node, c: Cell)
      reads n
    {
      && n.key == c.key && n.value == c.value && n.red == c.red
      && n.parent == c.parent && n.left == c.left && n.right == c.right
    }

    /** The next node leaves its place and takes the right child of z. */
    method LiftNext(z: Node, y: Node)
      requires Tied() && ShapeOk(g, root) && Follows(g, z, y)
      modifies this`root, g.Keys
      ensures root == old(root)
      ensures forall n {:trigger g[n]} :: n in g ==> Fits(n, CellLifted(g, z, y, n))
    {
      hide ShapeOk, NodeOk;
      FollowsPlace(g, root, z, y);
      ErasePlace(g, root, z);
      ErasePlace(g, root, y);
      assert TiedAt(z) && TiedAt(y);
      ghost var q, x, zr := y.parent, y.right, z.right;
      assert TiedAt(q) && TiedAt(zr);
      assert x != null ==> TiedAt(x);
      if y.parent == z {
        if y.right != null {
          y.right.parent := y;
        }
      } else {
        Transplant(y, y.right);
        y.right := z.right;
        if y.right != null {
          y.right.parent := y;
        }
      }
      forall n | n in g
        ensures Fits(n, CellLifted(g, z, y, n))
      {
        assert old(TiedAt(n));
      }
    }

    /** The writes by which y takes the place of z. */
    method LinkNext(z: Node, y: Node)
      requires z.left != null && z.left != z && z.left != y && y != z && z.parent != z && z.parent != y
      requires z.parent != z.left
      requires z.parent != null ==> z == z.parent.left || z == z.parent.right
      modifies this`root, z.parent, y, z.left
      ensures root == if old(z.parent) == null then y else old(root)
      ensures y.parent == old(z.parent) && y.left == old(z.left) && y.red == old(z.red) && unchanged(y`right)
      ensures unchanged(y`value)
      ensures var c := old(z.left); c.parent == y && c.left == old(z.left.left) && c.right == old(z.left.right)
      ensures var c := old(z.left); c.value == old(z.left.value) && c.red == old(z.left.red)
      ensures var p := old(z.parent); p != null ==>
        && p.left == (if old(z.parent.left) == z then y else old(z.parent.left))
        && p.right == (if old(z.parent.left) == z then old(z.parent.right) else y)
        && p.value == old(z.parent.value) && p.red == old(z.parent.red) && p.parent == old(z.parent.parent)
    {
      Transplant(z, y);
      y.left := z.left;
      if y.left != null {
        y.left.parent := y;
      }
      y.red := z.red;
    }

    /** The next node takes the place of z. */
    method PlaceNext(z: Node, y: Node)
      requires ShapeOk(g, root) && Follows(g, z, y) && z in g && y in g && g[z].left != null
      requires forall n {:trigger g[n]} :: n in g ==> Fits(n, CellLifted(g, z, y, n))
      modifies this`root, g.Keys
      ensures root == if z == old(root) then y else old(root)
      ensures forall n {:trigger g[n]} :: n in g && n != z ==> Fits(n, CellBoth(g, z, y, n))
    {
      hide ShapeOk, Follows, CellLifted, CellBoth;
      LiftedPlace(g, root, z, y);
      ghost var p, zl := g[z].parent, g[z].left;
      assert Fits(z, CellLifted(g, z, y, z)) && Fits(y, CellLifted(g, z, y, y)) && Fits(zl, CellLifted(g, z, y, zl));
      assert p != null ==> Fits(p, CellLifted(g, z, y, p));
      LinkNext(z, y);
      forall n | n in g && n != z
        ensures Fits(n, CellBoth(g, z, y, n))
      {
        assert old(Fits(n, CellLifted(g, z, y, n)));
        BothFromLifted(g, old(root), z, y, n);
      }
    }

    /** A node with two children gives way to the node that follows it. */
    method RemoveBoth(z: Node, y: Node)
      requires Tied() && ShapeOk(g, root) && Follows(g, z, y)
      modifies this`root, this`g, g.Keys
      ensures Tied() && ShapeOk(g, root) && g.Keys == old(g.Keys) - {z} && Entries(old(g), g)
      ensures ErasedBoth(old(g), z, y, g) && root == if z == old(root) then y else old(root)
    {
      hide ShapeOk, NodeOk, CellLifted;
      ghost var g0, root0 := g, root;
      LiftNext(z, y);
      PlaceNext(z, y);
      g := MakeBoth(g0, z, y);
      assert g.Keys == old(g.Keys) - {z};
      forall n | n in g
        ensures TiedAt(n)
      {
        assert g0[n] == g0[n];
      }
      ErasedBothKeeps(g0, root0, z, y, g);
    }

    /** Takes a node out; what is left below its place is handed back, and whether a black node went. */
    method Unlink(z: Node) returns (x: Node?, black: bool)
      requires Tied() && ShapeOk(g, root) && z in g
      modifies this`root, this`g, g.Keys
      ensures Tied() && ShapeOk(g, root) && g.Keys == old(g.Keys) - {z} && Entries(old(g), g)
      ensures x != null ==> x in g
      ensures var c := old(g)[z];
        if c.left == null then x == c.right && black == !c.red
        else if c.right == null then x == c.left && black == !c.red
        else exists y :: Follows(old(g), z, y) && x == old(g)[y].right && black == !old(g)[y].red
      ensures SplicedFrom(old(g), old(root), z, x, black, g, root)
    {
      hide ShapeOk, NodeOk, Entries, ErasedNoLeft, ErasedNoRight, ErasedBoth, SplicedFrom;
      ghost var g0, root0 := g, root;
      ErasePlace(g, root, z);
      assert TiedAt(z);
      black := !z.red;
      if z.left == null {
        x := z.right;
        RemoveNoLeft(z);
        SplicedNoLeft(g0, root0, z, g);
      } else if z.right == null {
        x := z.left;
        RemoveNoRight(z);
        SplicedNoRight(g0, root0, z, g);
      } else {
        Below(g, root, z);
        var y := MinNode(z.right);
        ErasePlace(g, root, y);
        assert TiedAt(y);
        black := !y.red;
        x := y.right;
        FollowsPlace(g, root, z, y);
        RemoveBoth(z, y);
        SplicedBoth(g0, root0, z, y, g);
      }
    }

    /** A node goes, and its entry with it. */
    method EraseNode(node: Node)
      requires Tied() && ShapeOk(g, root) && node in g
      modifies this`root, this`g, g.Keys
      ensures Tied() && ShapeOk(g, root) && g.Keys == old(g.Keys) - {node}
      ensures Contents(g) == Drop(old(Contents(g)), old(g)[node].key)
      ensures old(Balanced(g, root)) ==>
        && (CanBalance(g, root) <==> SplicesRed(old(g), node) || g == map[])
        && (SplicesRed(old(g), node) || g == map[] ==> Balanced(g, root))
      ensures old(LoneChild(g, root, node)) ==> NearlyBalanced(g, root)
    {
      hide ShapeOk, NodeOk, Contents, Tied, Drop, Balanced, CanBalance, SplicesRed, LoneChild, Short, NearlyBalanced;
      ghost var g0, root0 := g, root;
      var x, black := Unlink(node);
      ghost var g1, root1 := g, root;
      ContentsWithout(g0, root0, g1, root1, node);
      if black {
        FixDelete(x);
        SameContents(g1, root1, g, root);
      }
      if Balanced(g0, root0) {
        ErasedBalance(g0, root0, node, x, black, g, root);
      }
    }

    /** Erases a key; true if it was there.  A balanced tree stays balanced exactly if the node that goes is
        red or the last one: otherwise no counts of black nodes balance what is left.  A tree that has lost its
        balance at the node that goes now is repaired, but for the colour of one node at most. */
    method Erase(key: Key) returns (erased: bool)
      requires Valid()
      modifies this, g.Keys
      ensures Valid() && Contents(g) == Drop(old(Contents(g)), key)
      ensures erased <==> key in old(Contents(g))
      ensures g.Keys <= old(g.Keys)
      ensures !erased ==> g == old(g) && root == old(root)
      ensures forall node :: node in old(g) && old(g)[node].key == key && old(Balanced(g, root)) ==>
        && (CanBalance(g, root) <==> SplicesRed(old(g), node) || g == map[])
        && (SplicesRed(old(g), node) || g == map[] ==> Balanced(g, root))
      ensures forall node :: node in old(g) && old(g)[node].key == key && old(LoneChild(g, root, node)) ==>
        NearlyBalanced(g, root)
    {
      hide ShapeOk, NodeOk, Contents, Tied, Drop, Balanced, CanBalance, SplicesRed, LoneChild, NearlyBalanced;
      ghost var g0, root0 := g, root;
      var node, _ := Descend(key);
      OnlyHolder(g, root, node, key);
      if node == null {
        DropNone(Contents(g), key);
        return false;
      }
      ContentsAt(g, root, node);
      DropOne(Contents(g), key);
      EraseNode(node);
      size := size - 1;
      erased := true;
    }
  }
}
