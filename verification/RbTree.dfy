/**
 * lib/rbtree.c: rotations and rb_insert_color rewrite the pointers and
 * colours of shared nodes in place; rb_first and rb_next walk them.
 */
module RbTree {
  import opened RbShape

  class Root {
    var node: Node?

    constructor ()
      ensures node == null
    {
      node := null;
    }
  }

  ghost function RecOf(n: Node): Rec
    reads n
  {
    Rec(n.parent, n.left, n.right, n.red)
  }

  /** The pointers and colours in the heap are those of tree t. */
  ghost predicate Spells(root: Root, t: Tree)
    reads root, Nodes(t)
  {
    && Distinct(t) && root.node == Head(t)
    && forall n {:trigger RecOf(n)} | n in Nodes(t) :: n in Fields(t, null) && RecOf(n) == Fields(t, null)[n]
  }

  // ------------------------------------------------------------------
  // What a rotation does to the fields

  lemma {:induction false} Reparent(t: Tree, p: Node?, p': Node?, n: Node)
    requires Distinct(t) && n in Nodes(t)
    ensures n in Fields(t, p) && n in Fields(t, p')
    ensures Fields(t, p')[n] == if n == t.n then Fields(t, p)[n].(parent := p') else Fields(t, p)[n]
    ensures n == t.n ==> Fields(t, p)[n].parent == p
  {
    FieldsKeys(t, p);
    FieldsKeys(t, p');
  }

  lemma {:induction false} Rehang(c: Hole, h: Node?, h': Node?, n: Node)
    requires DistinctHole(c) && n in Around(c)
    ensures n in FieldsAround(c, h) && n in FieldsAround(c, h')
    ensures FieldsAround(c, h')[n] ==
            if n != c.n then FieldsAround(c, h)[n]
            else if c.LeftOf? then FieldsAround(c, h)[n].(left := h') else FieldsAround(c, h)[n].(right := h')
  {
    AroundKeys(c, h);
    AroundKeys(c, h');
  }

  /** The fields of node n after y took the place of x above it and hb moved from y to x. */
  ghost function RotatedLeft(f: Rec, n: Node, x: Node, y: Node, hb: Node?, p: Node?): Rec {
    if n == x then f.(parent := y, right := hb)
    else if n == y then f.(parent := p, left := x)
    else if n == hb then f.(parent := x)
    else if n == p then if f.left == x then f.(left := y) else f.(right := y)
    else f
  }

  ghost function RotatedRight(f: Rec, n: Node, x: Node, y: Node, hb: Node?, p: Node?): Rec {
    if n == x then f.(parent := y, left := hb)
    else if n == y then f.(parent := p, right := x)
    else if n == hb then f.(parent := x)
    else if n == p then if f.left == x then f.(left := y) else f.(right := y)
    else f
  }

  ghost function High(cx: bool, a: Tree, x: Node, cy: bool, b: Tree, y: Node, d: Tree): Tree {
    Tree(cx, a, x, Tree(cy, b, y, d))
  }

  ghost function Low(cx: bool, a: Tree, x: Node, cy: bool, b: Tree, y: Node, d: Tree): Tree {
    Tree(cy, Tree(cx, a, x, b), y, d)
  }

  lemma SameNodes(c: Hole, cx: bool, a: Tree, x: Node, cy: bool, b: Tree, y: Node, d: Tree)
    ensures Nodes(Plug(c, High(cx, a, x, cy, b, y, d))) == Nodes(Plug(c, Low(cx, a, x, cy, b, y, d)))
    ensures Distinct(Plug(c, High(cx, a, x, cy, b, y, d))) <==> Distinct(Plug(c, Low(cx, a, x, cy, b, y, d)))
    ensures InOrder(Plug(c, High(cx, a, x, cy, b, y, d))) == InOrder(Plug(c, Low(cx, a, x, cy, b, y, d)))
  {
    PlugNodes(c, High(cx, a, x, cy, b, y, d));
    PlugNodes(c, Low(cx, a, x, cy, b, y, d));
    PlugInOrder(c, High(cx, a, x, cy, b, y, d));
    PlugInOrder(c, Low(cx, a, x, cy, b, y, d));
    var i, j, k := InOrder(a), InOrder(b), InOrder(d);
    assert i + [x] + (j + [y] + k) == (i + [x] + j) + [y] + k;
  }

  /** The node at the top of a tree is one of its nodes. */
  lemma HeadIn(t: Tree)
    ensures t.Tree? ==> t.n in Nodes(t)
  {
  }

  lemma HighAt(cx: bool, a: Tree, x: Node, cy: bool, b: Tree, y: Node, d: Tree, p: Node?, n: Node)
    requires Distinct(High(cx, a, x, cy, b, y, d)) && n in Nodes(High(cx, a, x, cy, b, y, d))
    ensures var m := Fields(High(cx, a, x, cy, b, y, d), p);
            && n in m && (n == x ==> m[n] == Rec(p, Head(a), y, cx))
            && (n == y ==> m[n] == Rec(x, Head(b), Head(d), cy))
            && (n in Nodes(a) ==> n in Fields(a, x) && m[n] == Fields(a, x)[n])
            && (n in Nodes(b) ==> n in Fields(b, y) && m[n] == Fields(b, y)[n])
            && (n in Nodes(d) ==> n in Fields(d, y) && m[n] == Fields(d, y)[n])
  {
    FieldsAt(High(cx, a, x, cy, b, y, d), p, n);
    if n in Nodes(Tree(cy, b, y, d)) {
      FieldsAt(Tree(cy, b, y, d), x, n);
    }
  }

  lemma LowAt(cx: bool, a: Tree, x: Node, cy: bool, b: Tree, y: Node, d: Tree, p: Node?, n: Node)
    requires Distinct(Low(cx, a, x, cy, b, y, d)) && n in Nodes(Low(cx, a, x, cy, b, y, d))
    ensures var m := Fields(Low(cx, a, x, cy, b, y, d), p);
            && n in m && (n == x ==> m[n] == Rec(y, Head(a), Head(b), cx))
            && (n == y ==> m[n] == Rec(p, x, Head(d), cy))
            && (n in Nodes(a) ==> n in Fields(a, x) && m[n] == Fields(a, x)[n])
            && (n in Nodes(b) ==> n in Fields(b, x) && m[n] == Fields(b, x)[n])
            && (n in Nodes(d) ==> n in Fields(d, y) && m[n] == Fields(d, y)[n])
  {
    FieldsAt(Low(cx, a, x, cy, b, y, d), p, n);
    if n in Nodes(Tree(cx, a, x, b)) {
      FieldsAt(Tree(cx, a, x, b), y, n);
    }
  }

  lemma LowFields(cx: bool, a: Tree, x: Node, cy: bool, b: Tree, y: Node, d: Tree, p: Node?, n: Node)
    requires Distinct(High(cx, a, x, cy, b, y, d)) && n in Nodes(High(cx, a, x, cy, b, y, d))
    requires p !in Nodes(High(cx, a, x, cy, b, y, d)) && Distinct(Low(cx, a, x, cy, b, y, d))
    ensures n in Fields(High(cx, a, x, cy, b, y, d), p) && n in Fields(Low(cx, a, x, cy, b, y, d), p)
    ensures var f, g := Fields(High(cx, a, x, cy, b, y, d), p)[n], Fields(Low(cx, a, x, cy, b, y, d), p)[n];
            g == RotatedLeft(f, n, x, y, Head(b), p) && f == RotatedRight(g, n, y, x, Head(b), p)
  {
    HeadIn(b);
    HighAt(cx, a, x, cy, b, y, d, p, n);
    LowAt(cx, a, x, cy, b, y, d, p, n);
    var f, g := Fields(High(cx, a, x, cy, b, y, d), p)[n], Fields(Low(cx, a, x, cy, b, y, d), p)[n];
    if n in Nodes(b) {
      Reparent(b, y, x, n);
      assert n != x && n != y && g == if n == Head(b) then f.(parent := x) else f;
      assert n == Head(b) ==> f.parent == y;
    } else {
      assert n != Head(b) && (n != x && n != y ==> g == f);
    }
    RotatedRec(f, g, n, x, y, Head(a), Head(b), Head(d), p, cx, cy);
  }

  lemma RotatedRec(f: Rec, g: Rec, n: Node, x: Node, y: Node, ha: Node?, hb: Node?, hd: Node?, p: Node?, cx: bool,
                   cy: bool)
    requires x != y && hb != x && hb != y && n != p
    requires n == x ==> f == Rec(p, ha, y, cx) && g == Rec(y, ha, hb, cx)
    requires n == y ==> f == Rec(x, hb, hd, cy) && g == Rec(p, x, hd, cy)
    requires n != x && n != y ==> g == if n == hb then f.(parent := x) else f
    requires n == hb ==> f.parent == y
    ensures g == RotatedLeft(f, n, x, y, hb, p) && f == RotatedRight(g, n, y, x, hb, p)
  {
  }

  /** The fields of a plugged tree, node by node. */
  lemma PlugFieldsAt(c: Hole, t: Tree, n: Node)
    requires Distinct(Plug(c, t)) && n in Nodes(Plug(c, t))
    ensures n in Fields(Plug(c, t), null)
    ensures n in Nodes(t) ==> n in Fields(t, Above(c)) && Fields(Plug(c, t), null)[n] == Fields(t, Above(c))[n]
    ensures n in Around(c) ==>
              n in FieldsAround(c, Head(t)) && Fields(Plug(c, t), null)[n] == FieldsAround(c, Head(t))[n]
    ensures n in Nodes(t) || n in Around(c)
  {
    PlugNodes(c, t);
    PlugFields(c, t);
    FieldsKeys(t, Above(c));
    AroundKeys(c, Head(t));
  }

  lemma AboveIn(c: Hole)
    ensures !c.Top? ==> c.n in Around(c)
  {
  }

  /** The child pointer of the node above the hole. */
  lemma HoleChild(c: Hole, h: Node)
    requires DistinctHole(c) && !c.Top? && h !in Around(c)
    ensures c.n in FieldsAround(c, h)
    ensures c.LeftOf? ==> FieldsAround(c, h)[c.n].left == h
    ensures c.RightOf? ==> FieldsAround(c, h)[c.n].left != h && FieldsAround(c, h)[c.n].right == h
  {
    AroundKeys(c, h);
    HeadIn(c.sib);
  }

  lemma RotateAround(c: Hole, x: Node, y: Node, hb: Node?, n: Node)
    requires DistinctHole(c) && n in Around(c) && x !in Around(c) && y !in Around(c) && hb !in Around(c)
    ensures n in FieldsAround(c, x) && n in FieldsAround(c, y)
    ensures FieldsAround(c, y)[n] == RotatedLeft(FieldsAround(c, x)[n], n, x, y, hb, Above(c))
    ensures FieldsAround(c, x)[n] == RotatedRight(FieldsAround(c, y)[n], n, y, x, hb, Above(c))
  {
    Rehang(c, x, y, n);
    HoleChild(c, x);
    HoleChild(c, y);
  }

  lemma RotateFields(c: Hole, cx: bool, a: Tree, x: Node, cy: bool, b: Tree, y: Node, d: Tree, n: Node)
    requires var t := Plug(c, High(cx, a, x, cy, b, y, d)); Distinct(t) && n in Nodes(t)
    ensures var t, t' := Plug(c, High(cx, a, x, cy, b, y, d)), Plug(c, Low(cx, a, x, cy, b, y, d));
            && n in Fields(t, null) && n in Fields(t', null)
            && Fields(t', null)[n] == RotatedLeft(Fields(t, null)[n], n, x, y, Head(b), Above(c))
            && Fields(t, null)[n] == RotatedRight(Fields(t', null)[n], n, y, x, Head(b), Above(c))
  {
    var u, v := High(cx, a, x, cy, b, y, d), Low(cx, a, x, cy, b, y, d);
    SameNodes(c, cx, a, x, cy, b, y, d);
    PlugNodes(c, u);
    PlugNodes(c, v);
    PlugFieldsAt(c, u, n);
    PlugFieldsAt(c, v, n);
    RotateApart(c, cx, a, x, cy, b, y, d);
    if n in Nodes(u) {
      LowFields(cx, a, x, cy, b, y, d, Above(c), n);
    } else {
      RotateAround(c, x, y, Head(b), n);
    }
  }

  lemma RotateApart(c: Hole, cx: bool, a: Tree, x: Node, cy: bool, b: Tree, y: Node, d: Tree)
    requires var u := High(cx, a, x, cy, b, y, d); Distinct(u) && Around(c) !! Nodes(u)
    ensures x !in Around(c) && y !in Around(c) && Head(b) !in Around(c)
    ensures Above(c) !in Nodes(High(cx, a, x, cy, b, y, d))
    ensures Nodes(High(cx, a, x, cy, b, y, d)) == Nodes(Low(cx, a, x, cy, b, y, d))
    ensures Distinct(Low(cx, a, x, cy, b, y, d))
  {
    AboveIn(c);
    HeadIn(b);
  }

  // ------------------------------------------------------------------
  // The rotations

  /** rb_rotate_left, field by field. */
  method RotateLeftFields(root: Root, x: Node, ghost all: set<Node>)
    requires x in all && x.right != null && x.right in all && x.right != x
    requires x.right.left != null ==> x.right.left in all && x.right.left !in {x, x.right, x.parent}
    requires x.parent != null ==> x.parent in all && x.parent !in {x, x.right}
    modifies root, all
    ensures root.node == if old(x.parent) == null then old(x.right) else old(root.node)
    ensures forall n | n in all ::
              RecOf(n) == RotatedLeft(old(RecOf(n)), n, x, old(x.right), old(x.right.left), old(x.parent))
  {
    var right := x.right;
    x.right := right.left;
    if right.left != null {
      right.left.parent := x;
    }
    right.parent := x.parent;
    if x.parent == null {
      root.node := right;
    } else if x == x.parent.left {
      x.parent.left := right;
    } else {
      x.parent.right := right;
    }
    right.left := x;
    x.parent := right;
  }

  /** rb_rotate_right, field by field. */
  method RotateRightFields(root: Root, x: Node, ghost all: set<Node>)
    requires x in all && x.left != null && x.left in all && x.left != x
    requires x.left.right != null ==> x.left.right in all && x.left.right !in {x, x.left, x.parent}
    requires x.parent != null ==> x.parent in all && x.parent !in {x, x.left}
    modifies root, all
    ensures root.node == if old(x.parent) == null then old(x.left) else old(root.node)
    ensures forall n | n in all ::
              RecOf(n) == RotatedRight(old(RecOf(n)), n, x, old(x.left), old(x.left.right), old(x.parent))
  {
    var left := x.left;
    x.left := left.right;
    if left.right != null {
      left.right.parent := x;
    }
    left.parent := x.parent;
    if x.parent == null {
      root.node := left;
    } else if x == x.parent.left {
      x.parent.left := left;
    } else {
      x.parent.right := left;
    }
    left.right := x;
    x.parent := left;
  }

  method RotateLeft(root: Root, x: Node, ghost c: Hole, ghost cx: bool, ghost a: Tree, ghost cy: bool, ghost b: Tree,
                    ghost y: Node, ghost d: Tree)
    requires Spells(root, Plug(c, High(cx, a, x, cy, b, y, d)))
    modifies root, Nodes(Plug(c, High(cx, a, x, cy, b, y, d)))
    ensures Spells(root, Plug(c, Low(cx, a, x, cy, b, y, d)))
  {
    ghost var t, t' := Plug(c, High(cx, a, x, cy, b, y, d)), Plug(c, Low(cx, a, x, cy, b, y, d));
    RotateReady(c, cx, a, x, cy, b, y, d);
    assert RecOf(x) == Fields(t, null)[x] && RecOf(y) == Fields(t, null)[y];
    RotateLeftFields(root, x, Nodes(t));
    forall n | n in Nodes(t') ensures n in Fields(t', null) && RecOf(n) == Fields(t', null)[n] {
      RotateFields(c, cx, a, x, cy, b, y, d, n);
    }
  }

  method RotateRight(root: Root, y: Node, ghost c: Hole, ghost cx: bool, ghost a: Tree, ghost x: Node, ghost cy: bool,
                     ghost b: Tree, ghost d: Tree)
    requires Spells(root, Plug(c, Low(cx, a, x, cy, b, y, d)))
    modifies root, Nodes(Plug(c, Low(cx, a, x, cy, b, y, d)))
    ensures Spells(root, Plug(c, High(cx, a, x, cy, b, y, d)))
  {
    ghost var t, t' := Plug(c, High(cx, a, x, cy, b, y, d)), Plug(c, Low(cx, a, x, cy, b, y, d));
    SameNodes(c, cx, a, x, cy, b, y, d);
    RotateReady(c, cx, a, x, cy, b, y, d);
    assert RecOf(x) == Fields(t', null)[x] && RecOf(y) == Fields(t', null)[y];
    RotateRightFields(root, y, Nodes(t'));
    forall n | n in Nodes(t) ensures n in Fields(t, null) && RecOf(n) == Fields(t, null)[n] {
      RotateFields(c, cx, a, x, cy, b, y, d, n);
    }
  }

  /** The facts a rotation starts from: which nodes are meant and that they are different. */
  lemma RotateReady(c: Hole, cx: bool, a: Tree, x: Node, cy: bool, b: Tree, y: Node, d: Tree)
    requires Distinct(Plug(c, High(cx, a, x, cy, b, y, d)))
    ensures var t, t' := Plug(c, High(cx, a, x, cy, b, y, d)), Plug(c, Low(cx, a, x, cy, b, y, d));
            && Distinct(t') && Nodes(t') == Nodes(t) && x in Nodes(t) && y in Nodes(t) && x != y
            && x in Fields(t, null) && y in Fields(t, null) && x in Fields(t', null) && y in Fields(t', null)
            && Fields(t, null)[x] == Rec(Above(c), Head(a), y, cx) && Fields(t, null)[y] == Rec(x, Head(b), Head(d), cy)
            && Fields(t', null)[y] == Rec(Above(c), x, Head(d), cy)
            && Fields(t', null)[x] == Rec(y, Head(a), Head(b), cx)
            && (b.Tree? ==> b.n in Nodes(t) && b.n != x && b.n != y && b.n != Above(c))
            && (!c.Top? ==> c.n in Nodes(t) && c.n != x && c.n != y)
            && (c.Top? ==> Head(t) == x && Head(t') == y)
            && (!c.Top? ==> Head(t) == Head(t'))
  {
    var u, v := High(cx, a, x, cy, b, y, d), Low(cx, a, x, cy, b, y, d);
    SameNodes(c, cx, a, x, cy, b, y, d);
    PlugNodes(c, u);
    PlugNodes(c, v);
    PlugFieldsAt(c, u, x);
    PlugFieldsAt(c, u, y);
    PlugFieldsAt(c, v, x);
    PlugFieldsAt(c, v, y);
    FieldsAt(u, Above(c), x);
    FieldsAt(u, Above(c), y);
    FieldsAt(Tree(cy, b, y, d), x, y);
    FieldsAt(v, Above(c), x);
    FieldsAt(v, Above(c), y);
    FieldsAt(Tree(cx, a, x, b), y, x);
    AboveIn(c);
    HeadIn(b);
    SameHead(c, u, v);
  }

  lemma {:induction false} SameHead(c: Hole, t: Tree, t': Tree)
    ensures !c.Top? ==> Head(Plug(c, t)) == Head(Plug(c, t'))
  {
    match c
    case Top =>
    case LeftOf(up, red, n, sib) => SameHead(up, Tree(red, t, n, sib), Tree(red, t', n, sib));
    case RightOf(up, red, n, sib) => SameHead(up, Tree(red, sib, n, t), Tree(red, sib, n, t'));
  }

  // ------------------------------------------------------------------
  // rb_insert_color

  /** The fields of a node seen from its place in the tree. */
  lemma NodeFields(root: Root, c: Hole, t: Tree)
    requires Spells(root, Plug(c, t)) && t.Tree?
    ensures t.n in Nodes(Plug(c, t)) && RecOf(t.n) == Rec(Above(c), Head(t.l), Head(t.r), t.red)
  {
    PlugNodes(c, t);
    PlugFieldsAt(c, t, t.n);
    FieldsAt(t, Above(c), t.n);
  }

  method SetColour(root: Root, n: Node, red: bool, ghost t: Tree)
    requires Spells(root, t) && n in Nodes(t)
    modifies n
    ensures Spells(root, Paint(t, n, red)) && Nodes(Paint(t, n, red)) == Nodes(t)
  {
    PaintNodes(t, n, red);
    forall k | k in Nodes(t)
      ensures k in Fields(t, null) && k in Fields(Paint(t, n, red), null)
      ensures Fields(Paint(t, n, red), null)[k] ==
              if k == n then Fields(t, null)[k].(red := red) else Fields(t, null)[k]
    {
      PaintFieldsAt(t, null, n, red, k);
    }
    assert forall k | k in Nodes(t) :: RecOf(k) == Fields(t, null)[k];
    n.red := red;
  }

  /** Red uncle: parent and uncle black, grandparent red. */
  method Recolour(root: Root, parent: Node, uncle: Node, grandparent: Node, ghost c: Hole, ghost t: Tree)
    requires !c.Top? && !c.up.Top? && c.n == parent && c.up.n == grandparent && c.up.sib.Tree? && c.up.sib.n == uncle
    requires Spells(root, Plug(c, t))
    modifies Nodes(Plug(c, t))
    ensures Spells(root, Plug(c.up.up, Recoloured(c, t)))
  {
    ghost var u := c.up.sib;
    ghost var u' := Tree(false, u.l, u.n, u.r);
    GrandApart(c, t);
    GrandPlug(c, t);
    GrandSame(c, t, c.red, c.up.red, u, false, c.up.red, u);
    GrandSame(c, t, c.red, c.up.red, u, false, c.up.red, u');
    PaintParent(c, t, c.red, c.up.red, u, false);
    PaintUncle(c, t, false, c.up.red, u, false);
    PaintGrand(c, t, false, c.up.red, u', true);
    ghost var w := Plug(c, t);
    SetColour(root, parent, false, w);
    w := Paint(w, parent, false);
    SetColour(root, uncle, false, w);
    w := Paint(w, uncle, false);
    SetColour(root, grandparent, true, w);
    assert Recoloured(c, t) == Grand(c, t, false, true, u');
  }

  /** Black uncle, node on the outer side: recolour and rotate the grandparent. */
  method RotateOuter(root: Root, parent: Node, grandparent: Node, ghost c: Hole, ghost t: Tree)
    requires !c.Top? && !c.up.Top? && c.n == parent && c.up.n == grandparent && c.LeftOf? == c.up.LeftOf?
    requires Spells(root, Plug(c, t))
    modifies root, Nodes(Plug(c, t))
    ensures Spells(root, Plug(RotatedHole(c), t))
  {
    ghost var u := c.up.sib;
    GrandApart(c, t);
    GrandPlug(c, t);
    GrandSame(c, t, c.red, c.up.red, u, false, c.up.red, u);
    GrandSame(c, t, c.red, c.up.red, u, false, true, u);
    PaintParent(c, t, c.red, c.up.red, u, false);
    PaintGrand(c, t, false, c.up.red, u, true);
    ghost var w := Plug(c, t);
    NodeFields(root, c.up.up, Grand(c, t, c.red, c.up.red, u));
    var onLeft := grandparent.left == parent;
    OuterSide(c, t);
    SetColour(root, parent, false, w);
    w := Paint(w, parent, false);
    SetColour(root, grandparent, true, w);
    if onLeft {
      RotateRight(root, grandparent, c.up.up, false, t, parent, true, c.sib, u);
    } else {
      RotateLeft(root, grandparent, c.up.up, true, u, false, c.sib, parent, t);
    }
  }

  lemma OuterSide(c: Hole, t: Tree)
    requires !c.Top? && !c.up.Top? && Distinct(Plug(c, t))
    ensures var g := Grand(c, t, c.red, c.up.red, c.up.sib);
            g.Tree? && (Head(g.l) == c.n <==> c.up.LeftOf?)
  {
    GrandApart(c, t);
    HeadIn(c.up.sib);
  }

  /** Node on the inner side: rotate the parent, so that the parent becomes the node to look at. */
  method TurnInner(root: Root, node: Node, parent: Node, ghost c: Hole, ghost t: Tree)
    requires !c.Top? && c.n == parent && c.red && IsRed(t) && t.n == node
    requires Spells(root, Plug(c, t))
    modifies root, Nodes(Plug(c, t))
    ensures Spells(root, Plug(TurnedHole(c, t), TurnedTree(c, t)))
  {
    PlugUp(c, t);
    PlugNodes(c, t);
    NodeFields(root, c.up, ParentTree(c, t));
    HeadIn(c.sib);
    if node == parent.right {
      RotateLeft(root, parent, c.up, true, c.sib, true, t.l, t.n, t.r);
    } else {
      RotateRight(root, parent, c.up, true, t.l, t.n, true, t.r, c.sib);
    }
  }

  /** The tree is the one rb_insert_color was called on, seen from the node it is looking at. */
  ghost predicate Seen(root: Root, c: Hole, t: Tree, node: Node, all: set<Node>, order: seq<Node>, h: nat, whole: nat)
    reads root, Nodes(Plug(c, t))
  {
    && Spells(root, Plug(c, t)) && Fixing(c, t, h, whole) && t.n == node
    && Nodes(Plug(c, t)) == all && InOrder(Plug(c, t)) == order
  }

  lemma SameTree(c: Hole, t: Tree, c': Hole, t': Tree, p: Hole, u: Tree, u': Tree)
    requires Plug(c, t) == Plug(p, u) && Plug(c', t') == Plug(p, u') && Nodes(u) == Nodes(u')
    requires InOrder(u) == InOrder(u')
    ensures Nodes(Plug(c', t')) == Nodes(Plug(c, t)) && InOrder(Plug(c', t')) == InOrder(Plug(c, t))
  {
    PlugNodes(p, u);
    PlugNodes(p, u');
    PlugInOrder(p, u);
    PlugInOrder(p, u');
  }

  lemma RecolouredSame(c: Hole, t: Tree)
    requires !c.Top? && !c.up.Top? && c.up.sib.Tree?
    ensures Nodes(Plug(c.up.up, Recoloured(c, t))) == Nodes(Plug(c, t))
    ensures InOrder(Plug(c.up.up, Recoloured(c, t))) == InOrder(Plug(c, t))
  {
    var u := c.up.sib;
    GrandPlug(c, t);
    GrandSame(c, t, c.red, c.up.red, u, false, true, Tree(false, u.l, u.n, u.r));
    SameTree(c, t, c.up.up, Recoloured(c, t), c.up.up, Grand(c, t, c.red, c.up.red, u), Recoloured(c, t));
  }

  lemma RotatedSame(c: Hole, t: Tree)
    requires !c.Top? && !c.up.Top? && c.LeftOf? == c.up.LeftOf?
    ensures Nodes(Plug(RotatedHole(c), t)) == Nodes(Plug(c, t))
    ensures InOrder(Plug(RotatedHole(c), t)) == InOrder(Plug(c, t))
  {
    var u := c.up.sib;
    GrandPlug(c, t);
    if c.LeftOf? {
      SameNodes(c.up.up, c.red, t, c.n, c.up.red, c.sib, c.up.n, u);
      SameNodes(c.up.up, false, t, c.n, true, c.sib, c.up.n, u);
      ColourBlind(c.up.up, c.red, t, c.n, c.up.red, c.sib, c.up.n, u, false, true);
    } else {
      SameNodes(c.up.up, c.up.red, u, c.up.n, c.red, c.sib, c.n, t);
      SameNodes(c.up.up, true, u, c.up.n, false, c.sib, c.n, t);
      ColourBlind(c.up.up, c.up.red, u, c.up.n, c.red, c.sib, c.n, t, true, false);
    }
  }

  lemma ColourBlind(c: Hole, cx: bool, a: Tree, x: Node, cy: bool, b: Tree, y: Node, d: Tree, cx': bool, cy': bool)
    ensures Nodes(Plug(c, High(cx, a, x, cy, b, y, d))) == Nodes(Plug(c, High(cx', a, x, cy', b, y, d)))
    ensures InOrder(Plug(c, High(cx, a, x, cy, b, y, d))) == InOrder(Plug(c, High(cx', a, x, cy', b, y, d)))
  {
    PlugNodes(c, High(cx, a, x, cy, b, y, d));
    PlugNodes(c, High(cx', a, x, cy', b, y, d));
    PlugInOrder(c, High(cx, a, x, cy, b, y, d));
    PlugInOrder(c, High(cx', a, x, cy', b, y, d));
  }

  lemma TurnedSame(c: Hole, t: Tree)
    requires !c.Top? && c.red && IsRed(t)
    ensures Nodes(Plug(TurnedHole(c, t), TurnedTree(c, t))) == Nodes(Plug(c, t))
    ensures InOrder(Plug(TurnedHole(c, t), TurnedTree(c, t))) == InOrder(Plug(c, t))
  {
    if c.RightOf? {
      SameNodes(c.up, true, c.sib, c.n, true, t.l, t.n, t.r);
    } else {
      SameNodes(c.up, true, t.l, t.n, true, t.r, c.n, c.sib);
    }
  }

  /** The colour of the tree on the other side of the hole. */
  lemma SiblingFields(root: Root, c: Hole, t: Tree)
    requires Spells(root, Plug(c, t)) && !c.Top? && c.sib.Tree?
    ensures c.sib.n in Nodes(Plug(c, t)) && RecOf(c.sib.n).red == c.sib.red
  {
    var p := ParentTree(c, t);
    PlugUp(c, t);
    PlugNodes(c.up, p);
    HeadIn(c.sib);
    PlugFieldsAt(c.up, p, c.sib.n);
    FieldsAt(p, Above(c.up), c.sib.n);
    FieldsAt(c.sib, c.n, c.sib.n);
  }

  /** What rb_insert_color reads when the parent is red. */
  lemma ReadRelatives(root: Root, c: Hole, t: Tree)
    requires Spells(root, Plug(c, t)) && t.Tree? && !c.Top? && !c.up.Top?
    ensures {t.n, c.n, c.up.n} <= Nodes(Plug(c, t))
    ensures t.n.parent == c.n && c.n.parent == c.up.n && c.n.red == c.red
    ensures (c.n.right == t.n <==> c.RightOf?) && (c.n.left == t.n <==> c.LeftOf?)
    ensures c.up.n.left == c.n <==> c.up.LeftOf?
    ensures Head(c.up.sib) == if c.up.LeftOf? then c.up.n.right else c.up.n.left
    ensures c.up.sib.Tree? ==> c.up.sib.n in Nodes(Plug(c, t)) && c.up.sib.n.red == c.up.sib.red
  {
    NodeFields(root, c, t);
    PlugUp(c, t);
    NodeFields(root, c.up, ParentTree(c, t));
    GrandPlug(c, t);
    NodeFields(root, c.up.up, Grand(c, t, c.red, c.up.red, c.up.sib));
    OuterSide(c, t);
    PlugNodes(c, t);
    HeadIn(c.sib);
    if c.up.sib.Tree? { SiblingFields(root, c.up, ParentTree(c, t)); }
    var rt, rp, rg := RecOf(t.n), RecOf(c.n), RecOf(c.up.n);
  }

  /** One turn of the loop of rb_insert_color below a red parent. */
  method FixStep(root: Root, node: Node, ghost c: Hole, ghost t: Tree, ghost h: nat, ghost whole: nat,
                 ghost all: set<Node>, ghost order: seq<Node>)
    returns (next: Node, ghost c': Hole, ghost t': Tree, ghost h': nat)
    requires Seen(root, c, t, node, all, order, h, whole) && HoleRed(c)
    modifies root, all
    ensures Seen(root, c', t', next, all, order, h', whole) && Depth(c') < Depth(c)
  {
    GrandparentThere(c, t, h, whole);
    ReadRelatives(root, c, t);
    var parent := node.parent;
    var grandparent := parent.parent;
    var uncle := if parent == grandparent.left then grandparent.right else grandparent.left;
    if uncle != null && uncle.red {
      Recolour(root, parent, uncle, grandparent, c, t);
      RecolouredFixing(c, t, h, whole);
      RecolouredSame(c, t);
      return grandparent, c.up.up, Recoloured(c, t), h + 1;
    }
    if parent == grandparent.left {
      if node == parent.right {
        next, c', t' := TurnAndRotate(root, node, parent, grandparent, c, t, h, whole, all, order);
        h' := h;
        return;
      }
    } else {
      if node == parent.left {
        next, c', t' := TurnAndRotate(root, node, parent, grandparent, c, t, h, whole, all, order);
        h' := h;
        return;
      }
    }
    RotateOuter(root, parent, grandparent, c, t);
    RotatedFixing(c, t, h, whole);
    RotatedSame(c, t);
    return node, RotatedHole(c), t, h;
  }

  /** The inner side: rotate the parent, then the grandparent. */
  method TurnAndRotate(root: Root, node: Node, parent: Node, grandparent: Node, ghost c: Hole, ghost t: Tree,
                       ghost h: nat, ghost whole: nat, ghost all: set<Node>, ghost order: seq<Node>)
    returns (next: Node, ghost c': Hole, ghost t': Tree)
    requires Seen(root, c, t, node, all, order, h, whole) && HoleRed(c) && !c.up.Top? && !IsRed(c.up.sib)
    requires c.n == parent && c.up.n == grandparent && c.LeftOf? != c.up.LeftOf?
    modifies root, all
    ensures Seen(root, c', t', next, all, order, h, whole) && Depth(c') < Depth(c)
  {
    TurnInner(root, node, parent, c, t);
    TurnedFixing(c, t, h, whole);
    TurnedSame(c, t);
    ghost var d, u := TurnedHole(c, t), TurnedTree(c, t);
    RotateOuter(root, node, grandparent, d, u);
    RotatedFixing(d, u, h, whole);
    RotatedSame(d, u);
    return parent, RotatedHole(d), u;
  }

  /**
   * rb_insert_color on a red-black tree with one red leaf linked in: the result is a red-black tree
   * over the same nodes, in the same order, with consistent pointers.
   */
  method InsertColor(root: Root, start: Node, ghost hole: Hole) returns (ghost result: Tree)
    requires Spells(root, Plug(hole, Tree(true, Leaf, start, Leaf))) && RedBlack(Plug(hole, Leaf))
    modifies root, Nodes(Plug(hole, Tree(true, Leaf, start, Leaf)))
    ensures Spells(root, result) && RedBlack(result)
    ensures InOrder(result) == InOrder(Plug(hole, Tree(true, Leaf, start, Leaf)))
    ensures Nodes(result) == Nodes(Plug(hole, Tree(true, Leaf, start, Leaf)))
  {
    ghost var c, t, h := hole, Tree(true, Leaf, start, Leaf), 0;
    ghost var all, order := Nodes(Plug(c, t)), InOrder(Plug(c, t));
    ghost var whole := NewLeafFixing(hole, start);
    var node := start;
    while true
      invariant Seen(root, c, t, node, all, order, h, whole)
      decreases Depth(c)
    {
      NodeFields(root, c, t);
      assert RecOf(node).parent == node.parent;
      var parent := node.parent;
      if parent == null {
        break;
      }
      PlugUp(c, t);
      NodeFields(root, c.up, ParentTree(c, t));
      assert RecOf(parent).red == parent.red;
      if !parent.red {
        break;
      }
      node, c, t, h := FixStep(root, node, c, t, h, whole, all, order);
    }
    FixedUp(c, t, h, whole);
    result := Plug(c, t);
    HeadIn(result);
    PaintNodes(result, result.n, false);
    SetColour(root, root.node, false, result);
    result := Paint(result, result.n, false);
  }

  lemma NewLeafFixing(c: Hole, n: Node) returns (whole: nat)
    requires RedBlack(Plug(c, Leaf))
    ensures Fixing(c, Tree(true, Leaf, n, Leaf), 0, whole)
  {
    whole :| Height(Plug(c, Leaf), whole);
    var h := UnplugHeight(c, Leaf, whole);
    PlugNoRedRed(c, Leaf);
    PlugRoot(c, Leaf);
  }

  // ------------------------------------------------------------------
  // rb_first and rb_next

  /** How many nodes come before the root of s in the tree around it. */
  ghost function Rank(c: Hole, s: Tree): nat
    requires s.Tree?
  {
    |Before(c)| + |InOrder(s.l)|
  }

  lemma RankAt(c: Hole, s: Tree)
    requires s.Tree?
    ensures Rank(c, s) < |InOrder(Plug(c, s))| && InOrder(Plug(c, s))[Rank(c, s)] == s.n
    ensures |InOrder(Plug(c, s))| == Rank(c, s) + 1 + |InOrder(s.r)| + |After(c)|
  {
    PlugInOrder(c, s);
  }

  /** Follow left pointers down from the root of s. */
  method Leftmost(root: Root, start: Node, ghost c: Hole, ghost s: Tree)
    returns (node: Node, ghost c': Hole, ghost s': Tree)
    requires Spells(root, Plug(c, s)) && s.Tree? && s.n == start
    ensures Spells(root, Plug(c, s)) && Plug(c', s') == Plug(c, s) && s'.Tree? && s'.n == node
    ensures Rank(c', s') == |Before(c)|
  {
    node, c', s' := start, c, s;
    NodeFields(root, c', s');
    assert RecOf(node).left == node.left;
    while node.left != null
      invariant Spells(root, Plug(c, s)) && Plug(c', s') == Plug(c, s) && s'.Tree? && s'.n == node
      invariant Before(c') == Before(c)
      invariant node.left == Head(s'.l)
      decreases s'
    {
      node := node.left;
      c', s' := LeftOf(c', s'.red, s'.n, s'.r), s'.l;
      NodeFields(root, c', s');
      assert RecOf(node).left == node.left;
    }
  }

  method First(root: Root, ghost t: Tree) returns (node: Node?, ghost c: Hole, ghost s: Tree)
    requires Spells(root, t)
    ensures Spells(root, t) && (node == null <==> InOrder(t) == [])
    ensures node != null ==> Plug(c, s) == t && s.Tree? && s.n == node && Rank(c, s) == 0
  {
    if root.node == null {
      return null, Top, Leaf;
    }
    node, c, s := Leftmost(root, root.node, Top, t);
    RankAt(c, s);
  }

  /** rb_next: the in-order successor, null after the last node. */
  method Next(root: Root, start: Node, ghost c: Hole, ghost s: Tree)
    returns (node: Node?, ghost c': Hole, ghost s': Tree)
    requires Spells(root, Plug(c, s)) && s.Tree? && s.n == start
    ensures Spells(root, Plug(c, s)) && (node == null <==> Rank(c, s) + 1 == |InOrder(Plug(c, s))|)
    ensures node != null ==> Plug(c', s') == Plug(c, s) && s'.Tree? && s'.n == node && Rank(c', s') == Rank(c, s) + 1
  {
    NodeFields(root, c, s);
    assert RecOf(start).right == start.right && RecOf(start).parent == start.parent;
    RankAt(c, s);
    if start.right != null {
      HeadIn(s.r);
      node, c', s' := Leftmost(root, start.right, RightOf(c, s.red, s.n, s.l), s.r);
      RankAt(c', s');
      return;
    }
    node, c', s' := Climb(root, start, c, s);
  }

  /** The upward loop of rb_next: leave right subtrees until a node is reached from its left. */
  method Climb(root: Root, start: Node, ghost c: Hole, ghost s: Tree)
    returns (parent: Node?, ghost c': Hole, ghost s': Tree)
    requires Spells(root, Plug(c, s)) && s.Tree? && s.n == start && s.r == Leaf
    ensures Spells(root, Plug(c, s)) && (parent == null <==> Rank(c, s) + 1 == |InOrder(Plug(c, s))|)
    ensures parent != null ==>
              Plug(c', s') == Plug(c, s) && s'.Tree? && s'.n == parent && Rank(c', s') == Rank(c, s) + 1
  {
    var node: Node := start;
    c', s' := c, s;
    parent := node.parent;
    RankAt(c, s);
    ClimbRead(root, c', s');
    while parent != null && node == parent.right
      invariant Spells(root, Plug(c, s)) && Plug(c', s') == Plug(c, s) && s'.Tree? && s'.n == node
      invariant parent == Above(c')
      invariant |Before(c')| + |InOrder(s')| == Rank(c, s) + 1
      invariant parent != null ==> parent in Nodes(Plug(c, s)) && (node == parent.right <==> c'.RightOf?)
      decreases Depth(c')
    {
      s' := ParentTree(c', s');
      c' := c'.up;
      node := parent;
      ClimbRead(root, c', s');
      parent := node.parent;
    }
    PlugInOrder(c', s');
    if parent != null {
      s' := ParentTree(c', s');
      c' := c'.up;
      RankAt(c', s');
    }
  }

  lemma ClimbRead(root: Root, c: Hole, s: Tree)
    requires Spells(root, Plug(c, s)) && s.Tree?
    ensures s.n in Nodes(Plug(c, s)) && s.n.parent == Above(c)
    ensures !c.Top? ==> c.n in Nodes(Plug(c, s)) && (c.n.right == s.n <==> c.RightOf?)
    ensures !c.Top? ==> Plug(c.up, ParentTree(c, s)) == Plug(c, s)
  {
    NodeFields(root, c, s);
    var a := RecOf(s.n);
    if !c.Top? {
      NodeFields(root, c.up, ParentTree(c, s));
      var b := RecOf(c.n);
      PlugNodes(c, s);
      HeadIn(c.sib);
    }
  }

  /** rb_first and repeated rb_next list exactly the in-order sequence. */
  method Walk(root: Root, ghost t: Tree) returns (visited: seq<Node>)
    requires Spells(root, t)
    ensures visited == InOrder(t)
  {
    visited := [];
    var node: Node?;
    ghost var c, s;
    node, c, s := First(root, t);
    while node != null
      invariant Spells(root, t)
      invariant node != null ==> Plug(c, s) == t && s.Tree? && s.n == node && Rank(c, s) == |visited| < |InOrder(t)|
      invariant |visited| <= |InOrder(t)| && visited == InOrder(t)[..|visited|]
      invariant node == null ==> |visited| == |InOrder(t)|
      decreases |InOrder(t)| - |visited|
    {
      RankAt(c, s);
      visited := visited + [node];
      node, c, s := Next(root, node, c, s);
      if node != null { RankAt(c, s); }
    }
  }
}
