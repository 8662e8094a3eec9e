/**
 * lib/rbtree.c as a value: the tree the parent, left and right pointers spell
 * out, and the same tree seen from one of its nodes.
 */
module RbShape {

  class Node {
    var parent: Node?
    var left: Node?
    var right: Node?
    var red: bool

    constructor () {
      parent, left, right, red := null, null, null, true;
    }
  }

  datatype Tree = Leaf | Tree(red: bool, l: Tree, n: Node, r: Tree)

  /** The rest of a tree around a hole: the hole is the left or the right child of n. */
  datatype Hole =
    | Top
    | LeftOf(up: Hole, red: bool, n: Node, sib: Tree)
    | RightOf(up: Hole, red: bool, n: Node, sib: Tree)

  ghost function Plug(c: Hole, t: Tree): Tree {
    match c
    case Top => t
    case LeftOf(up, red, n, sib) => Plug(up, Tree(red, t, n, sib))
    case RightOf(up, red, n, sib) => Plug(up, Tree(red, sib, n, t))
  }

  ghost function Head(t: Tree): Node? {
    if t.Leaf? then null else t.n
  }

  ghost function Above(c: Hole): Node? {
    if c.Top? then null else c.n
  }

  ghost function Depth(c: Hole): nat {
    if c.Top? then 0 else 1 + Depth(c.up)
  }

  // ------------------------------------------------------------------
  // In-order sequence

  ghost function InOrder(t: Tree): seq<Node> {
    if t.Leaf? then [] else InOrder(t.l) + [t.n] + InOrder(t.r)
  }

  ghost function Before(c: Hole): seq<Node> {
    match c
    case Top => []
    case LeftOf(up, _, _, _) => Before(up)
    case RightOf(up, _, n, sib) => Before(up) + InOrder(sib) + [n]
  }

  ghost function After(c: Hole): seq<Node> {
    match c
    case Top => []
    case LeftOf(up, _, n, sib) => [n] + InOrder(sib) + After(up)
    case RightOf(up, _, _, _) => After(up)
  }

  lemma {:induction false} PlugInOrder(c: Hole, t: Tree)
    ensures InOrder(Plug(c, t)) == Before(c) + InOrder(t) + After(c)
  {
    match c
    case Top =>
    case LeftOf(up, red, n, sib) =>
      PlugInOrder(up, Tree(red, t, n, sib));
      Reassociate(Before(up), InOrder(t), [n], InOrder(sib), After(up));
    case RightOf(up, red, n, sib) =>
      PlugInOrder(up, Tree(red, sib, n, t));
      Reassociate(Before(up), InOrder(sib), [n], InOrder(t), After(up));
  }

  lemma Reassociate(a: seq<Node>, b: seq<Node>, c: seq<Node>, d: seq<Node>, e: seq<Node>)
    ensures a + (b + c + d) + e == a + b + (c + d + e) == (a + b + c) + d + e
  {
  }

  // ------------------------------------------------------------------
  // Nodes and pointers

  ghost function Nodes(t: Tree): set<Node> {
    if t.Leaf? then {} else Nodes(t.l) + {t.n} + Nodes(t.r)
  }

  ghost function Around(c: Hole): set<Node> {
    if c.Top? then {} else Around(c.up) + {c.n} + Nodes(c.sib)
  }

  ghost predicate Distinct(t: Tree) {
    t.Tree? ==>
      && Distinct(t.l) && Distinct(t.r)
      && t.n !in Nodes(t.l) && t.n !in Nodes(t.r) && Nodes(t.l) !! Nodes(t.r)
  }

  ghost predicate DistinctHole(c: Hole) {
    !c.Top? ==>
      && DistinctHole(c.up) && Distinct(c.sib)
      && c.n !in Nodes(c.sib) && c.n !in Around(c.up) && Nodes(c.sib) !! Around(c.up)
  }

  lemma {:induction false} PlugNodes(c: Hole, t: Tree)
    ensures Nodes(Plug(c, t)) == Around(c) + Nodes(t)
    ensures Distinct(Plug(c, t)) <==> DistinctHole(c) && Distinct(t) && Around(c) !! Nodes(t)
  {
    match c
    case Top =>
    case LeftOf(up, red, n, sib) => PlugNodes(up, Tree(red, t, n, sib));
    case RightOf(up, red, n, sib) => PlugNodes(up, Tree(red, sib, n, t));
  }

  /** What the fields of one node hold. */
  datatype Rec = Rec(parent: Node?, left: Node?, right: Node?, red: bool)

  /** The fields of every node of t, when p is above t. */
  ghost function Fields(t: Tree, p: Node?): map<Node, Rec> {
    if t.Leaf? then map[]
    else Fields(t.l, t.n) + Fields(t.r, t.n) + map[t.n := Rec(p, Head(t.l), Head(t.r), t.red)]
  }

  /** The fields of every node around the hole, when h is the head of what fills it. */
  ghost function FieldsAround(c: Hole, h: Node?): map<Node, Rec> {
    match c
    case Top => map[]
    case LeftOf(up, red, n, sib) =>
      FieldsAround(up, n) + Fields(sib, n) + map[n := Rec(Above(up), h, Head(sib), red)]
    case RightOf(up, red, n, sib) =>
      FieldsAround(up, n) + Fields(sib, n) + map[n := Rec(Above(up), Head(sib), h, red)]
  }

  lemma {:induction false} FieldsKeys(t: Tree, p: Node?)
    ensures Fields(t, p).Keys == Nodes(t)
  {
    if t.Tree? {
      FieldsKeys(t.l, t.n);
      FieldsKeys(t.r, t.n);
    }
  }

  lemma {:induction false} AroundKeys(c: Hole, h: Node?)
    ensures FieldsAround(c, h).Keys == Around(c)
  {
    if !c.Top? {
      AroundKeys(c.up, c.n);
      FieldsKeys(c.sib, c.n);
    }
  }

  lemma Regroup(a: map<Node, Rec>, s: map<Node, Rec>, t: map<Node, Rec>, n: Node, v: Rec)
    requires t.Keys !! s.Keys && t.Keys !! a.Keys && n !in t
    ensures a + (t + s + map[n := v]) == (a + s + map[n := v]) + t
    ensures a + (s + t + map[n := v]) == (a + s + map[n := v]) + t
  {
  }

  lemma {:induction false} PlugFields(c: Hole, t: Tree)
    requires Distinct(Plug(c, t))
    ensures Fields(Plug(c, t), null) == FieldsAround(c, Head(t)) + Fields(t, Above(c))
  {
    if !c.Top? {
      PlugNodes(c, t);
      FieldsKeys(t, c.n);
      FieldsKeys(c.sib, c.n);
      AroundKeys(c.up, c.n);
      if c.LeftOf? {
        PlugFields(c.up, Tree(c.red, t, c.n, c.sib));
        var rec := Rec(Above(c.up), Head(t), Head(c.sib), c.red);
        Regroup(FieldsAround(c.up, c.n), Fields(c.sib, c.n), Fields(t, c.n), c.n, rec);
      } else {
        PlugFields(c.up, Tree(c.red, c.sib, c.n, t));
        var rec := Rec(Above(c.up), Head(c.sib), Head(t), c.red);
        Regroup(FieldsAround(c.up, c.n), Fields(c.sib, c.n), Fields(t, c.n), c.n, rec);
      }
    }
  }

  /** Where the fields of a node come from. */
  lemma FieldsAt(t: Tree, p: Node?, n: Node)
    requires Distinct(t) && n in Nodes(t)
    ensures n in Fields(t, p)
    ensures n == t.n ==> Fields(t, p)[n] == Rec(p, Head(t.l), Head(t.r), t.red)
    ensures n in Nodes(t.l) ==> n in Fields(t.l, t.n) && Fields(t, p)[n] == Fields(t.l, t.n)[n]
    ensures n in Nodes(t.r) ==> n in Fields(t.r, t.n) && Fields(t, p)[n] == Fields(t.r, t.n)[n]
  {
    FieldsKeys(t, p);
    FieldsKeys(t.l, t.n);
    FieldsKeys(t.r, t.n);
  }

  // ------------------------------------------------------------------
  // Colours

  ghost predicate IsRed(t: Tree) {
    t.Tree? && t.red
  }

  ghost predicate HoleRed(c: Hole) {
    !c.Top? && c.red
  }

  /** Every path from the root to a leaf passes h black nodes. */
  ghost predicate Height(t: Tree, h: nat) {
    if t.Leaf? then h == 0
    else if t.red then Height(t.l, h) && Height(t.r, h)
    else h > 0 && Height(t.l, h - 1) && Height(t.r, h - 1)
  }

  ghost predicate HoleHeight(c: Hole, h: nat, whole: nat) {
    if c.Top? then h == whole
    else Height(c.sib, h) && HoleHeight(c.up, if c.red then h else h + 1, whole)
  }

  /** No red node has a red child. */
  ghost predicate NoRedRed(t: Tree) {
    t.Tree? ==> NoRedRed(t.l) && NoRedRed(t.r) && (t.red ==> !IsRed(t.l) && !IsRed(t.r))
  }

  ghost predicate HoleNoRedRed(c: Hole) {
    !c.Top? ==>
      HoleNoRedRed(c.up) && NoRedRed(c.sib) && (c.red ==> !IsRed(c.sib) && !HoleRed(c.up))
  }

  ghost predicate RootBlack(c: Hole) {
    c.Top? || (if c.up.Top? then !c.red else RootBlack(c.up))
  }

  ghost predicate RedBlack(t: Tree) {
    !IsRed(t) && NoRedRed(t) && exists h: nat :: Height(t, h)
  }

  lemma {:induction false} PlugHeight(c: Hole, t: Tree, h: nat, whole: nat)
    requires Height(t, h) && HoleHeight(c, h, whole)
    ensures Height(Plug(c, t), whole)
  {
    match c
    case Top =>
    case LeftOf(up, red, n, sib) => PlugHeight(up, Tree(red, t, n, sib), if red then h else h + 1, whole);
    case RightOf(up, red, n, sib) => PlugHeight(up, Tree(red, sib, n, t), if red then h else h + 1, whole);
  }

  lemma {:induction false} UnplugHeight(c: Hole, t: Tree, whole: nat) returns (h: nat)
    requires Height(Plug(c, t), whole)
    ensures Height(t, h) && HoleHeight(c, h, whole)
  {
    match c
    case Top => h := whole;
    case LeftOf(up, red, n, sib) =>
      var k := UnplugHeight(up, Tree(red, t, n, sib), whole);
      h := if red then k else k - 1;
    case RightOf(up, red, n, sib) =>
      var k := UnplugHeight(up, Tree(red, sib, n, t), whole);
      h := if red then k else k - 1;
  }

  lemma {:induction false} PlugNoRedRed(c: Hole, t: Tree)
    ensures NoRedRed(Plug(c, t)) <==> NoRedRed(t) && HoleNoRedRed(c) && !(HoleRed(c) && IsRed(t))
  {
    match c
    case Top =>
    case LeftOf(up, red, n, sib) => PlugNoRedRed(up, Tree(red, t, n, sib));
    case RightOf(up, red, n, sib) => PlugNoRedRed(up, Tree(red, sib, n, t));
  }

  lemma {:induction false} PlugRoot(c: Hole, t: Tree)
    ensures !c.Top? ==> (IsRed(Plug(c, t)) <==> !RootBlack(c)) && Plug(c, t).Tree?
  {
    match c
    case Top =>
    case LeftOf(up, red, n, sib) => PlugRoot(up, Tree(red, t, n, sib));
    case RightOf(up, red, n, sib) => PlugRoot(up, Tree(red, sib, n, t));
  }

  // ------------------------------------------------------------------
  // Repainting one node

  ghost function Paint(t: Tree, n: Node, v: bool): Tree {
    if t.Leaf? then t else Tree(if t.n == n then v else t.red, Paint(t.l, n, v), t.n, Paint(t.r, n, v))
  }

  lemma {:induction false} PaintMiss(t: Tree, n: Node, v: bool)
    requires n !in Nodes(t)
    ensures Paint(t, n, v) == t
  {
    if t.Tree? {
      PaintMiss(t.l, n, v);
      PaintMiss(t.r, n, v);
    }
  }

  lemma {:induction false} PaintPlug(c: Hole, t: Tree, n: Node, v: bool)
    requires n !in Around(c)
    ensures Paint(Plug(c, t), n, v) == Plug(c, Paint(t, n, v))
  {
    if !c.Top? {
      PaintMiss(c.sib, n, v);
      PaintPlug(c.up, if c.LeftOf? then Tree(c.red, t, c.n, c.sib) else Tree(c.red, c.sib, c.n, t), n, v);
    }
  }

  lemma {:induction false} PaintNodes(t: Tree, n: Node, v: bool)
    ensures Nodes(Paint(t, n, v)) == Nodes(t) && InOrder(Paint(t, n, v)) == InOrder(t)
    ensures Head(Paint(t, n, v)) == Head(t)
    ensures Distinct(Paint(t, n, v)) <==> Distinct(t)
  {
    if t.Tree? {
      PaintNodes(t.l, n, v);
      PaintNodes(t.r, n, v);
    }
  }

  lemma {:induction false} PaintFieldsAt(t: Tree, p: Node?, n: Node, v: bool, k: Node)
    requires Distinct(t) && k in Nodes(t)
    ensures k in Fields(t, p) && k in Fields(Paint(t, n, v), p)
    ensures Fields(Paint(t, n, v), p)[k] == if k == n then Fields(t, p)[k].(red := v) else Fields(t, p)[k]
  {
    PaintNodes(t, n, v);
    PaintNodes(t.l, n, v);
    PaintNodes(t.r, n, v);
    FieldsAt(t, p, k);
    FieldsAt(Paint(t, n, v), p, k);
    if k in Nodes(t.l) {
      PaintFieldsAt(t.l, t.n, n, v, k);
    } else if k in Nodes(t.r) {
      PaintFieldsAt(t.r, t.n, n, v, k);
    }
  }

  // ------------------------------------------------------------------
  // The cases of rb_insert_color

  /** t is red and sound, and so is everything around it, except that t may hang from a red node. */
  ghost predicate Fixing(c: Hole, t: Tree, h: nat, whole: nat) {
    && IsRed(t) && NoRedRed(t) && Height(t, h)
    && HoleNoRedRed(c) && HoleHeight(c, h, whole) && RootBlack(c)
  }

  ghost function Black(t: Tree): Tree {
    if t.Leaf? then t else Tree(false, t.l, t.n, t.r)
  }

  /** The child of the grandparent that has t below it. */
  ghost function ParentTree(c: Hole, t: Tree): Tree
    requires !c.Top?
  {
    if c.LeftOf? then Tree(c.red, t, c.n, c.sib) else Tree(c.red, c.sib, c.n, t)
  }

  lemma PlugUp(c: Hole, t: Tree)
    requires !c.Top?
    ensures Plug(c, t) == Plug(c.up, ParentTree(c, t))
  {
  }

  /** A red parent has a black parent of its own. */
  lemma GrandparentThere(c: Hole, t: Tree, h: nat, whole: nat)
    requires Fixing(c, t, h, whole) && HoleRed(c)
    ensures !c.up.Top? && !c.up.red && RootBlack(c.up.up)
  {
    assert RootBlack(c.up);
  }

  /** Red uncle: the two layers swap colours and the trouble moves up. */
  ghost function Recoloured(c: Hole, t: Tree): Tree
    requires !c.Top? && !c.up.Top? && c.up.sib.Tree?
  {
    var p := Black(ParentTree(c, t));
    var u := Black(c.up.sib);
    if c.up.LeftOf? then Tree(true, p, c.up.n, u) else Tree(true, u, c.up.n, p)
  }

  lemma RecolouredFixing(c: Hole, t: Tree, h: nat, whole: nat)
    requires Fixing(c, t, h, whole) && HoleRed(c) && !c.up.Top? && IsRed(c.up.sib)
    ensures Fixing(c.up.up, Recoloured(c, t), h + 1, whole)
  {
    GrandparentThere(c, t, h, whole);
    assert HoleHeight(c.up, h, whole) && HoleNoRedRed(c.up);
    var p, u := Black(ParentTree(c, t)), Black(c.up.sib);
    assert NoRedRed(p) && NoRedRed(u) && Height(p, h + 1) && Height(u, h + 1);
  }

  /** Black uncle, t on the outer side: the grandparent comes down next to t. */
  ghost function RotatedHole(c: Hole): Hole
    requires !c.Top? && !c.up.Top?
  {
    if c.LeftOf? then LeftOf(c.up.up, false, c.n, Tree(true, c.sib, c.up.n, c.up.sib))
    else RightOf(c.up.up, false, c.n, Tree(true, c.up.sib, c.up.n, c.sib))
  }

  lemma RotatedFixing(c: Hole, t: Tree, h: nat, whole: nat)
    requires Fixing(c, t, h, whole) && HoleRed(c) && !c.up.Top? && !IsRed(c.up.sib) && c.LeftOf? == c.up.LeftOf?
    ensures Fixing(RotatedHole(c), t, h, whole)
  {
    GrandparentThere(c, t, h, whole);
    assert HoleHeight(c.up, h, whole) && HoleNoRedRed(c.up);
    assert NoRedRed(RotatedHole(c).sib) && Height(RotatedHole(c).sib, h);
  }

  /** t on the inner side: the parent goes below it first. */
  ghost function TurnedHole(c: Hole, t: Tree): Hole
    requires !c.Top? && t.Tree?
  {
    if c.RightOf? then LeftOf(c.up, true, t.n, t.r) else RightOf(c.up, true, t.n, t.l)
  }

  ghost function TurnedTree(c: Hole, t: Tree): Tree
    requires !c.Top? && t.Tree?
  {
    if c.RightOf? then Tree(true, c.sib, c.n, t.l) else Tree(true, t.r, c.n, c.sib)
  }

  lemma TurnedFixing(c: Hole, t: Tree, h: nat, whole: nat)
    requires Fixing(c, t, h, whole) && HoleRed(c)
    ensures Fixing(TurnedHole(c, t), TurnedTree(c, t), h, whole)
  {
    GrandparentThere(c, t, h, whole);
  }

  /** When the parent is black or missing, painting the root black leaves a red-black tree. */
  lemma FixedUp(c: Hole, t: Tree, h: nat, whole: nat)
    requires Fixing(c, t, h, whole) && !HoleRed(c) && Distinct(Plug(c, t))
    ensures Plug(c, t).Tree? && RedBlack(Paint(Plug(c, t), Plug(c, t).n, false))
  {
    PlugHeight(c, t, h, whole);
    PlugNoRedRed(c, t);
    PlugRoot(c, t);
    var w := Plug(c, t);
    PaintMiss(w.l, w.n, false);
    PaintMiss(w.r, w.n, false);
    assert Height(Paint(w, w.n, false), if w.red then whole + 1 else whole);
  }

  /** The two layers above t, with the parent and the grandparent in given colours. */
  ghost function Grand(c: Hole, t: Tree, cp: bool, cg: bool, u: Tree): Tree
    requires !c.Top? && !c.up.Top?
  {
    var p := if c.LeftOf? then Tree(cp, t, c.n, c.sib) else Tree(cp, c.sib, c.n, t);
    if c.up.LeftOf? then Tree(cg, p, c.up.n, u) else Tree(cg, u, c.up.n, p)
  }

  lemma GrandPlug(c: Hole, t: Tree)
    requires !c.Top? && !c.up.Top?
    ensures Plug(c, t) == Plug(c.up.up, Grand(c, t, c.red, c.up.red, c.up.sib))
  {
    assert Plug(c, t) == Plug(c.up, ParentTree(c, t));
  }

  /** Nodes of the two layers are pairwise different. */
  lemma GrandApart(c: Hole, t: Tree)
    requires !c.Top? && !c.up.Top? && Distinct(Plug(c, t))
    ensures var g := Grand(c, t, c.red, c.up.red, c.up.sib);
            Distinct(g) && DistinctHole(c.up.up) && Around(c.up.up) !! Nodes(g)
    ensures c.n in Nodes(Plug(c, t)) && c.up.n in Nodes(Plug(c, t)) && Nodes(c.up.sib) <= Nodes(Plug(c, t))
    ensures c.n != c.up.n
  {
    GrandPlug(c, t);
    PlugNodes(c.up.up, Grand(c, t, c.red, c.up.red, c.up.sib));
  }

  lemma PaintParent(c: Hole, t: Tree, cp: bool, cg: bool, u: Tree, v: bool)
    requires !c.Top? && !c.up.Top? && Distinct(Grand(c, t, cp, cg, u))
    requires Around(c.up.up) !! Nodes(Grand(c, t, cp, cg, u))
    ensures Paint(Plug(c.up.up, Grand(c, t, cp, cg, u)), c.n, v) == Plug(c.up.up, Grand(c, t, v, cg, u))
  {
    PaintPlug(c.up.up, Grand(c, t, cp, cg, u), c.n, v);
    PaintMiss(t, c.n, v);
    PaintMiss(c.sib, c.n, v);
    PaintMiss(u, c.n, v);
  }

  lemma PaintGrand(c: Hole, t: Tree, cp: bool, cg: bool, u: Tree, v: bool)
    requires !c.Top? && !c.up.Top? && Distinct(Grand(c, t, cp, cg, u))
    requires Around(c.up.up) !! Nodes(Grand(c, t, cp, cg, u))
    ensures Paint(Plug(c.up.up, Grand(c, t, cp, cg, u)), c.up.n, v) == Plug(c.up.up, Grand(c, t, cp, v, u))
  {
    PaintPlug(c.up.up, Grand(c, t, cp, cg, u), c.up.n, v);
    PaintMiss(t, c.up.n, v);
    PaintMiss(c.sib, c.up.n, v);
    PaintMiss(u, c.up.n, v);
  }

  lemma PaintUncle(c: Hole, t: Tree, cp: bool, cg: bool, u: Tree, v: bool)
    requires !c.Top? && !c.up.Top? && Distinct(Grand(c, t, cp, cg, u))
    requires Around(c.up.up) !! Nodes(Grand(c, t, cp, cg, u)) && u.Tree?
    ensures Paint(Plug(c.up.up, Grand(c, t, cp, cg, u)), u.n, v) ==
            Plug(c.up.up, Grand(c, t, cp, cg, Tree(v, u.l, u.n, u.r)))
  {
    PaintPlug(c.up.up, Grand(c, t, cp, cg, u), u.n, v);
    PaintMiss(t, u.n, v);
    PaintMiss(c.sib, u.n, v);
    PaintMiss(u.l, u.n, v);
    PaintMiss(u.r, u.n, v);
  }

  ghost predicate SameShape(t: Tree, t': Tree) {
    Nodes(t') == Nodes(t) && (Distinct(t') <==> Distinct(t)) && InOrder(t') == InOrder(t)
  }

  lemma LayerSame(red: bool, l: Tree, n: Node, r: Tree, red': bool, l': Tree, r': Tree)
    requires SameShape(l, l') && SameShape(r, r')
    ensures SameShape(Tree(red, l, n, r), Tree(red', l', n, r'))
  {
  }

  /** Colours apart, the two layers have the same nodes. */
  lemma GrandSame(c: Hole, t: Tree, cp: bool, cg: bool, u: Tree, cp': bool, cg': bool, u': Tree)
    requires !c.Top? && !c.up.Top? && SameShape(u, u')
    ensures SameShape(Grand(c, t, cp, cg, u), Grand(c, t, cp', cg', u'))
  {
    var l, r := if c.LeftOf? then t else c.sib, if c.LeftOf? then c.sib else t;
    LayerSame(cp, l, c.n, r, cp', l, r);
    var p, p' := Tree(cp, l, c.n, r), Tree(cp', l, c.n, r);
    if c.up.LeftOf? {
      LayerSame(cg, p, c.up.n, u, cg', p', u');
    } else {
      LayerSame(cg, u, c.up.n, p, cg', u', p');
    }
  }
}
