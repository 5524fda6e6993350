/** The red-black tree of `pc_lookup_dwarf.c` as it lies in memory: nodes with parent and child
    links that are overwritten in place. */
module AddrRangeMap {
  import opened Insertion
  import opened LeftEnd
  import opened Options
  import opened Powers
  import opened RangeSearch
  import opened RangeTree
  import opened Rebalance

  class Node<I> {
    var color: Color
    var lowAddr: Addr
    var highAddr: Addr
    var info: I
    var parent: Node?<I>
    var leftChild: Node?<I>
    var rightChild: Node?<I>

    constructor (lowAddr: Addr, highAddr: Addr, info: I)
      ensures CellOf(this) == Cell(Red, Range(lowAddr, highAddr, info), null, null, null)
    {
      color := Red;
      this.lowAddr, this.highAddr, this.info := lowAddr, highAddr, info;
      parent, leftChild, rightChild := null, null, null;
    }
  }

  /** The fields of one node, and of a whole set of nodes, at some moment. */
  datatype Cell<I> = Cell(color: Color, range: Range<I>, parent: Node?<I>, left: Node?<I>, right: Node?<I>)

  type Memory<I> = map<Node<I>, Cell<I>>

  ghost function CellOf<I>(n: Node<I>): Cell<I>
    reads n
  {
    Cell(n.color, Range(n.lowAddr, n.highAddr, n.info), n.parent, n.leftChild, n.rightChild)
  }

  ghost function Snapshot<I>(nodes: set<Node<I>>): Memory<I>
    reads nodes
  {
    map n <- nodes :: CellOf(n)
  }

  type NodeTree<I> = Tree<Node<I>, I>

  type NodePath<I> = Path<Node<I>, I>

  // ---------- What it means for the memory to hold a tree ----------

  /** The links from `n` downward, and back up, are those of `t`. */
  ghost predicate Linked<I>(m: Memory<I>, t: NodeTree<I>, n: Node?<I>, parent: Node?<I>) {
    match t
    case Leaf => n == null
    case Fork(id, c, rg, l, r) =>
      n == id && id in m && m[id].color == c && m[id].range == rg && m[id].parent == parent &&
      Linked(m, l, m[id].left, id) && Linked(m, r, m[id].right, id)
  }

  ghost function ParentOf<I>(p: NodePath<I>): Node?<I> {
    if p.Top? then null else p.id
  }

  /** The links of everything around the subtree at `n` are those of `p`. */
  ghost predicate PathLinked<I>(m: Memory<I>, p: NodePath<I>, n: Node?<I>, root: Node?<I>) {
    if p.Top? then n == root
    else
      p.id in m && m[p.id].color == p.color && m[p.id].range == p.range &&
      m[p.id].parent == ParentOf(p.up) && PathLinked(m, p.up, p.id, root) &&
      if p.InLeft? then m[p.id].left == n && Linked(m, p.sib, m[p.id].right, p.id)
      else m[p.id].right == n && Linked(m, p.sib, m[p.id].left, p.id)
  }

  /** Memory split at a subtree: no node occurs twice, and all links agree. */
  ghost predicate Split<I>(m: Memory<I>, p: NodePath<I>, t: NodeTree<I>, n: Node?<I>, root: Node?<I>) {
    && PathDistinct(p) && Distinct(t) && PathIds(p) !! Ids(t)
    && PathLinked(m, p, n, root) && Linked(m, t, n, ParentOf(p))
  }

  lemma {:induction false} SplitIsWhole<I>(m: Memory<I>, p: NodePath<I>, t: NodeTree<I>, n: Node?<I>, root: Node?<I>)
    requires Split(m, p, t, n, root)
    ensures Ids(Plug(p, t)) == PathIds(p) + Ids(t)
    ensures Split(m, Top, Plug(p, t), root, root)
    decreases p
  {
    PlugIds(p, t);
    match p
    case Top =>
    case InLeft(id, c, rg, sib, up) => SplitIsWhole(m, up, Fork(id, c, rg, t, sib), id, root);
    case InRight(id, c, rg, sib, up) => SplitIsWhole(m, up, Fork(id, c, rg, sib, t), id, root);
  }

  // ---------- Frames ----------

  ghost predicate Same<I>(m: Memory<I>, m': Memory<I>, nodes: set<Node<I>>) {
    forall x <- nodes :: x in m ==> x in m' && m'[x] == m[x]
  }

  lemma {:induction false} LinkedFrame<I>(m: Memory<I>, m': Memory<I>, t: NodeTree<I>, n: Node?<I>, parent: Node?<I>)
    requires Linked(m, t, n, parent) && Same(m, m', Ids(t))
    ensures Linked(m', t, n, parent)
  {
    if t.Fork? {
      LinkedFrame(m, m', t.left, m[t.id].left, t.id);
      LinkedFrame(m, m', t.right, m[t.id].right, t.id);
    }
  }

  lemma {:induction false} PathFrame<I>(m: Memory<I>, m': Memory<I>, p: NodePath<I>, n: Node?<I>, root: Node?<I>)
    requires PathLinked(m, p, n, root) && Same(m, m', PathIds(p))
    ensures PathLinked(m', p, n, root)
  {
    if !p.Top? {
      PathFrame(m, m', p.up, p.id, root);
      LinkedFrame(m, m', p.sib, if p.InLeft? then m[p.id].right else m[p.id].left, p.id);
    }
  }

  /** Only the parent link of the root of `t` is changed. */
  lemma LinkedReparent<I>(m: Memory<I>, m': Memory<I>, t: NodeTree<I>, n: Node?<I>, parent: Node?<I>, parent': Node?<I>)
    requires Linked(m, t, n, parent) && Distinct(t)
    requires t.Fork? ==> t.id in m' && m'[t.id] == m[t.id].(parent := parent') && Same(m, m', Ids(t) - {t.id})
    ensures Linked(m', t, n, parent')
  {
    if t.Fork? {
      LinkedFrame(m, m', t.left, m[t.id].left, t.id);
      LinkedFrame(m, m', t.right, m[t.id].right, t.id);
    }
  }

  /** Only the link to the subtree is changed. */
  lemma PathReplace<I>(m: Memory<I>, m': Memory<I>, p: NodePath<I>, n: Node?<I>, n': Node?<I>,
                       root: Node?<I>, root': Node?<I>)
    requires PathLinked(m, p, n, root) && PathDistinct(p)
    requires root' == if p.Top? then n' else root
    requires !p.Top? ==> p.id in m' && Same(m, m', PathIds(p) - {p.id}) &&
                         m'[p.id] == if p.InLeft? then m[p.id].(left := n') else m[p.id].(right := n')
    ensures PathLinked(m', p, n', root')
  {
    if !p.Top? {
      PathFrame(m, m', p.up, p.id, root);
      LinkedFrame(m, m', p.sib, if p.InLeft? then m[p.id].right else m[p.id].left, p.id);
    }
  }

  // ---------- Moving the split ----------

  lemma SplitUp<I>(m: Memory<I>, p: NodePath<I>, t: NodeTree<I>, n: Node?<I>, root: Node?<I>)
    requires Split(m, p, t, n, root) && !p.Top?
    ensures Split(m, p.up, Up(p, t), p.id, root)
    ensures p.id in m && m[p.id].color == p.color && m[p.id].parent == ParentOf(p.up)
    ensures (if p.InLeft? then m[p.id].left else m[p.id].right) == n
    ensures (if p.InLeft? then m[p.id].right else m[p.id].left) == if p.sib.Fork? then p.sib.id else null
    ensures p.sib.Fork? ==> p.sib.id in m && m[p.sib.id].color == p.sib.color
    ensures n != null && p.sib.Fork? ==> p.sib.id != n
  {
    assert n != null ==> n in Ids(t);
  }

  lemma SplitDown<I>(m: Memory<I>, p: NodePath<I>, t: NodeTree<I>, n: Node?<I>, root: Node?<I>)
    requires Split(m, p, t, n, root) && t.Fork?
    ensures n == t.id && n in m && m[n].color == t.color && m[n].range == t.range && m[n].parent == ParentOf(p)
    ensures Split(m, InLeft(t.id, t.color, t.range, t.right, p), t.left, m[n].left, root)
    ensures Split(m, InRight(t.id, t.color, t.range, t.left, p), t.right, m[n].right, root)
    ensures m[n].left == (if t.left.Fork? then t.left.id else null)
    ensures m[n].right == (if t.right.Fork? then t.right.id else null)
  {
  }

  lemma {:induction false} SplitRoot<I>(m: Memory<I>, p: NodePath<I>, t: NodeTree<I>, n: Node?<I>, root: Node?<I>)
    requires Split(m, p, t, n, root)
    ensures p.Top? ==> n == root
    ensures !p.Top? ==> root != null && root in PathIds(p)
    decreases p
  {
    if !p.Top? {
      SplitUp(m, p, t, n, root);
      SplitRoot(m, p.up, Up(p, t), p.id, root);
    }
  }

  // ---------- Painting ----------

  ghost predicate Painted<I>(m: Memory<I>, m': Memory<I>, n: Node<I>, c: Color) {
    n in m && m'.Keys == m.Keys && m'[n] == m[n].(color := c) && forall x <- m :: x == n || m'[x] == m[x]
  }

  lemma PaintedParent<I>(m: Memory<I>, m': Memory<I>, p: NodePath<I>, t: NodeTree<I>, n: Node?<I>,
                         root: Node?<I>, c: Color)
    requires Split(m, p, t, n, root) && !p.Top? && Painted(m, m', p.id, c)
    ensures Split(m', PaintNode(p, c), t, n, root)
  {
    LinkedFrame(m, m', t, n, p.id);
    LinkedFrame(m, m', p.sib, if p.InLeft? then m[p.id].right else m[p.id].left, p.id);
    PathFrame(m, m', p.up, p.id, root);
  }

  lemma PaintedTree<I>(m: Memory<I>, m': Memory<I>, s: NodeTree<I>, n: Node?<I>, parent: Node?<I>, c: Color)
    requires s.Fork? && Distinct(s) && Linked(m, s, n, parent) && Painted(m, m', s.id, c)
    ensures Linked(m', Fork(s.id, c, s.range, s.left, s.right), n, parent)
  {
    LinkedFrame(m, m', s.left, m[s.id].left, s.id);
    LinkedFrame(m, m', s.right, m[s.id].right, s.id);
  }

  lemma PaintedSibling<I>(m: Memory<I>, m': Memory<I>, p: NodePath<I>, t: NodeTree<I>, n: Node?<I>,
                          root: Node?<I>, c: Color)
    requires Split(m, p, t, n, root) && !p.Top? && p.sib.Fork? && Painted(m, m', p.sib.id, c)
    ensures Split(m', PaintSib(p, c), t, n, root)
  {
    LinkedFrame(m, m', t, n, p.id);
    PathFrame(m, m', p.up, p.id, root);
    PaintedTree(m, m', p.sib, p.sib.id, p.id, c);
  }

  // ---------- Attaching a new node ----------

  lemma AttachedSplits<I>(m: Memory<I>, m': Memory<I>, p: NodePath<I>, node: Node<I>, range: Range<I>,
                          root: Node?<I>, root': Node?<I>)
    requires Split(m, p, Leaf, null, root) && node !in m
    requires m'.Keys == m.Keys + {node} && m'[node] == Cell(Red, range, ParentOf(p), null, null)
    requires root' == if p.Top? then node else root
    requires !p.Top? ==> p.id in m && m'[p.id] == if p.InLeft? then m[p.id].(left := node) else m[p.id].(right := node)
    requires forall x <- m :: (!p.Top? && x == p.id) || m'[x] == m[x]
    requires PathIds(p) == m.Keys
    ensures Split(m', p, Fork(node, Red, range, Leaf, Leaf), node, root')
  {
    PathReplace(m, m', p, null, node, root, root');
  }

  // ---------- Rotations ----------

  function LeftRotated<N, I>(t: Tree<N, I>): Tree<N, I>
    requires t.Fork? && t.right.Fork?
  {
    t.right.(left := t.(right := t.right.left))
  }

  function RightRotated<N, I>(t: Tree<N, I>): Tree<N, I>
    requires t.Fork? && t.left.Fork?
  {
    t.left.(right := t.(left := t.left.right))
  }

  /** The neighbours that a left rotation at `node` writes to are there, and are different nodes. */
  ghost predicate CanTurnLeft<I>(m: Memory<I>, node: Node<I>) {
    && node in m && m[node].right != null && m[node].right in m
    && var top, parent := m[node].right, m[node].parent;
    && top != node
    && (m[top].left != null ==> m[top].left in m && m[top].left != node && m[top].left != top && m[top].left != parent)
    && (parent != null ==> parent in m && parent != node && parent != top)
  }

  /** The link writes of a left rotation at `node`, and no others. */
  ghost predicate TurnsLeft<I>(m: Memory<I>, m': Memory<I>, node: Node<I>)
    requires CanTurnLeft(m, node)
  {
    var top, parent := m[node].right, m[node].parent;
    var moved := m[top].left;
    && m'.Keys == m.Keys
    && m'[node] == m[node].(parent := top, right := moved)
    && m'[top] == m[top].(parent := parent, left := node)
    && (moved != null ==> m'[moved] == m[moved].(parent := node))
    && (parent != null ==>
         m'[parent] == if m[parent].left == node then m[parent].(left := top) else m[parent].(right := top))
    && (forall n <- m :: n == node || n == top || n == moved || n == parent || m'[n] == m[n])
  }

  lemma SplitTurnsLeft<I>(m: Memory<I>, p: NodePath<I>, t: NodeTree<I>, root: Node?<I>)
    requires t.Fork? && t.right.Fork? && Split(m, p, t, t.id, root)
    ensures CanTurnLeft(m, t.id) && m[t.id].right == t.right.id && m[t.id].parent == ParentOf(p)
    ensures m[t.right.id].left == if t.right.left.Fork? then t.right.left.id else null
    ensures Linked(m, t.left, m[t.id].left, t.id)
    ensures Linked(m, t.right, t.right.id, t.id)
    ensures Linked(m, t.right.left, m[t.right.id].left, t.right.id)
    ensures Linked(m, t.right.right, m[t.right.id].right, t.right.id)
  {
    assert Linked(m, t.right, m[t.id].right, t.id);
    assert Linked(m, t.right.left, m[t.right.id].left, t.right.id);
    assert Distinct(t.right);
  }

  lemma TurnedLeftLinks<I>(m: Memory<I>, m': Memory<I>, p: NodePath<I>, t: NodeTree<I>, root: Node?<I>)
    requires t.Fork? && t.right.Fork? && Split(m, p, t, t.id, root)
    requires CanTurnLeft(m, t.id) && TurnsLeft(m, m', t.id)
    ensures Linked(m', t.left, m[t.id].left, t.id)
    ensures t.right.id in m && Linked(m', t.right.left, m[t.right.id].left, t.id)
    ensures Linked(m', t.right.right, m[t.right.id].right, t.right.id)
  {
    SplitTurnsLeft(m, p, t, root);
    var node, top := t.id, t.right.id;
    var a, b, c := t.left, t.right.left, t.right.right;
    assert Distinct(t.right);
    assert Distinct(b);
    assert !p.Top? ==> p.id !in Ids(t);
    assert Same(m, m', Ids(a)) && Same(m, m', Ids(c));
    LinkedFrame(m, m', a, m[node].left, node);
    LinkedReparent(m, m', b, m[top].left, top, node);
    LinkedFrame(m, m', c, m[top].right, top);
  }

  lemma TurnedLeftSplits<I>(m: Memory<I>, m': Memory<I>, p: NodePath<I>, t: NodeTree<I>, root: Node?<I>)
    requires t.Fork? && t.right.Fork? && Split(m, p, t, t.id, root)
    requires CanTurnLeft(m, t.id) && TurnsLeft(m, m', t.id)
    ensures Split(m', p, LeftRotated(t), t.right.id, if p.Top? then t.right.id else root)
  {
    SplitTurnsLeft(m, p, t, root);
    TurnedLeftLinks(m, m', p, t, root);
    var node, top := t.id, t.right.id;
    assert Distinct(t.right);
    assert Linked(m', LeftRotated(t).left, node, top);
    PathReplace(m, m', p, node, top, root, if p.Top? then top else root);
  }

  /** The neighbours that a right rotation at `node` writes to are there, and are different nodes. */
  ghost predicate CanTurnRight<I>(m: Memory<I>, node: Node<I>) {
    && node in m && m[node].left != null && m[node].left in m
    && var top, parent := m[node].left, m[node].parent;
    && top != node
    && (m[top].right != null ==>
          m[top].right in m && m[top].right != node && m[top].right != top && m[top].right != parent)
    && (parent != null ==> parent in m && parent != node && parent != top)
  }

  /** The link writes of a right rotation at `node`, and no others. */
  ghost predicate TurnsRight<I>(m: Memory<I>, m': Memory<I>, node: Node<I>)
    requires CanTurnRight(m, node)
  {
    var top, parent := m[node].left, m[node].parent;
    var moved := m[top].right;
    && m'.Keys == m.Keys
    && m'[node] == m[node].(parent := top, left := moved)
    && m'[top] == m[top].(parent := parent, right := node)
    && (moved != null ==> m'[moved] == m[moved].(parent := node))
    && (parent != null ==>
         m'[parent] == if m[parent].right == node then m[parent].(right := top) else m[parent].(left := top))
    && (forall n <- m :: n == node || n == top || n == moved || n == parent || m'[n] == m[n])
  }

  lemma SplitTurnsRight<I>(m: Memory<I>, p: NodePath<I>, t: NodeTree<I>, root: Node?<I>)
    requires t.Fork? && t.left.Fork? && Split(m, p, t, t.id, root)
    ensures CanTurnRight(m, t.id) && m[t.id].left == t.left.id && m[t.id].parent == ParentOf(p)
    ensures m[t.left.id].right == if t.left.right.Fork? then t.left.right.id else null
    ensures Linked(m, t.right, m[t.id].right, t.id)
    ensures Linked(m, t.left, t.left.id, t.id)
    ensures Linked(m, t.left.right, m[t.left.id].right, t.left.id)
    ensures Linked(m, t.left.left, m[t.left.id].left, t.left.id)
  {
    assert Linked(m, t.left, m[t.id].left, t.id);
    assert Linked(m, t.left.right, m[t.left.id].right, t.left.id);
    assert Distinct(t.left);
  }

  lemma TurnedRightLinks<I>(m: Memory<I>, m': Memory<I>, p: NodePath<I>, t: NodeTree<I>, root: Node?<I>)
    requires t.Fork? && t.left.Fork? && Split(m, p, t, t.id, root)
    requires CanTurnRight(m, t.id) && TurnsRight(m, m', t.id)
    ensures Linked(m', t.right, m[t.id].right, t.id)
    ensures t.left.id in m && Linked(m', t.left.right, m[t.left.id].right, t.id)
    ensures Linked(m', t.left.left, m[t.left.id].left, t.left.id)
  {
    SplitTurnsRight(m, p, t, root);
    var node, top := t.id, t.left.id;
    var a, b, c := t.right, t.left.right, t.left.left;
    assert Distinct(t.left);
    assert Distinct(b);
    assert !p.Top? ==> p.id !in Ids(t);
    assert Same(m, m', Ids(a)) && Same(m, m', Ids(c));
    LinkedFrame(m, m', a, m[node].right, node);
    LinkedReparent(m, m', b, m[top].right, top, node);
    LinkedFrame(m, m', c, m[top].left, top);
  }

  lemma TurnedRightSplits<I>(m: Memory<I>, m': Memory<I>, p: NodePath<I>, t: NodeTree<I>, root: Node?<I>)
    requires t.Fork? && t.left.Fork? && Split(m, p, t, t.id, root)
    requires CanTurnRight(m, t.id) && TurnsRight(m, m', t.id)
    ensures Split(m', p, RightRotated(t), t.left.id, if p.Top? then t.left.id else root)
  {
    SplitTurnsRight(m, p, t, root);
    TurnedRightLinks(m, m', p, t, root);
    var node, top := t.id, t.left.id;
    assert Distinct(t.left);
    assert Linked(m', RightRotated(t).right, node, top);
    PathReplace(m, m', p, node, top, root, if p.Top? then top else root);
  }

  /** Parent and uncle painted black, then the grandparent red. */
  lemma RecolouredSplits<I>(m: Memory<I>, m1: Memory<I>, m2: Memory<I>, m3: Memory<I>,
                            p: NodePath<I>, t: NodeTree<I>, n: Node<I>, root: Node?<I>)
    requires !p.Top? && !p.up.Top? && p.up.sib.Fork? && Split(m, p, t, n, root)
    requires Painted(m, m1, p.id, Black) && Painted(m1, m2, p.up.sib.id, Black) && Painted(m2, m3, p.up.id, Red)
    ensures Split(m3, p.up.up, Recoloured(p, t), p.up.id, root)
  {
    var p1, g2 := PaintNode(p, Black), PaintSib(p.up, Black);
    PaintedParent(m, m1, p, t, n, root, Black);
    SplitUp(m1, p1, t, n, root);
    PaintedSibling(m1, m2, p.up, Up(p1, t), p.id, root, Black);
    PaintedParent(m2, m3, g2, Up(p1, t), p.id, root, Red);
    SplitUp(m3, PaintNode(g2, Red), Up(p1, t), p.id, root);
  }

  /** The parent painted black, then the grandparent red. */
  lemma PaintedForTurn<I>(m: Memory<I>, m1: Memory<I>, m2: Memory<I>,
                          p: NodePath<I>, t: NodeTree<I>, n: Node<I>, root: Node?<I>)
    requires !p.Top? && !p.up.Top? && Split(m, p, t, n, root)
    requires Painted(m, m1, p.id, Black) && Painted(m1, m2, p.up.id, Red)
    ensures Split(m2, p.up.up, Up(PaintNode(p.up, Red), Up(PaintNode(p, Black), t)), p.up.id, root)
  {
    var p1 := PaintNode(p, Black);
    PaintedParent(m, m1, p, t, n, root, Black);
    SplitUp(m1, p1, t, n, root);
    PaintedParent(m1, m2, p.up, Up(p1, t), p.id, root, Red);
    SplitUp(m2, PaintNode(p.up, Red), Up(p1, t), p.id, root);
  }

  /** The links that rebalancing follows from `n`: to the parent, the grandparent and the uncle. */
  lemma SplitKin<I>(m: Memory<I>, p: NodePath<I>, t: NodeTree<I>, n: Node<I>, root: Node?<I>)
    requires Split(m, p, t, n, root) && !p.Top? && !p.up.Top? && t.Fork?
    ensures n == t.id && n in m && p.id in m && p.up.id in m && m[n].parent == p.id && m[p.id].parent == p.up.id
    ensures n != p.id && n != p.up.id && p.id != p.up.id
    ensures m[p.id].color == p.color && m[p.up.id].color == p.up.color
    ensures p.InLeft? <==> m[p.id].left == n
    ensures p.InRight? <==> m[p.id].right == n
    ensures p.up.InLeft? <==> m[p.up.id].left == p.id
    ensures (if p.up.InLeft? then m[p.up.id].right else m[p.up.id].left) ==
            if p.up.sib.Fork? then p.up.sib.id else null
    ensures p.up.sib.Fork? ==>
            p.up.sib.id in m && m[p.up.sib.id].color == p.up.sib.color &&
            p.up.sib.id != p.id && p.up.sib.id != p.up.id
  {
    SplitDown(m, p, t, n, root);
    SplitUp(m, p, t, n, root);
    SplitUp(m, p.up, Up(p, t), p.id, root);
  }

  lemma RootPaintedBlack<I>(m: Memory<I>, m': Memory<I>, t: NodeTree<I>, root: Node<I>)
    requires Split(m, Top, t, root, root) && Painted(m, m', root, Black)
    ensures Split(m', Top, Blackened(t), root, root) && Ids(Blackened(t)) == Ids(t)
  {
    LinkedFrame(m, m', t.left, m[root].left, root);
    LinkedFrame(m, m', t.right, m[root].right, root);
  }

  // ---------- The rotations of rebalancing ----------

  lemma TurnedOutSplits<I>(m: Memory<I>, m': Memory<I>, p: NodePath<I>, t: NodeTree<I>, root: Node?<I>, root': Node?<I>)
    requires !p.Top? && t.Fork? && Split(m, p.up, Up(p, t), p.id, root)
    requires p.InRight? ==> CanTurnLeft(m, p.id) && TurnsLeft(m, m', p.id)
    requires p.InLeft? ==> CanTurnRight(m, p.id) && TurnsRight(m, m', p.id)
    requires root' == if p.up.Top? then t.id else root
    ensures Split(m', TurnedOutPath(p, t), TurnedOut(p, t), p.id, root')
  {
    if p.InRight? {
      TurnedLeftSplits(m, m', p.up, Up(p, t), root);
      SplitDown(m', p.up, LeftRotated(Up(p, t)), t.id, root');
    } else {
      TurnedRightSplits(m, m', p.up, Up(p, t), root);
      SplitDown(m', p.up, RightRotated(Up(p, t)), t.id, root');
    }
  }

  lemma TurnedDownSplits<I>(m: Memory<I>, m': Memory<I>, p: NodePath<I>, t: NodeTree<I>,
                            root: Node?<I>, root': Node?<I>)
    requires !p.Top? && !p.up.Top? && t.Fork? && p.InLeft? == p.up.InLeft?
    requires Split(m, p.up.up, Up(PaintNode(p.up, Red), Up(PaintNode(p, Black), t)), p.up.id, root)
    requires p.InRight? ==> CanTurnLeft(m, p.up.id) && TurnsLeft(m, m', p.up.id)
    requires p.InLeft? ==> CanTurnRight(m, p.up.id) && TurnsRight(m, m', p.up.id)
    requires root' == if p.up.up.Top? then p.id else root
    ensures Split(m', TurnedDownPath(p), t, t.id, root')
  {
    var g := Up(PaintNode(p.up, Red), Up(PaintNode(p, Black), t));
    if p.InRight? {
      TurnedLeftSplits(m, m', p.up.up, g, root);
      SplitDown(m', p.up.up, LeftRotated(g), p.id, root');
    } else {
      TurnedRightSplits(m, m', p.up.up, g, root);
      SplitDown(m', p.up.up, RightRotated(g), p.id, root');
    }
  }

  // ---------- Patching ----------

  /** Both subtrees are patched already, and now the end of the range of `node` is rewritten. */
  lemma PatchedLinked<I>(m: Memory<I>, m': Memory<I>, t: NodeTree<I>, max: Addr, node: Node<I>, parent: Node?<I>)
    requires t.Fork? && t.id == node && Distinct(t) && node in m && node in m'
    requires m[node].color == t.color && m[node].range == t.range && m[node].parent == parent
    requires Linked(m, Patched(t.left, t.range.lo), m[node].left, node)
    requires Linked(m, Patched(t.right, max), m[node].right, node)
    requires m'[node] == m[node].(range := t.range.(hi := Pred(LowestOr(t.right, max))))
    requires Same(m, m', Ids(t) - {node})
    ensures Linked(m', Patched(t, max), node, parent)
  {
    PatchedShape(t.left, t.range.lo);
    PatchedShape(t.right, max);
    LinkedFrame(m, m', Patched(t.left, t.range.lo), m[node].left, node);
    LinkedFrame(m, m', Patched(t.right, max), m[node].right, node);
  }

  class AddrRangeMap<I> {
    var root: Node?<I>
    ghost var tree: NodeTree<I>
    ghost var nodes: set<Node<I>>

    ghost predicate Valid()
      reads this, nodes
    {
      nodes == Ids(tree) && Split(Snapshot(nodes), Top, tree, root, root) && RedBlack(tree)
    }

    constructor Init()
      ensures Valid() && tree == Leaf && nodes == {}
    {
      root, tree, nodes := null, Leaf, {};
    }

    method LeftRotate(node: Node<I>)
      requires CanTurnLeft(Snapshot(nodes), node)
      modifies this`root, nodes
      ensures TurnsLeft(old(Snapshot(nodes)), Snapshot(nodes), node)
      ensures root == if old(node.parent) == null then old(node.rightChild) else old(root)
    {
      var oldRightChild := node.rightChild;
      node.rightChild := oldRightChild.leftChild;
      if oldRightChild.leftChild != null {
        oldRightChild.leftChild.parent := node;
      }
      oldRightChild.parent := node.parent;
      if node.parent == null {
        root := oldRightChild;
      } else if node == node.parent.leftChild {
        node.parent.leftChild := oldRightChild;
      } else {
        node.parent.rightChild := oldRightChild;
      }
      oldRightChild.leftChild := node;
      node.parent := oldRightChild;
    }

    method RightRotate(node: Node<I>)
      requires CanTurnRight(Snapshot(nodes), node)
      modifies this`root, nodes
      ensures TurnsRight(old(Snapshot(nodes)), Snapshot(nodes), node)
      ensures root == if old(node.parent) == null then old(node.leftChild) else old(root)
    {
      var oldLeftChild := node.leftChild;
      node.leftChild := oldLeftChild.rightChild;
      if oldLeftChild.rightChild != null {
        oldLeftChild.rightChild.parent := node;
      }
      oldLeftChild.parent := node.parent;
      if node.parent == null {
        root := oldLeftChild;
      } else if node == node.parent.rightChild {
        node.parent.rightChild := oldLeftChild;
      } else {
        node.parent.leftChild := oldLeftChild;
      }
      oldLeftChild.rightChild := node;
      node.parent := oldLeftChild;
    }

    // ---------- Adding ----------

    /** The descent of `Add`: where a new range belongs, or that it overlaps a stored one. */
    method FindPlace(lowAddr: Addr, highAddr: Addr, ghost x: Range<I>)
      returns (overlaps: bool, parent: Node?<I>, asLeft: bool, ghost p: NodePath<I>)
      requires Valid() && x.lo == lowAddr && x.hi == highAddr
      ensures PlaceBelow(Top, tree, x) == if overlaps then None else Some(p)
      ensures !overlaps ==> Split(Snapshot(nodes), p, Leaf, null, root) && parent == ParentOf(p) && asLeft == p.InLeft?
    {
      ghost var m := Snapshot(nodes);
      ghost var t := tree;
      p := Top;
      overlaps, parent, asLeft := false, null, false;
      var currNode := root;
      while currNode != null
        invariant Split(m, p, t, currNode, root)
        invariant PlaceBelow(Top, tree, x) == PlaceBelow(p, t, x)
        invariant parent == ParentOf(p) && asLeft == p.InLeft?
        invariant !overlaps
        decreases t
      {
        SplitDown(m, p, t, currNode, root);
        if highAddr <= currNode.lowAddr {
          parent, asLeft := currNode, true;
          p, t := InLeft(t.id, t.color, t.range, t.right, p), t.left;
          currNode := currNode.leftChild;
        } else if lowAddr >= currNode.highAddr {
          parent, asLeft := currNode, false;
          p, t := InRight(t.id, t.color, t.range, t.left, p), t.right;
          currNode := currNode.rightChild;
        } else {
          overlaps := true;
          return;
        }
      }
    }

    // ---------- Rebalancing ----------

    /** Red uncle: parent and uncle turn black, the grandparent red. */
    method Recolour(parent: Node<I>, uncle: Node<I>, grandparent: Node<I>)
      returns (ghost m1: Memory<I>, ghost m2: Memory<I>)
      requires parent in nodes && uncle in nodes && grandparent in nodes
      modifies parent, uncle, grandparent
      ensures Painted(old(Snapshot(nodes)), m1, parent, Black) && Painted(m1, m2, uncle, Black)
      ensures Painted(m2, Snapshot(nodes), grandparent, Red)
    {
      parent.color := Black;
      m1 := Snapshot(nodes);
      uncle.color := Black;
      m2 := Snapshot(nodes);
      grandparent.color := Red;
    }

    /** Before the grandparent turns down: the parent turns black, the grandparent red. */
    method PaintForTurn(parent: Node<I>, grandparent: Node<I>) returns (ghost m1: Memory<I>)
      requires parent in nodes && grandparent in nodes
      modifies parent, grandparent
      ensures Painted(old(Snapshot(nodes)), m1, parent, Black)
      ensures Painted(m1, Snapshot(nodes), grandparent, Red)
    {
      parent.color := Black;
      m1 := Snapshot(nodes);
      grandparent.color := Red;
    }

    /** What holds whenever the rebalancing loop tests its condition. */
    ghost predicate Rebalancing(currNode: Node?<I>, p: NodePath<I>, t: NodeTree<I>)
      reads this, nodes
    {
      nodes == AllIds(p, t) && Split(Snapshot(nodes), p, t, currNode, root) && AlmostRedBlack(p, t)
    }

    /** An inner grandchild changes places with its parent, which becomes the current node. */
    method TurnOutward(node: Node<I>, left: bool, ghost p: NodePath<I>, ghost t: NodeTree<I>)
      returns (currNode: Node<I>)
      requires Rebalancing(node, p, t) && PathRed(p) && left == p.InRight?
      modifies this`root, nodes
      ensures Rebalancing(currNode, TurnedOutPath(p, t), TurnedOut(p, t))
    {
      SplitKin(Snapshot(nodes), p, t, node, root);
      SplitUp(Snapshot(nodes), p, t, node, root);
      currNode := node.parent;
      TurnParent(currNode, left, p, t);
      TurnOutShape(p, t);
      TurnOutOrder(p, t);
    }

    method TurnParent(parent: Node<I>, left: bool, ghost p: NodePath<I>, ghost t: NodeTree<I>)
      requires !p.Top? && t.Fork? && parent == p.id && nodes == AllIds(p, t) && left == p.InRight?
      requires Split(Snapshot(nodes), p.up, Up(p, t), parent, root)
      modifies this`root, nodes
      ensures Split(Snapshot(nodes), TurnedOutPath(p, t), TurnedOut(p, t), parent, root)
    {
      ghost var m, r := Snapshot(nodes), root;
      if left {
        SplitTurnsLeft(m, p.up, Up(p, t), root);
        LeftRotate(parent);
      } else {
        SplitTurnsRight(m, p.up, Up(p, t), root);
        RightRotate(parent);
      }
      TurnedOutSplits(m, Snapshot(nodes), p, t, r, root);
    }

    /** The parent turns black and the grandparent red, seen from the grandparent. */
    method PaintKin(node: Node<I>, ghost p: NodePath<I>, ghost t: NodeTree<I>) returns (grandparent: Node<I>)
      requires Rebalancing(node, p, t) && PathRed(p)
      modifies nodes
      ensures grandparent == p.up.id
      ensures Split(Snapshot(nodes), p.up.up, Up(PaintNode(p.up, Red), Up(PaintNode(p, Black), t)), grandparent, root)
    {
      ghost var m := Snapshot(nodes);
      SplitKin(m, p, t, node, root);
      grandparent := node.parent.parent;
      ghost var m1 := PaintForTurn(node.parent, grandparent);
      PaintedForTurn(m, m1, Snapshot(nodes), p, t, node, root);
    }

    /** The grandparent of an outer grandchild turns down, below the parent. */
    method TurnDown(node: Node<I>, left: bool, ghost p: NodePath<I>, ghost t: NodeTree<I>)
      requires Rebalancing(node, p, t) && PathRed(p) && !IsRed(p.up.sib)
      requires left == p.InRight? && p.InRight? == p.up.InRight?
      modifies this`root, nodes
      ensures Rebalancing(node, TurnedDownPath(p), t)
    {
      TurnDownShape(p, t);
      TurnDownOrder(p, t);
      var grandparent := PaintKin(node, p, t);
      TurnGrandparent(grandparent, left, p, t);
    }

    method TurnGrandparent(grandparent: Node<I>, left: bool, ghost p: NodePath<I>, ghost t: NodeTree<I>)
      requires !p.Top? && !p.up.Top? && t.Fork? && grandparent == p.up.id && nodes == AllIds(p, t)
      requires left == p.InRight? && p.InRight? == p.up.InRight?
      requires Split(Snapshot(nodes), p.up.up, Up(PaintNode(p.up, Red), Up(PaintNode(p, Black), t)), grandparent, root)
      modifies this`root, nodes
      ensures Split(Snapshot(nodes), TurnedDownPath(p), t, t.id, root)
    {
      ghost var m, r, g := Snapshot(nodes), root, Up(PaintNode(p.up, Red), Up(PaintNode(p, Black), t));
      if left {
        SplitTurnsLeft(m, p.up.up, g, root);
        LeftRotate(grandparent);
      } else {
        SplitTurnsRight(m, p.up.up, g, root);
        RightRotate(grandparent);
      }
      TurnedDownSplits(m, Snapshot(nodes), p, t, r, root);
    }

    /** The parent is red and the uncle is not: one or two rotations end the rebalancing.
        `underLeft` tells whether the parent is a left child. */
    method Turn(node: Node<I>, underLeft: bool, ghost p0: NodePath<I>, ghost t0: NodeTree<I>)
      returns (currNode: Node<I>, ghost p: NodePath<I>, ghost t: NodeTree<I>)
      requires Rebalancing(node, p0, t0) && PathRed(p0) && !IsRed(p0.up.sib) && underLeft == p0.up.InLeft?
      modifies this`root, nodes
      ensures Rebalancing(currNode, p, t) && !PathRed(p) && InOrder(p, t) == InOrder(p0, t0)
      ensures StaysBare(p0, t0, p, t) && p == TurnedDownPath(OuterPath(p0, t0)) && t == Outer(p0, t0)
    {
      currNode := node;
      p, t := p0, t0;
      SplitKin(Snapshot(nodes), p, t, currNode, root);
      var inner := currNode == if underLeft then currNode.parent.rightChild else currNode.parent.leftChild;
      if inner {
        TurnOutShape(p, t);
        TurnOutOrder(p, t);
        TurnedOutBare(p, t);
        currNode := TurnOutward(currNode, underLeft, p, t);
        p, t := TurnedOutPath(p, t), TurnedOut(p, t);
      }
      TurnDownShape(p, t);
      TurnDownOrder(p, t);
      TurnedDownBare(p, t);
      TurnDown(currNode, !underLeft, p, t);
      p := TurnedDownPath(p);
    }

    /** The parent and the uncle are red: both turn black, and the grandparent is looked at next. */
    method Climb(node: Node<I>, uncleNode: Node<I>, ghost p: NodePath<I>, ghost t: NodeTree<I>)
      returns (currNode: Node<I>)
      requires Rebalancing(node, p, t) && PathRed(p) && IsRed(p.up.sib) && uncleNode == p.up.sib.id
      modifies nodes
      ensures Rebalancing(currNode, p.up.up, Recoloured(p, t))
    {
      ghost var m := Snapshot(nodes);
      SplitKin(m, p, t, node, root);
      currNode := node.parent.parent;
      ghost var m1, m2 := Recolour(node.parent, uncleNode, currNode);
      RecolouredSplits(m, m1, m2, Snapshot(nodes), p, t, node, root);
      RecolourShape(p, t);
      RecolourOrder(p, t);
    }

    /** What the loop condition reads of the memory around `currNode`. */
    ghost predicate Focused(currNode: Node<I>, p: NodePath<I>)
      reads this, currNode, PathIds(p)
    {
      && (p.Top? <==> currNode == root)
      && currNode.parent == ParentOf(p)
      && (!p.Top? ==> currNode.parent.color == p.color)
    }

    lemma SplitFocused(currNode: Node<I>, p: NodePath<I>, t: NodeTree<I>)
      requires Rebalancing(currNode, p, t)
      ensures Focused(currNode, p)
    {
      SplitDown(Snapshot(nodes), p, t, currNode, root);
      SplitRoot(Snapshot(nodes), p, t, currNode, root);
      if !p.Top? { SplitUp(Snapshot(nodes), p, t, currNode, root); }
    }

    /** One iteration of the rebalancing loop. */
    method Step(node: Node<I>, ghost p0: NodePath<I>, ghost t0: NodeTree<I>)
      returns (currNode: Node<I>, ghost p: NodePath<I>, ghost t: NodeTree<I>)
      requires Rebalancing(node, p0, t0) && PathRed(p0)
      modifies this`root, nodes
      ensures Rebalancing(currNode, p, t) && InOrder(p, t) == InOrder(p0, t0) && StaysBare(p0, t0, p, t)
      ensures Measure(p) < Measure(p0) && Rebalanced(p, t) == Rebalanced(p0, t0)
    {
      SplitKin(Snapshot(nodes), p0, t0, node, root);
      var underLeft := node.parent == node.parent.parent.leftChild;
      var uncleNode := if underLeft then node.parent.parent.rightChild else node.parent.parent.leftChild;
      if uncleNode != null && uncleNode.color == Red {
        RecolourShape(p0, t0);
        RecolourOrder(p0, t0);
        RecolouredBare(p0, t0);
        currNode := Climb(node, uncleNode, p0, t0);
        p, t := p0.up.up, Recoloured(p0, t0);
      } else {
        currNode, p, t := Turn(node, underLeft, p0, t0);
      }
    }

    method Rebalance(newEntry: Node<I>, ghost p0: NodePath<I>, ghost t0: NodeTree<I>)
      requires Rebalancing(newEntry, p0, t0)
      modifies this`root, this`tree, nodes
      ensures Valid() && Ranges(tree) == InOrder(p0, t0) && tree == Rebalanced(p0, t0)
      ensures LeftmostBare(Plug(p0, t0)) ==> LeftmostBare(tree)
    {
      var currNode := newEntry;
      ghost var p, t := p0, t0;
      SplitFocused(currNode, p, t);
      while currNode != root && currNode.parent.color == Red
        invariant Rebalancing(currNode, p, t) && InOrder(p, t) == InOrder(p0, t0) && StaysBare(p0, t0, p, t)
        invariant Focused(currNode, p) && Rebalanced(p, t) == Rebalanced(p0, t0)
        decreases Measure(p)
      {
        currNode, p, t := Step(currNode, p, t);
        SplitFocused(currNode, p, t);
      }
      Finish(currNode, p, t);
      BlackenedBare(Plug(p, t));
    }

    /** The root is painted black, which matters only when the new red node has become the root. */
    method Finish(ghost currNode: Node<I>, ghost p: NodePath<I>, ghost t: NodeTree<I>)
      requires Rebalancing(currNode, p, t) && !PathRed(p)
      modifies this`tree, nodes
      ensures Valid() && Ranges(tree) == InOrder(p, t) && tree == Blackened(Plug(p, t))
    {
      ghost var m := Snapshot(nodes);
      SplitIsWhole(m, p, t, currNode, root);
      BlackenedIsRedBlack(p, t);
      tree := Blackened(Plug(p, t));
      root.color := Black;
      RootPaintedBlack(m, Snapshot(nodes), Plug(p, t), root);
    }

    /** The new node hung at its place in the tree, still red. */
    method Attach(newEntry: Node<I>, parent: Node?<I>, asLeft: bool, ghost x: Range<I>, ghost p: NodePath<I>)
      requires nodes == PathIds(p) && newEntry !in nodes && CellOf(newEntry) == Cell(Red, x, null, null, null)
      requires Split(Snapshot(nodes), p, Leaf, null, root) && parent == ParentOf(p) && asLeft == p.InLeft?
      modifies this`root, this`nodes, nodes, newEntry
      ensures nodes == AllIds(p, Fork(newEntry, Red, x, Leaf, Leaf)) && nodes == old(nodes) + {newEntry}
      ensures Split(Snapshot(nodes), p, Fork(newEntry, Red, x, Leaf, Leaf), newEntry, root)
    {
      ghost var m, r := Snapshot(nodes), root;
      if parent == null {
        root := newEntry;
      } else if asLeft {
        parent.leftChild := newEntry;
        newEntry.parent := parent;
      } else {
        parent.rightChild := newEntry;
        newEntry.parent := parent;
      }
      nodes := nodes + {newEntry};
      AttachedSplits(m, Snapshot(nodes), p, newEntry, x, r, root);
    }

    /** Adds a range, unless it overlaps a stored one: then the original aborts, and nothing has
        been written to the tree. */
    method Add(lowAddr: Addr, highAddr: Addr, info: I) returns (ok: bool)
      requires Valid() && Sorted(Ranges(tree)) && lowAddr <= highAddr
      modifies this, nodes
      ensures Valid() && Sorted(Ranges(tree)) && fresh(nodes - old(nodes))
      ensures ok <==> Accepts(old(Ranges(tree)), Range(lowAddr, highAddr, info))
      ensures ok ==> Ranges(tree) == InsertRange(old(Ranges(tree)), Range(lowAddr, highAddr, info))
      ensures ok ==> Some(Shape(tree)) == Added(old(Shape(tree)), (), Range(lowAddr, highAddr, info))
      ensures ok && StaysFirst(old(tree), Range(lowAddr, highAddr, info)) ==> LeftmostBare(tree)
      ensures !ok ==> tree == old(tree) && nodes == old(nodes) && Snapshot(nodes) == old(Snapshot(nodes))
    {
      ghost var x := Range(lowAddr, highAddr, info);
      var newEntry := new Node(lowAddr, highAddr, info);
      PlaceIsInsertion(tree, x);
      var overlaps, parent, asLeft, p := FindPlace(lowAddr, highAddr, x);
      if overlaps {
        return false;
      }
      InsertRangeSorted(Ranges(tree), x);
      NewLeaf(tree, p, newEntry, x);
      AddedFirst(tree, p, newEntry, x);
      Attach(newEntry, parent, asLeft, x, p);
      ShapeAdded(tree, newEntry, x);
      Rebalance(newEntry, p, Fork(newEntry, Red, x, Leaf, Leaf));
      ok := true;
    }

    // ---------- Finding ----------

    /** The information of a range that contains the address. `steps` counts the iterations. */
    method Find(addr: Addr) returns (ret: Option<I>, ghost steps: nat)
      requires Valid()
      ensures ret == Lookup(tree, addr)
      ensures ret.Some? ==> exists p, u :: Uppermost(tree, p, u, addr, ret.value)
      ensures Pow2(steps) <= (|Ranges(tree)| + 1) * (|Ranges(tree)| + 1)
    {
      ghost var m, t, parent := Snapshot(nodes), tree, null;
      ret, steps := None, 0;
      var currNode := root;
      while currNode != null
        invariant Linked(m, t, currNode, parent) && Ids(t) <= nodes
        invariant ret.None? && Lookup(tree, addr) == Lookup(t, addr)
        invariant steps + Height(t) <= Height(tree)
        decreases t
      {
        steps, parent := steps + 1, currNode;
        if addr < currNode.lowAddr {
          currNode, t := currNode.leftChild, t.left;
        } else if addr > currNode.highAddr {
          currNode, t := currNode.rightChild, t.right;
        } else {
          ret := Some(currNode.info);
          break;
        }
      }
      LookupIsUppermost(tree, addr);
      HeightBound(tree);
      Pow2Monotone(steps, Height(tree));
    }

    // ---------- Patching ----------

    /** Patches the subtree at `node`, below `maxAddress`; returns its lowest address. */
    method PatchRangesAux(node: Node<I>, maxAddress: Addr, ghost t: NodeTree<I>, ghost parent: Node?<I>)
      returns (ret: Addr)
      requires t.Fork? && Distinct(t) && Ids(t) <= nodes && Linked(Snapshot(nodes), t, node, parent)
      modifies Ids(t)`highAddr
      ensures Linked(Snapshot(nodes), Patched(t, maxAddress), node, parent)
      ensures ret == LowestOr(t, maxAddress)
      decreases t, 1
    {
      ghost var m := Snapshot(nodes);
      if node.leftChild != null {
        ret := PatchRangesAux(node.leftChild, node.lowAddr, t.left, node);
      } else {
        ret := node.lowAddr;
      }
      LinkedFrame(m, Snapshot(nodes), t.right, node.rightChild, node);
      PatchRight(node, maxAddress, t, parent);
    }

    /** The left subtree is patched already. */
    method PatchRight(node: Node<I>, maxAddress: Addr, ghost t: NodeTree<I>, ghost parent: Node?<I>)
      requires t.Fork? && Distinct(t) && Ids(t) <= nodes && t.id == node
      requires node.color == t.color && node.parent == parent
      requires Range(node.lowAddr, node.highAddr, node.info) == t.range
      requires Linked(Snapshot(nodes), Patched(t.left, t.range.lo), node.leftChild, node)
      requires Linked(Snapshot(nodes), t.right, node.rightChild, node)
      modifies Ids(t.right)`highAddr, node`highAddr
      ensures Linked(Snapshot(nodes), Patched(t, maxAddress), node, parent)
      decreases t, 0
    {
      ghost var m := Snapshot(nodes);
      var max := maxAddress;
      if node.rightChild != null {
        max := PatchRangesAux(node.rightChild, maxAddress, t.right, node);
      }
      ghost var m2 := Snapshot(nodes);
      PatchedShape(t.left, node.lowAddr);
      LinkedFrame(m, m2, Patched(t.left, node.lowAddr), node.leftChild, node);
      node.highAddr := Pred(max);
      PatchedLinked(m2, Snapshot(nodes), t, maxAddress, node, parent);
    }

    /** Makes every range end just below the next one. */
    method PatchRanges()
      requires Valid()
      modifies this`tree, nodes
      ensures Valid() && Ranges(tree) == PatchSeq(old(Ranges(tree)), MAX_ADDR)
      ensures tree == Patched(old(tree), MAX_ADDR)
    {
      PatchedRanges(tree, MAX_ADDR);
      PatchedShape(tree, MAX_ADDR);
      if root != null {
        var _ := PatchRangesAux(root, MAX_ADDR, tree, null);
      }
      tree := Patched(tree, MAX_ADDR);
    }
  }
}
