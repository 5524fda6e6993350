/** The value an address-range tree stands for: its shape, colours and ranges, without the heap.
    `N` is the type of node identities and `I` the type of the attached information. */
module RangeTree {
  import opened Options

  /** `Dwarf_Addr` is an unsigned 64-bit integer. */
  const ADDR_LIMIT: int := 0x1_0000_0000_0000_0000

  type Addr = a: int | 0 <= a < ADDR_LIMIT witness 0

  /** `maxAddress`, the complement of zero. */
  const MAX_ADDR: Addr := 0xFFFF_FFFF_FFFF_FFFF

  datatype Color = Red | Black

  datatype Range<+I> = Range(lo: Addr, hi: Addr, info: I)

  datatype Tree<+N, +I> =
    | Leaf
    | Fork(id: N, color: Color, range: Range<I>, left: Tree<N, I>, right: Tree<N, I>)

  // ---------- What a tree contains ----------

  ghost function Ids<N, I>(t: Tree<N, I>): set<N> {
    match t
    case Leaf => {}
    case Fork(id, _, _, l, r) => {id} + Ids(l) + Ids(r)
  }

  ghost predicate Distinct<N, I>(t: Tree<N, I>) {
    match t
    case Leaf => true
    case Fork(id, _, _, l, r) =>
      id !in Ids(l) && id !in Ids(r) && Ids(l) !! Ids(r) && Distinct(l) && Distinct(r)
  }

  function Ranges<N, I>(t: Tree<N, I>): seq<Range<I>> {
    match t
    case Leaf => []
    case Fork(_, _, rg, l, r) => Ranges(l) + [rg] + Ranges(r)
  }

  // ---------- Red-black shape ----------

  function BlackHeight<N, I>(t: Tree<N, I>): nat {
    match t
    case Leaf => 0
    case Fork(_, c, _, l, _) => BlackHeight(l) + if c.Black? then 1 else 0
  }

  /** Every path from the root of `t` down to a leaf meets the same number of black nodes. */
  predicate Balanced<N, I>(t: Tree<N, I>) {
    match t
    case Leaf => true
    case Fork(_, _, _, l, r) => Balanced(l) && Balanced(r) && BlackHeight(l) == BlackHeight(r)
  }

  predicate IsRed<N, I>(t: Tree<N, I>) {
    t.Fork? && t.color.Red?
  }

  /** No red node has a red child. */
  predicate NoRedRed<N, I>(t: Tree<N, I>) {
    match t
    case Leaf => true
    case Fork(_, c, _, l, r) => NoRedRed(l) && NoRedRed(r) && (c.Red? ==> !IsRed(l) && !IsRed(r))
  }

  predicate RedBlack<N, I>(t: Tree<N, I>) {
    Balanced(t) && NoRedRed(t) && !IsRed(t)
  }

  // ---------- The way down to a subtree ----------

  /** What surrounds a subtree: the frames from its parent up to the root.
      `InLeft` means the subtree is the left child of node `id`, whose right child is `sib`. */
  datatype Path<+N, +I> =
    | Top
    | InLeft(id: N, color: Color, range: Range<I>, sib: Tree<N, I>, up: Path<N, I>)
    | InRight(id: N, color: Color, range: Range<I>, sib: Tree<N, I>, up: Path<N, I>)

  ghost function PathIds<N, I>(p: Path<N, I>): set<N> {
    if p.Top? then {} else {p.id} + Ids(p.sib) + PathIds(p.up)
  }

  ghost predicate PathDistinct<N, I>(p: Path<N, I>) {
    p.Top? ||
    (p.id !in Ids(p.sib) && p.id !in PathIds(p.up) && Ids(p.sib) !! PathIds(p.up) &&
     Distinct(p.sib) && PathDistinct(p.up))
  }

  function Plug<N, I>(p: Path<N, I>, t: Tree<N, I>): Tree<N, I> {
    match p
    case Top => t
    case InLeft(id, c, rg, sib, up) => Plug(up, Fork(id, c, rg, t, sib))
    case InRight(id, c, rg, sib, up) => Plug(up, Fork(id, c, rg, sib, t))
  }

  /** The ranges that stand before, and after, the subtree in in-order. */
  ghost function Before<N, I>(p: Path<N, I>): seq<Range<I>> {
    match p
    case Top => []
    case InLeft(_, _, _, _, up) => Before(up)
    case InRight(_, _, rg, sib, up) => Before(up) + Ranges(sib) + [rg]
  }

  ghost function After<N, I>(p: Path<N, I>): seq<Range<I>> {
    match p
    case Top => []
    case InLeft(_, _, rg, sib, up) => [rg] + Ranges(sib) + After(up)
    case InRight(_, _, _, _, up) => After(up)
  }

  /** The path with its lowest node, or that node's other child, in colour `c`. */
  function PaintNode<N, I>(p: Path<N, I>, c: Color): Path<N, I>
    requires !p.Top?
  {
    if p.InLeft? then InLeft(p.id, c, p.range, p.sib, p.up) else InRight(p.id, c, p.range, p.sib, p.up)
  }

  function PaintSib<N, I>(p: Path<N, I>, c: Color): Path<N, I>
    requires !p.Top? && p.sib.Fork?
  {
    var sib := Fork(p.sib.id, c, p.sib.range, p.sib.left, p.sib.right);
    if p.InLeft? then InLeft(p.id, p.color, p.range, sib, p.up) else InRight(p.id, p.color, p.range, sib, p.up)
  }

  function Depth<N, I>(p: Path<N, I>): nat {
    if p.Top? then 0 else 1 + Depth(p.up)
  }

  predicate PathRed<N, I>(p: Path<N, I>) {
    !p.Top? && p.color.Red?
  }

  /** Filling the hole with a balanced tree of black height `h` gives a balanced tree. */
  ghost predicate PathBalanced<N, I>(p: Path<N, I>, h: nat) {
    p.Top? ||
    (Balanced(p.sib) && BlackHeight(p.sib) == h &&
     PathBalanced(p.up, h + if p.color.Black? then 1 else 0))
  }

  /** No red node has a red child among the nodes of the path, and the root is black. */
  ghost predicate PathNoRedRed<N, I>(p: Path<N, I>) {
    p.Top? ||
    (NoRedRed(p.sib) && PathNoRedRed(p.up) &&
     (p.color.Red? ==> !IsRed(p.sib) && !p.up.Top? && p.up.color.Black?))
  }

  lemma {:induction false} PlugRanges<N, I>(p: Path<N, I>, t: Tree<N, I>)
    ensures Ranges(Plug(p, t)) == Before(p) + Ranges(t) + After(p)
    decreases p
  {
    match p
    case Top =>
    case InLeft(id, c, rg, sib, up) => PlugRanges(up, Fork(id, c, rg, t, sib));
    case InRight(id, c, rg, sib, up) => PlugRanges(up, Fork(id, c, rg, sib, t));
  }

  lemma {:induction false} PlugIds<N, I>(p: Path<N, I>, t: Tree<N, I>)
    ensures Ids(Plug(p, t)) == PathIds(p) + Ids(t)
    ensures Distinct(Plug(p, t)) <==> PathDistinct(p) && Distinct(t) && PathIds(p) !! Ids(t)
    decreases p
  {
    match p
    case Top =>
    case InLeft(id, c, rg, sib, up) => PlugIds(up, Fork(id, c, rg, t, sib));
    case InRight(id, c, rg, sib, up) => PlugIds(up, Fork(id, c, rg, sib, t));
  }

  /** Shape facts about the whole tree, split at the hole. */
  lemma {:induction false} PlugShape<N, I>(p: Path<N, I>, t: Tree<N, I>)
    ensures Balanced(Plug(p, t)) <==> Balanced(t) && PathBalanced(p, BlackHeight(t))
    ensures NoRedRed(Plug(p, t)) && !IsRed(Plug(p, t)) <==>
            NoRedRed(t) && PathNoRedRed(p) && (IsRed(t) ==> !p.Top? && !PathRed(p))
    decreases p
  {
    match p
    case Top =>
    case InLeft(id, c, rg, sib, up) => PlugShape(up, Fork(id, c, rg, t, sib));
    case InRight(id, c, rg, sib, up) => PlugShape(up, Fork(id, c, rg, sib, t));
  }
}
