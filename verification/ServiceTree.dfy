/** The active tree of a B-WF2Q+ service tree (block/bfq-wf2q.c): a search tree
    ordered by finish time in which every node also carries the smallest start
    time of its subtree. */
module ServiceTree {
  import opened Options

  // ------------------------------------------------------------- timestamps

  const U64: nat := 0x1_0000_0000_0000_0000
  const HALF: nat := 0x8000_0000_0000_0000

  /** bfq_gt: (s64)(a - b) > 0 on 64-bit words. */
  predicate Gt(a: nat, b: nat) {
    0 < (a - b) % U64 < HALF
  }

  /** How far a timestamp lies ahead of `base`. */
  function Ahead(base: nat, x: nat): nat {
    (x - base) % U64
  }

  /** A 64-bit timestamp less than half the range ahead of `base`. */
  predicate InWindow(base: nat, x: nat) {
    x < U64 && Ahead(base, x) < HALF
  }

  /** Within a window of half the range the wrapping comparison is an order. */
  lemma GtIsOrder(base: nat, a: nat, b: nat)
    requires InWindow(base, a) && InWindow(base, b)
    ensures Gt(a, b) <==> Ahead(base, a) > Ahead(base, b)
    ensures Ahead(base, a) == Ahead(base, b) <==> a == b
  {
    var x, y := Ahead(base, a), Ahead(base, b);
    var p, q := (a - base) / U64, (b - base) / U64;
    assert a - base == U64 * p + x && b - base == U64 * q + y;
    assert a - b == U64 * (p - q) + (x - y);
    if x >= y {
      assert (a - b) % U64 == x - y;
    } else {
      assert (a - b) % U64 == x - y + U64;
    }
  }

  // ------------------------------------------------------------- trees

  datatype Entity = Entity(id: nat, start: nat, finish: nat)

  datatype Tree = Nil | Node(left: Tree, e: Entity, min: nat, right: Tree)

  function InOrder(t: Tree): seq<Entity> {
    match t
    case Nil => []
    case Node(l, e, _, r) => InOrder(l) + [e] + InOrder(r)
  }

  ghost predicate Windowed(base: nat, s: seq<Entity>) {
    forall i :: 0 <= i < |s| ==> InWindow(base, s[i].start)
  }

  /** `m` is the smallest start time among `s`. */
  ghost predicate IsMin(s: seq<Entity>, m: nat) {
    && (exists i :: 0 <= i < |s| && s[i].start == m)
    && (forall i :: 0 <= i < |s| ==> !Gt(m, s[i].start))
  }

  /** Every node's min_start is the smallest start of its whole subtree. */
  ghost predicate MinsOk(t: Tree) {
    t.Node? ==> IsMin(InOrder(t), t.min) && MinsOk(t.left) && MinsOk(t.right)
  }

  /** bfq_update_min */
  function LowerBy(m: nat, child: Tree): nat {
    if child.Node? && Gt(m, child.min) then child.min else m
  }

  /** bfq_update_active_node */
  function UpdateNode(t: Tree): Tree {
    if t.Nil? then t
    else t.(min := LowerBy(LowerBy(t.e.start, t.right), t.left))
  }

  /** A node whose children are right, and which may itself be stale. */
  ghost predicate ChildrenOk(t: Tree) {
    t.Node? ==> MinsOk(t.left) && MinsOk(t.right)
  }

  lemma LowerByOk(base: nat, m: nat, s: seq<Entity>, child: Tree)
    requires IsMin(s, m) && MinsOk(child) && Windowed(base, s) && Windowed(base, InOrder(child))
    ensures IsMin(s + InOrder(child), LowerBy(m, child)) && IsMin(InOrder(child) + s, LowerBy(m, child))
  {
    var c := InOrder(child);
    var n := LowerBy(m, child);
    var i :| 0 <= i < |s| && s[i].start == m;
    if child.Node? {
      var j :| 0 <= j < |c| && c[j].start == child.min;
      GtIsOrder(base, m, child.min);
      assert (s + c)[|s| + j].start == child.min && (c + s)[j].start == child.min;
      forall k | 0 <= k < |s| ensures !Gt(n, s[k].start) {
        GtIsOrder(base, m, s[k].start);
        GtIsOrder(base, child.min, s[k].start);
      }
      forall k | 0 <= k < |c| ensures !Gt(n, c[k].start) {
        GtIsOrder(base, m, c[k].start);
        GtIsOrder(base, child.min, c[k].start);
      }
    } else {
      assert s + c == s && c + s == s;
    }
    assert (s + c)[i].start == m && (c + s)[|c| + i].start == m;
  }

  lemma WindowedParts(base: nat, a: seq<Entity>, b: seq<Entity>)
    ensures Windowed(base, a + b) <==> Windowed(base, a) && Windowed(base, b)
  {
    var s := a + b;
    if Windowed(base, s) {
      assert forall i :: 0 <= i < |a| ==> a[i] == s[i];
      assert forall i :: 0 <= i < |b| ==> b[i] == s[|a| + i];
    }
  }

  lemma WindowedAround(base: nat, l: seq<Entity>, e: Entity, r: seq<Entity>)
    requires Windowed(base, l + [e] + r)
    ensures Windowed(base, l) && InWindow(base, e.start) && Windowed(base, r)
  {
    WindowedParts(base, l + [e], r);
    WindowedParts(base, l, [e]);
    assert [e][0] == e;
  }

  lemma UpdatedMin(base: nat, left: Tree, e: Entity, right: Tree)
    requires MinsOk(left) && MinsOk(right)
    requires Windowed(base, InOrder(left)) && InWindow(base, e.start) && Windowed(base, InOrder(right))
    ensures IsMin(InOrder(left) + [e] + InOrder(right), LowerBy(LowerBy(e.start, right), left))
  {
    ConcatAssoc(InOrder(left), [e], InOrder(right));
    assert IsMin([e], e.start) by { assert [e][0].start == e.start; }
    LowerByOk(base, e.start, [e], right);
    WindowedParts(base, [e], InOrder(right));
    LowerByOk(base, LowerBy(e.start, right), [e] + InOrder(right), left);
  }

  lemma UpdateNodeOk(base: nat, t: Tree)
    requires ChildrenOk(t) && Windowed(base, InOrder(t))
    ensures MinsOk(UpdateNode(t)) && InOrder(UpdateNode(t)) == InOrder(t)
  {
    if t.Node? {
      WindowedAround(base, InOrder(t.left), t.e, InOrder(t.right));
      UpdatedMin(base, t.left, t.e, t.right);
    }
  }

  // ------------------------------------------------------------- repair

  /** The way from a node up to the root: which side it hangs on, its parent's
      entity and stored minimum, and its sibling. */
  datatype Path =
    | Root
    | LeftOf(e: Entity, min: nat, sibling: Tree, up: Path)
    | RightOf(sibling: Tree, e: Entity, min: nat, up: Path)

  function Plug(t: Tree, p: Path): Tree
    decreases p
  {
    match p
    case Root => t
    case LeftOf(e, min, s, up) => Plug(Node(t, e, min, s), up)
    case RightOf(s, e, min, up) => Plug(Node(s, e, min, t), up)
  }

  /** Siblings along the path may be stale, but not what is below them. */
  ghost predicate SiblingsOk(p: Path) {
    p.Root? || (ChildrenOk(p.sibling) && SiblingsOk(p.up))
  }

  /** The same tree up to the stored minima. */
  ghost predicate SameShape(s: Tree, t: Tree) {
    match s
    case Nil => t.Nil?
    case Node(l, e, _, r) => t.Node? && e == t.e && SameShape(l, t.left) && SameShape(r, t.right)
  }

  lemma SameShapeOrder(s: Tree, t: Tree)
    requires SameShape(s, t)
    ensures InOrder(s) == InOrder(t)
  {
  }

  lemma SameShapeRefl(t: Tree)
    ensures SameShape(t, t)
  {
  }

  lemma SameShapeTrans(s: Tree, t: Tree, u: Tree)
    requires SameShape(s, t) && SameShape(t, u)
    ensures SameShape(s, u)
  {
  }

  lemma PlugShape(s: Tree, t: Tree, p: Path)
    requires SameShape(s, t)
    ensures SameShape(Plug(s, p), Plug(t, p))
    decreases p
  {
    match p
    case Root =>
    case LeftOf(e, min, b, up) =>
      SameShapeRefl(b);
      PlugShape(Node(s, e, min, b), Node(t, e, min, b), up);
    case RightOf(b, e, min, up) =>
      SameShapeRefl(b);
      PlugShape(Node(b, e, min, s), Node(b, e, min, t), up);
  }

  /** The sibling's part of one iteration of bfq_update_active_tree. */
  function UpdateSibling(t: Tree, p: Path): (Tree, Tree)
    requires !p.Root?
  {
    if p.LeftOf? && p.sibling.Node? then (t, UpdateNode(p.sibling))
    else if p.LeftOf? then (UpdateNode(t), p.sibling)
    else (t, UpdateNode(p.sibling))
  }

  function Join(t: Tree, s: Tree, p: Path): Tree
    requires !p.Root?
  {
    if p.LeftOf? then Node(t, p.e, p.min, s) else Node(s, p.e, p.min, t)
  }

  lemma PlugWindow(base: nat, t: Tree, p: Path)
    requires Windowed(base, InOrder(Plug(t, p)))
    ensures Windowed(base, InOrder(t))
    ensures !p.Root? ==> Windowed(base, InOrder(p.sibling)) && InWindow(base, p.e.start)
    decreases p
  {
    match p
    case Root =>
    case LeftOf(e, min, s, up) =>
      PlugWindow(base, Node(t, e, min, s), up);
      WindowedParts(base, InOrder(t) + [e], InOrder(s));
      WindowedParts(base, InOrder(t), [e]);
      assert [e][0] == e;
    case RightOf(s, e, min, up) =>
      PlugWindow(base, Node(s, e, min, t), up);
      WindowedParts(base, InOrder(s) + [e], InOrder(t));
      WindowedParts(base, InOrder(s), [e]);
      assert [e][0] == e;
  }

  /** One iteration leaves everything below the parent right. */
  lemma StepUp(base: nat, t: Tree, p: Path)
    requires !p.Root? && MinsOk(t) && SiblingsOk(p) && Windowed(base, InOrder(Plug(t, p)))
    ensures var (a, b) := UpdateSibling(t, p);
            ChildrenOk(Join(a, b, p)) && SameShape(Plug(t, p), Plug(Join(a, b, p), p.up))
  {
    var (a, b) := UpdateSibling(t, p);
    PlugWindow(base, t, p);
    UpdateNodeOk(base, p.sibling);
    UpdateNodeOk(base, t);
    SameShapeRefl(t);
    SameShapeRefl(p.sibling);
    UpdateShape(t);
    UpdateShape(p.sibling);
    PlugShape(Join(t, p.sibling, p), Join(a, b, p), p.up);
  }

  lemma UpdateShape(t: Tree)
    ensures SameShape(t, UpdateNode(t))
  {
    if t.Node? {
      SameShapeRefl(t.left);
      SameShapeRefl(t.right);
    }
  }

  /** bfq_update_active_tree: if only the nodes on the path from `node` to the root
      and their siblings are stale, every minimum is right afterwards. */
  method UpdateActiveTree(node: Tree, path: Path, ghost base: nat) returns (root: Tree)
    requires node.Node? && ChildrenOk(node) && SiblingsOk(path)
    requires Windowed(base, InOrder(Plug(node, path)))
    ensures MinsOk(root) && SameShape(Plug(node, path), root)
  {
    var t, p := node, path;
    SameShapeRefl(Plug(t, p));
    while true
      invariant t.Node? && ChildrenOk(t) && SiblingsOk(p)
      invariant SameShape(Plug(node, path), Plug(t, p))
      decreases p
    {
      SameShapeOrder(Plug(node, path), Plug(t, p));
      PlugWindow(base, t, p);
      UpdateNodeOk(base, t);
      UpdateShape(t);
      PlugShape(t, UpdateNode(t), p);
      SameShapeTrans(Plug(node, path), Plug(t, p), Plug(UpdateNode(t), p));
      t := UpdateNode(t);
      if p.Root? {
        return t;
      }
      SameShapeOrder(Plug(node, path), Plug(t, p));
      StepUp(base, t, p);
      var (a, b) := UpdateSibling(t, p);
      SameShapeTrans(Plug(node, path), Plug(t, p), Plug(Join(a, b, p), p.up));
      t, p := Join(a, b, p), p.up;
    }
  }

  // ------------------------------------------------------------- insertion

  /** The entities to the left and to the right of a path. */
  function Before(p: Path): seq<Entity> {
    match p
    case Root => []
    case LeftOf(_, _, _, up) => Before(up)
    case RightOf(s, e, _, up) => Before(up) + (InOrder(s) + [e])
  }

  function After(p: Path): seq<Entity> {
    match p
    case Root => []
    case LeftOf(e, _, s, up) => [e] + InOrder(s) + After(up)
    case RightOf(_, _, _, up) => After(up)
  }

  lemma Regroup(b: seq<Entity>, x: seq<Entity>, m: seq<Entity>, y: seq<Entity>, a: seq<Entity>)
    ensures b + (x + m + y) + a == b + x + (m + y + a)
    ensures b + (x + m + y) + a == b + (x + m) + y + a
    ensures b + x + y + a == (b + x) + (y + a)
    ensures b + x + m + y + a == (b + x) + m + (y + a)
    ensures b + (x + m + y) + a == b + x + m + y + a
    ensures x + (m + y + a) == (x + m + y) + a
  {
  }

  /** Cutting a sequence around one of its elements. */
  lemma CutAt(b: seq<Entity>, l: seq<Entity>, e: Entity, r: seq<Entity>, a: seq<Entity>)
    ensures var s, k := b + (l + [e] + r) + a, |b| + |l|;
            && k < |s| && s[k] == e && s[k..] == [e] + r + a && s[..k + 1] == b + (l + [e])
  {
  }

  /** Taking the successor's place. */
  lemma Replace(b: seq<Entity>, l: seq<Entity>, next: Entity, r: seq<Entity>, a: seq<Entity>,
                b': seq<Entity>, r': seq<Entity>, a': seq<Entity>)
    requires b' == b + (l + [next]) && ([next] + r') + a' == r + a
    ensures b' + r' + a' == b + l + r + a
  {
    calc {
      b' + r' + a';
      (b + (l + [next])) + r' + a';
      { Regroup(b, l, [next], r', a'); }
      (b + l) + ([next] + r' + a');
      (b + l) + (r + a);
      { Regroup(b, l, [], r, a); }
      b + l + r + a;
    }
  }

  lemma {:induction false} PlugOrder(t: Tree, p: Path)
    ensures InOrder(Plug(t, p)) == Before(p) + InOrder(t) + After(p)
    decreases p
  {
    match p
    case Root =>
    case LeftOf(e, min, s, up) =>
      PlugOrder(Node(t, e, min, s), up);
      Regroup(Before(up), InOrder(t), [e], InOrder(s), After(up));
    case RightOf(s, e, min, up) =>
      PlugOrder(Node(s, e, min, t), up);
      Regroup(Before(up), InOrder(s), [e], InOrder(t), After(up));
  }

  /** No sibling along the path is stale. */
  ghost predicate PathOk(p: Path) {
    p.Root? || (MinsOk(p.sibling) && PathOk(p.up))
  }

  lemma PathOkSiblings(p: Path)
    requires PathOk(p)
    ensures SiblingsOk(p)
  {
  }

  lemma {:induction false} PlugMins(t: Tree, p: Path)
    requires MinsOk(Plug(t, p))
    ensures MinsOk(t) && PathOk(p)
    decreases p
  {
    match p
    case Root =>
    case LeftOf(e, min, s, up) => PlugMins(Node(t, e, min, s), up);
    case RightOf(s, e, min, up) => PlugMins(Node(s, e, min, t), up);
  }

  /** Finish times never decrease from left to right. */
  ghost predicate SortedByFinish(s: seq<Entity>) {
    forall i, j :: 0 <= i < j < |s| ==> !Gt(s[i].finish, s[j].finish)
  }

  ghost predicate FinishWindowed(base: nat, s: seq<Entity>) {
    forall i :: 0 <= i < |s| ==> InWindow(base, s[i].finish)
  }

  /** Everything in `s` may stand before `e`; everything may stand after it. */
  ghost predicate AllBefore(s: seq<Entity>, e: Entity) {
    forall i :: 0 <= i < |s| ==> !Gt(s[i].finish, e.finish)
  }

  ghost predicate AllAfter(s: seq<Entity>, e: Entity) {
    forall i :: 0 <= i < |s| ==> Gt(s[i].finish, e.finish)
  }

  lemma LeftAgree(base: nat, s: seq<Entity>, k: nat, e: Entity)
    requires SortedByFinish(s) && FinishWindowed(base, s) && InWindow(base, e.finish) && k < |s|
    ensures Gt(s[k].finish, e.finish) ==> AllAfter(s[k..], e)
    ensures !Gt(s[k].finish, e.finish) ==> AllBefore(s[..k + 1], e)
  {
    forall i | 0 <= i < |s|
      ensures i >= k && Gt(s[k].finish, e.finish) ==> Gt(s[i].finish, e.finish)
      ensures i <= k && !Gt(s[k].finish, e.finish) ==> !Gt(s[i].finish, e.finish)
    {
      GtIsOrder(base, s[k].finish, e.finish);
      GtIsOrder(base, s[i].finish, e.finish);
      GtIsOrder(base, s[i].finish, s[k].finish);
      GtIsOrder(base, s[k].finish, s[i].finish);
    }
  }

  /** How far the descent of bfq_insert has come: what is left and right of it. */
  ghost predicate Descending(s: seq<Entity>, node: Tree, path: Path, e: Entity) {
    && PathOk(path) && MinsOk(node) && Before(path) + InOrder(node) + After(path) == s
    && AllBefore(Before(path), e) && AllAfter(After(path), e)
  }

  lemma DescendOk(base: nat, s: seq<Entity>, node: Tree, path: Path, e: Entity)
    requires Descending(s, node, path, e) && node.Node?
    requires SortedByFinish(s) && FinishWindowed(base, s) && InWindow(base, e.finish)
    ensures Gt(node.e.finish, e.finish) ==> Descending(s, node.left, LeftOf(node.e, node.min, node.right, path), e)
    ensures !Gt(node.e.finish, e.finish) ==> Descending(s, node.right, RightOf(node.left, node.e, node.min, path), e)
  {
    var b, l, r, a := Before(path), InOrder(node.left), InOrder(node.right), After(path);
    CutAt(b, l, node.e, r, a);
    LeftAgree(base, s, |b| + |l|, e);
    Regroup(b, l, [node.e], r, a);
  }

  /** The descent of bfq_insert: where the new entity has to hang. */
  method FindPlace(root: Tree, e: Entity, ghost base: nat) returns (path: Path)
    requires SortedByFinish(InOrder(root)) && FinishWindowed(base, InOrder(root)) && InWindow(base, e.finish)
    requires MinsOk(root)
    ensures Descending(InOrder(root), Nil, path, e)
  {
    var node := root;
    path := Root;
    while node.Node?
      invariant Descending(InOrder(root), node, path, e)
      decreases node
    {
      DescendOk(base, InOrder(root), node, path, e);
      if Gt(node.e.finish, e.finish) {
        path := LeftOf(node.e, node.min, node.right, path);
        node := node.left;
      } else {
        path := RightOf(node.left, node.e, node.min, path);
        node := node.right;
      }
    }
  }

  lemma CutHere(b: seq<Entity>, a: seq<Entity>, s: seq<Entity>)
    requires b + [] + a == s
    ensures s[..|b|] == b && s[|b|..] == a && s == b + a
  {
  }

  lemma AddWindow(base: nat, b: seq<Entity>, e: Entity, a: seq<Entity>)
    requires Windowed(base, b + a) && InWindow(base, e.start)
    ensures Windowed(base, b + [e] + a)
  {
    WindowedParts(base, b, a);
    WindowedParts(base, b, [e]);
    WindowedParts(base, b + [e], a);
  }

  /** bfq_active_insert, with a tree that needs no rebalancing. */
  method ActiveInsert(root: Tree, e: Entity, ghost base: nat) returns (root': Tree, ghost k: nat)
    requires MinsOk(root) && SortedByFinish(InOrder(root)) && FinishWindowed(base, InOrder(root))
    requires Windowed(base, InOrder(root)) && InWindow(base, e.finish) && InWindow(base, e.start)
    ensures MinsOk(root') && k <= |InOrder(root)|
    ensures InOrder(root') == InOrder(root)[..k] + [e] + InOrder(root)[k..]
    ensures AllBefore(InOrder(root)[..k], e) && AllAfter(InOrder(root)[k..], e)
  {
    var path := FindPlace(root, e, base);
    k := |Before(path)|;
    PathOkSiblings(path);
    CutHere(Before(path), After(path), InOrder(root));
    var node := Node(Nil, e, e.start, Nil);
    PlugOrder(node, path);
    AddWindow(base, Before(path), e, After(path));
    assert InOrder(node) == [e];
    root' := UpdateActiveTree(node, path, base);
    SameShapeOrder(Plug(node, path), root');
  }

  // ------------------------------------------------------------- extraction

  function Leftmost(t: Tree): Entity
    requires t.Node?
  {
    if t.left.Nil? then t.e else Leftmost(t.left)
  }

  /** Go down to the leftmost node of `t`. */
  function GoLeft(t: Tree, p: Path): (Tree, Path)
    requires t.Node?
  {
    if t.left.Nil? then (t, p) else GoLeft(t.left, LeftOf(t.e, t.min, t.right, p))
  }

  /** The parent of an empty place, with that place empty; None at the root. */
  function ParentOfHole(p: Path): Option<(Tree, Path)> {
    match p
    case Root => None
    case LeftOf(e, min, s, up) => Some((Node(Nil, e, min, s), up))
    case RightOf(s, e, min, up) => Some((Node(s, e, min, Nil), up))
  }

  /** Put `t` where the path ends; the deepest node this changes. */
  function Put(t: Tree, p: Path): Option<(Tree, Path)> {
    if t.Node? then Some((t, p)) else ParentOfHole(p)
  }

  /** rb_erase without rebalancing, and the node bfq_find_deepest returns for it:
      a node with at most one child is replaced by that child, any other one by
      its successor, which in turn is replaced by its right child. */
  function Extract(node: Tree, path: Path): Option<(Tree, Path)>
    requires node.Node?
  {
    if node.right.Nil? then Put(node.left, path)
    else if node.left.Nil? then Put(node.right, path)
    else
      var (s, ps) := GoLeft(node.right, RightOf(node.left, Leftmost(node.right), node.min, path));
      Put(if s.Node? then s.right else Nil, ps)
  }

  lemma {:induction false} GoLeftOk(t: Tree, p: Path)
    requires t.Node? && MinsOk(t) && PathOk(p)
    ensures var (s, q) := GoLeft(t, p);
            && s.Node? && s.left.Nil? && MinsOk(s) && PathOk(q) && s.e == Leftmost(t)
            && Before(q) == Before(p) && InOrder(s) + After(q) == InOrder(t) + After(p)
    decreases t
  {
    if t.left.Node? {
      var q := LeftOf(t.e, t.min, t.right, p);
      GoLeftOk(t.left, q);
      Regroup([], InOrder(t.left), [t.e], InOrder(t.right), After(p));
    }
  }

  /** Only the way up from the changed node, and siblings along it, are stale. */
  ghost predicate RepairFrom(r: Option<(Tree, Path)>, rest: seq<Entity>) {
    if r.None? then rest == []
    else
      var (t, p) := r.value;
      t.Node? && ChildrenOk(t) && SiblingsOk(p) && InOrder(Plug(t, p)) == rest
  }

  lemma PutOk(t: Tree, p: Path)
    requires MinsOk(t) && PathOk(p)
    ensures RepairFrom(Put(t, p), Before(p) + InOrder(t) + After(p))
  {
    PathOkSiblings(p);
    PlugOrder(t, p);
  }

  /** Exactly the extracted entity is gone. */
  lemma ExtractOk(node: Tree, path: Path)
    requires node.Node? && MinsOk(node) && PathOk(path)
    ensures RepairFrom(Extract(node, path), Before(path) + InOrder(node.left) + InOrder(node.right) + After(path))
  {
    if node.right.Nil? {
      PutOk(node.left, path);
      assert Before(path) + InOrder(node.left) + [] == Before(path) + InOrder(node.left);
    } else if node.left.Nil? {
      PutOk(node.right, path);
      assert Before(path) + [] == Before(path);
    } else {
      ExtractInner(node, path);
    }
  }

  lemma ExtractInner(node: Tree, path: Path)
    requires node.Node? && node.left.Node? && node.right.Node? && MinsOk(node) && PathOk(path)
    ensures RepairFrom(Extract(node, path), Before(path) + InOrder(node.left) + InOrder(node.right) + After(path))
  {
    var next := Leftmost(node.right);
    var below := RightOf(node.left, next, node.min, path);
    var (s, ps) := GoLeft(node.right, below);
    GoLeftOk(node.right, below);
    PutOk(s.right, ps);
    Successor(s);
    Replace(Before(path), InOrder(node.left), next, InOrder(node.right), After(path),
            Before(ps), InOrder(s.right), After(ps));
  }

  lemma Successor(s: Tree)
    requires s.Node? && s.left.Nil?
    ensures InOrder(s) == [s.e] + InOrder(s.right)
  {
  }

  /** bfq_active_extract, with a tree that needs no rebalancing. */
  method ActiveExtract(node: Tree, path: Path, ghost base: nat) returns (root': Tree)
    requires node.Node? && MinsOk(Plug(node, path)) && Windowed(base, InOrder(Plug(node, path)))
    ensures MinsOk(root')
    ensures InOrder(root') == Before(path) + InOrder(node.left) + InOrder(node.right) + After(path)
    ensures InOrder(Plug(node, path)) ==
            Before(path) + InOrder(node.left) + [node.e] + InOrder(node.right) + After(path)
  {
    PlugMins(node, path);
    PlugOrder(node, path);
    ExtractOk(node, path);
    WithoutWindow(base, Before(path), InOrder(node.left), node.e, InOrder(node.right), After(path));
    match Extract(node, path) {
      case None => root' := Nil;
      case Some(pair) =>
        root' := UpdateActiveTree(pair.0, pair.1, base);
        SameShapeOrder(Plug(pair.0, pair.1), root');
    }
  }

  lemma WithoutWindow(base: nat, b: seq<Entity>, l: seq<Entity>, e: Entity, r: seq<Entity>, a: seq<Entity>)
    requires Windowed(base, b + (l + [e] + r) + a)
    ensures Windowed(base, b + l + r + a) && b + (l + [e] + r) + a == b + l + [e] + r + a
  {
    Regroup(b, l, [e], r, a);
    WindowedParts(base, (b + l) + [e], r + a);
    WindowedParts(base, b + l, [e]);
    WindowedParts(base, b + l, r + a);
  }

  // ------------------------------------------------------------- lookup

  predicate Eligible(e: Entity, vtime: nat) {
    !Gt(e.start, vtime)
  }

  ghost predicate AnyEligible(s: seq<Entity>, vtime: nat) {
    exists i :: 0 <= i < |s| && Eligible(s[i], vtime)
  }

  /** The descent of bfq_first_active_entity. */
  function Search(t: Tree, vtime: nat, first: Option<Entity>): Option<Entity> {
    match t
    case Nil => first
    case Node(l, e, _, r) =>
      var f := if Eligible(e, vtime) then Some(e) else first;
      if l.Node? && !Gt(l.min, vtime) then Search(l, vtime, f)
      else if f.Some? then f
      else Search(r, vtime, None)
  }

  /** min_start tells whether a subtree holds an eligible entity. */
  lemma MinDecides(base: nat, t: Tree, vtime: nat)
    requires t.Node? && MinsOk(t) && Windowed(base, InOrder(t)) && InWindow(base, vtime)
    ensures !Gt(t.min, vtime) <==> AnyEligible(InOrder(t), vtime)
  {
    var s := InOrder(t);
    var k :| 0 <= k < |s| && s[k].start == t.min;
    if !Gt(t.min, vtime) {
      assert Eligible(s[k], vtime);
    }
    if i :| 0 <= i < |s| && Eligible(s[i], vtime) {
      GtIsOrder(base, t.min, s[i].start);
      GtIsOrder(base, s[i].start, vtime);
      GtIsOrder(base, t.min, vtime);
    }
  }

  lemma EligibleParts(t: Tree, vtime: nat)
    requires t.Node?
    ensures AnyEligible(InOrder(t), vtime) <==>
            AnyEligible(InOrder(t.left), vtime) || Eligible(t.e, vtime) || AnyEligible(InOrder(t.right), vtime)
  {
    EligibleConcat(InOrder(t.left) + [t.e], InOrder(t.right), vtime);
    EligibleConcat(InOrder(t.left), [t.e], vtime);
    assert AnyEligible([t.e], vtime) <==> Eligible(t.e, vtime) by {
      assert [t.e][0] == t.e;
    }
  }

  lemma EligibleConcat(a: seq<Entity>, b: seq<Entity>, vtime: nat)
    ensures AnyEligible(a + b, vtime) <==> AnyEligible(a, vtime) || AnyEligible(b, vtime)
  {
    var s := a + b;
    if i :| 0 <= i < |a| && Eligible(a[i], vtime) {
      assert s[i] == a[i];
    }
    if i :| 0 <= i < |b| && Eligible(b[i], vtime) {
      assert s[|a| + i] == b[i];
    }
  }

  lemma TreeWindow(base: nat, t: Tree)
    requires t.Node? && Windowed(base, InOrder(t))
    ensures Windowed(base, InOrder(t.left)) && Windowed(base, InOrder(t.right)) && InWindow(base, t.e.start)
  {
    WindowedParts(base, InOrder(t.left) + [t.e], InOrder(t.right));
    WindowedParts(base, InOrder(t.left), [t.e]);
    assert [t.e][0] == t.e;
  }

  /** The search finds an eligible entity if and only if there is one. */
  lemma {:induction false} SearchComplete(base: nat, t: Tree, vtime: nat, first: Option<Entity>)
    requires MinsOk(t) && Windowed(base, InOrder(t)) && InWindow(base, vtime)
    requires first.Some? ==> Eligible(first.value, vtime)
    ensures var r := Search(t, vtime, first);
            && (r.Some? <==> first.Some? || AnyEligible(InOrder(t), vtime))
            && (r.Some? ==> Eligible(r.value, vtime) && (r == first || r.value in InOrder(t)))
    decreases t
  {
    if t.Node? {
      TreeWindow(base, t);
      EligibleParts(t, vtime);
      var f := if Eligible(t.e, vtime) then Some(t.e) else first;
      if t.left.Node? {
        MinDecides(base, t.left, vtime);
      }
      if t.left.Node? && !Gt(t.left.min, vtime) {
        SearchComplete(base, t.left, vtime, f);
      } else if f.None? {
        SearchComplete(base, t.right, vtime, None);
      }
    }
  }

  /** bfq_first_active_entity */
  method FirstActive(root: Tree, vtime: nat, ghost base: nat) returns (first: Option<Entity>)
    requires MinsOk(root) && Windowed(base, InOrder(root)) && InWindow(base, vtime)
    ensures first == Search(root, vtime, None)
    ensures first.Some? <==> AnyEligible(InOrder(root), vtime)
    ensures first.Some? ==> Eligible(first.value, vtime) && first.value in InOrder(root)
  {
    first := None;
    var node := root;
    while node.Node?
      invariant Search(node, vtime, first) == Search(root, vtime, None)
      decreases node
    {
      if Eligible(node.e, vtime) {
        first := Some(node.e);
      }
      if node.left.Node? && !Gt(node.left.min, vtime) {
        node := node.left;
      } else if first.Some? {
        break;
      } else {
        node := node.right;
      }
    }
    SearchComplete(base, root, vtime, None);
  }

  // --------------------------------------------- is it the smallest finish time?

  function FirstEligible(s: seq<Entity>, vtime: nat): Option<Entity> {
    if s == [] then None
    else if Eligible(s[0], vtime) then Some(s[0])
    else FirstEligible(s[1..], vtime)
  }

  /** The descent ends on a node that is not eligible after an eligible one has been
      passed: the guard under which bfq_first_active_entity stops too early. */
  predicate StopsEarly(t: Tree, vtime: nat, found: bool) {
    t.Node? &&
    if t.left.Node? && !Gt(t.left.min, vtime) then StopsEarly(t.left, vtime, found || Eligible(t.e, vtime))
    else !Eligible(t.e, vtime) && (found || StopsEarly(t.right, vtime, false))
  }

  lemma {:induction false} FirstOfConcat(a: seq<Entity>, b: seq<Entity>, vtime: nat)
    ensures FirstEligible(a + b, vtime) ==
            if FirstEligible(a, vtime).Some? then FirstEligible(a, vtime) else FirstEligible(b, vtime)
    ensures FirstEligible(a, vtime).Some? <==> AnyEligible(a, vtime)
    decreases |a|
  {
    if a == [] {
      assert a + b == b;
    } else {
      assert (a + b)[1..] == a[1..] + b;
      FirstOfConcat(a[1..], b, vtime);
      if i :| 0 <= i < |a| && Eligible(a[i], vtime) {
        assert i > 0 ==> a[1..][i - 1] == a[i];
      }
      if i :| 0 <= i < |a[1..]| && Eligible(a[1..][i], vtime) {
        assert a[i + 1] == a[1..][i];
      }
    }
  }

  lemma FirstOfTree(t: Tree, vtime: nat)
    requires t.Node?
    ensures var l, r := InOrder(t.left), InOrder(t.right);
            FirstEligible(InOrder(t), vtime) ==
            if FirstEligible(l, vtime).Some? then FirstEligible(l, vtime)
            else if Eligible(t.e, vtime) then Some(t.e)
            else FirstEligible(r, vtime)
  {
    FirstOfConcat(InOrder(t.left) + [t.e], InOrder(t.right), vtime);
    FirstOfConcat(InOrder(t.left), [t.e], vtime);
    assert FirstEligible([t.e], vtime) == if Eligible(t.e, vtime) then Some(t.e) else None;
  }

  /** Unless it stops early, the search returns the leftmost eligible entity. */
  lemma {:induction false} LeftmostUnlessEarly(base: nat, t: Tree, vtime: nat, first: Option<Entity>)
    requires MinsOk(t) && Windowed(base, InOrder(t)) && InWindow(base, vtime)
    requires first.Some? ==> t.Node? && !Gt(t.min, vtime)
    requires !StopsEarly(t, vtime, first.Some?)
    ensures Search(t, vtime, first) == FirstEligible(InOrder(t), vtime)
    decreases t
  {
    if t.Node? {
      TreeWindow(base, t);
      FirstOfTree(t, vtime);
      FirstOfConcat(InOrder(t.left), [], vtime);
      assert InOrder(Nil) == [];
      if t.left.Node? {
        MinDecides(base, t.left, vtime);
      }
      var f := if Eligible(t.e, vtime) then Some(t.e) else first;
      if t.left.Node? && !Gt(t.left.min, vtime) {
        LeftmostUnlessEarly(base, t.left, vtime, f);
      } else if f.None? {
        LeftmostUnlessEarly(base, t.right, vtime, None);
      }
    }
  }

  /** If it stops early, the leftmost eligible entity lies below the node the search
      returns an ancestor of: it is found in `t`, while the result is not. */
  lemma {:induction false} EarlyIsNotLeftmost(base: nat, t: Tree, vtime: nat, first: Option<Entity>)
    requires MinsOk(t) && Windowed(base, InOrder(t)) && InWindow(base, vtime) && Distinct(InOrder(t))
    requires first.Some? ==> first.value !in InOrder(t) && t.Node? && !Gt(t.min, vtime)
    requires StopsEarly(t, vtime, first.Some?)
    ensures Search(t, vtime, first).Some? && FirstEligible(InOrder(t), vtime).Some?
    ensures Search(t, vtime, first) != FirstEligible(InOrder(t), vtime)
    decreases t
  {
    TreeWindow(base, t);
    DistinctParts(t);
    FirstOfTree(t, vtime);
    FirstOfConcat(InOrder(t.left), [], vtime);
    assert InOrder(Nil) == [];
    if t.left.Node? {
      MinDecides(base, t.left, vtime);
    }
    var f := if Eligible(t.e, vtime) then Some(t.e) else first;
    if t.left.Node? && !Gt(t.left.min, vtime) {
      EarlyIsNotLeftmost(base, t.left, vtime, f);
    } else if first.Some? {
      MinDecides(base, t, vtime);
      FirstOfConcat(InOrder(t), [], vtime);
      FirstIsMember(InOrder(t), vtime);
    } else {
      EarlyIsNotLeftmost(base, t.right, vtime, None);
    }
  }

  ghost predicate Distinct(s: seq<Entity>) {
    forall i, j :: 0 <= i < j < |s| ==> s[i] != s[j]
  }

  lemma DistinctParts(t: Tree)
    requires t.Node? && Distinct(InOrder(t))
    ensures Distinct(InOrder(t.left)) && Distinct(InOrder(t.right)) && t.e !in InOrder(t.left)
    ensures forall x :: x in InOrder(t.left) || x in InOrder(t.right) ==> x in InOrder(t)
  {
    DistinctAround(InOrder(t.left), t.e, InOrder(t.right));
  }

  lemma DistinctAround(l: seq<Entity>, e: Entity, r: seq<Entity>)
    requires Distinct(l + [e] + r)
    ensures Distinct(l) && Distinct(r) && e !in l
    ensures forall x :: x in l || x in r ==> x in l + [e] + r
  {
    var s := l + [e] + r;
    assert forall i :: 0 <= i < |l| ==> s[i] == l[i];
    assert s[|l|] == e;
    assert forall i :: 0 <= i < |r| ==> r[i] == s[|l| + 1 + i];
  }

  lemma {:induction false} FirstIsMember(s: seq<Entity>, vtime: nat)
    ensures FirstEligible(s, vtime).Some? ==> FirstEligible(s, vtime).value in s
    decreases |s|
  {
    if s != [] {
      FirstIsMember(s[1..], vtime);
    }
  }

  lemma {:induction false} FirstIsEligible(s: seq<Entity>, vtime: nat)
    ensures FirstEligible(s, vtime).Some? ==> Eligible(FirstEligible(s, vtime).value, vtime)
    decreases |s|
  {
    if s != [] {
      FirstIsEligible(s[1..], vtime);
    }
  }

  /** The search returns the leftmost eligible entity exactly when it does not stop
      early. */
  lemma LeftmostIff(base: nat, t: Tree, vtime: nat)
    requires MinsOk(t) && Windowed(base, InOrder(t)) && InWindow(base, vtime) && Distinct(InOrder(t))
    ensures Search(t, vtime, None) == FirstEligible(InOrder(t), vtime) <==> !StopsEarly(t, vtime, false)
  {
    if StopsEarly(t, vtime, false) {
      EarlyIsNotLeftmost(base, t, vtime, None);
    } else {
      LeftmostUnlessEarly(base, t, vtime, None);
    }
  }

  lemma {:induction false} LeftmostFinishesFirst(s: seq<Entity>, vtime: nat, i: nat)
    requires SortedByFinish(s) && i < |s| && Eligible(s[i], vtime)
    ensures FirstEligible(s, vtime).Some?
    ensures FirstEligible(s, vtime).value == s[i] || !Gt(FirstEligible(s, vtime).value.finish, s[i].finish)
    decreases |s|
  {
    if !Eligible(s[0], vtime) {
      assert s[1..][i - 1] == s[i];
      LeftmostFinishesFirst(s[1..], vtime, i - 1);
    }
  }

  /** No eligible entity of `s` finishes before `e`. */
  ghost predicate FinishesFirst(s: seq<Entity>, vtime: nat, e: Entity) {
    forall i :: 0 <= i < |s| && Eligible(s[i], vtime) ==> !Gt(e.finish, s[i].finish)
  }

  ghost predicate DistinctFinishes(s: seq<Entity>) {
    forall i, j :: 0 <= i < j < |s| ==> s[i].finish != s[j].finish
  }

  /** In a tree sorted by finish time an eligible entity finishes first exactly when it
      ties with the leftmost eligible one. */
  lemma FirstTies(base: nat, s: seq<Entity>, vtime: nat, e: Entity)
    requires SortedByFinish(s) && FinishWindowed(base, s) && e in s && Eligible(e, vtime)
    ensures var f := FirstEligible(s, vtime);
            f.Some? && f.value in s && (FinishesFirst(s, vtime, e) <==> e.finish == f.value.finish)
  {
    var k :| 0 <= k < |s| && s[k] == e;
    forall i | 0 <= i < |s| && Eligible(s[i], vtime)
      ensures FirstEligible(s, vtime).Some?
      ensures !Gt(FirstEligible(s, vtime).value.finish, s[i].finish)
    {
      LeftmostFinishesFirst(s, vtime, i);
      GtIsOrder(base, s[i].finish, s[i].finish);
    }
    assert Eligible(s[k], vtime);
    FirstIsMember(s, vtime);
    FirstIsEligible(s, vtime);
    var f := FirstEligible(s, vtime).value;
    var j :| 0 <= j < |s| && s[j] == f;
    GtIsOrder(base, e.finish, f.finish);
    GtIsOrder(base, f.finish, e.finish);
  }

  /** What bfq_first_active_entity is for: the entity it returns has the smallest finish
      time of all eligible ones exactly when the descent does not stop early, or stops
      on an entity that ties with the leftmost eligible one. */
  lemma SmallestIff(base: nat, finishBase: nat, t: Tree, vtime: nat)
    requires MinsOk(t) && Windowed(base, InOrder(t)) && InWindow(base, vtime)
    requires SortedByFinish(InOrder(t)) && FinishWindowed(finishBase, InOrder(t))
    requires Search(t, vtime, None).Some?
    ensures var s, e := InOrder(t), Search(t, vtime, None).value;
            var f := FirstEligible(s, vtime);
            && f.Some?
            && (FinishesFirst(s, vtime, e) <==> !StopsEarly(t, vtime, false) || e.finish == f.value.finish)
  {
    SearchComplete(base, t, vtime, None);
    FirstTies(finishBase, InOrder(t), vtime, Search(t, vtime, None).value);
    if !StopsEarly(t, vtime, false) {
      LeftmostUnlessEarly(base, t, vtime, None);
    }
  }

  /** With no two finish times alike, exactly when the descent does not stop early. */
  lemma SmallestIffNotEarly(base: nat, finishBase: nat, t: Tree, vtime: nat)
    requires MinsOk(t) && Windowed(base, InOrder(t)) && InWindow(base, vtime)
    requires SortedByFinish(InOrder(t)) && FinishWindowed(finishBase, InOrder(t))
    requires DistinctFinishes(InOrder(t)) && Search(t, vtime, None).Some?
    ensures FinishesFirst(InOrder(t), vtime, Search(t, vtime, None).value) <==> !StopsEarly(t, vtime, false)
  {
    var s, e := InOrder(t), Search(t, vtime, None).value;
    SmallestIff(base, finishBase, t, vtime);
    SearchComplete(base, t, vtime, None);
    FirstIsMember(s, vtime);
    assert Distinct(s) by {
      forall i, j | 0 <= i < j < |s| ensures s[i] != s[j] {
        assert s[i].finish != s[j].finish;
      }
    }
    LeftmostIff(base, t, vtime);
    var k :| 0 <= k < |s| && s[k] == e;
    var j :| 0 <= j < |s| && s[j] == FirstEligible(s, vtime).value;
    assert e.finish == s[j].finish ==> k == j;
  }

  /** A tree in which the returned entity does not have the smallest finish time. */
  lemma NotAlwaysSmallest()
    ensures var a, b, c := Entity(1, 9, 10), Entity(2, 0, 20), Entity(3, 0, 30);
            var t := Node(Node(Nil, a, 0, Node(Nil, b, 0, Nil)), c, 0, Nil);
            && MinsOk(t) && SortedByFinish(InOrder(t)) && StopsEarly(t, 5, false)
            && Search(t, 5, None) == Some(c) && Eligible(b, 5) && Gt(c.finish, b.finish)
  {
    var a, b, c := Entity(1, 9, 10), Entity(2, 0, 20), Entity(3, 0, 30);
    var ta := Node(Nil, a, 0, Node(Nil, b, 0, Nil));
    InOrderOf3(a, b, c);
    MinsOf3(a, b, c);
    assert Search(ta, 5, Some(c)) == Some(c);
  }

  lemma InOrderOf3(a: Entity, b: Entity, c: Entity)
    ensures var tb := Node(Nil, b, 0, Nil);
            var ta := Node(Nil, a, 0, tb);
            && InOrder(tb) == [b] && InOrder(ta) == [a, b] && InOrder(Node(ta, c, 0, Nil)) == [a, b, c]
  {
    var tb := Node(Nil, b, 0, Nil);
    assert InOrder(tb) == [b];
    assert InOrder(Node(Nil, a, 0, tb)) == [a, b];
  }

  lemma MinsOf3(a: Entity, b: Entity, c: Entity)
    requires b.start == 0 && !Gt(0, a.start) && !Gt(0, c.start)
    ensures MinsOk(Node(Node(Nil, a, 0, Node(Nil, b, 0, Nil)), c, 0, Nil))
  {
    InOrderOf3(a, b, c);
    var tb := Node(Nil, b, 0, Nil);
    var ta := Node(Nil, a, 0, tb);
    assert MinsOk(tb) by { assert [b][0].start == 0; }
    assert MinsOk(ta) by { assert [a, b][0] == a && [a, b][1] == b; }
    assert IsMin([a, b, c], 0) by { assert [a, b, c][0] == a && [a, b, c][1] == b && [a, b, c][2] == c; }
  }

  // ------------------------------------------------------------- virtual time

  /** bfq_calc_vtime_jump */
  function VtimeJump(t: Tree, vtime: nat): nat
    requires t.Node?
  {
    if Gt(t.min, vtime) then t.min else vtime
  }

  /** bfq_update_vtime compares the plain 64-bit words. */
  function UpdateVtime(vtime: nat, newValue: nat): nat {
    if newValue > vtime then newValue else vtime
  }

  /** After the jump some entity is eligible, so a lookup in a non-empty active tree
      always returns one. */
  lemma LookupNeverFails(base: nat, t: Tree, vtime: nat)
    requires t.Node? && MinsOk(t) && Windowed(base, InOrder(t)) && InWindow(base, vtime)
    ensures InWindow(base, VtimeJump(t, vtime)) && !Gt(vtime, VtimeJump(t, vtime))
    ensures Search(t, VtimeJump(t, vtime), None).Some?
  {
    var s := InOrder(t);
    var k :| 0 <= k < |s| && s[k].start == t.min;
    var v := VtimeJump(t, vtime);
    GtIsOrder(base, t.min, v);
    GtIsOrder(base, vtime, v);
    GtIsOrder(base, t.min, vtime);
    MinDecides(base, t, v);
    SearchComplete(base, t, v, None);
  }

  /** The stored virtual time follows the jump exactly when the jump does not cross
      the end of the 64-bit range. */
  lemma VtimeFollowsIff(t: Tree, vtime: nat)
    requires t.Node?
    ensures UpdateVtime(vtime, VtimeJump(t, vtime)) == VtimeJump(t, vtime) <==> !(Gt(t.min, vtime) && t.min < vtime)
  {
    assert !Gt(vtime, vtime);
  }
}
