/**
 The linked red-black tree of src/rbtree.c: nodes whose links and colours are changed in place by
 a single descending pass. A `Store` is a snapshot of the nodes; every snapshot along the pass is
 tied to a zipper of module `RbTree`.
 */
module RbHeap {
  import opened RbTree

  class RbNode {
    var red: bool
    var data: Key
    var link0: RbNode?
    var link1: RbNode?

    /** A node for an item: red and without children. */
    constructor (data: Key)
      ensures Content() == Cell(true, data, null, null)
    {
      red, this.data, link0, link1 := true, data, null, null;
    }

    ghost function Content(): Cell
      reads this
    {
      Cell(red, data, link0, link1)
    }

    function Link(d: bool): RbNode?
      reads this
    {
      if d then link1 else link0
    }

    method SetLink(d: bool, n: RbNode?)
      modifies this
      ensures Content() == old(Content()).Set(d, n)
    {
      if d { link1 := n; } else { link0 := n; }
    }
  }

  predicate IsRedNode(n: RbNode?)
    reads n
  {
    n != null && n.red
  }

  // ---------- Snapshots ----------

  datatype Cell = Cell(red: bool, data: Key, link0: RbNode?, link1: RbNode?) {
    function Link(d: bool): RbNode? {
      if d then link1 else link0
    }

    function Set(d: bool, n: RbNode?): Cell {
      if d then this.(link1 := n) else this.(link0 := n)
    }
  }

  type Store = map<RbNode, Cell>

  ghost predicate Mirrors(m: Store)
    reads m.Keys
  {
    forall n | n in m.Keys :: n.Content() == m[n]
  }

  function Root(t: Tree<RbNode>): RbNode? {
    if t.Leaf? then null else t.id
  }

  ghost function Nodes(t: Tree<RbNode>): set<RbNode> {
    match t
    case Leaf => {}
    case Bin(id, _, _, l0, l1) => {id} + Nodes(l0) + Nodes(l1)
  }

  ghost function CtxNodes(c: Ctx<RbNode>): set<RbNode> {
    match c
    case Top => {}
    case Crumb(up, id, _, _, _, sib) => {id} + Nodes(sib) + CtxNodes(up)
  }

  ghost predicate Distinct(t: Tree<RbNode>) {
    t.Bin? ==>
      && t.id !in Nodes(t.l0) && t.id !in Nodes(t.l1) && Nodes(t.l0) !! Nodes(t.l1)
      && Distinct(t.l0) && Distinct(t.l1)
  }

  ghost predicate CtxDistinct(c: Ctx<RbNode>) {
    c.Crumb? ==>
      && c.id !in Nodes(c.sib) && c.id !in CtxNodes(c.up) && Nodes(c.sib) !! CtxNodes(c.up)
      && Distinct(c.sib) && CtxDistinct(c.up)
  }

  ghost predicate Apart(head: RbNode, c: Ctx<RbNode>, f: Tree<RbNode>) {
    && CtxDistinct(c) && Distinct(f) && CtxNodes(c) !! Nodes(f)
    && head !in CtxNodes(c) && head !in Nodes(f)
  }

  /** The nodes of `t` are in the store, coloured, filled and linked as in `t`. */
  ghost predicate Rep(m: Store, t: Tree<RbNode>) {
    t.Bin? ==>
      && t.id in m && m[t.id] == Cell(t.red, t.key, Root(t.l0), Root(t.l1))
      && Rep(m, t.l0) && Rep(m, t.l1)
  }

  /** The same for the nodes above a link that holds `hole`; the topmost one hangs off `head`. */
  ghost predicate CtxRep(m: Store, head: RbNode, c: Ctx<RbNode>, hole: RbNode?) {
    if c.Top? then head in m && m[head].link1 == hole
    else
      && c.id in m && m[c.id] == Cell(c.red, c.key, hole, hole).Set(!c.dir, Root(c.sib))
      && Rep(m, c.sib)
      && CtxRep(m, head, c.up, c.id)
  }

  /** The pass stands at the link between `c` and `f`. */
  ghost predicate Stands(m: Store, head: RbNode, c: Ctx<RbNode>, f: Tree<RbNode>) {
    && Apart(head, c, f)
    && CtxRep(m, head, c, Root(f)) && Rep(m, f)
    && m.Keys == {head} + CtxNodes(c) + Nodes(f)
  }

  lemma {:induction false} RepFrame(m: Store, m': Store, t: Tree<RbNode>)
    requires Rep(m, t) && forall n | n in Nodes(t) && n in m :: n in m' && m'[n] == m[n]
    ensures Rep(m', t)
    decreases t
  {
    if t.Bin? {
      RepFrame(m, m', t.l0);
      RepFrame(m, m', t.l1);
    }
  }

  lemma {:induction false} CtxRepFrame(m: Store, m': Store, head: RbNode, c: Ctx<RbNode>, hole: RbNode?)
    requires CtxRep(m, head, c, hole)
    requires forall n | n in {head} + CtxNodes(c) && n in m :: n in m' && m'[n] == m[n]
    ensures CtxRep(m', head, c, hole)
    decreases c
  {
    if c.Crumb? {
      RepFrame(m, m', c.sib);
      CtxRepFrame(m, m', head, c.up, c.id);
    }
  }

  /** Redirecting the link that leads to the focus. */
  lemma Redirect(m: Store, m': Store, head: RbNode, c: Ctx<RbNode>, hole: RbNode?, hole': RbNode?)
    requires CtxRep(m, head, c, hole) && CtxDistinct(c) && head !in CtxNodes(c)
    requires Owner(head, c) in m && Owner(head, c) in m'
    requires m'[Owner(head, c)] == m[Owner(head, c)].Set(LinkOf(c), hole')
    requires forall n | n in {head} + CtxNodes(c) && n in m && n != Owner(head, c) :: n in m' && m'[n] == m[n]
    ensures CtxRep(m', head, c, hole')
  {
    if c.Crumb? {
      RepFrame(m, m', c.sib);
      CtxRepFrame(m, m', head, c.up, c.id);
    }
  }

  lemma {:induction false} PlugRep(m: Store, head: RbNode, c: Ctx<RbNode>, f: Tree<RbNode>)
    requires Stands(m, head, c, f)
    ensures Rep(m, Plug(c, f)) && m[head].link1 == Root(Plug(c, f))
    ensures Distinct(Plug(c, f)) && Nodes(Plug(c, f)) == CtxNodes(c) + Nodes(f)
    decreases c
  {
    if c.Crumb? {
      var t := Mk(c.id, c.red, c.key, c.dir, f, c.sib);
      assert Nodes(t) == {c.id} + Nodes(f) + Nodes(c.sib);
      PlugRep(m, head, c.up, t);
    }
  }

  /** The node that owns the link below `c`, the false root standing in for the parent of the root. */
  ghost function Owner(head: RbNode, c: Ctx<RbNode>): RbNode {
    if c.Top? then head else c.id
  }

  ghost predicate LinkOf(c: Ctx<RbNode>) {
    c.Crumb? ==> c.dir
  }

  // ---------- Rotations ----------

  /** `m'` is `m` after the child `save` of `root` at link !dir was rotated above it. */
  ghost predicate SingleTurned(m: Store, m': Store, root: RbNode, save: RbNode, dir: bool) {
    && root in m && save in m && m'.Keys == m.Keys
    && m'[root] == m[root].Set(!dir, m[save].Link(dir)).(red := true)
    && m'[save] == m[save].Set(dir, root).(red := false)
    && forall n | n in m && n != root && n != save :: m'[n] == m[n]
  }

  method Single(root: RbNode?, dir: bool, ghost m: Store) returns (save: RbNode?, ghost m': Store)
    requires Mirrors(m)
    requires root != null ==> root in m && var s := m[root].Link(!dir); s != null && s in m && s != root
    modifies if root == null then {} else {root, root.Link(!dir)}
    ensures root == null ==> save == null && m' == m
    ensures root != null ==>
      && save == m[root].Link(!dir)
      && SingleTurned(m, m', root, save, dir) && Mirrors(m')
  {
    save, m' := null, m;
    if root != null {
      assert root.Content() == m[root];
      save := root.Link(!dir);
      assert save.Content() == m[save];
      root.SetLink(!dir, save.Link(dir));
      save.SetLink(dir, root);
      root.red := true;
      save.red := false;
      m' := m[root := root.Content()][save := save.Content()];
    }
  }

  /** `m'` is `m` after the grandchild `save` of `root`, below `p`, was rotated above both. */
  ghost predicate DoubleTurned(m: Store, m': Store, root: RbNode, p: RbNode, save: RbNode, dir: bool) {
    && root in m && p in m && save in m && m'.Keys == m.Keys
    && m'[root] == m[root].Set(!dir, m[save].Link(dir)).(red := true)
    && m'[p] == m[p].Set(dir, m[save].Link(!dir)).(red := true)
    && m'[save] == m[save].Set(!dir, p).Set(dir, root).(red := false)
    && forall n | n in m && n !in {root, p, save} :: m'[n] == m[n]
  }

  method Double(root: RbNode, dir: bool, ghost m: Store, ghost p: RbNode, ghost q: RbNode)
    returns (save: RbNode, ghost m': Store)
    requires Mirrors(m) && root in m && p in m && q in m && root != p && root != q && p != q
    requires m[root].Link(!dir) == p && m[p].Link(dir) == q
    modifies root, p, q
    ensures save == q && DoubleTurned(m, m', root, p, q, dir) && Mirrors(m')
  {
    assert root.Content() == m[root] && p.Content() == m[p];
    var s;
    s, m' := Single(root.Link(!dir), !dir, m);
    assert root.Content() == m'[root];
    root.SetLink(!dir, s);
    m' := m'[root := root.Content()];
    save, m' := Single(root, dir, m');
  }

  // ---------- The repair of a red child below a red parent ----------

  /** Two nodes above the focus and the node above those exist and are the helpers p, g and t. */
  ghost predicate Aligned(head: RbNode, c: Ctx<RbNode>, f: Tree<RbNode>,
                          t: RbNode, g: RbNode, p: RbNode, q: RbNode, last: bool)
  {
    && c.Crumb? && c.up.Crumb? && f.Bin?
    && t == Owner(head, c.up.up) && g == c.up.id && p == c.id && q == f.id && last == c.up.dir
  }

  /** The four helpers are different nodes, and none of them lies in a subtree the rotation moves. */
  lemma HelpersOutside(head: RbNode, c: Ctx<RbNode>, f: Tree<RbNode>)
    requires Apart(head, c, f) && c.Crumb? && c.up.Crumb? && f.Bin?
    ensures var t, g, p, q := Owner(head, c.up.up), c.up.id, c.id, f.id;
      && t !in {g, p, q} && g !in {p, q} && p != q
      && {t, g, p, q} !! Nodes(c.sib) && {t, g, p, q} !! Nodes(c.up.sib)
      && {t, g, p, q} !! Nodes(f.l0) && {t, g, p, q} !! Nodes(f.l1)
      && {g, p, q} !! CtxNodes(c.up.up)
  {
    var u := c.up.up;
    assert CtxDistinct(c.up) && CtxDistinct(u) && Distinct(f);
    assert CtxNodes(c) == {c.id} + Nodes(c.sib) + CtxNodes(c.up);
    assert CtxNodes(c.up) == {c.up.id} + Nodes(c.up.sib) + CtxNodes(u);
    assert Nodes(f) == {f.id} + Nodes(f.l0) + Nodes(f.l1);
  }

  lemma SingleApart(head: RbNode, c: Ctx<RbNode>, f: Tree<RbNode>)
    requires Apart(head, c, f) && c.Crumb? && c.up.Crumb?
    ensures Apart(head, SingleCtx(c), f) && CtxNodes(SingleCtx(c)) == CtxNodes(c)
  {
    var g := c.up;
    assert CtxNodes(c) == {c.id} + Nodes(c.sib) + CtxNodes(g);
    assert CtxNodes(g) == {g.id} + Nodes(g.sib) + CtxNodes(g.up);
    assert CtxDistinct(g) && CtxDistinct(g.up);
    var s := SingleCtx(c).sib;
    assert Nodes(s) == {g.id} + Nodes(c.sib) + Nodes(g.sib);
    assert Distinct(s);
  }

  lemma DoubleApart(head: RbNode, c: Ctx<RbNode>, f: Tree<RbNode>)
    requires Apart(head, c, f) && c.Crumb? && c.up.Crumb? && f.Bin?
    ensures Apart(head, c.up.up, DoubleTree(c, f))
    ensures CtxNodes(c.up.up) + Nodes(DoubleTree(c, f)) == CtxNodes(c) + Nodes(f)
  {
    var g := c.up;
    assert CtxNodes(c) == {c.id} + Nodes(c.sib) + CtxNodes(g);
    assert CtxNodes(g) == {g.id} + Nodes(g.sib) + CtxNodes(g.up);
    assert Nodes(f) == {f.id} + Nodes(f.l0) + Nodes(f.l1);
    assert CtxDistinct(g) && CtxDistinct(g.up) && Distinct(f);
    var d := DoubleTree(c, f);
    var a, b := Child(d, g.dir), Child(d, !g.dir);
    assert Nodes(a) == {c.id} + Nodes(c.sib) + Nodes(Child(f, g.dir)) && Distinct(a);
    assert Nodes(b) == {g.id} + Nodes(g.sib) + Nodes(Child(f, !g.dir)) && Distinct(b);
    assert Nodes(d) == {f.id} + Nodes(a) + Nodes(b);
  }

  /** What the three helpers hold before a rotation, as read by the code. */
  lemma HelperCells(m: Store, head: RbNode, c: Ctx<RbNode>, f: Tree<RbNode>,
                    t: RbNode, g: RbNode, p: RbNode, q: RbNode, last: bool)
    requires Stands(m, head, c, f) && Aligned(head, c, f, t, g, p, q, last)
    ensures t in m && g in m && p in m && q in m && t !in {g, p, q} && g !in {p, q} && p != q
    ensures m[t].Link(LinkOf(c.up.up)) == g && (m[t].link1 == g <==> LinkOf(c.up.up))
    ensures m[g] == Cell(c.up.red, c.up.key, p, p).Set(!last, Root(c.up.sib))
    ensures m[p] == Cell(c.red, c.key, q, q).Set(!c.dir, Root(c.sib)) && Root(c.sib) != q
    ensures m[q] == Cell(f.red, f.key, Root(f.l0), Root(f.l1))
  {
    HelpersOutside(head, c, f);
    var u := c.up.up;
    assert CtxRep(m, head, c.up, p) && CtxRep(m, head, u, g);
    if u.Crumb? {
      assert g !in Nodes(u.sib) by { assert CtxNodes(u) == {u.id} + Nodes(u.sib) + CtxNodes(u.up); }
    }
  }

  /** Store `m'` differs from `m` only in the helpers, which were relinked by a single rotation. */
  ghost predicate SingleDone(m: Store, m': Store, c: Ctx<RbNode>, t: RbNode, g: RbNode, p: RbNode, last: bool) {
    && t in m && g in m && p in m && m'.Keys == m.Keys
    && m'[t] == m[t].Set(c.Crumb? && c.up.Crumb? && LinkOf(c.up.up), p)
    && m'[g] == m[g].Set(last, m[p].Link(!last)).(red := true)
    && m'[p] == m[p].Set(!last, g).(red := false)
    && forall n | n in m && n !in {t, g, p} :: m'[n] == m[n]
  }

  lemma SingleStands(m: Store, m': Store, head: RbNode, c: Ctx<RbNode>, f: Tree<RbNode>,
                     t: RbNode, g: RbNode, p: RbNode, q: RbNode, last: bool)
    requires Stands(m, head, c, f) && Aligned(head, c, f, t, g, p, q, last) && c.dir == last
    requires SingleDone(m, m', c, t, g, p, last)
    ensures Stands(m', head, SingleCtx(c), f)
  {
    HelperCells(m, head, c, f, t, g, p, q, last);
    HelpersOutside(head, c, f);
    SingleApart(head, c, f);
    var u := c.up.up;
    assert CtxRep(m, head, c.up, p) && CtxRep(m, head, u, g);
    RepFrame(m, m', c.sib);
    RepFrame(m, m', c.up.sib);
    RepFrame(m, m', f);
    Redirect(m, m', head, u, g, p);
    assert Rep(m', SingleCtx(c).sib);
  }

  ghost predicate DoubleDone(m: Store, m': Store, c: Ctx<RbNode>, t: RbNode, g: RbNode, p: RbNode, q: RbNode,
                             last: bool)
  {
    && t in m && g in m && p in m && q in m && m'.Keys == m.Keys
    && m'[t] == m[t].Set(c.Crumb? && c.up.Crumb? && LinkOf(c.up.up), q)
    && m'[g] == m[g].Set(last, m[q].Link(!last)).(red := true)
    && m'[p] == m[p].Set(!last, m[q].Link(last)).(red := true)
    && m'[q] == m[q].Set(last, p).Set(!last, g).(red := false)
    && forall n | n in m && n !in {t, g, p, q} :: m'[n] == m[n]
  }

  lemma DoubleStands(m: Store, m': Store, head: RbNode, c: Ctx<RbNode>, f: Tree<RbNode>,
                     t: RbNode, g: RbNode, p: RbNode, q: RbNode, last: bool)
    requires Stands(m, head, c, f) && Aligned(head, c, f, t, g, p, q, last) && c.dir != last
    requires DoubleDone(m, m', c, t, g, p, q, last)
    ensures Stands(m', head, c.up.up, DoubleTree(c, f))
  {
    HelperCells(m, head, c, f, t, g, p, q, last);
    HelpersOutside(head, c, f);
    DoubleApart(head, c, f);
    var u := c.up.up;
    assert CtxRep(m, head, c.up, p) && CtxRep(m, head, u, g);
    RepFrame(m, m', c.sib);
    RepFrame(m, m', c.up.sib);
    RepFrame(m, m', f.l0);
    RepFrame(m, m', f.l1);
    Redirect(m, m', head, u, g, q);
    var d := DoubleTree(c, f);
    assert Rep(m', Child(d, last));
    assert Rep(m', Child(d, !last));
  }

  /** The rotation around g, hung into the link of t that led to g. */
  method Rotate(t: RbNode, g: RbNode, p: RbNode, q: RbNode, last: bool, ghost m: Store, ghost c: Ctx<RbNode>)
    returns (ghost m': Store)
    requires Mirrors(m) && c.Crumb? && c.up.Crumb?
    requires t in m && g in m && p in m && q in m && t !in {g, p, q} && g !in {p, q} && p != q
    requires m[t].link1 == g <==> LinkOf(c.up.up)
    requires m[g].Link(last) == p && m[p].Link(c.dir) == q && m[p].Link(!c.dir) != q
    modifies m.Keys
    ensures Mirrors(m')
    ensures c.dir == last ==> SingleDone(m, m', c, t, g, p, last)
    ensures c.dir != last ==> DoubleDone(m, m', c, t, g, p, q, last)
  {
    assert t.Content() == m[t] && p.Content() == m[p];
    var dir2 := t.link1 == g;
    var s: RbNode?;
    if q == p.Link(last) {
      s, m' := Single(g, !last, m);
    } else {
      s, m' := Double(g, !last, m, p, q);
    }
    assert t.Content() == m'[t];
    t.SetLink(dir2, s);
    m' := m'[t := m'[t].Set(dir2, s)];
  }

  /**
   The repair of a red `q` below a red `p`. It is reached only when the helpers are aligned: t is the
   parent of g, g of p, p of q, and `last` is the direction from g to p.
   */
  method Repair(head: RbNode, t: RbNode, g: RbNode, p: RbNode, q: RbNode, last: bool,
                ghost m: Store, ghost c: Ctx<RbNode>, ghost f: Tree<RbNode>)
    returns (ghost m': Store)
    requires Mirrors(m) && Stands(m, head, c, f) && Aligned(head, c, f, t, g, p, q, last)
    modifies m.Keys
    ensures Mirrors(m') && m'.Keys == m.Keys
    ensures c.dir == last ==> Stands(m', head, SingleCtx(c), f)
    ensures c.dir != last ==> Stands(m', head, c.up.up, DoubleTree(c, f))
  {
    HelperCells(m, head, c, f, t, g, p, q, last);
    m' := Rotate(t, g, p, q, last, m, c);
    if c.dir == last {
      SingleStands(m, m', head, c, f, t, g, p, q, last);
    } else {
      DoubleStands(m, m', head, c, f, t, g, p, q, last);
    }
  }

  // ---------- The colour flip and the new node ----------

  lemma FlipStands(m: Store, m': Store, head: RbNode, c: Ctx<RbNode>, f: Tree<RbNode>)
    requires Stands(m, head, c, f) && BothRed(f)
    requires f.id in m && f.l0.id in m && f.l1.id in m && m'.Keys == m.Keys
    requires m'[f.id] == m[f.id].(red := true)
    requires m'[f.l0.id] == m[f.l0.id].(red := false) && m'[f.l1.id] == m[f.l1.id].(red := false)
    requires forall n | n in m && n !in {f.id, f.l0.id, f.l1.id} :: m'[n] == m[n]
    ensures Stands(m', head, c, Flip(f))
  {
    var x, y := f.l0, f.l1;
    assert Distinct(x) && Distinct(y) && Rep(m, x) && Rep(m, y);
    assert Nodes(f) == {f.id} + Nodes(x) + Nodes(y);
    assert Nodes(x) == {x.id} + Nodes(x.l0) + Nodes(x.l1) && Nodes(y) == {y.id} + Nodes(y.l0) + Nodes(y.l1);
    RepFrame(m, m', x.l0);
    RepFrame(m, m', x.l1);
    RepFrame(m, m', y.l0);
    RepFrame(m, m', y.l1);
    CtxRepFrame(m, m', head, c, f.id);
    var x', y' := x.(red := false), y.(red := false);
    assert Nodes(x') == Nodes(x) && Nodes(y') == Nodes(y) && Distinct(x') && Distinct(y');
    assert Rep(m', x') && Rep(m', y');
    assert Flip(f) == Bin(f.id, true, f.key, x', y');
  }

  lemma FreshStands(m: Store, m': Store, head: RbNode, c: Ctx<RbNode>, n: RbNode, key: Key)
    requires Stands(m, head, c, Leaf) && c.Crumb? && n !in m && c.id in m
    requires m' == m[c.id := m[c.id].Set(c.dir, n)][n := Cell(true, key, null, null)]
    ensures Stands(m', head, c, Fresh(n, key))
  {
    assert CtxNodes(c) == {c.id} + Nodes(c.sib) + CtxNodes(c.up);
    Redirect(m, m', head, c, null, n);
  }

  lemma DownStands(m: Store, head: RbNode, c: Ctx<RbNode>, f: Tree<RbNode>, d: bool)
    requires Stands(m, head, c, f) && f.Bin?
    ensures Stands(m, head, Down(c, f, d), Child(f, d))
    ensures Keys(Child(f, d)) + CtxKeys(Down(c, f, d)) == Keys(f) + CtxKeys(c)
  {
    assert Nodes(f) == {f.id} + Nodes(f.l0) + Nodes(f.l1);
    assert Keys(f) == {f.key} + Keys(f.l0) + Keys(f.l1);
  }

  lemma FocusCells(m: Store, head: RbNode, c: Ctx<RbNode>, f: Tree<RbNode>)
    requires Stands(m, head, c, f)
    ensures c.Crumb? ==> c.id in m && m[c.id].red == c.red
    ensures f.Bin? ==> f.id in m && m[f.id] == Cell(f.red, f.key, Root(f.l0), Root(f.l1))
    ensures f.Bin? && f.l0.Bin? ==> f.l0.id in m && m[f.l0.id].red == f.l0.red && f.l0.id != f.id
    ensures f.Bin? && f.l1.Bin? ==> f.l1.id in m && m[f.l1.id].red == f.l1.red && f.l1.id != f.id
    ensures f.Bin? && f.l0.Bin? && f.l1.Bin? ==> f.l0.id != f.l1.id
  {
    if f.Bin? {
      assert Rep(m, f.l0) && Rep(m, f.l1);
    }
  }

  method Attach(head: RbNode, p: RbNode, dir: bool, key: Key, ghost m: Store, ghost c: Ctx<RbNode>)
    returns (q: RbNode, ghost m': Store)
    requires Mirrors(m) && Stands(m, head, c, Leaf) && c.Crumb? && p == c.id && dir == c.dir
    modifies p
    ensures fresh(q) && m'.Keys == m.Keys + {q}
    ensures Mirrors(m') && Stands(m', head, c, Fresh(q, key))
  {
    FocusCells(m, head, c, Leaf);
    assert p.Content() == m[p];
    q := new RbNode(key);
    p.SetLink(dir, q);
    m' := m[p := p.Content()][q := q.Content()];
    FreshStands(m, m', head, c, q, key);
  }

  method FlipColours(head: RbNode, q: RbNode, ghost m: Store, ghost c: Ctx<RbNode>, ghost f: Tree<RbNode>)
    returns (ghost m': Store)
    requires Mirrors(m) && Stands(m, head, c, f) && BothRed(f) && q == f.id
    modifies m.Keys
    ensures m'.Keys == m.Keys && Mirrors(m') && Stands(m', head, c, Flip(f))
  {
    FocusCells(m, head, c, f);
    hide Stands;
    assert q.Content() == m[q];
    assert q.link0.Content() == m[q.link0];
    assert q.link1.Content() == m[q.link1];
    q.red := true;
    q.link0.red := false;
    q.link1.red := false;
    m' := m[q := q.Content()][q.link0 := q.link0.Content()][q.link1 := q.link1.Content()];
    FlipStands(m, m', head, c, f);
  }

  /** Attach a new node at a null link, or flip the colours of a node with two red children. */
  method LookAt(head: RbNode, p: RbNode?, q0: RbNode?, dir: bool, key: Key,
                ghost m: Store, ghost c: Ctx<RbNode>, ghost f: Tree<RbNode>, ghost quiet: nat)
    returns (q: RbNode, ghost m': Store)
    requires Mirrors(m) && Stands(m, head, c, f) && Phase(c, f, key, quiet)
    requires q0 == Root(f) && (c.Crumb? ==> p == c.id && dir == c.dir) && (c.Top? ==> f.Bin?)
    modifies m.Keys
    ensures Mirrors(m') && Stands(m', head, c, Looked(f, q, key))
    ensures Looked(f, q, key).Bin? && q == Looked(f, q, key).id
    ensures f.Bin? ==> m'.Keys == m.Keys
    ensures f.Leaf? ==> fresh(q) && m'.Keys == m.Keys + {q}
  {
    FocusCells(m, head, c, f);
    m' := m;
    if q0 == null {
      q, m' := Attach(head, p, dir, key, m, c);
    } else {
      q := q0;
      assert q.Content() == m[q];
      assert q.link0 != null ==> q.link0.Content() == m[q.link0];
      assert q.link1 != null ==> q.link1.Content() == m[q.link1];
      if IsRedNode(q.link0) && IsRedNode(q.link1) {
        m' := FlipColours(head, q, m, c, f);
      }
    }
  }

  // ---------- The tree ----------

  /**
   Where the helpers are. p is always the node above the focus; g and `last` are in position unless
   two quiet iterations lie ahead, t unless one does.
   */
  ghost predicate Helpers(head: RbNode, c: Ctx<RbNode>, quiet: nat,
                          t: RbNode, g: RbNode?, p: RbNode?, dir: bool, last: bool)
  {
    && p == (if c.Crumb? then c.id else null)
    && (c.Crumb? ==> dir == c.dir)
    && (quiet < 2 ==>
          && g == (if c.Crumb? && c.up.Crumb? then c.up.id else null)
          && (g != null ==> last == c.up.dir)
          && (g == null ==> t == head))
    && (quiet == 2 ==> g != null)
    && (quiet == 0 && g != null ==> t == Owner(head, c.up.up))
  }

  /** The state at the head of the insertion loop. */
  ghost predicate InPass(head: RbNode, m: Store, c: Ctx<RbNode>, f: Tree<RbNode>, key: Key, quiet: nat,
                         t: RbNode, g: RbNode?, p: RbNode?, q: RbNode?, dir: bool, last: bool)
  {
    && Stands(m, head, c, f) && Phase(c, f, key, quiet)
    && q == Root(f) && (c.Top? ==> f.Bin?) && Helpers(head, c, quiet, t, g, p, dir, last)
  }

  /**
   Whenever a red child below a red parent comes up, the helpers are in position: p is the parent, g
   its parent and t the node above, although a rotation leaves them behind for some iterations.
   */
  lemma RotatesAligned(head: RbNode, m: Store, c: Ctx<RbNode>, f: Tree<RbNode>, key: Key, quiet: nat,
                       t: RbNode, g: RbNode?, p: RbNode?, q0: RbNode?, dir: bool, last: bool, q: RbNode)
    requires InPass(head, m, c, f, key, quiet, t, g, p, q0, dir, last)
    requires q == (if f.Leaf? then q else f.id) && RedRed(c, Looked(f, q, key))
    ensures g != null && p != null && Aligned(head, c, Looked(f, q, key), t, g, p, q, last)
    ensures quiet == 0 && dir == c.dir && !IsRed(c.up.sib)
  {
    RepairPossible(c, f, q, key, quiet);
  }

  /**
   The body of one iteration up to the comparison with the key: `Repair` is called only with the
   helpers aligned.
   */
  method Visit(head: RbNode, t: RbNode, g: RbNode?, p: RbNode?, q0: RbNode?, dir: bool, last: bool, key: Key,
               ghost m: Store, ghost c: Ctx<RbNode>, ghost f: Tree<RbNode>, ghost quiet: nat)
    returns (q: RbNode, ghost m': Store, ghost c': Ctx<RbNode>, ghost f': Tree<RbNode>)
    requires Mirrors(m) && InPass(head, m, c, f, key, quiet, t, g, p, q0, dir, last)
    modifies m.Keys
    ensures Repaired(c, Looked(f, q, key), c', f')
    ensures Mirrors(m') && Stands(m', head, c', f') && f'.Bin? && q == f'.id
    ensures q.data == f'.key && q.link0 == Root(f'.l0) && q.link1 == Root(f'.l1)
    ensures f.Bin? ==> m'.Keys == m.Keys
    ensures m.Keys <= m'.Keys && fresh(m'.Keys - m.Keys)
  {
    hide Phase, Stands, Looked, SingleCtx;
    q, m' := LookAt(head, p, q0, dir, key, m, c, f, quiet);
    c', f' := c, Looked(f, q, key);
    RepairPossible(c, f, q, key, quiet);
    FocusCells(m', head, c, f');
    assert q.Content() == m'[q] && (p != null ==> p.Content() == m'[p]);
    if IsRedNode(q) && IsRedNode(p) {
      m' := Repair(head, t, g, p, q, last, m', c, f');
      if c.dir == last { c' := SingleCtx(c); } else { c', f' := c.up.up, DoubleTree(c, f'); }
      FocusCells(m', head, c', f');
      assert q.Content() == m'[q];
    }
  }

  /**
   Moving the helpers down keeps them as described: a single rotation leaves t behind, a double one
   t, g and `last`, and they are all back in position when the quiet iterations are over.
   */
  lemma MoveHelpers(head: RbNode, c0: Ctx<RbNode>, f0: Tree<RbNode>, key: Key, quiet: nat,
                    c: Ctx<RbNode>, f: Tree<RbNode>,
                    t: RbNode, g: RbNode?, p: RbNode?, q: RbNode, dir: bool, last: bool)
    requires Phase(c0, f0, key, quiet) && f0.Bin? && Repaired(c0, Looked(f0, q, key), c, f)
    requires f.Bin? && q == f.id && Helpers(head, c0, quiet, t, g, p, dir, last)
    ensures var d := Dir(f.key, key);
      Helpers(head, Down(c, f, d), NextQuiet(c0, f0, quiet), if g != null then g else t, p, q, d, dir)
  {
    RepairPossible(c0, f0, q, key, quiet);
  }

  /** From one iteration to the next: everything needed holds again and the pass has come closer to its end. */
  lemma Advance(head: RbNode, m: Store, c0: Ctx<RbNode>, f0: Tree<RbNode>, key: Key, quiet0: nat,
                c1: Ctx<RbNode>, f1: Tree<RbNode>,
                m0: Store, t: RbNode, g: RbNode?, p: RbNode?, q0: RbNode?, q: RbNode, dir: bool, last: bool)
    returns (c: Ctx<RbNode>, f: Tree<RbNode>, quiet: nat)
    requires InPass(head, m0, c0, f0, key, quiet0, t, g, p, q0, dir, last) && f0.Bin? && f0.key != key
    requires Repaired(c0, Looked(f0, q, key), c1, f1) && Stands(m, head, c1, f1) && f1.Bin? && q == f1.id
    ensures var d := Dir(f0.key, key);
      InPass(head, m, c, f, key, quiet, if g != null then g else t, p, q, Root(Child(f1, d)), d, dir)
    ensures Keys(f) + CtxKeys(c) == Keys(f1) + CtxKeys(c1)
    ensures Remaining(f, key, quiet) < Remaining(f0, key, quiet0)
         || (Remaining(f, key, quiet) == Remaining(f0, key, quiet0) && quiet < quiet0)
  {
    NextIteration(c0, f0, q, key, quiet0, c1, f1);
    MoveHelpers(head, c0, f0, key, quiet0, c1, f1, t, g, p, q, dir, last);
    var d := Dir(f0.key, key);
    DownStands(m, head, c1, f1, d);
    c, f, quiet := Down(c1, f1, d), Child(f1, d), NextQuiet(c0, f0, quiet0);
  }

  /** `IterationOk` for a state of the pass. */
  lemma PassOk(head: RbNode, m: Store, c0: Ctx<RbNode>, f0: Tree<RbNode>, key: Key, quiet: nat,
               t: RbNode, g: RbNode?, p: RbNode?, q0: RbNode?, dir: bool, last: bool,
               c: Ctx<RbNode>, f: Tree<RbNode>, q: RbNode)
    requires InPass(head, m, c0, f0, key, quiet, t, g, p, q0, dir, last)
    requires Repaired(c0, Looked(f0, q, key), c, f)
    ensures f.Bin? && Linked(c, f, key) && !RedRed(c, f)
    ensures f0.Leaf? ==> f.key == key
    ensures f0.Bin? ==> f.key == f0.key && Keys(f) + CtxKeys(c) == Keys(f0) + CtxKeys(c0)
    ensures f.key == key ==> Keys(f) + CtxKeys(c) == Keys(f0) + CtxKeys(c0) + {key}
  {
    IterationOk(c0, f0, q, key, quiet, c, f);
  }

  lemma StartPass(store: Store, head: RbNode, m: Store, tree: Tree<RbNode>, key: Key)
    requires IsRbTree(tree) && Distinct(tree) && Rep(store, tree) && store.Keys == Nodes(tree) && tree.Bin?
    requires head !in store && m == store[head := Cell(false, 0, null, Root(tree))]
    ensures InPass(head, m, Top, tree, key, 0, head, null, null, Root(tree), false, false)
    ensures Keys(tree) + CtxKeys<RbNode>(Top) == Keys(tree)
  {
    RepFrame(store, m, tree);
  }

  lemma StepsBound(tree: Tree<RbNode>, steps: nat)
    requires IsRbTree(tree) && steps <= Height(tree)
    ensures Pow2(steps) <= (|Keys(tree)| + 1) * (|Keys(tree)| + 1)
  {
    OrderedKeys(tree, -1, KEY_LIMIT);
    HeightBound(tree);
    Pow2Monotone(steps, Height(tree));
  }

  class JswRbTree {
    var root: RbNode?
    var size: nat
    ghost var tree: Tree<RbNode>
    ghost var store: Store

    ghost predicate Valid()
      reads this, store.Keys
    {
      && root == Root(tree) && IsRbTree(tree)
      && Distinct(tree) && Rep(store, tree) && store.Keys == Nodes(tree) && Mirrors(store)
    }

    constructor ()
      ensures Valid() && fresh(store.Keys) && tree == Leaf && size == 0
    {
      root, size, tree, store := null, 0, Leaf, map[];
    }

    /** Searching finds exactly the stored keys, within 2 log2(n + 1) comparisons for n of them. */
    method Find(key: Key) returns (it: RbNode?, ghost steps: nat)
      requires Valid()
      ensures it != null <==> key in Keys(tree)
      ensures it != null ==> it in store.Keys && it.data == key
      ensures steps <= Height(tree)
      ensures Pow2(steps) <= (|Keys(tree)| + 1) * (|Keys(tree)| + 1)
    {
      hide Pow2, Balanced, NoRedRed, BlackHeight, Distinct, Nodes;
      it, steps := root, 0;
      ghost var f, lo: int, hi: int := tree, -1, KEY_LIMIT;
      OrderedKeys(f, lo, hi);
      while it != null
        invariant it == Root(f) && Rep(store, f) && Ordered(f, lo, hi)
        invariant key in Keys(f) <==> key in Keys(tree)
        invariant steps + Height(f) <= Height(tree)
        decreases f
      {
        assert it.Content() == store[it];
        OrderedKeys(f.l0, f.key, hi);
        OrderedKeys(f.l1, lo, f.key);
        steps := steps + 1;
        var cmp := KeyValCmp(it.data, key);
        if cmp == 0 {
          break;
        }
        it := it.Link(cmp < 0);
        if Dir(f.key, key) { f, hi := f.l1, f.key; } else { f, lo := f.l0, f.key; }
      }
      hide Keys;
      StepsBound(tree, steps);
    }

    method Insert(key: Key) returns (rval: int)
      requires Valid()
      modifies this, store.Keys
      ensures Valid() && fresh(store.Keys - old(store.Keys))
      ensures rval == 1 && size == old(size) + 1
      ensures Keys(tree) == old(Keys(tree)) + {key}
    {
      if root == null {
        var n := new RbNode(key);
        n.red := false;
        root, tree, store := n, Black(Fresh(n, key)), map[n := n.Content()];
        SingletonOk(n, key);
      } else {
        InsertBelow(key);
      }
      size := size + 1;
      return 1;
    }

    method InsertBelow(key: Key)
      requires Valid() && root != null
      modifies this, store.Keys
      ensures Valid() && fresh(store.Keys - old(store.Keys)) && size == old(size)
      ensures Keys(tree) == old(Keys(tree)) + {key}
    {
      var head: RbNode;
      ghost var m, w;
      head, m, w := Descend(key);
      Adopt(head, m, w);
    }

    /** The false root stands in for the parent of the root. */
    method Descend(key: Key) returns (head: RbNode, ghost m: Store, ghost w: Tree<RbNode>)
      requires Valid() && root != null
      modifies store.Keys
      ensures fresh(head) && fresh(m.Keys - store.Keys) && Mirrors(m) && Hangs(m, head, w)
      ensures IsRbTree(Black(w)) && Keys(Black(w)) == Keys(tree) + {key}
    {
      hide IsRbTree, Rep, Distinct, Nodes, Hangs, Black, InPass, Stands, Linked, RedRed, Keys, CtxKeys;
      head := new RbNode(0);
      head.red := false;
      head.link1 := root;
      m := store[head := head.Content()];
      assert Mirrors(m);
      StartPass(store, head, m, tree, key);
      ghost var c, f;
      m, c, f := Walk(head, root, key, m, tree);
      w := Close(m, head, c, f, key);
    }

    /** The descending pass of `Insert`: at its end the key is in the tree around the helper q. */
    static method Walk(head: RbNode, root: RbNode, key: Key, ghost m0: Store, ghost tree: Tree<RbNode>)
      returns (ghost m: Store, ghost c: Ctx<RbNode>, ghost f: Tree<RbNode>)
      requires Mirrors(m0) && InPass(head, m0, Top, tree, key, 0, head, null, null, root, false, false)
      modifies m0.Keys
      ensures fresh(m.Keys - m0.Keys) && Mirrors(m) && Stands(m, head, c, f)
      ensures f.Bin? && Linked(c, f, key) && !RedRed(c, f)
      ensures Keys(f) + CtxKeys(c) == Keys(tree) + {key}
    {
      var t: RbNode, g: RbNode?, p: RbNode?, q: RbNode? := head, null, null, root;
      var dir, last, done := false, false, false;
      ghost var quiet := 0;
      m, c, f := m0, Top, tree;
      assert Keys(f) + CtxKeys(c) == Keys(tree);
      hide InPass, Stands, Linked, Mirrors, Remaining, Keys, CtxKeys, RedRed;
      while true
        invariant m.Keys == m0.Keys && Mirrors(m) && !done
        invariant InPass(head, m, c, f, key, quiet, t, g, p, q, dir, last)
        invariant Keys(f) + CtxKeys(c) == Keys(tree)
        decreases Remaining(f, key, quiet), quiet
      {
        done, t, g, p, q, dir, last, m, c, f, quiet :=
          Iterate(head, t, g, p, q, dir, last, key, m, c, f, quiet);
        if done {
          break;
        }
      }
    }

    /** One iteration of the pass, ending with the helpers moved one link down unless it was the last. */
    static method Iterate(head: RbNode, t0: RbNode, g0: RbNode?, p0: RbNode?, q0: RbNode?, dir0: bool, last0: bool,
                          key: Key, ghost m0: Store, ghost c0: Ctx<RbNode>, ghost f0: Tree<RbNode>,
                          ghost quiet0: nat)
      returns (done: bool, t: RbNode, g: RbNode?, p: RbNode?, q: RbNode?, dir: bool, last: bool,
               ghost m: Store, ghost c: Ctx<RbNode>, ghost f: Tree<RbNode>, ghost quiet: nat)
      requires Mirrors(m0) && InPass(head, m0, c0, f0, key, quiet0, t0, g0, p0, q0, dir0, last0)
      modifies m0.Keys
      ensures Mirrors(m) && fresh(m.Keys - m0.Keys)
      ensures done ==>
        && Stands(m, head, c, f) && f.Bin? && Linked(c, f, key) && !RedRed(c, f)
        && Keys(f) + CtxKeys(c) == Keys(f0) + CtxKeys(c0) + {key}
      ensures !done ==>
        && InPass(head, m, c, f, key, quiet, t, g, p, q, dir, last) && m.Keys == m0.Keys
        && Keys(f) + CtxKeys(c) == Keys(f0) + CtxKeys(c0)
        && (Remaining(f, key, quiet) < Remaining(f0, key, quiet0)
            || (Remaining(f, key, quiet) == Remaining(f0, key, quiet0) && quiet < quiet0))
    {
      hide InPass, Stands, Linked, Mirrors, Looked, Repaired, Remaining, Keys, CtxKeys, RedRed;
      t, g, p, dir, last, quiet := t0, g0, p0, dir0, last0, quiet0;
      q, m, c, f := Visit(head, t, g, p, q0, dir, last, key, m0, c0, f0, quiet);
      PassOk(head, m0, c0, f0, key, quiet, t, g, p, q0, dir, last, c, f, q);
      if KeyValCmp(q.data, key) == 0 {
        done := true;
        return;
      }
      done := false;
      c, f, quiet := Advance(head, m, c0, f0, key, quiet, c, f, m0, t, g, p, q0, q, dir, last);
      last := dir;
      dir := KeyValCmp(q.data, key) < 0;
      if g != null {
        t := g;
      }
      g, p := p, q;
      q := q.Link(dir);
    }

    /** The node below the false root becomes the root and is made black. */
    method Adopt(head: RbNode, ghost m: Store, ghost w: Tree<RbNode>)
      requires Mirrors(m) && Hangs(m, head, w) && IsRbTree(Black(w))
      modifies this, m.Keys
      ensures Valid() && store.Keys == m.Keys - {head} && size == old(size)
      ensures tree == Black(w)
    {
      assert head.Content() == m[head];
      assert w.id.Content() == m[w.id];
      root := head.link1;
      root.red := false;
      tree, store := Black(w), (m - {head})[root := root.Content()];
      BlackRep(m, store, w);
    }
  }

  /** The nodes of `w`, which are all nodes of the store but the false root, hang below the latter. */
  ghost predicate Hangs(m: Store, head: RbNode, w: Tree<RbNode>) {
    && w.Bin? && Rep(m, w) && Distinct(w) && head !in Nodes(w) && m.Keys == {head} + Nodes(w)
    && m[head].link1 == w.id
  }

  lemma Close(m: Store, head: RbNode, c: Ctx<RbNode>, f: Tree<RbNode>, key: Key) returns (w: Tree<RbNode>)
    requires Stands(m, head, c, f) && f.Bin? && Linked(c, f, key) && !RedRed(c, f)
    ensures Hangs(m, head, w) && IsRbTree(Black(w)) && Keys(Black(w)) == Keys(f) + CtxKeys(c)
  {
    w := Plug(c, f);
    PlugOk(c, f, key);
    PlugRep(m, head, c, f);
    BlackOk(w);
    assert f.id in Nodes(f);
  }

  lemma BlackRep(m: Store, m': Store, w: Tree<RbNode>)
    requires Rep(m, w) && Distinct(w) && w.Bin? && w.id in m && w.id in m' && Nodes(w) <= m'.Keys
    requires m'[w.id] == m[w.id].(red := false)
    requires forall n | n in m && n in m' && n != w.id :: m'[n] == m[n]
    ensures Rep(m', Black(w)) && Distinct(Black(w)) && Nodes(Black(w)) == Nodes(w) && Root(Black(w)) == w.id
  {
    RepFrame(m, m', w.l0);
    RepFrame(m, m', w.l1);
  }
}
