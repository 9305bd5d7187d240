/**
 Red-black trees as values, and the zipper that a top-down insertion walks along.

 A `Tree<N>` is the shape of a linked tree whose nodes are named by values of type `N`.
 A `Ctx<N>` is everything above one link of such a tree, nearest node first. The insertion
 in src/rbtree.c always stands at one link of the tree: (context, subtree below the link).
 */
module RbTree {

  const KEY_LIMIT := 0x1_0000_0000

  /** `unsigned int` keys of the stored items. */
  type Key = k: int | 0 <= k < KEY_LIMIT

  /** Comparison of two items, first argument the stored one. */
  function KeyValCmp(first: Key, second: Key): int {
    if second == first then 0 else if second < first then -1 else 1
  }

  /** The link followed from a node when looking for `key`: false is link[0], true is link[1]. */
  predicate Dir(nodeKey: Key, key: Key) {
    KeyValCmp(nodeKey, key) < 0
  }

  datatype Tree<N> = Leaf | Bin(id: N, red: bool, key: Key, l0: Tree<N>, l1: Tree<N>)

  datatype Ctx<N> = Top | Crumb(up: Ctx<N>, id: N, red: bool, key: Key, dir: bool, sib: Tree<N>)

  // ---------- Reading and building ----------

  predicate IsRed<N>(t: Tree<N>) {
    t.Bin? && t.red
  }

  predicate BothRed<N>(t: Tree<N>) {
    t.Bin? && IsRed(t.l0) && IsRed(t.l1)
  }

  function Child<N>(t: Tree<N>, d: bool): Tree<N>
    requires t.Bin?
  {
    if d then t.l1 else t.l0
  }

  /** A node whose link `d` leads to `x` and whose other link leads to `y`. */
  function Mk<N>(id: N, red: bool, key: Key, d: bool, x: Tree<N>, y: Tree<N>): Tree<N> {
    if d then Bin(id, red, key, y, x) else Bin(id, red, key, x, y)
  }

  /** Stepping from the root of `t` (below `c`) along link `d`. */
  function Down<N>(c: Ctx<N>, t: Tree<N>, d: bool): Ctx<N>
    requires t.Bin?
  {
    Crumb(c, t.id, t.red, t.key, d, Child(t, !d))
  }

  function Plug<N>(c: Ctx<N>, t: Tree<N>): Tree<N> {
    match c
    case Top => t
    case Crumb(up, id, red, key, dir, sib) => Plug(up, Mk(id, red, key, dir, t, sib))
  }

  function Black<N>(t: Tree<N>): Tree<N> {
    if t.Bin? then t.(red := false) else t
  }

  ghost function Keys<N>(t: Tree<N>): set<Key> {
    match t
    case Leaf => {}
    case Bin(_, _, key, l0, l1) => {key} + Keys(l0) + Keys(l1)
  }

  ghost function CtxKeys<N>(c: Ctx<N>): set<Key> {
    match c
    case Top => {}
    case Crumb(up, _, _, key, _, sib) => {key} + Keys(sib) + CtxKeys(up)
  }

  ghost function Size<N>(t: Tree<N>): nat {
    match t
    case Leaf => 0
    case Bin(_, _, _, l0, l1) => 1 + Size(l0) + Size(l1)
  }

  ghost function Height<N>(t: Tree<N>): nat {
    match t
    case Leaf => 0
    case Bin(_, _, _, l0, l1) => 1 + if Height(l0) < Height(l1) then Height(l1) else Height(l0)
  }

  // ---------- The red-black conditions ----------

  /** Every key is strictly between the bounds, smaller keys in link[1], larger ones in link[0]. */
  ghost predicate Ordered<N>(t: Tree<N>, lo: int, hi: int) {
    t.Bin? ==> lo < t.key < hi && Ordered(t.l1, lo, t.key) && Ordered(t.l0, t.key, hi)
  }

  ghost predicate NoRedRed<N>(t: Tree<N>) {
    t.Bin? ==> (t.red ==> !IsRed(t.l0) && !IsRed(t.l1)) && NoRedRed(t.l0) && NoRedRed(t.l1)
  }

  /** Black nodes on the way down along link[0]. */
  ghost function BlackHeight<N>(t: Tree<N>): nat {
    if t.Leaf? then 0 else BlackHeight(t.l0) + if t.red then 0 else 1
  }

  ghost predicate Balanced<N>(t: Tree<N>) {
    t.Bin? ==> BlackHeight(t.l0) == BlackHeight(t.l1) && Balanced(t.l0) && Balanced(t.l1)
  }

  ghost predicate IsRbTree<N>(t: Tree<N>) {
    && Ordered(t, -1, KEY_LIMIT)
    && Balanced(t)
    && NoRedRed(t)
    && !IsRed(t)
  }

  // ---------- What the conditions mean ----------

  /** The subtree reached from `t` by following `path`, if the path does not run past a null link. */
  ghost predicate LeadsToNull<N>(t: Tree<N>, path: seq<bool>) {
    if t.Leaf? then path == [] else path != [] && LeadsToNull(Child(t, path[0]), path[1..])
  }

  ghost function BlackCount<N>(t: Tree<N>, path: seq<bool>): nat
    requires LeadsToNull(t, path)
  {
    if t.Leaf? then 0
    else (if t.red then 0 else 1) + BlackCount(Child(t, path[0]), path[1..])
  }

  /** Some way to reach a null link exists, so the next two lemmas are about all trees. */
  lemma {:induction false} SomePath<N>(t: Tree<N>) returns (path: seq<bool>)
    ensures LeadsToNull(t, path)
  {
    if t.Leaf? {
      path := [];
    } else {
      var rest := SomePath(t.l0);
      path := [false] + rest;
    }
  }

  lemma {:induction false} BalancedPaths<N>(t: Tree<N>, path: seq<bool>)
    requires Balanced(t) && LeadsToNull(t, path)
    ensures BlackCount(t, path) == BlackHeight(t)
    decreases t
  {
    if t.Bin? {
      BalancedPaths(Child(t, path[0]), path[1..]);
    }
  }

  /** A tree is balanced exactly when all its root-to-null paths hold equally many black nodes. */
  lemma {:induction false} BalancedIff<N(!new)>(t: Tree<N>)
    ensures Balanced(t) <==>
      forall p, q | LeadsToNull(t, p) && LeadsToNull(t, q) :: BlackCount(t, p) == BlackCount(t, q)
  {
    if Balanced(t) {
      forall p, q | LeadsToNull(t, p) && LeadsToNull(t, q)
        ensures BlackCount(t, p) == BlackCount(t, q)
      {
        BalancedPaths(t, p);
        BalancedPaths(t, q);
      }
    } else {
      UnbalancedPaths(t);
    }
  }

  lemma {:induction false} UnbalancedPaths<N>(t: Tree<N>)
    requires !Balanced(t)
    ensures exists p, q :: LeadsToNull(t, p) && LeadsToNull(t, q) && BlackCount(t, p) != BlackCount(t, q)
  {
    if !Balanced(t.l0) || !Balanced(t.l1) {
      var d := Balanced(t.l0);
      UnbalancedPaths(Child(t, d));
      var p, q :| LeadsToNull(Child(t, d), p) && LeadsToNull(Child(t, d), q)
                  && BlackCount(Child(t, d), p) != BlackCount(Child(t, d), q);
      var p', q' := [d] + p, [d] + q;
      assert p'[1..] == p && q'[1..] == q;
      assert LeadsToNull(t, p') && LeadsToNull(t, q') && BlackCount(t, p') != BlackCount(t, q');
    } else {
      var p := SomePath(t.l0);
      var q := SomePath(t.l1);
      BalancedPaths(t.l0, p);
      BalancedPaths(t.l1, q);
      var p', q' := [false] + p, [true] + q;
      assert p'[1..] == p && q'[1..] == q;
      assert LeadsToNull(t, p') && LeadsToNull(t, q') && BlackCount(t, p') != BlackCount(t, q');
    }
  }

  ghost function Pow2(n: nat): nat {
    if n == 0 then 1 else 2 * Pow2(n - 1)
  }

  lemma {:induction false} Pow2Monotone(a: nat, b: nat)
    requires a <= b
    ensures Pow2(a) <= Pow2(b)
    decreases b
  {
    if a < b {
      Pow2Monotone(a, b - 1);
    }
  }

  lemma {:induction false} Pow2Add(a: nat, b: nat)
    ensures Pow2(a + b) == Pow2(a) * Pow2(b)
  {
    if a > 0 {
      Pow2Add(a - 1, b);
      assert Pow2(a + b) == 2 * Pow2(a - 1 + b);
    }
  }

  lemma {:induction false} HeightVsBlack<N>(t: Tree<N>)
    requires Balanced(t) && NoRedRed(t)
    ensures Height(t) <= 2 * BlackHeight(t) + if IsRed(t) then 1 else 0
    ensures Pow2(BlackHeight(t)) <= Size(t) + 1
  {
    if t.Bin? {
      HeightVsBlack(t.l0);
      HeightVsBlack(t.l1);
    }
  }

  /** Height is at most 2 * log2(n + 1): 2^height <= (n + 1)^2. */
  lemma {:induction false} HeightBound<N>(t: Tree<N>)
    requires IsRbTree(t)
    ensures Pow2(Height(t)) <= (Size(t) + 1) * (Size(t) + 1)
  {
    HeightVsBlack(t);
    var b := BlackHeight(t);
    Pow2Monotone(Height(t), b + b);
    Pow2Add(b, b);
    Squares(Pow2(b), Size(t) + 1);
  }

  lemma Squares(a: nat, b: nat)
    requires a <= b
    ensures a * a <= b * b
  {
    assert b * b - a * a == (b - a) * (b + a);
  }

  lemma DisjointSize(a: set<Key>, b: set<Key>, k: Key)
    requires a !! b && k !in a && k !in b
    ensures |{k} + a + b| == 1 + |a| + |b|
  {
    assert |a + b| == |a| + |b|;
    assert {k} + a + b == {k} + (a + b);
  }

  /** The nodes of an ordered tree hold pairwise different keys. */
  lemma {:induction false} OrderedKeys<N>(t: Tree<N>, lo: int, hi: int)
    requires Ordered(t, lo, hi)
    ensures forall k | k in Keys(t) :: lo < k < hi
    ensures |Keys(t)| == Size(t)
  {
    if t.Bin? {
      OrderedKeys(t.l0, t.key, hi);
      OrderedKeys(t.l1, lo, t.key);
      DisjointSize(Keys(t.l0), Keys(t.l1), t.key);
    }
  }

  // ---------- The zipper conditions ----------

  ghost function Lo<N>(c: Ctx<N>): int {
    match c
    case Top => -1
    case Crumb(up, _, _, key, dir, _) => if dir then Lo(up) else key
  }

  ghost function Hi<N>(c: Ctx<N>): int {
    match c
    case Top => KEY_LIMIT
    case Crumb(up, _, _, key, dir, _) => if dir then key else Hi(up)
  }

  ghost predicate CtxOrdered<N>(c: Ctx<N>) {
    c.Crumb? ==>
      && Lo(c.up) < c.key < Hi(c.up)
      && (if c.dir then Ordered(c.sib, c.key, Hi(c.up)) else Ordered(c.sib, Lo(c.up), c.key))
      && CtxOrdered(c.up)
  }

  /** The context is balanced around a subtree of black height `h`. */
  ghost predicate CtxBalanced<N>(c: Ctx<N>, h: nat) {
    c.Crumb? ==>
      && Balanced(c.sib)
      && BlackHeight(c.sib) == h
      && CtxBalanced(c.up, h + if c.red then 0 else 1)
  }

  predicate TopRed<N>(c: Ctx<N>) {
    c.Crumb? && c.red
  }

  ghost predicate CtxNoRedRed<N>(c: Ctx<N>) {
    c.Crumb? ==>
      && (c.red ==> !IsRed(c.sib) && !TopRed(c.up))
      && NoRedRed(c.sib)
      && CtxNoRedRed(c.up)
  }

  /** All conditions around the link, except that the two nodes the link joins may both be red. */
  ghost predicate Linked<N>(c: Ctx<N>, t: Tree<N>, key: Key) {
    && CtxOrdered(c) && Ordered(t, Lo(c), Hi(c)) && Lo(c) < key < Hi(c)
    && CtxBalanced(c, BlackHeight(t)) && Balanced(t)
    && CtxNoRedRed(c) && NoRedRed(t)
  }

  ghost predicate RedRed<N>(c: Ctx<N>, t: Tree<N>) {
    TopRed(c) && IsRed(t)
  }

  /**
   What is known when the loop is about to look at `t`, by the number of coming iterations that
   can neither flip, insert nor rotate.
   */
  ghost predicate Phase<N>(c: Ctx<N>, t: Tree<N>, key: Key, quiet: nat) {
    && Linked(c, t, key)
    && !RedRed(c, t)
    && quiet <= 2
    && (quiet == 0 ==>
          && (IsRed(t) ==> c.Crumb? && !IsRed(c.sib))
          && (TopRed(c) ==> c.up.Crumb? && !IsRed(c.up.sib)))
    && (quiet == 1 ==> t.Bin? && !t.red && !BothRed(t))
    && (quiet == 2 ==>
          && t.Bin? && !BothRed(t) && c.Crumb? && !c.red
          && var next := Child(t, Dir(t.key, key));
             next.Bin? && !next.red && !BothRed(next))
  }

  // ---------- One iteration ----------

  /** The colour flip at a node with two red children. */
  function Flip<N>(t: Tree<N>): Tree<N>
    requires BothRed(t)
  {
    Bin(t.id, true, t.key, t.l0.(red := false), t.l1.(red := false))
  }

  function Fresh<N>(id: N, key: Key): Tree<N> {
    Bin(id, true, key, Leaf, Leaf)
  }

  lemma FlipLinked<N>(c: Ctx<N>, t: Tree<N>, key: Key, quiet: nat)
    requires Phase(c, t, key, quiet) && BothRed(t)
    ensures quiet == 0
    ensures Linked(c, Flip(t), key)
    ensures Keys(Flip(t)) == Keys(t)
    ensures forall d :: var n := Child(Flip(t), d); n.Bin? && !n.red && !BothRed(n) && Height(n) < Height(t)
    ensures TopRed(c) ==> c.up.Crumb? && !IsRed(c.up.sib)
  {
    assert !t.red;
    var m0, m1 := t.l0, t.l1;
    assert NoRedRed(m0) && NoRedRed(m1);
    assert Ordered(m1, Lo(c), t.key) && Ordered(m0, t.key, Hi(c));
    assert Balanced(m0) && Balanced(m1);
    var f := Flip(t);
    assert Child(f, false) == m0.(red := false) && Child(f, true) == m1.(red := false);
    assert Height(m0.(red := false)) == Height(m0) && Height(m1.(red := false)) == Height(m1);
    assert Keys(m0.(red := false)) == Keys(m0) && Keys(m1.(red := false)) == Keys(m1);
  }

  lemma FreshLinked<N>(c: Ctx<N>, id: N, key: Key, quiet: nat)
    requires Phase(c, Leaf, key, quiet)
    ensures quiet == 0
    ensures Linked(c, Fresh(id, key), key)
    ensures TopRed(c) ==> c.up.Crumb? && !IsRed(c.up.sib)
  {
  }

  /** Where the single rotation at c.up leaves the walk: the link to the same subtree. */
  function SingleCtx<N>(c: Ctx<N>): Ctx<N>
    requires c.Crumb? && c.up.Crumb?
  {
    var g := c.up;
    Crumb(g.up, c.id, false, c.key, g.dir, Mk(g.id, true, g.key, g.dir, c.sib, g.sib))
  }

  /** The subtree that the double rotation at c.up puts in the place of the node of c.up. */
  function DoubleTree<N>(c: Ctx<N>, t: Tree<N>): Tree<N>
    requires c.Crumb? && c.up.Crumb? && t.Bin?
  {
    var g := c.up;
    var last := g.dir;
    Mk(t.id, false, t.key, last,
       Mk(c.id, true, c.key, last, c.sib, Child(t, last)),
       Mk(g.id, true, g.key, last, Child(t, !last), g.sib))
  }

  lemma SingleLinked<N>(c: Ctx<N>, t: Tree<N>, key: Key)
    requires Linked(c, t, key) && RedRed(c, t)
    requires c.up.Crumb? && !IsRed(c.up.sib) && c.dir == c.up.dir
    ensures Linked(SingleCtx(c), t, key) && !RedRed(SingleCtx(c), t)
    ensures Keys(t) + CtxKeys(SingleCtx(c)) == Keys(t) + CtxKeys(c)
  {
    var g := c.up;
    assert CtxOrdered(g) && CtxOrdered(g.up) && CtxNoRedRed(g) && CtxBalanced(g, BlackHeight(t));
    var s := SingleCtx(c).sib;
    assert Keys(s) == {g.key} + Keys(c.sib) + Keys(g.sib);
    assert BlackHeight(s) == BlackHeight(c.sib) && Balanced(s) && NoRedRed(s);
    assert if g.dir then Ordered(s, c.key, Hi(g.up)) else Ordered(s, Lo(g.up), c.key);
  }

  lemma DoubleLinked<N>(c: Ctx<N>, t: Tree<N>, key: Key)
    requires Linked(c, t, key) && RedRed(c, t)
    requires c.up.Crumb? && !IsRed(c.up.sib) && c.dir != c.up.dir
    ensures Linked(c.up.up, DoubleTree(c, t), key) && !RedRed(c.up.up, DoubleTree(c, t))
    ensures Keys(DoubleTree(c, t)) + CtxKeys(c.up.up) == Keys(t) + CtxKeys(c)
    ensures key != t.key ==>
      var t' := DoubleTree(c, t);
      var next := Child(t', Dir(t'.key, key));
      && next.key != key
      && Child(next, Dir(next.key, key)) == Child(t, Dir(t.key, key))
  {
    var g := c.up;
    var u := g.up;
    assert CtxOrdered(g) && CtxOrdered(u) && CtxNoRedRed(g) && CtxBalanced(g, BlackHeight(t));
    var t' := DoubleTree(c, t);
    var p', g' := Child(t', g.dir), Child(t', !g.dir);
    assert Keys(p') == {c.key} + Keys(c.sib) + Keys(Child(t, g.dir));
    assert Keys(g') == {g.key} + Keys(g.sib) + Keys(Child(t, !g.dir));
    assert Keys(t) == {t.key} + Keys(Child(t, g.dir)) + Keys(Child(t, !g.dir));
    assert BlackHeight(p') == BlackHeight(t) && Balanced(p') && NoRedRed(p');
    assert BlackHeight(g') == BlackHeight(t) && Balanced(g') && NoRedRed(g');
    assert if g.dir then Ordered(p', Lo(u), t.key) && Ordered(g', t.key, Hi(u))
           else Ordered(p', t.key, Hi(u)) && Ordered(g', Lo(u), t.key);
  }

  /** One step down the search path from a node that was neither flipped nor rotated. */
  lemma MoveQuietly<N>(c: Ctx<N>, t: Tree<N>, key: Key, quiet: nat)
    requires Phase(c, t, key, quiet) && t.Bin? && !BothRed(t) && t.key != key
    ensures var d := Dir(t.key, key);
      Phase(Down(c, t, d), Child(t, d), key, if quiet == 2 then 1 else 0)
  {
  }

  /** One step down from a node that is red because it was just flipped, its link already repaired. */
  lemma MoveFlipped<N>(c: Ctx<N>, t: Tree<N>, key: Key)
    requires Linked(c, t, key) && !RedRed(c, t) && t.Bin? && t.key != key
    requires forall d :: var n := Child(t, d); n.Bin? && !n.red && !BothRed(n)
    ensures var d := Dir(t.key, key); Phase(Down(c, t, d), Child(t, d), key, 1)
  {
    assert Child(t, Dir(t.key, key)).Bin?;
  }

  /** One step down from the node that a double rotation moved to the top. */
  lemma MoveDoubled<N>(c: Ctx<N>, t: Tree<N>, key: Key)
    requires Linked(c, t, key) && RedRed(c, t) && t.key != key
    requires c.up.Crumb? && !IsRed(c.up.sib) && c.dir != c.up.dir
    requires forall d :: var n := Child(t, d); n.Bin? && !n.red && !BothRed(n)
    ensures var t' := DoubleTree(c, t);
      var d := Dir(t'.key, key);
      Phase(Down(c.up.up, t', d), Child(t', d), key, 2)
  {
    DoubleLinked(c, t, key);
    var t' := DoubleTree(c, t);
    var d := Dir(t'.key, key);
    assert Child(t, d).Bin?;
    assert Child(t, !d).Bin?;
  }

  /** The subtree after the first half of an iteration. */
  function Looked<N>(t: Tree<N>, id: N, key: Key): Tree<N> {
    if t.Leaf? then Fresh(id, key) else if BothRed(t) then Flip(t) else t
  }

  /** The link at which the walk stands after the second half of an iteration. */
  ghost predicate Repaired<N>(c: Ctx<N>, t: Tree<N>, c': Ctx<N>, t': Tree<N>) {
    if !RedRed(c, t) then c' == c && t' == t
    else
      && c.up.Crumb?
      && if c.dir == c.up.dir then c' == SingleCtx(c) && t' == t
         else c' == c.up.up && t' == DoubleTree(c, t)
  }

  /** How many iterations after this one are quiet; `t` is the subtree this one started from. */
  ghost function NextQuiet<N>(c: Ctx<N>, t: Tree<N>, quiet: nat): nat {
    if BothRed(t) then (if TopRed(c) && c.up.Crumb? && c.dir != c.up.dir then 2 else 1)
    else if quiet == 2 then 1
    else 0
  }

  /** The part of the search path still to be walked with the helpers in position. */
  ghost function Remaining<N>(t: Tree<N>, key: Key, quiet: nat): nat {
    if quiet == 2 && t.Bin? then Height(Child(t, Dir(t.key, key))) else Height(t)
  }

  /** A red child below a red parent arises only where the rotation has room to work. */
  lemma RepairPossible<N>(c: Ctx<N>, t: Tree<N>, id: N, key: Key, quiet: nat)
    requires Phase(c, t, key, quiet)
    ensures RedRed(c, Looked(t, id, key)) ==> quiet == 0 && c.up.Crumb? && !IsRed(c.up.sib)
  {
    if BothRed(t) {
      FlipLinked(c, t, key, quiet);
    }
  }

  lemma LookedOk<N>(c: Ctx<N>, t: Tree<N>, id: N, key: Key, quiet: nat)
    requires Phase(c, t, key, quiet)
    ensures var l := Looked(t, id, key);
      && l.Bin? && Linked(c, l, key)
      && Keys(l) == Keys(t) + (if t.Leaf? then {key} else {})
      && (t.Leaf? ==> l.key == key)
  {
    if t.Leaf? {
      FreshLinked(c, id, key, quiet);
    } else if BothRed(t) {
      FlipLinked(c, t, key, quiet);
    }
  }

  lemma RepairedOk<N>(c: Ctx<N>, t: Tree<N>, key: Key, c': Ctx<N>, t': Tree<N>)
    requires Linked(c, t, key) && t.Bin? && Repaired(c, t, c', t')
    requires RedRed(c, t) ==> c.up.Crumb? && !IsRed(c.up.sib)
    ensures t'.Bin? && t'.key == t.key && Linked(c', t', key) && !RedRed(c', t')
    ensures Keys(t') + CtxKeys(c') == Keys(t) + CtxKeys(c)
  {
    if RedRed(c, t) {
      if c.dir == c.up.dir {
        SingleLinked(c, t, key);
      } else {
        DoubleLinked(c, t, key);
      }
    }
  }

  lemma AddThird(a: set<Key>, b: set<Key>, c: set<Key>)
    ensures (a + b) + c == (a + c) + b
  {
  }

  lemma IterationKeys<N>(c: Ctx<N>, t: Tree<N>, id: N, key: Key, quiet: nat, c': Ctx<N>, t': Tree<N>)
    requires Phase(c, t, key, quiet) && Repaired(c, Looked(t, id, key), c', t')
    ensures t'.Bin? && t'.key == (if t.Leaf? then key else t.key)
    ensures Keys(t') + CtxKeys(c') == Keys(t) + CtxKeys(c) + if t.Leaf? then {key} else {}
  {
    assert t.Bin? ==> Looked(t, id, key).key == t.key;
    hide Phase, Linked, Repaired, RedRed, Keys, CtxKeys;
    RepairPossible(c, t, id, key, quiet);
    LookedOk(c, t, id, key, quiet);
    hide Looked;
    RepairedOk(c, Looked(t, id, key), key, c', t');
    AddThird(Keys(t), if t.Leaf? then {key} else {}, CtxKeys(c));
  }

  lemma IterationLinks<N>(c: Ctx<N>, t: Tree<N>, id: N, key: Key, quiet: nat, c': Ctx<N>, t': Tree<N>)
    requires Phase(c, t, key, quiet) && Repaired(c, Looked(t, id, key), c', t')
    ensures Linked(c', t', key) && !RedRed(c', t')
  {
    hide Phase, Linked, Repaired, RedRed, Keys, CtxKeys, Looked;
    RepairPossible(c, t, id, key, quiet);
    LookedOk(c, t, id, key, quiet);
    RepairedOk(c, Looked(t, id, key), key, c', t');
  }

  /** One iteration keeps every red-black condition and the keys, and a new node holds the new key. */
  lemma IterationOk<N>(c: Ctx<N>, t: Tree<N>, id: N, key: Key, quiet: nat, c': Ctx<N>, t': Tree<N>)
    requires Phase(c, t, key, quiet) && Repaired(c, Looked(t, id, key), c', t')
    ensures t'.Bin? && Linked(c', t', key) && !RedRed(c', t')
    ensures t.Leaf? ==> t'.key == key
    ensures t.Bin? ==> t'.key == t.key && Keys(t') + CtxKeys(c') == Keys(t) + CtxKeys(c)
    ensures t'.key == key ==> Keys(t') + CtxKeys(c') == Keys(t) + CtxKeys(c) + {key}
  {
    hide Phase, Linked, Repaired, RedRed, Looked, CtxKeys;
    IterationKeys(c, t, id, key, quiet, c', t');
    IterationLinks(c, t, id, key, quiet, c', t');
  }

  /** The next iteration finds what it needs, and less of the path remains or a quiet one is used up. */
  lemma NextIteration<N>(c: Ctx<N>, t: Tree<N>, id: N, key: Key, quiet: nat, c': Ctx<N>, t': Tree<N>)
    requires Phase(c, t, key, quiet) && t.Bin? && Repaired(c, Looked(t, id, key), c', t')
    requires t.key != key
    ensures t'.Bin? && t'.key == t.key
    ensures var d, next := Dir(t.key, key), NextQuiet(c, t, quiet);
      && Phase(Down(c', t', d), Child(t', d), key, next)
      && (Remaining(Child(t', d), key, next) < Remaining(t, key, quiet)
          || (Remaining(Child(t', d), key, next) == Remaining(t, key, quiet) && next < quiet))
  {
    RepairPossible(c, t, id, key, quiet);
    if BothRed(t) {
      FlipLinked(c, t, key, quiet);
      var l := Flip(t);
      if RedRed(c, l) && c.dir != c.up.dir {
        MoveDoubled(c, l, key);
        DoubleLinked(c, l, key);
      } else {
        if RedRed(c, l) {
          SingleLinked(c, l, key);
        }
        MoveFlipped(c', l, key);
      }
    } else {
      MoveQuietly(c, t, key, quiet);
    }
  }

  // ---------- Closing the zipper ----------

  lemma {:induction false} PlugOk<N>(c: Ctx<N>, t: Tree<N>, key: Key)
    requires Linked(c, t, key) && !RedRed(c, t)
    ensures Ordered(Plug(c, t), -1, KEY_LIMIT) && Balanced(Plug(c, t)) && NoRedRed(Plug(c, t))
    ensures Keys(Plug(c, t)) == Keys(t) + CtxKeys(c)
    decreases c
  {
    if c.Crumb? {
      PlugOk(c.up, Mk(c.id, c.red, c.key, c.dir, t, c.sib), key);
    }
  }

  /** Blackening the root, the last thing an insertion does. */
  lemma BlackOk<N>(t: Tree<N>)
    requires Ordered(t, -1, KEY_LIMIT) && Balanced(t) && NoRedRed(t)
    ensures IsRbTree(Black(t)) && Keys(Black(t)) == Keys(t)
  {
  }

  /** The tree of a single item. */
  lemma SingletonOk<N>(id: N, key: Key)
    ensures IsRbTree(Black(Fresh(id, key))) && Keys(Black(Fresh(id, key))) == {key}
  {
    assert Ordered<N>(Leaf, key, KEY_LIMIT) && Ordered<N>(Leaf, -1, key);
  }
}
