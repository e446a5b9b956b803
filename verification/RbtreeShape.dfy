// The memory picture of src/core/ngx_rbtree.c: nodes linked by left, right and
// parent addresses, and the local conditions under which they form one tree.
module RbtreeShape {
  import opened Sequences

  // ngx_uint_t and ngx_rbtree_key_t on a 64-bit platform
  const MODULUS: int := 0x1_0000_0000_0000_0000
  type Word = x: int | 0 <= x < MODULUS

  // an address; 0 is NULL
  type Ref = nat

  // ngx_rbtree_node_t; `name` belongs to the structure that embeds the node
  // (the name of ngx_cached_open_file_t, which only its own callback reads)
  datatype Node = Node(key: Word, left: Ref, right: Ref, parent: Ref, red: bool, name: string)
  type Memory = map<Ref, Node>

  // The place of a node: its subtree holds the in-order positions lo .. hi,
  // and the node itself has position pos.
  datatype Span = Span(lo: nat, pos: nat, hi: nat)
  type Spans = map<Ref, Span>

  ghost predicate LeftOk(m: Memory, g: Spans, s: Ref, x: Ref)
    requires x in m && x in g
  {
    var l := m[x].left;
    if l == s then g[x].lo == g[x].pos
    else l in m && l in g && m[l].parent == x && g[l].lo == g[x].lo && g[l].hi == g[x].pos
  }

  ghost predicate RightOk(m: Memory, g: Spans, s: Ref, x: Ref)
    requires x in m && x in g
  {
    var r := m[x].right;
    if r == s then g[x].hi == g[x].pos + 1
    else r in m && r in g && m[r].parent == x && g[r].lo == g[x].pos + 1 && g[r].hi == g[x].hi
  }

  ghost predicate UpOk(m: Memory, g: Spans, root: Ref, x: Ref)
    requires x in m && x in g
  {
    x != root ==> var p := m[x].parent; p in m && p in g && (m[p].left == x || m[p].right == x)
  }

  ghost predicate Ok(m: Memory, g: Spans, s: Ref, root: Ref, x: Ref) {
    && x in m && x in g && x != s && g[x].lo <= g[x].pos < g[x].hi
    && LeftOk(m, g, s, x) && RightOk(m, g, s, x) && UpOk(m, g, root, x)
  }

  ghost predicate Spanned(g: Spans, root: Ref, n: nat) {
    && (forall x :: x in g ==> g[x].hi <= n)
    && (root in g ==> g[root].lo == 0 && g[root].hi == n)
  }

  // Nodes and sentinel s form one binary tree of n nodes under root. The parent
  // of the root is not mentioned: ngx_rbtree_delete may leave a stale one.
  ghost predicate Structure(m: Memory, g: Spans, s: Ref, root: Ref, n: nat) {
    && s in m && !m[s].red && s !in g && g.Keys <= m.Keys
    && (if n == 0 then root == s && g == map[] else root in g)
    && Spanned(g, root, n)
    && (forall x {:trigger Ok(m, g, s, root, x)} :: x in g ==> Ok(m, g, s, root, x))
  }

  // `order` lists the nodes by position
  ghost predicate Ordered(g: Spans, order: seq<Ref>) {
    && (forall x {:trigger OrderedAt(g, order, x)} :: x in g ==> OrderedAt(g, order, x))
    && (forall i :: 0 <= i < |order| ==> order[i] in g && g[order[i]].pos == i)
  }

  ghost predicate OrderedAt(g: Spans, order: seq<Ref>, x: Ref) {
    x in g && g[x].pos < |order| && order[g[x].pos] == x
  }

  lemma SameOrder(g: Spans, g': Spans, order: seq<Ref>)
    requires Ordered(g, order) && g'.Keys == g.Keys && forall x :: x in g ==> g'[x].pos == g[x].pos
    ensures Ordered(g', order)
  {
    forall x | x in g' ensures OrderedAt(g', order, x) { assert OrderedAt(g, order, x); }
  }

  // --- rotations -------------------------------------------------------------

  // four different nodes that a rotation relinks
  ghost predicate Pivot(m: Memory, s: Ref, root: Ref, x: Ref, y: Ref, b: Ref, p: Ref) {
    && x in m && y in m && b in m && x != y && y != s && x != s && b != x && b != y
    && (x != root ==>
        root != y && p in m && p != x && p != y && p != b && p != s && (m[p].left == x || m[p].right == x))
  }

  // m' is m after the left rotation of x over its right child y; read from m' to m,
  // it is the right rotation of y over x. b is the subtree that changes sides.
  ghost predicate Rotated(m: Memory, m': Memory, s: Ref, root: Ref, root': Ref, x: Ref, y: Ref, b: Ref, p: Ref) {
    && m'.Keys == m.Keys && Pivot(m, s, root, x, y, b, p)
    && y == m[x].right && m[y].parent == x && b == m[y].left && p == m[x].parent
    && (b != s ==> m[b].parent == y)
    && m'[x] == m[x].(right := b, parent := y)
    && m'[y] == m[y].(left := x, parent := p)
    && (b != s ==> m'[b] == m[b].(parent := x))
    && (x == root ==> root' == y)
    && (x != root ==>
          && root' == root
          && m'[p] == if m[p].left == x then m[p].(left := y) else m[p].(right := y))
    && (forall z :: z in m && z != x && z != y && (b != s ==> z != b) && (x != root ==> z != p) ==> m'[z] == m[z])
  }

  ghost function RotatedSpans(g: Spans, x: Ref, y: Ref): Spans
    requires x in g && y in g
  {
    g[x := g[x].(hi := g[y].pos)][y := g[y].(lo := g[x].lo)]
  }

  lemma LeftRotateOther(m: Memory, m': Memory, g: Spans, s: Ref, root: Ref, root': Ref, n: nat,
                        x: Ref, y: Ref, b: Ref, p: Ref, z: Ref)
    requires Structure(m, g, s, root, n) && x in g && y in g
    requires Rotated(m, m', s, root, root', x, y, b, p)
    requires z in g && z != x && z != y
    ensures Ok(m', RotatedSpans(g, x, y), s, root', z)
  {
    assert Ok(m, g, s, root, x);
    assert Ok(m, g, s, root, y);
    assert b != s ==> Ok(m, g, s, root, b);
    assert x != root ==> Ok(m, g, s, root, p);
    assert Ok(m, g, s, root, z);
    var g' := RotatedSpans(g, x, y);
    if z == b {
    } else if x != root && z == p {
    } else {
      assert LeftOk(m', g', s, z);
      assert RightOk(m', g', s, z);
      assert UpOk(m', g', root', z);
    }
  }

  // A left rotation keeps the tree, every node's position and the order.
  lemma LeftRotateStructure(m: Memory, m': Memory, g: Spans, s: Ref, root: Ref, root': Ref, n: nat,
                            x: Ref, y: Ref, b: Ref, p: Ref)
    requires Structure(m, g, s, root, n) && x in g && y in g
    requires Rotated(m, m', s, root, root', x, y, b, p)
    ensures Structure(m', RotatedSpans(g, x, y), s, root', n)
  {
    var g' := RotatedSpans(g, x, y);
    assert Ok(m, g, s, root, x);
    assert Ok(m, g, s, root, y);
    assert b != s ==> Ok(m, g, s, root, b);
    assert x != root ==> Ok(m, g, s, root, p);
    assert Ok(m', g', s, root', x);
    assert Ok(m', g', s, root', y);
    forall z | z in g' ensures Ok(m', g', s, root', z) {
      if z != x && z != y { LeftRotateOther(m, m', g, s, root, root', n, x, y, b, p, z); }
    }
  }

  ghost function UnrotatedSpans(g: Spans, x: Ref, y: Ref): Spans
    requires x in g && y in g
  {
    g[y := g[y].(lo := g[x].pos + 1)][x := g[x].(hi := g[y].hi)]
  }

  lemma RightRotateOther(m: Memory, m': Memory, g: Spans, s: Ref, root: Ref, root': Ref, n: nat,
                         x: Ref, y: Ref, b: Ref, p: Ref, z: Ref)
    requires Structure(m, g, s, root, n) && x in g && y in g
    requires Rotated(m', m, s, root', root, x, y, b, p)
    requires z in g && z != x && z != y
    ensures Ok(m', UnrotatedSpans(g, x, y), s, root', z)
  {
    assert Ok(m, g, s, root, x);
    assert Ok(m, g, s, root, y);
    assert b != s ==> Ok(m, g, s, root, b);
    assert y != root ==> Ok(m, g, s, root, p);
    assert Ok(m, g, s, root, z);
    var g' := UnrotatedSpans(g, x, y);
    if z == b {
    } else if y != root && z == p {
    } else {
      assert LeftOk(m', g', s, z);
      assert RightOk(m', g', s, z);
      assert UpOk(m', g', root', z);
    }
  }

  lemma RightRotateStructure(m: Memory, m': Memory, g: Spans, s: Ref, root: Ref, root': Ref, n: nat,
                             x: Ref, y: Ref, b: Ref, p: Ref)
    requires Structure(m, g, s, root, n) && x in g && y in g
    requires Rotated(m', m, s, root', root, x, y, b, p)
    ensures Structure(m', UnrotatedSpans(g, x, y), s, root', n)
  {
    var g' := UnrotatedSpans(g, x, y);
    assert Ok(m, g, s, root, x);
    assert Ok(m, g, s, root, y);
    assert b != s ==> Ok(m, g, s, root, b);
    assert y != root ==> Ok(m, g, s, root, p);
    assert Ok(m', g', s, root', x);
    assert Ok(m', g', s, root', y);
    forall z | z in g' ensures Ok(m', g', s, root', z) {
      if z != x && z != y { RightRotateOther(m, m', g, s, root, root', n, x, y, b, p, z); }
    }
  }

  // --- a new leaf --------------------------------------------------------------

  function Inserted<T>(xs: seq<T>, k: nat, x: T): seq<T>
    requires k <= |xs|
  {
    xs[..k] + [x] + xs[k..]
  }

  // the position of a leaf hung under p
  ghost function LeafPosition(g: Spans, p: Ref, left: bool): nat
    requires p in g
  {
    if left then g[p].pos else g[p].pos + 1
  }

  // where a span lies after position k was opened by a left, or a right, leaf
  ghost function Opened(a: Span, k: nat, left: bool): Span {
    Span(if a.lo > k || (a.lo == k && !left) then a.lo + 1 else a.lo,
         if a.pos >= k then a.pos + 1 else a.pos,
         if a.hi > k || (a.hi == k && !left) then a.hi + 1 else a.hi)
  }

  ghost function OpenedSpans(g: Spans, x: Ref, k: nat, left: bool): Spans {
    (map y | y in g :: Opened(g[y], k, left))[x := Span(k, k, k + 1)]
  }

  // m' is m with the leaf x hung under p
  ghost predicate Hung(m: Memory, m': Memory, s: Ref, x: Ref, p: Ref, left: bool) {
    && p in m && x in m && x != p && x != s && m'.Keys == m.Keys
    && (if left then m[p].left else m[p].right) == s
    && m'[p] == (if left then m[p].(left := x) else m[p].(right := x))
    && m'[x] == m[x].(left := s, right := s, parent := p, red := true)
    && (forall z :: z in m && z != x && z != p ==> m'[z] == m[z])
  }

  lemma HungOther(m: Memory, m': Memory, g: Spans, s: Ref, root: Ref, order: seq<Ref>, x: Ref, p: Ref, left: bool,
                  z: Ref)
    requires Structure(m, g, s, root, |order|) && Ordered(g, order) && p in g && x !in g && Hung(m, m', s, x, p, left)
    requires z in g
    requires Ok(m, g, s, root, z) && Ok(m, g, s, root, p)
    ensures Ok(m', OpenedSpans(g, x, LeafPosition(g, p, left), left), s, root, z)
  {
    var k := LeafPosition(g, p, left);
    var g' := OpenedSpans(g, x, k, left);
    assert OrderedAt(g, order, p);
    assert OrderedAt(g, order, z);
    assert z != root ==> m'[z].parent == m[z].parent;
    assert LeftOk(m', g', s, z);
    assert RightOk(m', g', s, z);
    assert UpOk(m', g', root, z);
  }

  lemma HungStructure(m: Memory, m': Memory, g: Spans, s: Ref, root: Ref, order: seq<Ref>, x: Ref, p: Ref, left: bool)
    requires Structure(m, g, s, root, |order|) && Ordered(g, order) && p in g && x !in g && Hung(m, m', s, x, p, left)
    ensures Structure(m', OpenedSpans(g, x, LeafPosition(g, p, left), left), s, root, |order| + 1)
  {
    var k := LeafPosition(g, p, left);
    var g' := OpenedSpans(g, x, k, left);
    assert OrderedAt(g, order, p);
    assert Ok(m, g, s, root, p);
    HungOther(m, m', g, s, root, order, x, p, left, p);
    assert Ok(m', g', s, root, x);
    forall z | z in g' ensures Ok(m', g', s, root, z) {
      if z != x {
        assert Ok(m, g, s, root, z);
        HungOther(m, m', g, s, root, order, x, p, left, z);
      }
    }
  }

  lemma OpenedOrdered(g: Spans, order: seq<Ref>, x: Ref, k: nat, left: bool)
    requires Ordered(g, order) && x !in g && k <= |order|
    ensures Ordered(OpenedSpans(g, x, k, left), Inserted(order, k, x))
  {
    var g', order' := OpenedSpans(g, x, k, left), Inserted(order, k, x);
    forall y | y in g' ensures OrderedAt(g', order', y) {
      if y != x { assert OrderedAt(g, order, y); }
    }
    forall i | 0 <= i < |order'| ensures order'[i] in g' && g'[order'[i]].pos == i {
      if i < k { assert order'[i] == order[i]; } else if i > k { assert order'[i] == order[i - 1]; }
    }
  }

  // --- taking a node out ---------------------------------------------------------

  // m' is m after q, which has at most the one child t, gave its place to t
  ghost predicate Unlinked(m: Memory, m': Memory, s: Ref, root: Ref, root': Ref, q: Ref, t: Ref, p: Ref) {
    && q in m && t in m && q != s && q != t && m'.Keys == m.Keys && s in m' && !m'[s].red
    && ((m[q].left == s && m[q].right == t) || (m[q].left == t && m[q].right == s))
    && (if q == root then root' == t else
          && root' == root && p in m && p != q && p != t && p != s && p == m[q].parent
          && m'[p] == if m[p].left == q then m[p].(left := t) else m[p].(right := t))
    && (t != s ==> (q != root ==> t != p) && m'[t] == if q == root then m[t] else m[t].(parent := p))
    && (forall z :: z in m && z != q && z != t && z != s && (q != root ==> z != p) ==> m'[z] == m[z])
  }

  ghost function Closed(a: Span, k: nat): Span {
    Span(if a.lo > k then a.lo - 1 else a.lo, if a.pos > k then a.pos - 1 else a.pos,
         if a.hi > k then a.hi - 1 else a.hi)
  }

  ghost function ClosedSpans(g: Spans, q: Ref): Spans
    requires q in g
  {
    map y | y in g && y != q :: Closed(g[y], g[q].pos)
  }

  lemma UnlinkedChild(m: Memory, m': Memory, g: Spans, s: Ref, root: Ref, root': Ref, order: seq<Ref>, q: Ref, t: Ref,
                      p: Ref)
    requires Structure(m, g, s, root, |order|) && Ordered(g, order) && q in g
    requires Unlinked(m, m', s, root, root', q, t, p)
    requires Ok(m, g, s, root, q) && t != s && Ok(m, g, s, root, t)
    ensures Ok(m', ClosedSpans(g, q), s, root', t)
  {
    var g' := ClosedSpans(g, q);
    assert OrderedAt(g, order, q) && OrderedAt(g, order, t);
    assert m[t].left != q && m[t].right != q;
    assert LeftOk(m', g', s, t);
    assert RightOk(m', g', s, t);
  }

  lemma UnlinkedParent(m: Memory, m': Memory, g: Spans, s: Ref, root: Ref, root': Ref, order: seq<Ref>, q: Ref, t: Ref,
                       p: Ref)
    requires Structure(m, g, s, root, |order|) && Ordered(g, order) && q in g
    requires Unlinked(m, m', s, root, root', q, t, p)
    requires Ok(m, g, s, root, q) && (t != s ==> Ok(m, g, s, root, t)) && q != root && Ok(m, g, s, root, p)
    ensures Ok(m', ClosedSpans(g, q), s, root', p)
  {
    var g' := ClosedSpans(g, q);
    assert OrderedAt(g, order, q) && OrderedAt(g, order, p);
    if m[p].left == q {
      assert RightOk(m', g', s, p);
    } else {
      assert LeftOk(m', g', s, p);
    }
    assert UpOk(m', g', root', p);
  }

  lemma UnlinkedOther(m: Memory, m': Memory, g: Spans, s: Ref, root: Ref, root': Ref, order: seq<Ref>, q: Ref, t: Ref,
                      p: Ref, z: Ref)
    requires Structure(m, g, s, root, |order|) && Ordered(g, order) && q in g
    requires Unlinked(m, m', s, root, root', q, t, p)
    requires z in g && z != q && z != t && (q != root ==> z != p)
    requires Ok(m, g, s, root, z) && Ok(m, g, s, root, q) && (t != s ==> Ok(m, g, s, root, t))
    ensures Ok(m', ClosedSpans(g, q), s, root', z)
  {
    var g' := ClosedSpans(g, q);
    assert OrderedAt(g, order, z) && OrderedAt(g, order, q);
    assert m[z].left != q && m[z].right != q;
    assert LeftOk(m', g', s, z);
    assert RightOk(m', g', s, z);
    assert UpOk(m', g', root', z);
  }

  lemma UnlinkedStructure(m: Memory, m': Memory, g: Spans, s: Ref, root: Ref, root': Ref, order: seq<Ref>, q: Ref,
                          t: Ref, p: Ref)
    requires Structure(m, g, s, root, |order|) && Ordered(g, order) && q in g
    requires Unlinked(m, m', s, root, root', q, t, p)
    ensures Structure(m', ClosedSpans(g, q), s, root', |order| - 1)
  {
    var g' := ClosedSpans(g, q);
    assert Ok(m, g, s, root, q) && (t != s ==> Ok(m, g, s, root, t)) && (q != root ==> Ok(m, g, s, root, p));
    forall z | z in g' ensures Ok(m', g', s, root', z) {
      assert Ok(m, g, s, root, z);
      if z == t {
        UnlinkedChild(m, m', g, s, root, root', order, q, t, p);
      } else if q != root && z == p {
        UnlinkedParent(m, m', g, s, root, root', order, q, t, p);
      } else {
        UnlinkedOther(m, m', g, s, root, root', order, q, t, p, z);
      }
    }
    if |order| == 1 {
      forall z | z in g ensures z == order[0] { assert OrderedAt(g, order, z); }
      assert g' == map[];
    }
  }

  lemma ClosedOrdered(g: Spans, order: seq<Ref>, q: Ref)
    requires Ordered(g, order) && q in g && OrderedAt(g, order, q)
    ensures Ordered(ClosedSpans(g, q), Without(order, g[q].pos))
  {
    var k := g[q].pos;
    var g', order' := ClosedSpans(g, q), Without(order, k);
    forall y | y in g' ensures OrderedAt(g', order', y) {
      assert OrderedAt(g, order, y) && OrderedAt(g, order, q);
    }
    forall i | 0 <= i < |order'| ensures order'[i] in g' && g'[order'[i]].pos == i {
      if i < k { assert order'[i] == order[i]; } else { assert order'[i] == order[i + 1]; }
    }
  }

  // m' is m after q, from outside the tree, took the place of z between
  // its children l and r and its parent p
  ghost predicate Replaced(m: Memory, m': Memory, s: Ref, root: Ref, root': Ref, z: Ref, q: Ref, l: Ref, r: Ref,
                           p: Ref) {
    && z in m && q in m && l in m && r in m && m'.Keys == m.Keys && z != q && q != s && z != s && s in m' && !m'[s].red
    && l == m[z].left && r == m[z].right && l != z && r != z && l != q && r != q && (l == r ==> l == s)
    && m'[q] == m[q].(left := l, right := r, parent := m'[q].parent, red := m[z].red)
    && (l != s ==> m'[l] == m[l].(parent := q))
    && (r != s ==> m'[r] == m[r].(parent := q))
    && (if z == root then root' == q else
          && root' == root && p in m && p != q && p != s && p != z && p != l && p != r && p == m[z].parent
          && m'[q].parent == p
          && m'[p] == if m[p].left == z then m[p].(left := q) else m[p].(right := q))
    && (forall y :: y in m && y != z && y != q && y != l && y != r && y != s && (z != root ==>
        y != p) ==> m'[y] == m[y])
  }

  ghost function ReplacedSpans(g: Spans, z: Ref, q: Ref): Spans
    requires z in g
  {
    (map y | y in g && y != z :: g[y])[q := g[z]]
  }

  lemma ReplacedOther(m: Memory, m': Memory, g: Spans, s: Ref, root: Ref, root': Ref, n: nat, z: Ref, q: Ref, l: Ref,
                      r: Ref, p: Ref, y: Ref)
    requires Structure(m, g, s, root, n) && z in g && q !in g && Replaced(m, m', s, root, root', z, q, l, r, p)
    requires y in g && y != z
    requires Ok(m, g, s, root, y) && Ok(m, g, s, root, z) && (l != s ==> Ok(m, g, s, root, l))
    requires r != s ==> Ok(m, g, s, root, r)
    requires z != root ==> Ok(m, g, s, root, p)
    ensures Ok(m', ReplacedSpans(g, z, q), s, root', y)
  {
    var g' := ReplacedSpans(g, z, q);
    assert LeftOk(m', g', s, y);
    assert RightOk(m', g', s, y);
    assert UpOk(m', g', root', y);
  }

  lemma ReplacedStructure(m: Memory, m': Memory, g: Spans, s: Ref, root: Ref, root': Ref, n: nat, z: Ref, q: Ref,
                          l: Ref, r: Ref, p: Ref)
    requires Structure(m, g, s, root, n) && z in g && q !in g && Replaced(m, m', s, root, root', z, q, l, r, p)
    ensures Structure(m', ReplacedSpans(g, z, q), s, root', n)
  {
    var g' := ReplacedSpans(g, z, q);
    assert Ok(m, g, s, root, z) && (l != s ==> Ok(m, g, s, root, l)) && (r != s ==> Ok(m, g, s, root, r));
    assert z != root ==> Ok(m, g, s, root, p);
    assert Ok(m', g', s, root', q);
    forall y | y in g' ensures Ok(m', g', s, root', y) {
      if y != q {
        assert Ok(m, g, s, root, y);
        ReplacedOther(m, m', g, s, root, root', n, z, q, l, r, p, y);
      }
    }
  }

  lemma ReplacedOrdered(g: Spans, order: seq<Ref>, z: Ref, q: Ref)
    requires Ordered(g, order) && z in g && q !in g && OrderedAt(g, order, z)
    ensures Ordered(ReplacedSpans(g, z, q), order[g[z].pos := q])
  {
    var g', order' := ReplacedSpans(g, z, q), order[g[z].pos := q];
    forall y | y in g' ensures OrderedAt(g', order', y) {
      assert OrderedAt(g, order, z);
      if y != q { assert OrderedAt(g, order, y); }
    }
    forall i | 0 <= i < |order'| ensures order'[i] in g' && g'[order'[i]].pos == i {
      if i != g[z].pos { assert order'[i] == order[i] && g[order[i]].pos == i; }
    }
  }
}
