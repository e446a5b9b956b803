// Colours of src/core/ngx_rbtree.c: the red-black conditions, and what each
// recolouring and rotation of the two fix-up loops does to them. The conditions do
// not tell left from right, so one lemma serves a case and its mirror image.
module RbtreeColour {
  import opened RbtreeShape

  // black height of every node
  type Heights = map<Ref, nat>

  ghost function Bh(h: Heights, s: Ref, x: Ref): nat {
    if x == s || x !in h then 0 else h[x]
  }

  ghost predicate Red(m: Memory, x: Ref) { x in m && m[x].red }

  // both subtrees of x have the same black height, from which that of x follows
  ghost predicate Balanced(m: Memory, h: Heights, s: Ref, x: Ref) {
    && x in m && x in h && x != s
    && Bh(h, s, m[x].left) == Bh(h, s, m[x].right)
    && h[x] == Bh(h, s, m[x].left) + if m[x].red then 0 else 1
  }

  // a red x has no red child, except perhaps n
  ghost predicate Calm(m: Memory, x: Ref, n: Ref) {
    x in m && (m[x].red ==> (m[x].left == n || !Red(m, m[x].left)) && (m[x].right == n || !Red(m, m[x].right)))
  }

  // A red-black tree, except that n may be a red root or a red child of a red node.
  // With n == s there is no exception.
  ghost predicate Coloured(m: Memory, g: Spans, s: Ref, root: Ref, h: Heights, n: Ref) {
    && (forall x {:trigger Balanced(m, h, s, x)} :: x in g ==> Balanced(m, h, s, x))
    && (forall x {:trigger Calm(m, x, n)} :: x in g ==> Calm(m, x, n))
    && (Red(m, root) ==> root == n)
  }

  // the two children of x, in either order
  ghost predicate Kids(m: Memory, x: Ref, a: Ref, b: Ref) {
    x in m && ((m[x].left == a && m[x].right == b) || (m[x].left == b && m[x].right == a))
  }

  // Paths through t have one black node less than they should; p is the parent of t
  // and w its sibling. A red t is about to become black.
  ghost predicate Short(m: Memory, g: Spans, s: Ref, root: Ref, h: Heights, t: Ref, p: Ref, w: Ref) {
    && (forall x {:trigger Balanced(m, h, s, x)} :: x in g && (t != root ==> x != p) ==> Balanced(m, h, s, x))
    && (forall x {:trigger Calm(m, x, s)} :: x in g && x != t && (t != root ==> x != p) ==> Calm(m, x, s))
    && (t != root ==>
          && !Red(m, root) && p in g && p in h && p != s && w in g && w != s && t != p && w != t && w != p
          && Kids(m, p, t, w) && Bh(h, s, t) + 1 == Bh(h, s, w)
          && h[p] == Bh(h, s, w) + (if m[p].red then 0 else 1)
          && !(Red(m, p) && Red(m, w)))
  }

  ghost predicate OnlyParent(m: Memory, g: Spans, c: Ref, p: Ref) {
    forall z {:trigger NotChild(m, c, z)} :: z in g && z != p ==> NotChild(m, c, z)
  }

  ghost predicate NotChild(m: Memory, c: Ref, z: Ref) { z in m && m[z].left != c && m[z].right != c }

  lemma ParentIsOnly(m: Memory, g: Spans, s: Ref, root: Ref, n: nat, c: Ref, p: Ref)
    requires Structure(m, g, s, root, n) && c in g && c in m && (c == root || m[c].parent == p)
    ensures if c == root then OnlyParent(m, g, c, s) else OnlyParent(m, g, c, p)
  {
    forall z | z in g && (z != p || c == root) ensures NotChild(m, c, z) {
      assert Ok(m, g, s, root, z) && Ok(m, g, s, root, c);
    }
  }

  ghost predicate SameLinks(m: Memory, m': Memory) {
    m'.Keys == m.Keys && forall x :: x in m ==> m'[x].(red := m[x].red) == m[x]
  }

  lemma RecolourStructure(m: Memory, m': Memory, g: Spans, s: Ref, root: Ref, n: nat)
    requires Structure(m, g, s, root, n) && SameLinks(m, m') && !m'[s].red
    ensures Structure(m', g, s, root, n)
  {
    forall x | x in g ensures Ok(m', g, s, root, x) {
      assert Ok(m, g, s, root, x);
    }
  }

  // A rotation as the colours see it: t1 takes the place of its parent t0,
  // and the subtree mid passes from t1 to t0.
  ghost predicate Swung(m: Memory, m': Memory, g: Spans, s: Ref, t0: Ref, t1: Ref, o0: Ref, mid: Ref, o1: Ref) {
    && m'.Keys == m.Keys && g.Keys <= m.Keys && s !in g && t0 in g && t1 in g && t0 != t1
    && o0 != t0 && o0 != t1 && mid != t0 && mid != t1 && o1 != t0 && o1 != t1
    && Kids(m, t0, t1, o0) && Kids(m, t1, mid, o1) && Kids(m', t1, t0, o1) && Kids(m', t0, o0, mid)
    && (forall x :: x in m ==> m'[x].red == m[x].red)
    && (forall x {:trigger Follows(m, m', t0, t1, x)} :: x in g && x != t0 && x != t1 ==> Follows(m, m', t0, t1, x))
  }

  // x, outside the rotation, has t1 for its child where it had t0
  ghost predicate Follows(m: Memory, m': Memory, t0: Ref, t1: Ref, x: Ref) {
    && x in m && x in m' && m[x].left != t1 && m[x].right != t1
    && m'[x].left == (if m[x].left == t0 then t1 else m[x].left)
    && m'[x].right == if m[x].right == t0 then t1 else m[x].right
  }

  lemma LeftSwung(m: Memory, m': Memory, g: Spans, s: Ref, root: Ref, root': Ref, n: nat, x: Ref, y: Ref, b: Ref,
                  p: Ref)
    requires Structure(m, g, s, root, n) && x in g && y in g
    requires Rotated(m, m', s, root, root', x, y, b, p)
    ensures Swung(m, m', g, s, x, y, m[x].left, b, m[y].right)
  {
    assert Ok(m, g, s, root, x);
    assert Ok(m, g, s, root, y);
    assert b != s ==> Ok(m, g, s, root, b);
    forall z | z in g && z != x && z != y ensures Follows(m, m', x, y, z) { assert Ok(m, g, s, root, z); }
  }

  lemma RightSwung(m: Memory, m': Memory, g: Spans, s: Ref, root: Ref, root': Ref, n: nat, x: Ref, y: Ref, b: Ref,
                   p: Ref)
    requires Structure(m, g, s, root, n) && x in g && y in g
    requires Rotated(m', m, s, root', root, x, y, b, p)
    ensures Swung(m, m', g, s, y, x, m[y].right, b, m[x].left)
  {
    assert Ok(m, g, s, root, x);
    assert Ok(m, g, s, root, y);
    assert b != s ==> Ok(m, g, s, root, b);
    forall z | z in g && z != x && z != y ensures Follows(m, m', y, x, z) { assert Ok(m, g, s, root, z); }
  }

  // --- insertion ---------------------------------------------------------------

  // the uncle is red: the conflict moves to the grandparent
  ghost predicate UncleCase(m: Memory, g: Spans, s: Ref, root: Ref, h: Heights, x: Ref, p: Ref, u: Ref, gp: Ref) {
    && Coloured(m, g, s, root, h, x) && g.Keys <= m.Keys && s !in g && s in m && !m[s].red
    && x != root && OnlyParent(m, g, x, p) && OnlyParent(m, g, p, gp) && OnlyParent(m, g, u, gp)
    && p in g && u in g && gp in g && x != p && x != gp && x != u && p != u && gp != p && gp != u && p != root
    && Kids(m, gp, p, u) && Red(m, p) && Red(m, u)
  }

  lemma RedUncle(m: Memory, m': Memory, g: Spans, s: Ref, root: Ref, h: Heights, x: Ref, p: Ref, u: Ref, gp: Ref)
    returns (h': Heights)
    requires UncleCase(m, g, s, root, h, x, p, u, gp)
    requires m' == m[p := m[p].(red := false)][u := m[u].(red := false)][gp := m[gp].(red := true)]
    ensures Coloured(m', g, s, root, h', gp)
  {
    assert Balanced(m, h, s, p) && Balanced(m, h, s, u) && Balanced(m, h, s, gp);
    assert Calm(m, gp, x) && Calm(m, p, x) && Calm(m, u, x);
    h' := h[p := h[p] + 1][u := h[u] + 1];
    forall z | z in g ensures Balanced(m', h', s, z) {
      assert Balanced(m, h, s, z) && (z != gp ==> NotChild(m, p, z) && NotChild(m, u, z));
    }
    forall z | z in g ensures Calm(m', z, gp) { assert Calm(m, z, x) && (z != p ==> NotChild(m, x, z)); }
  }

  // the uncle is black and x an inner grandchild: turn it into an outer one
  lemma InnerTurn(m: Memory, m': Memory, g: Spans, s: Ref, root: Ref, h: Heights, x: Ref, p: Ref, o0: Ref, mid: Ref,
                  o1: Ref)
    requires Coloured(m, g, s, root, h, x) && s in m && !m[s].red
    requires Swung(m, m', g, s, p, x, o0, mid, o1) && Red(m, p) && Red(m, x) && x != root
    ensures Coloured(m', g, s, root, h, p)
  {
    assert Balanced(m, h, s, p) && Balanced(m, h, s, x);
    assert Calm(m, p, x) && Calm(m, x, x);
    forall z | z in g ensures Balanced(m', h, s, z) { assert Balanced(m, h, s, z) && (z != p && z != x ==>
        Follows(m, m', p, x, z)); }
    forall z | z in g ensures Calm(m', z, p) { assert Calm(m, z, x) && (z != p && z != x ==> Follows(m, m', p, x, z)); }
  }

  // the uncle u is black: the parent takes the place of the grandparent
  lemma OuterTurn(m: Memory, m1: Memory, m': Memory, g: Spans, s: Ref, root: Ref, root': Ref, h: Heights,
                  x: Ref, p: Ref, gp: Ref, u: Ref, mid: Ref) returns (h': Heights)
    requires Coloured(m, g, s, root, h, x) && s in m && !m[s].red && x != root
    requires OnlyParent(m, g, x, p) && p in g && gp in g && p in m && gp in m && p != gp && Red(m, p) && Red(m, x)
    requires !Red(m, u)
    requires m1 == m[p := m[p].(red := false)][gp := m[gp].(red := true)] && mid != x
    requires Swung(m1, m', g, s, gp, p, u, mid, x)
    requires root' == if root == gp then p else root
    ensures Coloured(m', g, s, root', h', s)
  {
    assert Balanced(m, h, s, p) && Balanced(m, h, s, gp);
    assert Calm(m, gp, x) && Calm(m, p, x);
    h' := h[p := h[p] + 1][gp := h[gp] - 1];
    forall z | z in g ensures Balanced(m', h', s, z) {
      if z != p && z != gp { assert Balanced(m, h, s, z) && Follows(m1, m', gp, p, z); }
    }
    forall z | z in g ensures Calm(m', z, s) {
      if z != p && z != gp { assert Calm(m, z, x) && Follows(m1, m', gp, p, z) && NotChild(m, x, z); }
    }
  }

  // --- deletion ----------------------------------------------------------------

  // the sibling w is red: make it the parent of p; near becomes the sibling
  lemma RedSibling(m: Memory, m1: Memory, m': Memory, g: Spans, s: Ref, root: Ref, root': Ref, h: Heights,
                   t: Ref, p: Ref, w: Ref, near: Ref, far: Ref) returns (h': Heights)
    requires Short(m, g, s, root, h, t, p, w) && s in m && !m[s].red && t != root && p in m && w in m && Red(m, w)
    requires m1 == m[w := m[w].(red := false)][p := m[p].(red := true)]
    requires Swung(m1, m', g, s, p, w, t, near, far) && (near != s ==> near in g) && near != t
    requires root' == if root == p then w else root
    ensures Short(m', g, s, root', h', t, p, near) && !Red(m', near)
  {
    assert Balanced(m, h, s, w) && Calm(m, w, s);
    assert near != s ==> Balanced(m, h, s, near);
    h' := h[p := h[w]][w := h[p]];
    forall z | z in g && z != p ensures Balanced(m', h', s, z) { assert Balanced(m, h, s, z) && (z != w ==>
        Follows(m1, m', p, w, z)); }
    forall z | z in g && z != t && z != p ensures Calm(m', z, s) { assert Calm(m, z, s) && (z != w ==>
        Follows(m1, m', p, w, z)); }
  }

  // the sibling and both its children are black: the shortage moves to p
  lemma BlackSibling(m: Memory, m': Memory, g: Spans, s: Ref, root: Ref, h: Heights,
                     t: Ref, p: Ref, w: Ref, pp: Ref, w': Ref) returns (h': Heights)
    requires Short(m, g, s, root, h, t, p, w) && s in m && !m[s].red && t != root && p in m && w in m && !Red(m, t)
    requires !Red(m, w) && !Red(m, m[w].left) && !Red(m, m[w].right) && OnlyParent(m, g, w, p) && w != root
    requires p != root ==> pp in g && pp != p && pp != s && pp != w && pp != t && Kids(m, pp, p, w')
    requires p != root ==> OnlyParent(m, g, p, pp)
    requires p != root ==> w' != p && w' != pp && w' != w && (w' != s ==> w' in g)
    requires p == root ==> OnlyParent(m, g, p, s) && s !in g
    requires m' == m[w := m[w].(red := true)]
    ensures Short(m', g, s, root, h', p, pp, w')
  {
    assert Balanced(m, h, s, w);
    h' := h[w := h[w] - 1][p := h[p] - 1];
    if p != root {
      assert Balanced(m, h, s, pp) && Calm(m, pp, s);
    }
    forall z | z in g && (p != root ==> z != pp) ensures Balanced(m', h', s, z) {
      if z != p { assert Balanced(m, h, s, z) && NotChild(m, w, z) && NotChild(m, p, z); }
    }
    forall z | z in g && z != p && (p != root ==> z != pp) ensures Calm(m', z, s) {
      if z != t { assert Calm(m, z, s) && NotChild(m, w, z); }
    }
  }

  // the sibling w is black, its far child black, its near child red: near takes the place of w
  ghost predicate NearCase(m: Memory, m1: Memory, m': Memory, g: Spans, s: Ref, root: Ref, h: Heights,
                           t: Ref, p: Ref, w: Ref, near: Ref, far: Ref, inner: Ref, outer: Ref) {
    && Short(m, g, s, root, h, t, p, w) && s in m && !m[s].red && t != root && p in m && w in m && !Red(m, t)
    && !Red(m, w) && Red(m, near) && !Red(m, far) && near in m && near in g
    && m1 == m[near := m[near].(red := false)][w := m[w].(red := true)]
    && Swung(m1, m', g, s, w, near, far, inner, outer) && inner != p && outer != p && near != p && near != t && far != p
    && w != root && near != root && OnlyParent(m, g, near, w)
  }

  ghost function NearHeights(h: Heights, w: Ref, near: Ref): Heights {
    if w in h && near in h then h[near := h[w]][w := h[near]] else h
  }

  lemma NearBalanced(m: Memory, m1: Memory, m': Memory, g: Spans, s: Ref, root: Ref, h: Heights,
                     t: Ref, p: Ref, w: Ref, near: Ref, far: Ref, inner: Ref, outer: Ref, z: Ref)
    requires NearCase(m, m1, m', g, s, root, h, t, p, w, near, far, inner, outer) && z in g && z != p
    ensures Balanced(m', NearHeights(h, w, near), s, z)
  {
    assert Balanced(m, h, s, w) && Balanced(m, h, s, near) && Balanced(m, h, s, z);
    assert z != w && z != near ==> Follows(m1, m', w, near, z);
  }

  lemma NearCalm(m: Memory, m1: Memory, m': Memory, g: Spans, s: Ref, root: Ref, h: Heights,
                 t: Ref, p: Ref, w: Ref, near: Ref, far: Ref, inner: Ref, outer: Ref, z: Ref)
    requires NearCase(m, m1, m', g, s, root, h, t, p, w, near, far, inner, outer) && z in g && z != t && z != p
    ensures Calm(m', z, s)
  {
    assert Calm(m, w, s) && Calm(m, near, s) && Calm(m, z, s);
    assert z != w && z != near ==> Follows(m1, m', w, near, z);
    assert z != w ==> NotChild(m, near, z);
  }

  lemma NearNephew(m: Memory, m1: Memory, m': Memory, g: Spans, s: Ref, root: Ref, h: Heights,
                   t: Ref, p: Ref, w: Ref, near: Ref, far: Ref, inner: Ref, outer: Ref) returns (h': Heights)
    requires NearCase(m, m1, m', g, s, root, h, t, p, w, near, far, inner, outer)
    ensures Short(m', g, s, root, h', t, p, near) && !Red(m', near) && Kids(m', near, w, outer) && Red(m', w)
  {
    h' := NearHeights(h, w, near);
    forall z | z in g && z != p ensures Balanced(m', h', s, z) {
      NearBalanced(m, m1, m', g, s, root, h, t, p, w, near, far, inner, outer, z);
    }
    forall z | z in g && z != t && z != p ensures Calm(m', z, s) {
      NearCalm(m, m1, m', g, s, root, h, t, p, w, near, far, inner, outer, z);
    }
    assert Balanced(m, h, s, w) && Balanced(m, h, s, near) && Follows(m1, m', w, near, p);
  }

  // the sibling w is black, its far child red: w takes the place and the colour of p
  ghost predicate FarCase(m: Memory, m1: Memory, m': Memory, g: Spans, s: Ref, root: Ref, root': Ref, h: Heights,
                          t: Ref, p: Ref, w: Ref, near: Ref, far: Ref) {
    && Short(m, g, s, root, h, t, p, w) && s in m && !m[s].red && t != root && p in m && w in m && !Red(m, t)
    && !Red(m, w) && Red(m, far) && far in m && far in g
    && m1 == m[w := m[w].(red := m[p].red)][p := m[p].(red := false)][far := m[far].(red := false)]
    && Swung(m1, m', g, s, p, w, t, near, far) && OnlyParent(m, g, far, w) && near != far
    && root' == (if root == p then w else root) && root != w && far != root
  }

  ghost function FarHeights(h: Heights, s: Ref, t: Ref, p: Ref, w: Ref, far: Ref): Heights {
    if p in h && far in h then h[p := Bh(h, s, t) + 1][w := h[p]][far := h[far] + 1] else h
  }

  lemma FarCentre(m: Memory, m1: Memory, m': Memory, g: Spans, s: Ref, root: Ref, root': Ref, h: Heights,
                  t: Ref, p: Ref, w: Ref, near: Ref, far: Ref)
    requires FarCase(m, m1, m', g, s, root, root', h, t, p, w, near, far)
    ensures var h' := FarHeights(h, s, t, p, w, far);
      Balanced(m', h', s, p) && Balanced(m', h', s, w) && Balanced(m', h', s, far)
  {
    assert Balanced(m, h, s, w) && Balanced(m, h, s, far);
    assert Follows(m1, m', p, w, far) && NotChild(m, far, far);
  }

  lemma FarBalanced(m: Memory, m1: Memory, m': Memory, g: Spans, s: Ref, root: Ref, root': Ref, h: Heights,
                    t: Ref, p: Ref, w: Ref, near: Ref, far: Ref, z: Ref)
    requires FarCase(m, m1, m', g, s, root, root', h, t, p, w, near, far) && z in g
    ensures Balanced(m', FarHeights(h, s, t, p, w, far), s, z)
  {
    if z == p || z == w || z == far {
      FarCentre(m, m1, m', g, s, root, root', h, t, p, w, near, far);
    } else {
      assert Balanced(m, h, s, w) && Balanced(m, h, s, far);
      assert Balanced(m, h, s, z) && Follows(m1, m', p, w, z) && NotChild(m, far, z);
    }
  }

  lemma FarCalm(m: Memory, m1: Memory, m': Memory, g: Spans, s: Ref, root: Ref, root': Ref, h: Heights,
                t: Ref, p: Ref, w: Ref, near: Ref, far: Ref, z: Ref)
    requires FarCase(m, m1, m', g, s, root, root', h, t, p, w, near, far) && z in g
    ensures Calm(m', z, s)
  {
    assert z != p && z != t ==> Calm(m, z, s);
    assert z != p && z != w ==> Follows(m1, m', p, w, z) && NotChild(m, far, z);
  }

  // after which no path is short
  lemma FarNephew(m: Memory, m1: Memory, m': Memory, g: Spans, s: Ref, root: Ref, root': Ref, h: Heights,
                  t: Ref, p: Ref, w: Ref, near: Ref, far: Ref) returns (h': Heights)
    requires FarCase(m, m1, m', g, s, root, root', h, t, p, w, near, far)
    ensures Short(m', g, s, root', h', root', s, s) && !Red(m', root')
  {
    h' := FarHeights(h, s, t, p, w, far);
    forall z | z in g ensures Balanced(m', h', s, z) && Calm(m', z, s) {
      FarBalanced(m, m1, m', g, s, root, root', h, t, p, w, near, far, z);
      FarCalm(m, m1, m', g, s, root, root', h, t, p, w, near, far, z);
    }
  }

  // the last step of both fix-up loops: t becomes black
  lemma Blackened(m: Memory, m': Memory, g: Spans, s: Ref, root: Ref, h: Heights, t: Ref, p: Ref, w: Ref)
    returns (h': Heights)
    requires Short(m, g, s, root, h, t, p, w) && s in m && !m[s].red && t in m && (t == root || Red(m, t))
    requires m' == m[t := m[t].(red := false)]
    requires t != root ==> OnlyParent(m, g, t, p)
    requires if t == root then OnlyParent(m, g, t, s) && s !in g else t in g
    ensures Coloured(m', g, s, root, h', s)
  {
    h' := if Red(m, t) && t in h then h[t := h[t] + 1] else h;
    forall z | z in g ensures Balanced(m', h', s, z) {
      if t == root || z != p { assert Balanced(m, h, s, z) && NotChild(m, t, z); } else { assert Balanced(m, h, s, t); }
    }
    forall z | z in g ensures Calm(m', z, s) {
      if z != t && (t == root || z != p) { assert Calm(m, z, s); }
    }
  }

  // --- how a node enters and leaves -----------------------------------------------

  lemma HungColoured(m: Memory, m': Memory, g: Spans, g': Spans, s: Ref, root: Ref, h: Heights, x: Ref, p: Ref,
                     left: bool)
    requires Coloured(m, g, s, root, h, s) && Hung(m, m', s, x, p, left) && p in g && x !in g && root in g && s in m
    requires !m[s].red && s !in g
    requires g'.Keys == g.Keys + {x} && OnlyParent(m, g, x, s)
    ensures Coloured(m', g', s, root, h[x := 0], x)
  {
    assert Balanced(m, h, s, p) && Calm(m, p, s);
    forall z | z in g' ensures Balanced(m', h[x := 0], s, z) {
      if z != x { assert Balanced(m, h, s, z) && NotChild(m, x, z); }
    }
    forall z | z in g' ensures Calm(m', z, x) {
      if z != x { assert Calm(m, z, s) && NotChild(m, x, z); }
    }
  }

  // what is left after q was unlinked: nothing to repair if q was red
  lemma UnlinkedColour(m: Memory, m': Memory, g: Spans, g': Spans, s: Ref, root: Ref, root': Ref, h: Heights, q: Ref,
                       t: Ref, p: Ref, w: Ref)
    requires Coloured(m, g, s, root, h, s) && Unlinked(m, m', s, root, root', q, t, p) && q in g && s in m && !m[s].red
    requires s !in g
    requires g'.Keys == g.Keys - {q} && (t != s ==> t in g)
    requires if q == root then OnlyParent(m, g, q, s)
             else OnlyParent(m, g, q, p) && root in g && p in g && Kids(m, p, q, w)
    requires q != root ==> (w != s ==> w in g) && w != q && (w == t ==> w == s) && w != p
    ensures if q != root && Red(m, q) then Coloured(m', g', s, root', h, s) else Short(m', g', s, root', h, t, p, w)
  {
    assert Balanced(m, h, s, q) && Calm(m, q, s);
    assert t != s ==> Balanced(m, h, s, t);
    if q != root { assert Balanced(m, h, s, p) && Calm(m, p, s); }
    forall z | z in g' && (q != root ==> z != p) ensures Balanced(m', h, s, z) && Calm(m', z, s) {
      assert Balanced(m, h, s, z) && Calm(m, z, s) && NotChild(m, q, z);
    }
  }

  ghost function Sub(x: Ref, z: Ref, q: Ref): Ref { if x == z then q else x }

  // q in the place of z changes names only
  ghost predicate Renamed(m: Memory, m': Memory, g: Spans, s: Ref, z: Ref, q: Ref) {
    && z in g && q !in g && z in m && q in m && s in m && s != z && s != q && s in m' && !m[s].red && !m'[s].red
    && s !in g
    && m'.Keys == m.Keys && g.Keys <= m.Keys
    && (forall y {:trigger RenamedAt(m, m', z, q, y)} :: y in g ==> RenamedAt(m, m', z, q, y))
  }

  ghost predicate RenamedAt(m: Memory, m': Memory, z: Ref, q: Ref, y: Ref) {
    && y in m && Sub(y, z, q) in m'
    && m'[Sub(y, z, q)].left == Sub(m[y].left, z, q) && m'[Sub(y, z, q)].right == Sub(m[y].right, z, q)
    && m'[Sub(y, z, q)].red == m[y].red && m[y].left != q && m[y].right != q
  }

  lemma ReplacedRenamesAt(m: Memory, m': Memory, g: Spans, s: Ref, root: Ref, root': Ref, n: nat, z: Ref, q: Ref,
                          l: Ref, r: Ref, p: Ref, y: Ref)
    requires Structure(m, g, s, root, n) && z in g && q !in g && Replaced(m, m', s, root, root', z, q, l, r, p)
    requires y in g && y != z && (z != root ==> y != p) && Ok(m, g, s, root, y) && Ok(m, g, s, root, z)
    ensures RenamedAt(m, m', z, q, y)
  {
    assert m[y].left != z && m[y].right != z;
    if y == l {
    } else if y == r {
    } else {
      assert m'[y] == m[y];
    }
  }

  lemma ReplacedRenames(m: Memory, m': Memory, g: Spans, s: Ref, root: Ref, root': Ref, n: nat, z: Ref, q: Ref, l: Ref,
                        r: Ref, p: Ref)
    requires Structure(m, g, s, root, n) && z in g && q !in g && Replaced(m, m', s, root, root', z, q, l, r, p)
    ensures Renamed(m, m', g, s, z, q)
  {
    assert Ok(m, g, s, root, z);
    assert z != root ==> Ok(m, g, s, root, p);
    assert RenamedAt(m, m', z, q, z);
    assert z != root ==> RenamedAt(m, m', z, q, p);
    forall y | y in g ensures RenamedAt(m, m', z, q, y) {
      assert Ok(m, g, s, root, y);
      if y != z && (z == root || y != p) {
        ReplacedRenamesAt(m, m', g, s, root, root', n, z, q, l, r, p, y);
      }
    }
  }

  lemma RenamedPoint(m: Memory, m': Memory, g: Spans, s: Ref, h: Heights, z: Ref, q: Ref, y: Ref)
    requires Renamed(m, m', g, s, z, q) && y in g && y in h && z in h
    requires forall c :: c in g ==> c in h
    requires (m[y].left != s ==> m[y].left in g) && (m[y].right != s ==> m[y].right in g)
    ensures Balanced(m, h, s, y) ==> Balanced(m', h[q := h[z]], s, Sub(y, z, q))
    ensures Calm(m, y, s) ==> Calm(m', Sub(y, z, q), s)
  {
    assert RenamedAt(m, m', z, q, y);
    assert m[y].left != s ==> RenamedAt(m, m', z, q, m[y].left);
    assert m[y].right != s ==> RenamedAt(m, m', z, q, m[y].right);
  }

  lemma RenamedColours(m: Memory, m': Memory, g: Spans, g': Spans, s: Ref, root: Ref, root': Ref, n: nat, h: Heights,
                       z: Ref, q: Ref)
    requires Structure(m, g, s, root, n) && Renamed(m, m', g, s, z, q) && g'.Keys == g.Keys - {z} + {q}
    requires Coloured(m, g, s, root, h, s) && root' == Sub(root, z, q) && z in h
    ensures Coloured(m', g', s, root', h[q := h[z]], s)
  {
    forall c | c in g ensures c in h { assert Balanced(m, h, s, c); }
    forall y' | y' in g' ensures Balanced(m', h[q := h[z]], s, y') && Calm(m', y', s) {
      var y := if y' == q then z else y';
      assert Balanced(m, h, s, y) && Calm(m, y, s) && Ok(m, g, s, root, y);
      RenamedPoint(m, m', g, s, h, z, q, y);
    }
    assert RenamedAt(m, m', z, q, root);
  }

  lemma RenamedShort(m: Memory, m': Memory, g: Spans, g': Spans, s: Ref, root: Ref, root': Ref, n: nat, h: Heights,
                     z: Ref, q: Ref, t: Ref, p: Ref, w: Ref)
    requires Structure(m, g, s, root, n) && Renamed(m, m', g, s, z, q) && g'.Keys == g.Keys - {z} + {q}
    requires Short(m, g, s, root, h, t, p, w) && root' == Sub(root, z, q) && t != root && t != z && w != z && z in h
    requires forall c :: c in g ==> c in h
    requires (t != s ==> t in g) && t != q
    ensures Short(m', g', s, root', h[q := h[z]], t, Sub(p, z, q), w)
  {
    forall y' | y' in g' && y' != Sub(p, z, q) ensures Balanced(m', h[q := h[z]], s, y') && (y' != t ==>
        Calm(m', y', s)) {
      var y := if y' == q then z else y';
      assert Balanced(m, h, s, y) && (y != t ==> Calm(m, y, s)) && Ok(m, g, s, root, y);
      RenamedPoint(m, m', g, s, h, z, q, y);
    }
    assert RenamedAt(m, m', z, q, root) && RenamedAt(m, m', z, q, p) && RenamedAt(m, m', z, q, w);
    assert t != s ==> RenamedAt(m, m', z, q, t);
  }
}
