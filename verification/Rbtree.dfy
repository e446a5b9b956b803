// src/core/ngx_rbtree.c: insertion and deletion with their fix-up loops.
module Rbtree {
  import opened Sequences
  import opened Strings
  import opened RbtreeShape
  import opened RbtreeColour

  // The three insert callbacks: ngx_rbtree_insert_value, ngx_rbtree_insert_timer_value
  // and ngx_open_file_cache_rbtree_insert_value.
  datatype InsertKind = ByValue | ByTimer | ByFile

  // (ngx_rbtree_key_int_t) a - (ngx_rbtree_key_int_t) b, on two's complement words
  function SignedDifference(a: Word, b: Word): (r: int)
    ensures -MODULUS / 2 <= r < MODULUS / 2 && (b + r) % MODULUS == a
  {
    var d := (a - b) % MODULUS;
    if d < MODULUS / 2 then d else d - MODULUS
  }

  // node goes to the left of temp
  predicate Before(kind: InsertKind, node: Node, temp: Node) {
    match kind
    case ByValue => node.key < temp.key
    case ByTimer => SignedDifference(node.key, temp.key) < 0
    case ByFile => node.key < temp.key || (node.key == temp.key && StringLess(node.name, temp.name))
  }

  // Timer keys are comparable while all of them lie within half the modulus of one of them.
  ghost predicate Comparable(kind: InsertKind, base: Word, x: Node) {
    kind.ByTimer? ==> (x.key - base) % MODULUS < MODULUS / 2
  }

  lemma TimerOrder(base: Word, a: Word, b: Word)
    requires (a - base) % MODULUS < MODULUS / 2 && (b - base) % MODULUS < MODULUS / 2
    ensures SignedDifference(a, b) == (a - base) % MODULUS - (b - base) % MODULUS
  {
  }

  // Before is a strict weak order on comparable nodes.
  lemma BeforeOrder(kind: InsertKind, base: Word, a: Node, b: Node, c: Node)
    requires Comparable(kind, base, a) && Comparable(kind, base, b) && Comparable(kind, base, c)
    ensures Before(kind, a, b) ==> !Before(kind, b, a)
    ensures !Before(kind, b, a) && !Before(kind, c, b) ==> !Before(kind, c, a)
    ensures Before(kind, a, b) && !Before(kind, c, b) ==> Before(kind, a, c)
  {
    match kind
    case ByValue =>
    case ByTimer =>
      TimerOrder(base, a.key, b.key);
      TimerOrder(base, b.key, a.key);
      TimerOrder(base, b.key, c.key);
      TimerOrder(base, c.key, b.key);
      TimerOrder(base, a.key, c.key);
      TimerOrder(base, c.key, a.key);
    case ByFile =>
      StringLessOrder(a.name, b.name, c.name);
  }

  // keys never decrease along the tree
  ghost predicate Sorted(kind: InsertKind, m: Memory, order: seq<Ref>) {
    && (forall i :: 0 <= i < |order| ==> order[i] in m)
    && (forall i, j :: 0 <= i < j < |order| ==> !Before(kind, m[order[j]], m[order[i]]))
  }

  ghost predicate SameData(m: Memory, m': Memory) {
    m'.Keys == m.Keys && forall x :: x in m ==> m'[x].key == m[x].key && m'[x].name == m[x].name
  }

  lemma SameDataSorted(kind: InsertKind, m: Memory, m': Memory, order: seq<Ref>)
    requires Sorted(kind, m, order) && SameData(m, m')
    ensures Sorted(kind, m', order)
  {
    forall i, j | 0 <= i < j < |order| ensures !Before(kind, m'[order[j]], m'[order[i]]) {
      assert !Before(kind, m[order[j]], m[order[i]]);
    }
  }

  // what the descent of an insert callback has found out about position k
  ghost predicate SplitsAt(kind: InsertKind, m: Memory, order: seq<Ref>, x: Ref, lo: nat, hi: nat) {
    && x in m && (forall i :: 0 <= i < |order| ==> order[i] in m)
    && (forall i :: 0 <= i < lo && i < |order| ==> !Before(kind, m[x], m[order[i]]))
    && (forall i :: hi <= i < |order| ==> Before(kind, m[x], m[order[i]]))
  }

  lemma InsertedSorted(kind: InsertKind, base: Word, m: Memory, order: seq<Ref>, x: Ref, k: nat)
    requires Sorted(kind, m, order) && k <= |order| && SplitsAt(kind, m, order, x, k, k)
    requires Comparable(kind, base, m[x]) && forall i :: 0 <= i < |order| ==> Comparable(kind, base, m[order[i]])
    ensures Sorted(kind, m, Inserted(order, k, x))
  {
    var o := Inserted(order, k, x);
    forall i, j | 0 <= i < j < |o| ensures !Before(kind, m[o[j]], m[o[i]]) {
      if i == k {
        assert o[j] == order[j - 1];
        BeforeOrder(kind, base, m[x], m[o[j]], m[x]);
      }
    }
  }

  // --- facts about the loops -------------------------------------------------------

  ghost function Size(g: Spans, x: Ref): nat {
    if x in g && g[x].lo <= g[x].hi then g[x].hi - g[x].lo else 0
  }

  // the parent and the grandparent of a red node whose parent is red
  lemma RedFamily(m: Memory, g: Spans, s: Ref, root: Ref, n: nat, h: Heights, x: Ref)
    requires Structure(m, g, s, root, n) && Coloured(m, g, s, root, h, x) && x in g && x != root && Red(m, m[x].parent)
    ensures var p := m[x].parent; var gp := m[p].parent;
      && x in m && p in g && gp in g && gp in m && p != root && gp != s && p != s
      && x != p && x != gp && p != gp && !Red(m, gp)
      && OnlyParent(m, g, x, p) && OnlyParent(m, g, p, gp)
      && (m[gp].left == p || m[gp].right == p)
      && Size(g, x) < Size(g, p) < Size(g, gp)
  {
    assert Ok(m, g, s, root, x);
    var p := m[x].parent;
    assert Ok(m, g, s, root, p);
    var gp := m[p].parent;
    assert Ok(m, g, s, root, gp);
    assert Calm(m, gp, x);
    ParentIsOnly(m, g, s, root, n, x, p);
    ParentIsOnly(m, g, s, root, n, p, gp);
  }

  lemma UncleIsRed(m: Memory, g: Spans, s: Ref, root: Ref, n: nat, h: Heights, x: Ref, p: Ref, u: Ref, gp: Ref)
    requires Structure(m, g, s, root, n) && Coloured(m, g, s, root, h, x) && x in g && x != root && x in m
    requires p == m[x].parent && Red(m, p) && gp == m[p].parent && Kids(m, gp, p, u) && p != u && Red(m, u)
    ensures UncleCase(m, g, s, root, h, x, p, u, gp) && Size(g, gp) > Size(g, x)
  {
    RedFamily(m, g, s, root, n, h, x);
    assert Ok(m, g, s, root, x) && Ok(m, g, s, root, p) && Ok(m, g, s, root, gp);
    ParentIsOnly(m, g, s, root, n, u, gp);
  }

  // the outer case of insertion, on either side
  lemma OuterTurned(left: bool, m: Memory, m1: Memory, m': Memory, g: Spans, s: Ref, root: Ref, root': Ref, n: nat,
                    h: Heights,
                    x: Ref, p: Ref, gp: Ref, u: Ref, mid: Ref) returns (h': Heights)
    requires Structure(m, g, s, root, n) && Structure(m1, g, s, root, n) && Coloured(m, g, s, root, h, x)
    requires x in g && x != root && m[x].parent == p && Red(m, p) && m[p].parent == gp && gp in m && Red(m, x)
    requires m1 == m[p := m[p].(red := false)][gp := m[gp].(red := true)] && !Red(m, u)
    requires if left then m[p].left == x && m[p].right == mid && m[gp].right == u
                          && Rotated(m', m1, s, root', root, p, gp, mid, m[gp].parent)
             else m[p].right == x && m[p].left == mid && m[gp].left == u
                  && Rotated(m1, m', s, root, root', gp, p, mid, m[gp].parent)
    ensures Coloured(m', g, s, root', h', x) && x in m' && Red(m', x) && !Red(m', m'[x].parent)
  {
    RedFamily(m, g, s, root, n, h, x);
    assert Ok(m, g, s, root, x) && Ok(m, g, s, root, p) && Ok(m, g, s, root, gp);
    if left {
      RightSwung(m1, m', g, s, root, root', n, p, gp, mid, m[gp].parent);
    } else {
      LeftSwung(m1, m', g, s, root, root', n, gp, p, mid, m[gp].parent);
    }
    h' := OuterTurn(m, m1, m', g, s, root, root', h, x, p, gp, u, mid);
    forall z | z in g ensures Calm(m', z, x) { assert Calm(m', z, s); }
  }

  // the inner case of insertion, on either side
  lemma InnerTurned(left: bool, m: Memory, m': Memory, g: Spans, s: Ref, root: Ref, root': Ref, n: nat, h: Heights,
                    x: Ref, p: Ref, gp: Ref, mid: Ref)
    requires Structure(m, g, s, root, n) && Coloured(m, g, s, root, h, x)
    requires x in g && x != root && m[x].parent == p && Red(m, p) && m[p].parent == gp && gp in m && Red(m, x)
    requires if left then m[p].right == x && m[x].left == mid && m[gp].left == p &&
        Rotated(m, m', s, root, root', p, x, mid, gp)
             else m[p].left == x && m[x].right == mid && m[gp].right == p && m[gp].left != p
                  && Rotated(m', m, s, root', root, x, p, mid, gp)
    ensures Coloured(m', g, s, root', h, p) && p in g && Red(m', p) && p != root' && p in m' && x in m' && gp in m'
    ensures Red(m', x)
    ensures m'[p].parent == x && m'[x].parent == gp
    ensures if left then m'[x].left == p && m'[gp].left == x && m'[gp].right == m[gp].right
            else m'[x].right == p && m'[gp].left == m[gp].left && m'[gp].right == x
  {
    RedFamily(m, g, s, root, n, h, x);
    assert Ok(m, g, s, root, x) && Ok(m, g, s, root, p) && Ok(m, g, s, root, gp);
    if left {
      LeftSwung(m, m', g, s, root, root', n, p, x, mid, gp);
      InnerTurn(m, m', g, s, root, h, x, p, m[p].left, mid, m[x].right);
    } else {
      RightSwung(m, m', g, s, root, root', n, x, p, mid, gp);
      InnerTurn(m, m', g, s, root, h, x, p, m[p].right, mid, m[x].left);
    }
  }

  // ngx_rbtree_insert ends by making the root black
  lemma RootBlackened(m: Memory, m': Memory, g: Spans, s: Ref, root: Ref, n: nat, h: Heights, x: Ref)
    returns (h': Heights)
    requires Structure(m, g, s, root, n) && Coloured(m, g, s, root, h, x) && x in g && n > 0
    requires (x == root || !Red(m, m[x].parent)) && root in g
    requires m' == m[root := m[root].(red := false)]
    ensures Coloured(m', g, s, root, h', s)
  {
    assert Ok(m, g, s, root, x);
    ParentIsOnly(m, g, s, root, n, x, m[x].parent);
    ParentIsOnly(m, g, s, root, n, root, s);
    h' := if m[root].red && root in h then h[root := h[root] + 1] else h;
    forall z | z in g ensures Balanced(m', h', s, z) && Calm(m', z, s) {
      assert Balanced(m, h, s, z) && Calm(m, z, x) && NotChild(m, root, z);
      assert x == root || z != m[x].parent ==> NotChild(m, x, z);
    }
  }

  // --- facts about the deletion loop -------------------------------------------------

  ghost function Sibling(m: Memory, p: Ref, t: Ref): Ref {
    if p !in m then p else if m[p].left == t then m[p].right else m[p].left
  }

  // the state of the loop of ngx_rbtree_delete at t
  ghost predicate ShortAt(m: Memory, g: Spans, s: Ref, root: Ref, n: nat, h: Heights, t: Ref) {
    && Structure(m, g, s, root, n) && t in m && (t != s ==> t in g) && (n == 0 ==> t == root)
    && Short(m, g, s, root, h, t, m[t].parent, Sibling(m, m[t].parent, t))
  }

  // the sibling w of t and its children, the near one and the far one
  ghost predicate Nephews(left: bool, m: Memory, t: Ref, p: Ref, w: Ref, near: Ref, far: Ref) {
    && t in m && p in m && w in m && near in m && far in m && p == m[t].parent
    && (if left then m[p].left == t && m[p].right == w && m[w].left == near && m[w].right == far
        else m[p].left != t && m[p].right == t && m[p].left == w && m[w].right == near && m[w].left == far)
  }

  lemma ShortFamily(left: bool, m: Memory, g: Spans, s: Ref, root: Ref, n: nat, h: Heights, t: Ref, p: Ref, w: Ref,
                    near: Ref, far: Ref)
    requires ShortAt(m, g, s, root, n, h, t) && t != root && Nephews(left, m, t, p, w, near, far)
    ensures p in g && w in g && w != root && w == Sibling(m, p, t) && m[w].parent == p
    ensures near != s ==> near in g && m[near].parent == w && near != root
    ensures far != s ==> far in g && m[far].parent == w && far != root
    ensures OnlyParent(m, g, w, p) && (near != s ==> OnlyParent(m, g, near, w))
    ensures far != s ==> OnlyParent(m, g, far, w)
    ensures near != p && far != p && near != w && far != w && (near == t ==> near == s) && (near == far ==> near == s)
    ensures Red(m, w) ==> near != s
    ensures near in m && far in m
  {
    assert Ok(m, g, s, root, p) && Ok(m, g, s, root, w);
    assert t != s ==> Ok(m, g, s, root, t);
    assert Balanced(m, h, s, w);
    ParentIsOnly(m, g, s, root, n, w, p);
    if near != s { assert Ok(m, g, s, root, near); ParentIsOnly(m, g, s, root, n, near, w); }
    if far != s { assert Ok(m, g, s, root, far); ParentIsOnly(m, g, s, root, n, far, w); }
    assert Spanned(g, root, n);
  }

  ghost predicate Turned(left: bool, m: Memory, m': Memory, s: Ref, root: Ref, root': Ref, p: Ref, w: Ref, near: Ref) {
    && p in m
    && if left then Rotated(m, m', s, root, root', p, w, near, m[p].parent)
       else Rotated(m', m, s, root', root, w, p, near, m[p].parent)
  }

  // the rotation of p that lifts w, on either side
  lemma TurnedSwings(left: bool, m: Memory, m': Memory, g: Spans, s: Ref, root: Ref, root': Ref, n: nat, t: Ref, p: Ref,
                     w: Ref, near: Ref, far: Ref)
    requires Structure(m, g, s, root, n) && p in g && w in g && Nephews(left, m, t, p, w, near, far)
    requires Turned(left, m, m', s, root, root', p, w, near)
    ensures Swung(m, m', g, s, p, w, t, near, far) && root' == (if root == p then w else root)
    ensures if left then m'[p].left == t && m'[p].right == near else m'[p].right == t && m'[p].left == near
  {
    if left {
      LeftSwung(m, m', g, s, root, root', n, p, w, near, m[p].parent);
    } else {
      RightSwung(m, m', g, s, root, root', n, w, p, near, m[p].parent);
    }
  }

  lemma RedSiblingTurned(left: bool, m: Memory, m1: Memory, m': Memory, g: Spans, s: Ref, root: Ref, root': Ref, n: nat,
                         h: Heights,
                         t: Ref, p: Ref, w: Ref, near: Ref, far: Ref) returns (h': Heights)
    requires ShortAt(m, g, s, root, n, h, t) && t != root && Nephews(left, m, t, p, w, near, far) && Red(m, w)
    requires m1 == m[w := m[w].(red := false)][p := m[p].(red := true)] && Structure(m1, g, s, root, n)
    requires Turned(left, m1, m', s, root, root', p, w, near) && !Red(m, t) && SameData(m, m')
    ensures Short(m', g, s, root', h', t, p, near) && t in m' && p in m' && m'[t].parent == p && t != root'
    ensures Red(m', p)
    ensures (if left then m'[p].left == t else m'[p].left != t) && Sibling(m', p, t) == near && !Red(m', near)
    ensures !Red(m', t) && SameData(m, m')
  {
    ShortFamily(left, m, g, s, root, n, h, t, p, w, near, far);
    TurnedSwings(left, m1, m', g, s, root, root', n, t, p, w, near, far);
    h' := RedSibling(m, m1, m', g, s, root, root', h, t, p, w, near, far);
    assert t != s ==> Ok(m, g, s, root, t);
  }

  lemma NearNephewTurned(left: bool, m: Memory, m1: Memory, m': Memory, g: Spans, s: Ref, root: Ref, root': Ref, n: nat,
                         h: Heights,
                         t: Ref, p: Ref, w: Ref, near: Ref, far: Ref, inner: Ref, outer: Ref) returns (h': Heights)
    requires ShortAt(m, g, s, root, n, h, t) && t != root && Nephews(left, m, t, p, w, near, far) && !Red(m, t)
    requires !Red(m, w) && Red(m, near) && !Red(m, far) && near in m
    requires m1 == m[near := m[near].(red := false)][w := m[w].(red := true)] && Structure(m1, g, s, root, n)
    requires if left then inner == m[near].left && outer == m[near].right &&
        Rotated(m', m1, s, root', root, near, w, outer, p)
             else inner == m[near].right && outer == m[near].left && Rotated(m1, m', s, root, root', w, near, outer, p)
    ensures Short(m', g, s, root', h', t, p, near) && t in m' && m'[t].parent == p && t != root' && root' == root
    ensures Nephews(left, m', t, p, near, inner, w) && !Red(m', near) && Red(m', w) && !Red(m', t)
  {
    ShortFamily(left, m, g, s, root, n, h, t, p, w, near, far);
    assert Ok(m, g, s, root, near) && Ok(m, g, s, root, w) && Ok(m, g, s, root, p);
    assert t != s ==> Ok(m, g, s, root, t);
    if left {
      RightSwung(m1, m', g, s, root, root', n, near, w, outer, p);
    } else {
      LeftSwung(m1, m', g, s, root, root', n, w, near, outer, p);
    }
    h' := NearNephew(m, m1, m', g, s, root, h, t, p, w, near, far, outer, inner);
  }

  lemma FarNephewTurned(left: bool, m: Memory, m1: Memory, m': Memory, g: Spans, s: Ref, root: Ref, root': Ref, n: nat,
                        h: Heights,
                        t: Ref, p: Ref, w: Ref, near: Ref, far: Ref) returns (h': Heights)
    requires ShortAt(m, g, s, root, n, h, t) && t != root && Nephews(left, m, t, p, w, near, far) && !Red(m, t)
    requires !Red(m, w) && Red(m, far)
    requires m1 == m[w := m[w].(red := m[p].red)][p := m[p].(red := false)][far := m[far].(red := false)]
    requires Structure(m1, g, s, root, n)
    requires Turned(left, m1, m', s, root, root', p, w, near)
    ensures Short(m', g, s, root', h', root', s, s) && !Red(m', root')
  {
    ShortFamily(left, m, g, s, root, n, h, t, p, w, near, far);
    TurnedSwings(left, m1, m', g, s, root, root', n, t, p, w, near, far);
    h' := FarNephew(m, m1, m', g, s, root, root', h, t, p, w, near, far);
  }

  lemma GrandFamily(m: Memory, g: Spans, s: Ref, root: Ref, n: nat, p: Ref, w: Ref, t: Ref)
    requires Structure(m, g, s, root, n) && p in g && w in g && p in m && w in m && m[w].parent == p && w != root
    requires t != s ==> t in g && t in m && m[t].parent == p && t != root
    ensures var pp := m[p].parent; var w' := Sibling(m, pp, p);
      if p == root then OnlyParent(m, g, p, s)
      else && pp in g && pp in m && pp != p && pp != s && Kids(m, pp, p, w')
           && w' != p && w' != pp && w' != w && pp != w && pp != t
           && (w' != s ==> w' in g) && OnlyParent(m, g, p, pp)
  {
    assert Ok(m, g, s, root, p) && Ok(m, g, s, root, w);
    assert t != s ==> Ok(m, g, s, root, t);
    ParentIsOnly(m, g, s, root, n, p, m[p].parent);
    if p != root {
      var pp := m[p].parent;
      assert Ok(m, g, s, root, pp);
      var w' := Sibling(m, pp, p);
      assert w' != s ==> Ok(m, g, s, root, w');
    }
  }

  lemma ShortRises(left: bool, m: Memory, m': Memory, g: Spans, s: Ref, root: Ref, n: nat, h: Heights,
                   t: Ref, p: Ref, w: Ref, near: Ref, far: Ref) returns (h': Heights)
    requires ShortAt(m, g, s, root, n, h, t) && t != root && Nephews(left, m, t, p, w, near, far) && !Red(m, t)
    requires !Red(m, w) && !Red(m, near) && !Red(m, far) && m' == m[w := m[w].(red := true)]
    ensures ShortAt(m', g, s, root, n, h', p) && Size(g, p) > Size(g, t)
  {
    ShortFamily(left, m, g, s, root, n, h, t, p, w, near, far);
    var pp := m[p].parent;
    var w' := Sibling(m, pp, p);
    assert Ok(m, g, s, root, p);
    assert t != s ==> Ok(m, g, s, root, t);
    GrandFamily(m, g, s, root, n, p, w, t);
    h' := BlackSibling(m, m', g, s, root, h, t, p, w, pp, w');
    RecolourStructure(m, m', g, s, root, n);
  }

  // --- facts about taking a node out -------------------------------------------------

  // q, with at most the one child t, leaves a red-black tree
  lemma UnlinkedTree(m: Memory, m': Memory, g: Spans, s: Ref, root: Ref, root': Ref, order: seq<Ref>, h: Heights,
                     q: Ref, t: Ref, p: Ref)
    requires Structure(m, g, s, root, |order|) && Ordered(g, order) && Coloured(m, g, s, root, h, s) && q in g
    requires Unlinked(m, m', s, root, root', q, t, p)
    ensures Structure(m', ClosedSpans(g, q), s, root', |order| - 1)
    ensures g[q].pos < |order| && order[g[q].pos] == q && Ordered(ClosedSpans(g, q), Without(order, g[q].pos))
    ensures if q != root && Red(m, q) then Coloured(m', ClosedSpans(g, q), s, root', h, s)
            else Short(m', ClosedSpans(g, q), s, root', h, t, p, Sibling(m, p, q))
    ensures q != root && !Red(m, q) ==> t != root' && p in m' && Sibling(m', p, t) == Sibling(m, p, q)
  {
    assert OrderedAt(g, order, q);
    ParentIsOnly(m, g, s, root, |order|, q, p);
    UnlinkedFamily(m, m', g, s, root, root', |order|, q, t, p);
    UnlinkedStructure(m, m', g, s, root, root', order, q, t, p);
    ClosedOrdered(g, order, q);
    UnlinkedColour(m, m', g, ClosedSpans(g, q), s, root, root', h, q, t, p, Sibling(m, p, q));
  }

  lemma UnlinkedFamily(m: Memory, m': Memory, g: Spans, s: Ref, root: Ref, root': Ref, n: nat, q: Ref, t: Ref, p: Ref)
    requires Structure(m, g, s, root, n) && q in g && Unlinked(m, m', s, root, root', q, t, p)
    ensures t != s ==> t in g
    ensures q != root ==>
        root in g && p in g && p in m' && t != root' && Kids(m, p, q, Sibling(m, p, q)) &&
            Sibling(m', p, t) == Sibling(m, p, q)
    ensures q != root ==> var w := Sibling(m, p, q); (w != s ==> w in g) && w != q && (w == t ==> w == s) && w != p
  {
    assert Ok(m, g, s, root, q);
    assert t != s ==> Ok(m, g, s, root, t);
    if q != root {
      assert Ok(m, g, s, root, p);
      var w := Sibling(m, p, q);
      assert w != s ==> Ok(m, g, s, root, w);
    }
  }

  // cells outside the tree do not matter
  ghost predicate OnlyAt(m: Memory, m': Memory, x: Ref) {
    m'.Keys == m.Keys && forall y :: y in m && y != x ==> m'[y] == m[y]
  }

  lemma OutsideStructure(m: Memory, m': Memory, g: Spans, s: Ref, root: Ref, n: nat, x: Ref)
    requires Structure(m, g, s, root, n) && x !in g && x != s && OnlyAt(m, m', x)
    ensures Structure(m', g, s, root, n)
  {
    forall y | y in g ensures Ok(m', g, s, root, y) { assert Ok(m, g, s, root, y); }
  }

  lemma OutsideColoured(m: Memory, m': Memory, g: Spans, s: Ref, root: Ref, n: nat, h: Heights, x: Ref)
    requires Structure(m, g, s, root, n) && x !in g && x != s && OnlyAt(m, m', x)
    requires Coloured(m, g, s, root, h, s)
    ensures Coloured(m', g, s, root, h, s)
  {
    forall y | y in g ensures Balanced(m', h, s, y) && Calm(m', y, s) {
      assert Ok(m, g, s, root, y) && Balanced(m, h, s, y) && Calm(m, y, s);
    }
  }

  lemma OutsideShort(m: Memory, m': Memory, g: Spans, s: Ref, root: Ref, n: nat, h: Heights, t: Ref, x: Ref)
    requires x !in g && x != s && OnlyAt(m, m', x)
    requires ShortAt(m, g, s, root, n, h, t)
    ensures ShortAt(m', g, s, root, n, h, t)
  {
    OutsideStructure(m, m', g, s, root, n, x);
    var p := m[t].parent;
    forall y | y in g && (t != root ==> y != p) ensures Balanced(m', h, s, y) && (y != t ==> Calm(m', y, s)) {
      assert Ok(m, g, s, root, y) && Balanced(m, h, s, y) && (y != t ==> Calm(m, y, s));
    }
  }

  class RbTree {
    var mem: Memory
    var root: Ref
    const sentinel: Ref
    const kind: InsertKind
    ghost var g: Spans
    ghost var order: seq<Ref>
    ghost var h: Heights

    // ngx_rbtree_init
    constructor (memory: Memory, s: Ref, i: InsertKind)
      requires s in memory
      ensures Valid() && order == [] && g == map[] && sentinel == s && kind == i
      ensures mem == memory[s := memory[s].(red := false)]
    {
      sentinel, kind := s, i;
      mem, root := memory[s := memory[s].(red := false)], s;
      g, order, h := map[], [], map[];
    }

    ghost predicate Linked()
      reads this
    {
      Structure(mem, g, sentinel, root, |order|) && Ordered(g, order)
    }

    // a binary search tree in which the red-black conditions hold
    ghost predicate Valid()
      reads this
    {
      Linked() && Coloured(mem, g, sentinel, root, h, sentinel) && Sorted(kind, mem, order)
    }

    // the pointer to `node`, in its parent or in the tree, becomes a pointer to `temp`
    method ReplaceChild(node: Ref, temp: Ref)
      requires node in mem && (node != root ==> mem[node].parent in mem)
      modifies this`mem, this`root
      ensures root == if node == old(root) then temp else old(root)
      ensures node == old(root) ==> mem == old(mem)
      ensures node != old(root) ==>
        var p := old(mem[node].parent);
        mem == old(mem)[p :=
            if old(mem)[p].left == node then old(mem)[p].(left := temp) else old(mem)[p].(right := temp)]
    {
      if node == root {
        root := temp;
      } else if node == mem[mem[node].parent].left {
        mem := mem[mem[node].parent := mem[mem[node].parent].(left := temp)];
      } else {
        mem := mem[mem[node].parent := mem[mem[node].parent].(right := temp)];
      }
    }

    // the assignments of ngx_rbtree_left_rotate
    method LeftLinks(node: Ref)
      requires node in mem && mem[node].right in mem && mem[mem[node].right].parent == node
      requires var y := mem[node].right; var b := mem[y].left;
        Pivot(mem, sentinel, root, node, y, b, mem[node].parent) && (b != sentinel ==> mem[b].parent == y)
      modifies this`mem, this`root
      ensures mem.Keys == old(mem.Keys)
      ensures var y := old(mem[node].right);
        Rotated(old(mem), mem, sentinel, old(root), root, node, y, old(mem[y].left), old(mem[node].parent))
    {
      var temp := mem[node].right;
      mem := mem[node := mem[node].(right := mem[temp].left)];
      if mem[temp].left != sentinel {
        mem := mem[mem[temp].left := mem[mem[temp].left].(parent := node)];
      }
      mem := mem[temp := mem[temp].(parent := mem[node].parent)];
      ReplaceChild(node, temp);
      mem := mem[temp := mem[temp].(left := node)];
      mem := mem[node := mem[node].(parent := temp)];
    }

    method LeftRotate(node: Ref)
      requires Linked() && node in g && mem[node].right in g
      modifies this`mem, this`root, this`g
      ensures Linked() && g.Keys == old(g.Keys) && mem.Keys == old(mem.Keys)
      ensures var y := old(mem[node].right);
        && y in old(g) && g == RotatedSpans(old(g), node, y)
        && Rotated(old(mem), mem, sentinel, old(root), root, node, y, old(mem[y].left), old(mem[node].parent))
    {
      ghost var m0, root0 := mem, root;
      ghost var temp, p := mem[node].right, mem[node].parent;
      ghost var b := mem[temp].left;
      assert Ok(mem, g, sentinel, root, node);
      assert Ok(mem, g, sentinel, root, temp);
      assert b != sentinel ==> Ok(mem, g, sentinel, root, b);
      assert node != root ==> Ok(mem, g, sentinel, root, p);
      LeftLinks(node);
      LeftRotateStructure(m0, mem, g, sentinel, root0, root, |order|, node, temp, b, p);
      SameOrder(g, RotatedSpans(g, node, temp), order);
      g := RotatedSpans(g, node, temp);
    }

    // the assignments of ngx_rbtree_right_rotate
    method RightLinks(node: Ref)
      requires node in mem && mem[node].left in mem && mem[mem[node].left].parent == node
      requires var x := mem[node].left; var b := mem[x].right;
        && x != node && node != sentinel && x != sentinel && b in mem && b != x && b != node
        && (b != sentinel ==> mem[b].parent == x)
        && Pivot(mem, sentinel, root, node, x, b, mem[node].parent)
        && (node != root ==> mem[mem[node].parent].left != x)
      modifies this`mem, this`root
      ensures mem.Keys == old(mem.Keys)
      ensures var x := old(mem[node].left);
        Rotated(mem, old(mem), sentinel, root, old(root), x, node, old(mem[x].right), old(mem[node].parent))
    {
      var temp := mem[node].left;
      mem := mem[node := mem[node].(left := mem[temp].right)];
      if mem[temp].right != sentinel {
        mem := mem[mem[temp].right := mem[mem[temp].right].(parent := node)];
      }
      mem := mem[temp := mem[temp].(parent := mem[node].parent)];
      ReplaceChild(node, temp);
      mem := mem[temp := mem[temp].(right := node)];
      mem := mem[node := mem[node].(parent := temp)];
    }

    method RightRotate(node: Ref)
      requires Linked() && node in g && mem[node].left in g
      modifies this`mem, this`root, this`g
      ensures Linked() && g.Keys == old(g.Keys) && mem.Keys == old(mem.Keys)
      ensures var x := old(mem[node].left);
        && x in old(g) && g == UnrotatedSpans(old(g), x, node)
        && Rotated(mem, old(mem), sentinel, root, old(root), x, node, old(mem[x].right), old(mem[node].parent))
    {
      ghost var m0, root0 := mem, root;
      ghost var temp, p := mem[node].left, mem[node].parent;
      ghost var b := mem[temp].right;
      assert Ok(mem, g, sentinel, root, node);
      assert Ok(mem, g, sentinel, root, temp);
      assert b != sentinel ==> Ok(mem, g, sentinel, root, b);
      assert node != root ==> Ok(mem, g, sentinel, root, p);
      RightLinks(node);
      RightRotateStructure(m0, mem, g, sentinel, root0, root, |order|, temp, node, b, p);
      SameOrder(g, UnrotatedSpans(g, temp, node), order);
      g := UnrotatedSpans(g, temp, node);
    }

    // --- insertion -----------------------------------------------------------------

    // The insert callbacks: go down from temp, hang node below the last node met.
    method InsertValue(start: Ref, node: Ref, ghost base: Word) returns (ghost p: Ref, ghost left: bool)
      requires Linked() && Sorted(kind, mem, order) && start == root && root in g
      requires node in mem && node !in g && node != sentinel
      requires Comparable(kind, base, mem[node])
      requires forall i :: 0 <= i < |order| ==> Comparable(kind, base, mem[order[i]])
      modifies this`mem
      ensures p in g && Hung(old(mem), mem, sentinel, node, p, left)
      ensures SplitsAt(kind, old(mem), order, node, LeafPosition(g, p, left), LeafPosition(g, p, left))
    {
      var temp := start;
      assert Spanned(g, root, |order|);
      while true
        invariant mem == old(mem) && temp in g
        invariant SplitsAt(kind, mem, order, node, g[temp].lo, g[temp].hi)
        decreases Size(g, temp)
      {
        assert Ok(mem, g, sentinel, root, temp) && OrderedAt(g, order, temp);
        ghost var k := g[temp].pos;
        left := Before(kind, mem[node], mem[temp]);
        if left {
          forall i | k <= i < |order| ensures Before(kind, mem[node], mem[order[i]]) {
            BeforeOrder(kind, base, mem[node], mem[temp], mem[order[i]]);
          }
        } else {
          forall i | 0 <= i <= k ensures !Before(kind, mem[node], mem[order[i]]) {
            BeforeOrder(kind, base, mem[order[i]], mem[temp], mem[node]);
          }
        }
        var next := if Before(kind, mem[node], mem[temp]) then mem[temp].left else mem[temp].right;
        if next == sentinel {
          break;
        }
        temp := next;
      }
      p := temp;
      if Before(kind, mem[node], mem[temp]) {
        mem := mem[temp := mem[temp].(left := node)];
      } else {
        mem := mem[temp := mem[temp].(right := node)];
      }
      mem := mem[node := mem[node].(parent := temp, left := sentinel, right := sentinel, red := true)];
    }

    // the loop of ngx_rbtree_insert: only node may disturb the colours
    ghost predicate Fixing(node: Ref)
      reads this
    {
      Linked() && Coloured(mem, g, sentinel, root, h, node) && node in g && Red(mem, node)
    }

    ghost predicate Family(node: Ref, p: Ref, gp: Ref)
      reads this
    {
      && node in mem && p in mem && gp in mem && node != root && Red(mem, p) && mem[node].parent == p
      && mem[p].parent == gp
    }

    ghost predicate LeftUncle(node: Ref, p: Ref, gp: Ref)
      reads this
    {
      Family(node, p, gp) && mem[gp].left == p
    }

    ghost predicate RightUncle(node: Ref, p: Ref, gp: Ref)
      reads this
    {
      Family(node, p, gp) && mem[gp].left != p && mem[gp].right == p
    }

    // p black, gp red
    method Paint(p: Ref, gp: Ref)
      requires Linked() && p in g && gp in g && p != gp
      modifies this`mem
      ensures Linked() && SameData(old(mem), mem)
      ensures mem == old(mem)[p := old(mem)[p].(red := false)][gp := old(mem)[gp].(red := true)]
    {
      ghost var m0 := mem;
      mem := mem[p := mem[p].(red := false)];
      mem := mem[gp := mem[gp].(red := true)];
      RecolourStructure(m0, mem, g, sentinel, root, |order|);
    }

    // rotate p so that its child w comes to the top: to the left if w is the right child
    method Lift(left: bool, p: Ref, ghost w: Ref, ghost near: Ref)
      requires Linked() && p in g && w in g
      requires if left then mem[p].right == w && mem[w].left == near else mem[p].left == w && mem[w].right == near
      modifies this`mem, this`root, this`g
      ensures Linked() && SameData(old(mem), mem) && g.Keys == old(g.Keys)
      ensures Turned(left, old(mem), mem, sentinel, old(root), root, p, w, near)
    {
      if left { LeftRotate(p); } else { RightRotate(p); }
    }

    // two nodes are painted, and then p is rotated
    method PaintLift(black: Ref, red: Ref, left: bool, p: Ref, ghost w: Ref, ghost near: Ref) returns (ghost m1: Memory)
      requires Linked() && black in g && red in g && black != red && p in g && w in g
      requires if left then mem[p].right == w && mem[w].left == near else mem[p].left == w && mem[w].right == near
      modifies this`mem, this`root, this`g
      ensures Linked() && SameData(old(mem), mem) && g.Keys == old(g.Keys)
      ensures m1 == old(mem)[black := old(mem)[black].(red := false)][red := old(mem)[red].(red := true)]
      ensures Structure(m1, old(g), sentinel, old(root), |order|)
      ensures Turned(left, m1, mem, sentinel, old(root), root, p, w, near)
    {
      Paint(black, red);
      m1 := mem;
      Lift(left, p, w, near);
    }

    // the uncle is red (lines 54-58 and 74-78)
    method PaintUncle(node: Ref, p: Ref, gp: Ref, temp: Ref)
      requires Fixing(node) && Family(node, p, gp) && Red(mem, temp)
      requires Kids(mem, gp, p, temp) && p != temp
      modifies this`mem, this`h
      ensures Fixing(gp) && SameData(old(mem), mem) && Size(g, gp) > Size(g, node)
    {
      ghost var m0 := mem;
      UncleIsRed(mem, g, sentinel, root, |order|, h, node, p, temp, gp);
      mem := mem[p := mem[p].(red := false)];
      mem := mem[temp := mem[temp].(red := false)];
      mem := mem[gp := mem[gp].(red := true)];
      h := RedUncle(m0, mem, g, sentinel, root, h, node, p, temp, gp);
      RecolourStructure(m0, mem, g, sentinel, root, |order|);
    }

    // lines 61-64
    method InnerLeft(node: Ref, p: Ref, gp: Ref)
      requires Fixing(node) && LeftUncle(node, p, gp) && node == mem[p].right && !Red(mem, mem[gp].right)
      modifies this`mem, this`root, this`g
      ensures Fixing(p) && LeftUncle(p, node, gp) && p == mem[node].left && !Red(mem, mem[gp].right)
      ensures SameData(old(mem), mem)
      ensures g.Keys == old(g.Keys)
    {
      ghost var m0, g0, root0 := mem, g, root;
      RedFamily(mem, g, sentinel, root, |order|, h, node);
      LeftRotate(p);
      InnerTurned(true, m0, mem, g0, sentinel, root0, root, |order|, h, node, p, gp, m0[node].left);
    }

    // lines 66-68
    method OuterLeft(node: Ref, p: Ref, gp: Ref)
      requires Fixing(node) && LeftUncle(node, p, gp) && node == mem[p].left && !Red(mem, mem[gp].right)
      modifies this`mem, this`root, this`g, this`h
      ensures Fixing(node) && node in mem && !Red(mem, mem[node].parent) && SameData(old(mem), mem)
      ensures g.Keys == old(g.Keys)
    {
      ghost var m0, g0, root0 := mem, g, root;
      RedFamily(mem, g, sentinel, root, |order|, h, node);
      ghost var m1 := PaintLift(p, gp, false, gp, p, mem[p].right);
      h := OuterTurned(true, m0, m1, mem, g0, sentinel, root0, root, |order|, h, node, p, gp, m0[gp].right,
          m0[p].right);
    }

    // lines 81-84
    method InnerRight(node: Ref, p: Ref, gp: Ref)
      requires Fixing(node) && RightUncle(node, p, gp) && node == mem[p].left && !Red(mem, mem[gp].left)
      modifies this`mem, this`root, this`g
      ensures Fixing(p) && RightUncle(p, node, gp) && p == mem[node].right && !Red(mem, mem[gp].left)
      ensures SameData(old(mem), mem)
      ensures g.Keys == old(g.Keys)
    {
      ghost var m0, g0, root0 := mem, g, root;
      RedFamily(mem, g, sentinel, root, |order|, h, node);
      RightRotate(p);
      InnerTurned(false, m0, mem, g0, sentinel, root0, root, |order|, h, node, p, gp, m0[node].right);
    }

    // lines 86-88
    method OuterRight(node: Ref, p: Ref, gp: Ref)
      requires Fixing(node) && RightUncle(node, p, gp) && node == mem[p].right && !Red(mem, mem[gp].left)
      modifies this`mem, this`root, this`g, this`h
      ensures Fixing(node) && node in mem && !Red(mem, mem[node].parent) && SameData(old(mem), mem)
      ensures g.Keys == old(g.Keys)
    {
      ghost var m0, g0, root0 := mem, g, root;
      RedFamily(mem, g, sentinel, root, |order|, h, node);
      ghost var m1 := PaintLift(p, gp, true, gp, p, mem[p].left);
      h := OuterTurned(false, m0, m1, mem, g0, sentinel, root0, root, |order|, h, node, p, gp, m0[gp].left, m0[p].left);
    }

    // how far the loop still has to go
    ghost function Climb(node: Ref): nat
      requires Linked() && node in g
      reads this
    {
      assert Spanned(g, root, |order|);
      if node == root || !Red(mem, mem[node].parent) then 0 else 1 + |order| - Size(g, node)
    }

    // one turn of the loop of ngx_rbtree_insert
    method InsertStep(n: Ref) returns (node: Ref)
      requires Fixing(n) && n != root && Red(mem, mem[n].parent)
      modifies this`mem, this`root, this`g, this`h
      ensures Fixing(node) && Climb(node) < old(Climb(n)) && SameData(old(mem), mem) && g.Keys == old(g.Keys)
    {
      node := n;
      RedFamily(mem, g, sentinel, root, |order|, h, node);
      var p := mem[node].parent;
      var gp := mem[p].parent;
      assert Ok(mem, g, sentinel, root, node) && Ok(mem, g, sentinel, root, p) && Ok(mem, g, sentinel, root, gp);
      if p == mem[gp].left {
        var temp := mem[gp].right;
        if mem[temp].red {
          PaintUncle(node, p, gp, temp);
          node := gp;
        } else {
          if node == mem[p].right {
            InnerLeft(node, p, gp);
            node, p := p, node;
          }
          OuterLeft(node, p, gp);
        }
      } else {
        var temp := mem[gp].left;
        if mem[temp].red {
          PaintUncle(node, p, gp, temp);
          node := gp;
        } else {
          if node == mem[p].left {
            InnerRight(node, p, gp);
            node, p := p, node;
          }
          OuterRight(node, p, gp);
        }
      }
    }

    // ngx_rbtree_insert: the node joins the others at one place of the order, after
    // those with an equal key, and the tree stays a red-black search tree.
    method Insert(n: Ref, ghost base: Word) returns (ghost k: nat)
      requires Valid() && n in mem && n !in g && n != sentinel
      requires Comparable(kind, base, mem[n]) && forall i :: 0 <= i < |order| ==> Comparable(kind, base, mem[order[i]])
      modifies this`mem, this`root, this`g, this`h, this`order
      ensures Valid() && SameData(old(mem), mem) && g.Keys == old(g.Keys) + {n}
      ensures k <= |old(order)| && order == Inserted(old(order), k, n)
      ensures SplitsAt(kind, old(mem), old(order), n, k, k)
    {
      var node := n;
      if root == sentinel {
        EmptyTree();
        mem := mem[node := mem[node].(parent := 0, left := sentinel, right := sentinel, red := false)];
        root := node;
        k := 0;
        g, order, h := map[node := Span(0, 0, 1)], [node], map[node := 1];
        OneNode(node);
        return;
      }
      ghost var m0 := mem;
      assert Spanned(g, root, |order|);
      ghost var p, left := InsertValue(root, node, base);
      k := LeafPosition(g, p, left);
      Hang(m0, base, node, p, left);
      InsertFixup(node);
      InsertedSorted(kind, base, m0, old(order), n, k);
      SameDataSorted(kind, m0, mem, order);
    }

    // lines 49-93
    method InsertFixup(n: Ref)
      requires Fixing(n)
      modifies this`mem, this`root, this`g, this`h
      ensures Linked() && Coloured(mem, g, sentinel, root, h, sentinel) && SameData(old(mem), mem)
      ensures g.Keys == old(g.Keys)
    {
      var node := n;
      ParentKnown(node);
      while node != root && mem[mem[node].parent].red
        invariant Fixing(node) && SameData(old(mem), mem) && g.Keys == old(g.Keys)
        invariant node in mem && root in g && (node != root ==> mem[node].parent in mem)
        decreases Climb(node)
      {
        node := InsertStep(node);
        ParentKnown(node);
      }
      ghost var m1 := mem;
      h := RootBlackened(mem, mem[root := mem[root].(red := false)], g, sentinel, root, |order|, h, node);
      mem := mem[root := mem[root].(red := false)];
      RecolourStructure(m1, mem, g, sentinel, root, |order|);
    }

    lemma ParentKnown(node: Ref)
      requires Linked() && node in g
      ensures node in mem && root in g && (node != root ==> mem[node].parent in mem)
    {
      assert Ok(mem, g, sentinel, root, node);
    }

    lemma EmptyTree()
      requires Linked() && root == sentinel
      ensures order == [] && g == map[]
    {}

    lemma OneNode(node: Ref)
      requires sentinel in mem && !mem[sentinel].red && node in mem && node != sentinel && root == node
      requires mem[node].left == sentinel && mem[node].right == sentinel && !mem[node].red
      requires g == map[node := Span(0, 0, 1)] && order == [node] && h == map[node := 1]
      ensures Valid()
    {
      assert Ok(mem, g, sentinel, root, node) && OrderedAt(g, order, node);
      assert Balanced(mem, h, sentinel, node) && Calm(mem, node, sentinel);
    }

    // the new node as a leaf, before the fix-up loop
    ghost method Hang(m0: Memory, base: Word, node: Ref, p: Ref, left: bool)
      requires Structure(m0, g, sentinel, root, |order|) && Ordered(g, order) && root in g
      requires Coloured(m0, g, sentinel, root, h, sentinel) && node !in g && p in g
      requires Hung(m0, mem, sentinel, node, p, left)
      modifies this`g, this`h, this`order
      ensures Fixing(node) && g.Keys == old(g.Keys) + {node}
      ensures var k := LeafPosition(old(g), p, left); k <= |old(order)| && order == Inserted(old(order), k, node)
    {
      var k := LeafPosition(g, p, left);
      assert OrderedAt(g, order, p);
      var g' := OpenedSpans(g, node, k, left);
      HungStructure(m0, mem, g, sentinel, root, order, node, p, left);
      OpenedOrdered(g, order, node, k, left);
      forall z | z in g ensures NotChild(m0, node, z) {
        assert Ok(m0, g, sentinel, root, z);
      }
      HungColoured(m0, mem, g, g', sentinel, root, h, node, p, left);
      g, h, order := g', h[node := 0], Inserted(order, k, node);
    }

    // --- deletion --------------------------------------------------------------------

    ghost predicate Shortened(t: Ref)
      reads this
    {
      Linked() && ShortAt(mem, g, sentinel, root, |order|, h, t)
    }

    // the colours of lines 284-286 and 313-315
    method PaintFar(p: Ref, w: Ref, far: Ref)
      requires Linked() && p in g && w in g && far in g && p != w && far != p && far != w
      modifies this`mem
      ensures Linked() && SameData(old(mem), mem)
      ensures var m := old(mem);
        mem == m[w := m[w].(red := m[p].red)][p := m[p].(red := false)][far := m[far].(red := false)]
    {
      ghost var m0 := mem;
      mem := mem[w := mem[w].(red := mem[p].red)];
      mem := mem[p := mem[p].(red := false)];
      mem := mem[far := mem[far].(red := false)];
      RecolourStructure(m0, mem, g, sentinel, root, |order|);
    }

    // lines 265-270 and 294-299
    method RedSiblingStep(left: bool, t: Ref, p: Ref, w: Ref, ghost near: Ref, ghost far: Ref)
      requires Shortened(t) && t != root && !Red(mem, t) && Nephews(left, mem, t, p, w, near, far) && Red(mem, w)
      modifies this`mem, this`root, this`g, this`h
      ensures Shortened(t) && t != root && !Red(mem, t) && t in mem && mem[t].parent == p && SameData(old(mem), mem)
      ensures near == Sibling(mem, p, t) && !Red(mem, near) && Red(mem, p) && g.Keys == old(g.Keys)
      ensures p in mem && if left then mem[p].left == t else mem[p].left != t
    {
      ghost var m0, g0, root0 := mem, g, root;
      ShortFamily(left, mem, g, sentinel, root, |order|, h, t, p, w, near, far);
      ghost var m1 := PaintLift(w, p, left, p, w, near);
      h := RedSiblingTurned(left, m0, m1, mem, g0, sentinel, root0, root, |order|, h, t, p, w, near, far);
    }

    // lines 277-282 and 306-311
    method NearNephewStep(left: bool, t: Ref, p: Ref, w: Ref, near: Ref, ghost far: Ref) returns (ghost inner: Ref)
      requires Shortened(t) && t != root && !Red(mem, t) && Nephews(left, mem, t, p, w, near, far)
      requires !Red(mem, w) && Red(mem, near) && !Red(mem, far)
      modifies this`mem, this`root, this`g, this`h
      ensures Shortened(t) && t != root && !Red(mem, t) && SameData(old(mem), mem) && g.Keys == old(g.Keys)
      ensures Nephews(left, mem, t, p, near, inner, w) && !Red(mem, near) && Red(mem, w)
    {
      ghost var m0, g0, root0 := mem, g, root;
      ShortFamily(left, mem, g, sentinel, root, |order|, h, t, p, w, near, far);
      inner := if left then m0[near].left else m0[near].right;
      ghost var outer := if left then m0[near].right else m0[near].left;
      ghost var m1 := PaintLift(near, w, !left, w, near, outer);
      h := NearNephewTurned(left, m0, m1, mem, g0, sentinel, root0, root, |order|, h, t, p, w, near, far, inner, outer);
    }

    // lines 284-288 and 313-317
    method FarNephewStep(left: bool, t: Ref, p: Ref, w: Ref, ghost near: Ref, far: Ref)
      requires Shortened(t) && t != root && !Red(mem, t) && Nephews(left, mem, t, p, w, near, far) && !Red(mem, w)
      requires Red(mem, far)
      modifies this`mem, this`root, this`g, this`h
      ensures Shortened(root) && root in g && SameData(old(mem), mem) && g.Keys == old(g.Keys)
    {
      ghost var m0, g0, root0 := mem, g, root;
      ShortFamily(left, mem, g, sentinel, root, |order|, h, t, p, w, near, far);
      PaintFar(p, w, far);
      ghost var m1 := mem;
      Lift(left, p, w, near);
      h := FarNephewTurned(left, m0, m1, mem, g0, sentinel, root0, root, |order|, h, t, p, w, near, far);
      RootBlack();
    }

    lemma RootBlack()
      requires Linked() && Short(mem, g, sentinel, root, h, root, sentinel, sentinel) && root in g
      ensures Shortened(root)
    {}

    ghost function Descent(t: Ref): nat
      requires Linked()
      reads this
    {
      assert Spanned(g, root, |order|);
      if t == root || Red(mem, t) then 0 else 1 + |order| - Size(g, t)
    }

    // lines 272-274 and 301-303
    method BlackSiblingStep(left: bool, t: Ref, p: Ref, w: Ref, ghost near: Ref, ghost far: Ref)
      requires Shortened(t) && t != root && !Red(mem, t) && Nephews(left, mem, t, p, w, near, far)
      requires !Red(mem, w) && !Red(mem, near) && !Red(mem, far)
      modifies this`mem, this`h
      ensures Shortened(p) && Size(g, p) > Size(g, t) && SameData(old(mem), mem) && (Red(old(mem), p) ==> Red(mem, p))
    {
      ghost var m0 := mem;
      mem := mem[w := mem[w].(red := true)];
      h := ShortRises(left, m0, mem, g, sentinel, root, |order|, h, t, p, w, near, far);
    }

    // lines 267-287 and 296-316
    method RedNephewSteps(left: bool, t: Ref, p: Ref, w: Ref, near: Ref, far: Ref)
      requires Shortened(t) && t != root && !Red(mem, t) && Nephews(left, mem, t, p, w, near, far)
      requires !Red(mem, w) && (Red(mem, near) || Red(mem, far))
      modifies this`mem, this`root, this`g, this`h
      ensures Shortened(root) && root in g && SameData(old(mem), mem) && g.Keys == old(g.Keys)
    {
      if !mem[far].red {
        ghost var inner := NearNephewStep(left, t, p, w, near, far);
        FarNephewStep(left, t, p, near, inner, w);
      } else {
        FarNephewStep(left, t, p, w, near, far);
      }
    }

    // one side of one turn of the loop of ngx_rbtree_delete: w is the sibling of t
    method DeleteStep(left: bool, t: Ref) returns (temp: Ref)
      requires Shortened(t) && t != root && !Red(mem, t) && mem[t].parent in mem
      requires left == (mem[mem[t].parent].left == t)
      modifies this`mem, this`root, this`g, this`h
      ensures Shortened(temp) && Descent(temp) < old(Descent(t)) && SameData(old(mem), mem) && g.Keys == old(g.Keys)
    {
      temp := t;
      var p := mem[temp].parent;
      var w := if left then mem[p].right else mem[p].left;
      WKnown(left, temp, p, w);
      if mem[w].red {
        RedSiblingStep(left, temp, p, w, if left then mem[w].left else mem[w].right,
                       if left then mem[w].right else mem[w].left);
        w := if left then mem[p].right else mem[p].left;
        WKnown(left, temp, p, w);
      }
      var near := if left then mem[w].left else mem[w].right;
      var far := if left then mem[w].right else mem[w].left;
      if !mem[near].red && !mem[far].red {
        BlackSiblingStep(left, temp, p, w, near, far);
        temp := p;
      } else {
        RedNephewSteps(left, temp, p, w, near, far);
        temp := root;
      }
    }

    lemma WKnown(left: bool, t: Ref, p: Ref, w: Ref)
      requires Shortened(t) && t != root && p == mem[t].parent && p in mem && left == (mem[p].left == t)
      requires w == if left then mem[p].right else mem[p].left
      ensures w in mem
      ensures Nephews(left, mem, t, p, w, if left then mem[w].left else mem[w].right,
                      if left then mem[w].right else mem[w].left)
    {
      assert Ok(mem, g, sentinel, root, p);
      assert Ok(mem, g, sentinel, root, w);
    }

    // ngx_rbtree_min
    method Min(start: Ref) returns (node: Ref)
      requires Linked() && start in g
      ensures node in g && node in mem && mem[node].left == sentinel && g[node].pos == g[start].lo
    {
      node := start;
      assert Ok(mem, g, sentinel, root, node);
      while mem[node].left != sentinel
        invariant node in g && Ok(mem, g, sentinel, root, node) && g[node].lo == g[start].lo
        decreases Size(g, node)
      {
        assert Ok(mem, g, sentinel, root, mem[node].left);
        node := mem[node].left;
      }
    }

    // lines 188-199: the root had at most the one child temp
    method UnlinkRoot(node: Ref, temp: Ref)
      requires Valid() && node in g && node == root && OneChild(node, temp)
      modifies this`mem, this`root, this`g, this`h, this`order
      ensures Linked() && Coloured(mem, g, sentinel, root, h, sentinel) && SameData(old(mem), mem)
      ensures Gone(old(g), old(order), node)
    {
      ghost var m0, root0, p := mem, root, mem[node].parent;
      assert Ok(mem, g, sentinel, root, node);
      root := temp;
      UnlinkedTree(m0, mem, g, sentinel, root0, root, order, h, node, temp, p);
      g, order := ClosedSpans(g, node), Without(order, g[node].pos);
      BlackenLast(temp, p, Sibling(m0, p, node));
    }

    // ngx_rbt_black(temp) once no path is short any more
    method BlackenLast(temp: Ref, ghost p: Ref, ghost w: Ref)
      requires Linked() && Short(mem, g, sentinel, root, h, temp, p, w) && temp in mem
      requires temp == root || Red(mem, temp)
      requires temp != root ==> temp in g && mem[temp].parent == p
      modifies this`mem, this`h
      ensures Linked() && Coloured(mem, g, sentinel, root, h, sentinel) && SameData(old(mem), mem)
    {
      ghost var m0 := mem;
      mem := mem[temp := mem[temp].(red := false)];
      if temp in g {
        ParentIsOnly(m0, g, sentinel, root, |order|, temp, p);
      }
      h := Blackened(m0, mem, g, sentinel, root, h, temp, p, w);
      RecolourStructure(m0, mem, g, sentinel, root, |order|);
    }

    ghost predicate OneChild(node: Ref, temp: Ref)
      reads this
    {
      && node in mem
      && ((mem[node].left == sentinel && mem[node].right == temp) ||
          (mem[node].right == sentinel && mem[node].left == temp))
    }

    // x has left the tree, the others keep their order
    ghost predicate Gone(g0: Spans, order0: seq<Ref>, x: Ref)
      reads this
    {
      x in g0 && g.Keys == g0.Keys - {x} && g0[x].pos < |order0| && order == Without(order0, g0[x].pos)
    }

    // the assignments of lines 203-212
    method UnlinkLinks(node: Ref, temp: Ref, ghost p: Ref)
      requires OneChild(node, temp) && node != root && node != sentinel && node != temp && sentinel in mem
      requires !mem[sentinel].red && temp in mem
      requires p == mem[node].parent && p in mem && p != node && p != temp && p != sentinel
      modifies this`mem, this`root
      ensures Unlinked(old(mem), mem, sentinel, root, root, node, temp, p) && root == old(root)
      ensures mem[temp].parent == p && SameData(old(mem), mem)
    {
      ReplaceChild(node, temp);
      mem := mem[temp := mem[temp].(parent := mem[node].parent)];
    }

    // lines 201-212: node had at most the one child temp
    method UnlinkNode(node: Ref, temp: Ref) returns (red: bool)
      requires Valid() && node in g && node != root && OneChild(node, temp)
      modifies this`mem, this`g, this`order, this`root
      ensures Linked() && SameData(old(mem), mem) && Gone(old(g), old(order), node)
      ensures if red then Coloured(mem, g, sentinel, root, h, sentinel) else Shortened(temp)
    {
      ghost var m0, p := mem, mem[node].parent;
      UnlinkFacts(node, temp);
      red := mem[node].red;
      UnlinkLinks(node, temp, p);
      UnlinkedTree(m0, mem, g, sentinel, root, root, order, h, node, temp, p);
      g, order := ClosedSpans(g, node), Without(order, g[node].pos);
    }

    lemma UnlinkFacts(node: Ref, temp: Ref)
      requires Linked() && node in g && node in mem && node != root && OneChild(node, temp)
      ensures var p := mem[node].parent;
          p in mem && p in g && p != node && p != temp && p != sentinel && sentinel in mem
      ensures node != sentinel && node != temp && temp in mem && !mem[sentinel].red && (temp != sentinel ==> temp in g)
    {
      assert Ok(mem, g, sentinel, root, node);
      assert Ok(mem, g, sentinel, root, mem[node].parent);
      assert temp != sentinel ==> Ok(mem, g, sentinel, root, temp);
    }

    // subst, the next node after `node`, and the place it is taken from
    ghost predicate Successor(node: Ref, subst: Ref, temp: Ref, p: Ref)
      reads this
    {
      && node in g && subst in g && node in mem && subst in mem && OneChild(subst, temp) && subst != root
      && p == mem[subst].parent
      && g[subst].pos == g[node].pos + 1 && mem[node].left != sentinel && mem[node].right != sentinel
    }

    lemma SuccessorFacts(node: Ref, subst: Ref, temp: Ref, p: Ref)
      requires Linked() && Successor(node, subst, temp, p)
      ensures node != subst && temp != node && p in g && p in mem && p != subst && p != temp && p != sentinel
      ensures temp in mem && temp != subst
      ensures var l := mem[node].left; var r := mem[node].right;
        l in g && r in g && l in mem && r in mem && l != r && l != subst && l != node && r != node && l != p &&
            l != temp
      ensures p == node ==> mem[p].right == subst && mem[p].left != subst
      ensures p != node ==> mem[node].right != subst
      ensures Sibling(mem, p, subst) != node && temp != mem[node].left && (p != node ==> temp != mem[node].right)
      ensures node != root ==> var pp := mem[node].parent;
        pp in g && pp in mem && pp != node && pp != subst && pp != sentinel
              && pp != temp && pp != mem[node].left && pp != mem[node].right && pp != p
    {
      assert Ok(mem, g, sentinel, root, node) && Ok(mem, g, sentinel, root, subst);
      assert Ok(mem, g, sentinel, root, p);
      assert temp != sentinel ==> Ok(mem, g, sentinel, root, temp);
      var l, r := mem[node].left, mem[node].right;
      assert Ok(mem, g, sentinel, root, l) && Ok(mem, g, sentinel, root, r);
      if node != root { assert Ok(mem, g, sentinel, root, mem[node].parent); }
    }

    // lines 203-208 alone: subst unlinked, node still in place
    ghost function WithoutSuccessor(m: Memory, p: Ref, subst: Ref, temp: Ref): Memory
      requires p in m && temp in m
    {
      var m1 := m[p := if m[p].left == subst then m[p].(left := temp) else m[p].(right := temp)];
      m1[temp := m1[temp].(parent := p)]
    }

    lemma SuccessorUnlinked(node: Ref, subst: Ref, temp: Ref, p: Ref)
      requires Linked() && Successor(node, subst, temp, p)
      ensures p in mem && temp in mem
      ensures Unlinked(mem, WithoutSuccessor(mem, p, subst, temp), sentinel, root, root, subst, temp, p)
    {
      SuccessorFacts(node, subst, temp, p);
    }

    // lines 203-221
    method CutSuccessor(node: Ref, subst: Ref, temp: Ref, ghost p: Ref)
      requires subst in mem && p in mem && temp in mem && node in mem && p == mem[subst].parent && p != subst
      requires temp != subst && p != temp
      modifies this`mem
      ensures var m1 := WithoutSuccessor(old(mem), p, subst, temp);
        mem == if p == node then m1[temp := m1[temp].(parent := subst)] else m1
      ensures SameData(old(mem), mem)
    {
      if subst == mem[mem[subst].parent].left {
        mem := mem[mem[subst].parent := mem[mem[subst].parent].(left := temp)];
      } else {
        mem := mem[mem[subst].parent := mem[mem[subst].parent].(right := temp)];
      }
      if mem[subst].parent == node {
        mem := mem[temp := mem[temp].(parent := subst)];
      } else {
        mem := mem[temp := mem[temp].(parent := mem[subst].parent)];
      }
    }

    // lines 223-245: subst gets the links and the colour of node
    ghost predicate TookOver(m: Memory, m': Memory, s: Ref, root0: Ref, node: Ref, subst: Ref) {
      && m'.Keys == m.Keys && node in m && subst in m && m[node].left in m && m[node].right in m
      && (node != root0 ==> m[node].parent in m)
      && var l, r, p := m[node].left, m[node].right, m[node].parent;
      && m'[subst] == m[subst].(left := l, right := r, parent := p, red := m[node].red)
      && (l != s ==> m'[l] == m[l].(parent := subst))
      && (r != s ==> m'[r] == m[r].(parent := subst))
      && (node != root0 ==> m'[p] == if m[p].left == node then m[p].(left := subst) else m[p].(right := subst))
      && (forall y :: y in m && y != subst && !(y == l && l != s) && !(y == r && r != s) && (node != root0 ==>
          y != p) ==> m'[y] == m[y])
    }

    method CopyLinks(node: Ref, subst: Ref)
      requires node in mem && subst in mem && node != subst
      modifies this`mem
      ensures var n := old(mem)[node];
        mem == old(mem)[subst := old(mem)[subst].(left := n.left, right := n.right, parent := n.parent, red := n.red)]
    {
      mem := mem[subst := mem[subst].(left := mem[node].left)];
      mem := mem[subst := mem[subst].(right := mem[node].right)];
      mem := mem[subst := mem[subst].(parent := mem[node].parent)];
      mem := mem[subst := mem[subst].(red := mem[node].red)];
    }

    lemma TookOverData(m: Memory, m': Memory, root0: Ref, node: Ref, subst: Ref)
      requires TookOver(m, m', sentinel, root0, node, subst)
      ensures SameData(m, m')
    {}

    method TakeOver(node: Ref, subst: Ref)
      requires node in mem && subst in mem && mem[node].left in mem && mem[node].right in mem && node != subst
      requires node != root ==> mem[node].parent in mem && mem[node].parent != node && mem[node].parent != subst
      requires mem[node].left != node && mem[node].right != node && mem[node].left != subst && mem[node].right != subst
      requires node != root ==> mem[node].parent != mem[node].left && mem[node].parent != mem[node].right
      modifies this`mem, this`root
      ensures root == (if node == old(root) then subst else old(root))
      ensures TookOver(old(mem), mem, sentinel, old(root), node, subst)
    {
      CopyLinks(node, subst);
      ReplaceChild(node, subst);
      if mem[subst].left != sentinel {
        mem := mem[mem[subst].left := mem[mem[subst].left].(parent := subst)];
      }
      if mem[subst].right != sentinel {
        mem := mem[mem[subst].right := mem[mem[subst].right].(parent := subst)];
      }
    }

    lemma SpliceReplaces(m1: Memory, ma: Memory, m2: Memory, s: Ref, root0: Ref, root2: Ref, node: Ref, subst: Ref,
                         temp: Ref, p: Ref)
      requires node in m1 && subst in m1 && temp in m1 && s in m1 && !m1[s].red && s != node && s != subst
      requires node != subst
      requires ma == (if p == node then m1[temp := m1[temp].(parent := subst)] else m1)
      requires p == node ==> m1[node].right == temp
      requires temp != node && temp != subst && TookOver(ma, m2, s, root0, node, subst)
      requires p != node ==> temp != m1[node].left && temp != m1[node].right
      requires root2 == if node == root0 then subst else root0
      requires var l, r, pp := m1[node].left, m1[node].right, m1[node].parent;
        && l in m1 && r in m1 && l != node && r != node && l != subst && r != subst && (l == r ==> l == s)
        && (node != root0 ==> pp in m1 && pp != subst && pp != s && pp != node && pp != l && pp != r)
      ensures Replaced(m1, m2, s, root0, root2, node, subst, m1[node].left, m1[node].right, m1[node].parent)
      ensures m2.Keys == m1.Keys && (m1[temp].parent == p ==> m2[temp].parent == if p == node then subst else p)
    {
    }

    // the assignments of lines 203-246 for subst != node
    method SpliceLinks(node: Ref, subst: Ref, temp: Ref, ghost p: Ref)
      requires Linked() && Successor(node, subst, temp, p) && p in mem && temp in mem
      modifies this`mem, this`root
      ensures var m1 := WithoutSuccessor(old(mem), p, subst, temp);
        node in m1 && Replaced(m1, mem, sentinel, old(root), root, node, subst, m1[node].left, m1[node].right,
            m1[node].parent)
      ensures temp in mem && mem[temp].parent == (if p == node then subst else p) && SameData(old(mem), mem)
    {
      SuccessorFacts(node, subst, temp, p);
      ghost var m1 := WithoutSuccessor(mem, p, subst, temp);
      CutSuccessor(node, subst, temp, p);
      ghost var ma, root0 := mem, root;
      TakeOver(node, subst);
      TookOverData(ma, mem, root0, node, subst);
      SpliceReplaces(m1, ma, mem, sentinel, root0, root, node, subst, temp, p);
    }

    // lines 201-246 for a node with two children: its successor takes its place
    method Splice(node: Ref, subst: Ref, temp: Ref) returns (red: bool)
      requires Valid() && subst in mem && Successor(node, subst, temp, mem[subst].parent)
      modifies this`mem, this`root, this`g, this`h, this`order
      ensures Linked() && SameData(old(mem), mem) && Gone(old(g), old(order), node)
      ensures if red then Coloured(mem, g, sentinel, root, h, sentinel) else Shortened(temp)
    {
      ghost var root0, p := root, mem[subst].parent;
      SpliceReadied(node, subst, temp, p);
      red := mem[subst].red;
      ghost var m1, g1 := WithoutSuccessor(mem, p, subst, temp), ClosedSpans(g, subst);
      SpliceLinks(node, subst, temp, p);
      SplicedWhole(m1, mem, g, sentinel, root0, root, order, h, node, subst, temp, p, red);
      g, h, order := ReplacedSpans(g1, node, subst), h[subst := h[node]], Without(order, g[node].pos);
    }

    lemma SpliceReadied(node: Ref, subst: Ref, temp: Ref, p: Ref)
      requires Valid() && Successor(node, subst, temp, p)
      ensures p in mem && temp in mem && subst in mem && g[subst].pos < |order|
      ensures SpliceReady(WithoutSuccessor(mem, p, subst, temp), ClosedSpans(g, subst), sentinel, root,
                          Without(order, g[subst].pos), h, node, subst, temp, p, mem[subst].red)
    {
      SuccessorFacts(node, subst, temp, p);
      SuccessorUnlinked(node, subst, temp, p);
      assert Ok(mem, g, sentinel, root, subst);
      UnlinkedTree(mem, WithoutSuccessor(mem, p, subst, temp), g, sentinel, root, root, order, h, subst, temp, p);
    }

    // lines 260-322
    method DeleteFixup(t: Ref)
      requires Shortened(t)
      modifies this`mem, this`root, this`g, this`h
      ensures Linked() && Coloured(mem, g, sentinel, root, h, sentinel) && SameData(old(mem), mem)
      ensures g.Keys == old(g.Keys)
    {
      var temp := t;
      while temp != root && !mem[temp].red
        invariant Shortened(temp) && SameData(old(mem), mem) && g.Keys == old(g.Keys)
        decreases Descent(temp)
      {
        temp := DeleteStep(temp == mem[mem[temp].parent].left, temp);
      }
      BlackenLast(temp, mem[temp].parent, Sibling(mem, mem[temp].parent, temp));
    }

    // ngx_rbtree_delete: exactly the given node leaves, the others keep their
    // order, and the tree stays a red-black search tree.
    method Delete(node: Ref)
      requires Valid() && node in g
      modifies this`mem, this`root, this`g, this`h, this`order
      ensures Valid() && Gone(old(g), old(order), node) && old(order)[old(g)[node].pos] == node
      ensures mem.Keys == old(mem.Keys) && node in mem && mem[node].key == 0
      ensures forall x :: x in mem && x != node ==> mem[x].key == old(mem)[x].key && mem[x].name == old(mem)[x].name
    {
      ghost var m0, order0, g0 := mem, order, g;
      assert Ok(mem, g, sentinel, root, node) && OrderedAt(g, order, node);
      assert node != root ==> Ok(mem, g, sentinel, root, mem[node].parent);
      var temp, subst;
      if mem[node].left == sentinel {
        temp := mem[node].right;
        subst := node;
      } else if mem[node].right == sentinel {
        temp := mem[node].left;
        subst := node;
      } else {
        subst := Min(mem[node].right);
        assert Ok(mem, g, sentinel, root, subst) && Spanned(g, root, |order|);
        if mem[subst].left != sentinel {
          assert false;  // line 182 is never reached
        }
        temp := mem[subst].right;
      }
      var red;
      if subst == root {
        UnlinkRoot(node, temp);
        red := true;
      } else if subst == node {
        red := UnlinkNode(node, temp);
      } else {
        red := Splice(node, subst, temp);
      }
      Clear(node, red, temp);
      if !red {
        DeleteFixup(temp);
      }
      StillSorted(m0, order0, node, g0[node].pos);
    }

    // the "DEBUG stuff" of lines 192-196 and 248-252
    method Clear(node: Ref, ghost red: bool, ghost temp: Ref)
      requires Linked() && node in mem && node !in g && node != sentinel
      requires if red then Coloured(mem, g, sentinel, root, h, sentinel) else Shortened(temp)
      modifies this`mem
      ensures Linked() && OnlyAt(old(mem), mem, node) && mem[node].key == 0 && mem[node].name == old(mem)[node].name
      ensures if red then Coloured(mem, g, sentinel, root, h, sentinel) else Shortened(temp)
    {
      ghost var m0 := mem;
      mem := mem[node := mem[node].(left := 0, right := 0, parent := 0, key := 0)];
      OutsideStructure(m0, mem, g, sentinel, root, |order|, node);
      if red {
        OutsideColoured(m0, mem, g, sentinel, root, |order|, h, node);
      } else {
        OutsideShort(m0, mem, g, sentinel, root, |order|, h, temp, node);
      }
    }

    lemma StillSorted(m0: Memory, order0: seq<Ref>, node: Ref, k: nat)
      requires Sorted(kind, m0, order0) && k < |order0| && order0[k] == node && order == Without(order0, k)
      requires node !in g && Ordered(g, order)
      requires mem.Keys == m0.Keys
      requires forall x :: x in mem && x != node ==> mem[x].key == m0[x].key && mem[x].name == m0[x].name
      ensures Sorted(kind, mem, order)
    {
      forall i, j | 0 <= i < j < |order| ensures !Before(kind, mem[order[j]], mem[order[i]]) {
        var i0, j0 := if i < k then i else i + 1, if j < k then j else j + 1;
        assert order[i] == order0[i0] && order[j] == order0[j0];
        assert !Before(kind, m0[order0[j0]], m0[order0[i0]]);
      }
    }
  }

  // subst is out of the tree, and about to replace node
  ghost predicate SpliceReady(m1: Memory, g1: Spans, s: Ref, root: Ref, order1: seq<Ref>, h: Heights,
                              node: Ref, subst: Ref, temp: Ref, p: Ref, red: bool) {
    && Structure(m1, g1, s, root, |order1|) && Ordered(g1, order1) && node in g1 && subst !in g1 && node in m1
    && temp != node && temp != subst && (temp != s ==> temp in g1)
    && (if red then Coloured(m1, g1, s, root, h, s)
        else && Short(m1, g1, s, root, h, temp, p, Sibling(m1, p, temp)) && temp != root && p in m1
             && Sibling(m1, p, temp) != node)
  }

  lemma SplicedOrder(g: Spans, order: seq<Ref>, node: Ref, subst: Ref)
    requires Ordered(g, order) && node in g && subst in g && g[subst].pos == g[node].pos + 1
    ensures g[node].pos < |order| && g[subst].pos < |order|
    ensures Without(order, g[subst].pos)[g[node].pos := subst] == Without(order, g[node].pos)
    ensures node in ClosedSpans(g, subst) && ClosedSpans(g, subst)[node].pos == g[node].pos
  {
    assert OrderedAt(g, order, node) && OrderedAt(g, order, subst);
  }

  // the splice as a whole, by the order before it
  lemma SplicedWhole(m1: Memory, m2: Memory, g: Spans, s: Ref, root: Ref, root': Ref, order: seq<Ref>, h: Heights,
                     node: Ref, subst: Ref, temp: Ref, p: Ref, red: bool)
    requires Ordered(g, order) && node in g && subst in g && g[subst].pos == g[node].pos + 1 && g[subst].pos < |order|
    requires SpliceReady(m1, ClosedSpans(g, subst), s, root, Without(order, g[subst].pos), h, node, subst, temp, p, red)
    requires Replaced(m1, m2, s, root, root', node, subst, m1[node].left, m1[node].right, m1[node].parent)
    requires temp in m2 && m2[temp].parent == Sub(p, node, subst)
    ensures node in h && g[node].pos < |order| && node in ClosedSpans(g, subst)
    ensures var g2, o2 := ReplacedSpans(ClosedSpans(g, subst), node, subst), Without(order, g[node].pos);
            && g2.Keys == g.Keys - {node} && Structure(m2, g2, s, root', |o2|) && Ordered(g2, o2)
            && if red then Coloured(m2, g2, s, root', h[subst := h[node]], s)
               else ShortAt(m2, g2, s, root', |o2|, h[subst := h[node]], temp)
  {
    SplicedOrder(g, order, node, subst);
    SplicedTree(m1, m2, ClosedSpans(g, subst), s, root, root', Without(order, g[subst].pos), h, node, subst, temp, p,
        red);
  }

  // the rest of the splice, once subst is out
  lemma SplicedTree(m1: Memory, m2: Memory, g1: Spans, s: Ref, root: Ref, root': Ref, order1: seq<Ref>, h: Heights,
                    node: Ref, subst: Ref, temp: Ref, p: Ref, red: bool)
    requires SpliceReady(m1, g1, s, root, order1, h, node, subst, temp, p, red)
    requires Replaced(m1, m2, s, root, root', node, subst, m1[node].left, m1[node].right, m1[node].parent)
    requires temp in m2 && m2[temp].parent == Sub(p, node, subst)
    ensures node in h && g1[node].pos < |order1| && order1[g1[node].pos] == node
    ensures Structure(m2, ReplacedSpans(g1, node, subst), s, root', |order1|)
    ensures Ordered(ReplacedSpans(g1, node, subst), order1[g1[node].pos := subst])
    ensures if red then Coloured(m2, ReplacedSpans(g1, node, subst), s, root', h[subst := h[node]], s)
            else ShortAt(m2, ReplacedSpans(g1, node, subst), s, root', |order1|, h[subst := h[node]], temp)
  {
    var g2 := ReplacedSpans(g1, node, subst);
    var l, r, pp := m1[node].left, m1[node].right, m1[node].parent;
    assert OrderedAt(g1, order1, node);
    assert (red || node != p) ==> Balanced(m1, h, s, node);
    ReplacedStructure(m1, m2, g1, s, root, root', |order1|, node, subst, l, r, pp);
    ReplacedOrdered(g1, order1, node, subst);
    ReplacedRenames(m1, m2, g1, s, root, root', |order1|, node, subst, l, r, pp);
    if red {
      RenamedColours(m1, m2, g1, g2, s, root, root', |order1|, h, node, subst);
    } else {
      forall c | c in g1 ensures c in h { assert c == p || Balanced(m1, h, s, c); }
      RenamedShort(m1, m2, g1, g2, s, root, root', |order1|, h, node, subst, temp, p, Sibling(m1, p, temp));
      assert RenamedAt(m1, m2, node, subst, p);
    }
  }
}
