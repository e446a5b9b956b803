// What the local conditions of RbtreeShape and RbtreeColour say about whole trees.
module RbtreeFacts {
  import opened Bits
  import opened Strings
  import opened RbtreeShape
  import opened RbtreeColour
  import opened Rbtree

  // the nodes met by an in-order walk along the links, from x down
  ghost function Walk(m: Memory, g: Spans, s: Ref, root: Ref, n: nat, x: Ref): seq<Ref>
    requires Structure(m, g, s, root, n) && (x == s || x in g)
    decreases Size(g, x)
  {
    if x == s then []
    else
      assert Ok(m, g, s, root, x);
      assert m[x].left != s ==> Ok(m, g, s, root, m[x].left);
      assert m[x].right != s ==> Ok(m, g, s, root, m[x].right);
      Walk(m, g, s, root, n, m[x].left) + [x] + Walk(m, g, s, root, n, m[x].right)
  }

  // The walk along the links meets the nodes of a subtree in their order, each once.
  lemma {:induction false} WalkIsOrder(m: Memory, g: Spans, s: Ref, root: Ref, order: seq<Ref>, x: Ref)
    requires Structure(m, g, s, root, |order|) && Ordered(g, order) && x in g
    ensures g[x].lo <= g[x].hi <= |order| && Walk(m, g, s, root, |order|, x) == order[g[x].lo..g[x].hi]
    decreases Size(g, x)
  {
    assert Ok(m, g, s, root, x) && Spanned(g, root, |order|) && OrderedAt(g, order, x);
    var l, r, lo, k, hi := m[x].left, m[x].right, g[x].lo, g[x].pos, g[x].hi;
    if l != s { assert Ok(m, g, s, root, l); WalkIsOrder(m, g, s, root, order, l); }
    if r != s { assert Ok(m, g, s, root, r); WalkIsOrder(m, g, s, root, order, r); }
    assert order[lo..hi] == order[lo..k] + [order[k]] + order[k + 1..hi];
  }

  // path leads from x to the sentinel: false is left, true is right
  ghost predicate Path(m: Memory, s: Ref, x: Ref, path: seq<bool>)
    decreases path
  {
    if path == [] then x == s
    else x != s && x in m && Path(m, s, if path[0] then m[x].right else m[x].left, path[1..])
  }

  ghost function Blacks(m: Memory, x: Ref, path: seq<bool>): nat
    decreases path
  {
    if path == [] || x !in m then 0
    else (if m[x].red then 0 else 1) + Blacks(m, if path[0] then m[x].right else m[x].left, path[1..])
  }

  // All paths down from x meet the same number of black nodes, and at most that many red ones more.
  lemma {:induction false} EqualBlacks(m: Memory, g: Spans, s: Ref, root: Ref, n: nat, h: Heights, x: Ref,
                                       path: seq<bool>)
    requires Structure(m, g, s, root, n) && Coloured(m, g, s, root, h, s) && (x == s || x in g) && Path(m, s, x, path)
    ensures Blacks(m, x, path) == Bh(h, s, x)
    ensures |path| <= 2 * Bh(h, s, x) + if Red(m, x) then 1 else 0
    decreases path
  {
    if path != [] {
      assert Ok(m, g, s, root, x) && Balanced(m, h, s, x) && Calm(m, x, s);
      EqualBlacks(m, g, s, root, n, h, if path[0] then m[x].right else m[x].left, path[1..]);
    }
  }

  lemma {:induction false} ManyNodes(m: Memory, g: Spans, s: Ref, root: Ref, n: nat, h: Heights, x: Ref)
    requires Structure(m, g, s, root, n) && Coloured(m, g, s, root, h, s) && (x == s || x in g)
    ensures Shl1(Bh(h, s, x)) <= Size(g, x) + 1
    decreases Size(g, x)
  {
    if x != s {
      assert Ok(m, g, s, root, x) && Balanced(m, h, s, x);
      var l, r := m[x].left, m[x].right;
      if l != s { assert Ok(m, g, s, root, l); }
      if r != s { assert Ok(m, g, s, root, r); }
      ManyNodes(m, g, s, root, n, h, l);
      ManyNodes(m, g, s, root, n, h, r);
    }
  }

  // The height of a tree of n nodes is at most 2 * log2(n + 1).
  lemma HeightBound(m: Memory, g: Spans, s: Ref, root: Ref, n: nat, h: Heights, path: seq<bool>)
    requires Structure(m, g, s, root, n) && Coloured(m, g, s, root, h, s) && Path(m, s, root, path)
    ensures Shl1(|path|) <= (n + 1) * (n + 1)
  {
    var b := Bh(h, s, root);
    EqualBlacks(m, g, s, root, n, h, root, path);
    ManyNodes(m, g, s, root, n, h, root);
    Shl1Grows(|path|, b + b);
    Shl1Sum(b, b);
    assert Spanned(g, root, n) && (n > 0 ==> Ok(m, g, s, root, root));
    assert Shl1(b) <= n + 1;
    Squares(Shl1(b), n + 1);
  }

  lemma Squares(a: nat, b: nat)
    requires a <= b
    ensures a * a <= b * b
  {}

  // ngx_open_file_lookup (src/core/ngx_open_file_cache.c): an entry is found exactly if one
  // with this hash and name is in the tree, whatever other names have the same hash.
  method Lookup(t: RbTree, name: string, hash: Word) returns (file: Ref)
    requires t.Valid() && t.kind == ByFile && 0 !in t.g
    ensures file != 0 ==> file in t.g && file in t.mem && t.mem[file].key == hash && t.mem[file].name == name
    ensures file == 0 ==> forall x :: x in t.g ==> x in t.mem && (t.mem[x].key != hash || t.mem[x].name != name)
  {
    var node := t.root;
    ghost var lo, hi := 0, |t.order|;
    ghost var wanted := Node(hash, 0, 0, 0, false, name);
    assert Spanned(t.g, t.root, |t.order|);
    while node != t.sentinel
      invariant node != t.sentinel ==> node in t.g && lo == t.g[node].lo && hi == t.g[node].hi
      invariant 0 <= lo <= hi <= |t.order| && (node == t.sentinel ==> lo == hi)
      invariant forall i :: 0 <= i < lo ==> Before(ByFile, t.mem[t.order[i]], wanted)
      invariant forall i :: hi <= i < |t.order| ==> Before(ByFile, wanted, t.mem[t.order[i]])
      decreases Size(t.g, node)
    {
      assert Ok(t.mem, t.g, t.sentinel, t.root, node) && OrderedAt(t.g, t.order, node);
      ghost var k := t.g[node].pos;
      if hash == t.mem[node].key && name == t.mem[node].name {
        return node;
      }
      StringLessOrder(name, t.mem[node].name, name);
      if hash < t.mem[node].key || (hash == t.mem[node].key && StringLess(name, t.mem[node].name)) {
        Above(t, wanted, k);
        hi := k;
        node := t.mem[node].left;
      } else {
        StringLessOrder(t.mem[node].name, name, name);
        Below(t, wanted, k);
        lo := k + 1;
        node := t.mem[node].right;
      }
    }
    forall x | x in t.g ensures x in t.mem && (t.mem[x].key != hash || t.mem[x].name != name) {
      assert OrderedAt(t.g, t.order, x);
      StringLessOrder(name, t.mem[x].name, name);
    }
    file := 0;
  }

  lemma Above(t: RbTree, wanted: Node, k: nat)
    requires t.Valid() && t.kind == ByFile && k < |t.order| && Before(ByFile, wanted, t.mem[t.order[k]])
    ensures forall i :: k <= i < |t.order| ==> Before(ByFile, wanted, t.mem[t.order[i]])
  {
    forall i | k <= i < |t.order| ensures Before(ByFile, wanted, t.mem[t.order[i]]) {
      BeforeOrder(ByFile, 0, wanted, t.mem[t.order[k]], t.mem[t.order[i]]);
    }
  }

  lemma Below(t: RbTree, wanted: Node, k: nat)
    requires t.Valid() && t.kind == ByFile && k < |t.order| && Before(ByFile, t.mem[t.order[k]], wanted)
    ensures forall i :: 0 <= i <= k ==> Before(ByFile, t.mem[t.order[i]], wanted)
  {
    forall i | 0 <= i <= k ensures Before(ByFile, t.mem[t.order[i]], wanted) {
      if i < k { BeforeChain(t.mem[t.order[i]], t.mem[t.order[k]], wanted); }
    }
  }

  lemma BeforeChain(a: Node, b: Node, c: Node)
    requires !Before(ByFile, b, a) && Before(ByFile, b, c)
    ensures Before(ByFile, a, c)
  {
    BeforeOrder(ByFile, 0, b, c, a);
    StringLessOrder(b.name, c.name, a.name);
    StringLessOrder(c.name, a.name, b.name);
  }
}
