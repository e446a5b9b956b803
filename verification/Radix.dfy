// src/core/ngx_radix_tree.c: a binary tree of 32-bit prefixes with recycled nodes.
module Radix {
  import opened Bits
  import opened Sequences

  const NGX_RADIX_NO_VALUE: nat := 0xFFFF_FFFF_FFFF_FFFF
  const NODES_PER_PAGE: nat := 128       // 4096-byte pages, 32-byte nodes
  const TOP_BIT: nat := 0x8000_0000

  type Ref = nat
  type Path = seq<bool>
  datatype Node = Node(right: Ref, left: Ref, parent: Ref, value: nat)
  type Memory = map<Ref, Node>

  datatype Code = OK | BUSY | ERROR      // NGX_OK, NGX_BUSY, NGX_ERROR

  // --- keys and prefixes ------------------------------------------------------------------

  // key & bit, for a single bit or none
  predicate Test(key: nat, bit: nat) { bit != 0 && key / bit % 2 == 1 }

  // the bit that is tested at depth i
  function BitAt(i: nat): nat { if i < 32 then Shl1(31 - i) else 0 }

  // the bits of a key from the top
  function KeyBits(key: nat): (r: Path)
    ensures |r| == 32
  {
    seq(32, i requires 0 <= i < 32 => Test(key, BitAt(i)))
  }

  // how many bits of the mask, from the top, are set without a gap
  function Depth(mask: nat, i: nat): (r: nat)
    requires i <= 32
    ensures i <= r <= 32 && !Test(mask, BitAt(r)) && forall j :: i <= j < r ==> Test(mask, BitAt(j))
    decreases 32 - i
  {
    if Test(mask, BitAt(i)) then Depth(mask, i + 1) else i
  }

  // the prefix that a key and a mask stand for
  function Prefix(key: nat, mask: nat): Path { KeyBits(key)[..Depth(mask, 0)] }

  lemma NextBit(i: nat)
    requires i < 32
    ensures BitAt(i) / 2 == BitAt(i + 1) && BitAt(i) >= 1
  {}

  lemma FirstBit()
    ensures BitAt(0) == TOP_BIT
  {
    assert Shl1(7) == 128 && Shl1(15) == 256 * Shl1(7) && Shl1(23) == 256 * Shl1(15) && Shl1(31) == 256 * Shl1(23);
  }

  // --- the value of the longest stored prefix -----------------------------------------------

  function Longest(t: map<Path, nat>, bits: Path, n: nat): nat
    requires n <= |bits|
  {
    if bits[..n] in t then t[bits[..n]] else if n == 0 then NGX_RADIX_NO_VALUE else Longest(t, bits, n - 1)
  }

  // It is the value of a stored prefix that no longer stored prefix beats, or NGX_RADIX_NO_VALUE if none is stored.
  lemma {:induction false} LongestIs(t: map<Path, nat>, bits: Path, n: nat)
    requires n <= |bits|
    ensures (exists k :: 0 <= k <= n && bits[..k] in t && Longest(t, bits, n) == t[bits[..k]]
                         && forall j :: k < j <= n ==> bits[..j] !in t)
            || (Longest(t, bits, n) == NGX_RADIX_NO_VALUE && forall j :: 0 <= j <= n ==> bits[..j] !in t)
  {
    if bits[..n] !in t && n > 0 {
      LongestIs(t, bits, n - 1);
      if k :| 0 <= k <= n - 1 && bits[..k] in t && Longest(t, bits, n - 1) == t[bits[..k]]
              && forall j :: k < j <= n - 1 ==> bits[..j] !in t {
        assert bits[..k] in t;
      }
    } else if bits[..n] in t {
      assert bits[..n] in t;
    }
  }

  // --- the tree -----------------------------------------------------------------------------

  ghost function Child(at: map<Path, Ref>, p: Path, b: bool): Ref { if p + [b] in at then at[p + [b]] else 0 }

  function Up(p: Path): Path { if p == [] then [] else p[..|p| - 1] }

  ghost predicate NodeOk(m: Memory, at: map<Path, Ref>, path: map<Ref, Path>, p: Path) {
    && p in at && at[p] != 0 && at[p] in m && at[p] in path && path[at[p]] == p && |p| <= 32 && Up(p) in at
    && m[at[p]].left == Child(at, p, false) && m[at[p]].right == Child(at, p, true)
    && m[at[p]].parent == if p == [] then 0 else at[Up(p)]
  }

  // the nodes of the tree, by their paths
  ghost predicate Tree(m: Memory, root: Ref, at: map<Path, Ref>, path: map<Ref, Path>) {
    && [] in at && at[[]] == root
    && (forall p {:trigger NodeOk(m, at, path, p)} :: p in at ==> NodeOk(m, at, path, p))
    && Paths(at, path)
  }

  ghost predicate Paths(at: map<Path, Ref>, path: map<Ref, Path>) {
    forall r {:trigger path[r]} :: r in path ==> path[r] in at && at[path[r]] == r
  }

  // tree->free, linked through right
  ghost predicate FreeList(m: Memory, free: Ref, fl: seq<Ref>) {
    && NoDup(fl) && free == (if fl == [] then 0 else fl[0])
    && forall i {:trigger fl[i]} :: 0 <= i < |fl| ==>
        fl[i] != 0 && fl[i] in m && m[fl[i]].right == if i + 1 < |fl| then fl[i + 1] else 0
  }

  // every node that was ever allocated is in the tree or in the free list, and not in both
  ghost predicate NoLoss(start: Ref, path: map<Ref, Path>, fl: seq<Ref>) {
    forall r: Ref {:trigger r in path} {:trigger r in fl} :: (0 < r < start <==>
        r in path || r in fl) && !(r in path && r in fl)
  }

  ghost function Table(m: Memory, at: map<Path, Ref>): map<Path, nat> {
    map p | p in at && at[p] in m && m[at[p]].value != NGX_RADIX_NO_VALUE :: m[at[p]].value
  }

  ghost predicate Grew(at: map<Path, Ref>, at': map<Path, Ref>) { forall p {:trigger p in at'} :: p in at ==> p in at' }

  // the nodes of at', which are those of at and some of up to d bits
  ghost predicate GrewTo(at: map<Path, Ref>, at': map<Path, Ref>, d: nat) {
    Grew(at, at') && forall p {:trigger p in at'} :: p in at' ==> p in at || |p| <= d
  }

  ghost predicate StartsWith(bits: Path, p: Path) { |p| <= |bits| && forall i :: 0 <= i < |p| ==> p[i] == bits[i] }

  lemma OneMore(bits: Path, i: nat, p: Path)
    requires i < |bits|
    ensures StartsWith(bits[..i + 1], p) <==> StartsWith(bits[..i], p) || p == bits[..i + 1]
  {
    if StartsWith(bits[..i + 1], p) && |p| == i + 1 { assert p == bits[..i + 1]; }
  }

  // the nodes of the first i bits were added, from depth i0 on
  ghost predicate BuiltTo(at0: map<Path, Ref>, at: map<Path, Ref>, bits: Path, i0: nat, i: nat)
    requires i <= |bits|
  {
    forall p {:trigger p in at} :: p in at <==> p in at0 || (i0 <= |p| && StartsWith(bits[..i], p))
  }

  // nor is there a node further down
  ghost predicate NoneBelow(at: map<Path, Ref>, bits: Path, i: nat, d: nat)
    requires d <= |bits|
  {
    forall j {:trigger bits[..j]} :: i < j <= d ==> bits[..j] !in at
  }

  lemma NoneNext(at: map<Path, Ref>, at': map<Path, Ref>, bits: Path, i: nat, d: nat, r: Ref)
    requires i < d <= |bits| && NoneBelow(at, bits, i, d) && at' == at[bits[..i + 1] := r]
    ensures NoneBelow(at', bits, i + 1, d)
  {
    forall j | i + 1 < j <= d ensures bits[..j] !in at' { assert |bits[..j]| == j; }
  }

  lemma BuiltNone(at: map<Path, Ref>, bits: Path, i: nat)
    requires i <= |bits| && bits[..i] in at
    ensures BuiltTo(at, at, bits, i, i)
  {
    forall p | i <= |p| && StartsWith(bits[..i], p) ensures p in at { assert p == bits[..i]; }
  }

  lemma BuiltNext(at0: map<Path, Ref>, at: map<Path, Ref>, at': map<Path, Ref>, bits: Path, i0: nat, i: nat, r: Ref)
    requires i0 <= i < |bits| && BuiltTo(at0, at, bits, i0, i) && at' == at[bits[..i + 1] := r]
    ensures BuiltTo(at0, at', bits, i0, i + 1)
  {
    forall p | true ensures p in at' <==> p in at0 || (i0 <= |p| && StartsWith(bits[..i + 1], p)) {
      OneMore(bits, i, p);
      assert p in at' <==> p in at || p == bits[..i + 1];
    }
  }

  lemma BuiltAll(at0: map<Path, Ref>, at: map<Path, Ref>, bits: Path, i0: nat, i: nat)
    requires i0 <= i <= |bits| && BuiltTo(at0, at, bits, i0, i) && forall p :: StartsWith(bits[..i0], p) ==> p in at0
    ensures forall p {:trigger p in at} :: p in at <==> p in at0 || StartsWith(bits[..i], p)
  {
    forall p | StartsWith(bits[..i], p) ensures p in at0 || i0 <= |p| {
      if |p| < i0 { assert StartsWith(bits[..i0], p); }
    }
  }

  // the nodes below depth k on the way to p were removed
  ghost predicate Cut(at0: map<Path, Ref>, at: map<Path, Ref>, p: Path, k: nat) {
    forall q {:trigger q in at} :: q in at <==> q in at0 && !(k < |q| && StartsWith(p, q))
  }

  lemma CutNone(at: map<Path, Ref>, p: Path)
    ensures Cut(at, at, p, |p|) && p[..|p|] == p
  {}

  lemma CutMore(at0: map<Path, Ref>, at: map<Path, Ref>, at': map<Path, Ref>, p: Path, k: nat)
    requires 0 < k <= |p| && Cut(at0, at, p, k) && at' == at - {p[..k]}
    ensures Cut(at0, at', p, k - 1)
  {
    forall q | true ensures k - 1 < |q| && StartsWith(p, q) <==> (k < |q| && StartsWith(p, q)) || q == p[..k] {
      if |q| == k && StartsWith(p, q) { assert q == p[..k]; }
    }
  }

  lemma Extends(p: Path, b: bool)
    ensures Up(p + [b]) == p && p + [b] != []
  {
    assert (p + [b])[..|p|] == p;
  }

  lemma Splits(p: Path)
    requires p != []
    ensures p == Up(p) + [p[|p| - 1]]
  {}

  lemma NoOrphan(m: Memory, at: map<Path, Ref>, path: map<Ref, Path>, root: Ref, q: Path, b: bool)
    requires Tree(m, root, at, path) && q !in at
    ensures q + [b] !in at
  {
    Extends(q, b);
    assert q + [b] in at ==> NodeOk(m, at, path, q + [b]);
  }

  class RadixTree {
    var mem: Memory
    var root: Ref
    var free: Ref
    var start: Ref
    var size: nat          // nodes left in the page at start
    ghost var at: map<Path, Ref>
    ghost var path: map<Ref, Path>
    ghost var fl: seq<Ref>

    ghost predicate Valid()
      reads this
    {
      Tree(mem, root, at, path) && FreeList(mem, free, fl) && NoLoss(start, path, fl) && start > 0
    }

    ghost function Values(): map<Path, nat>
      reads this
    {
      Table(mem, at)
    }

    // ngx_radix_tree_create, lines 21-105: a root, and the nodes that are asked for
    constructor (preallocate: int)
      requires -1 <= preallocate <= 32
      ensures Valid() && Values() == map[]
      ensures forall p {:trigger p in at} :: p in at <==> |p| <= if preallocate == -1 then 6 else preallocate
    {
      mem := map[1 := Node(0, 0, 0, NGX_RADIX_NO_VALUE)];
      root, free, start, size := 1, 0, 2, NODES_PER_PAGE - 1;
      at, path, fl := map[[] := 1], map[1 := []], [];
      new;
      Preallocate(preallocate);
    }

    // ngx_radix_alloc: a recycled node, or a new one
    method RadixAlloc() returns (p: Ref)
      requires Valid()
      modifies this`free, this`start, this`size, this`fl
      ensures p != 0 && p !in path && p !in fl && start >= old(start)
      ensures old(free) != 0 ==> start == old(start) && old(fl) != [] && p == old(fl)[0] && fl == old(fl)[1..]
      ensures old(free) == 0 ==> fl == [] && p == old(start) && start == old(start) + 1
      ensures FreeList(mem, free, fl)
    {
      if free != 0 {
        p := free;
        assert p in fl && p !in path;
        free := mem[free].right;
        fl := fl[1..];
        return;
      }
      if size < 1 {
        size := NODES_PER_PAGE;
      }
      p := start;
      start := start + 1;
      size := size - 1;
      assert p !in path && p !in fl;
    }

    // lines 146-164: a node is hung below another one
    method AddChild(node: Ref, b: bool, ghost p: Path) returns (next: Ref)
      requires Valid() && p in at && node == at[p] && p + [b] !in at && |p| < 32
      modifies this`mem, this`free, this`start, this`size, this`fl, this`at, this`path
      ensures Valid() && at == old(at)[p + [b] := next] && Values() == old(Values())
    {
      ghost var m0, at0, path0, fl0, start0 := mem, at, path, fl, start;
      assert NodeOk(mem, at, path, p);
      next := RadixAlloc();
      mem := mem[next := Node(0, 0, node, NGX_RADIX_NO_VALUE)];
      mem := mem[node := if b then mem[node].(right := next) else mem[node].(left := next)];
      at, path := at[p + [b] := next], path[next := p + [b]];
      Grown(m0, at0, path0, mem, at, path, root, node, next, p, b, p + [b]);
      GrownTable(m0, at0, path0, mem, at, path, root, node, next, p, b, p + [b]);
      assert FreeList(mem, free, fl) by {
        forall i | 0 <= i < |fl| ensures mem[fl[i]] == m0[fl[i]] {
          assert fl[i] in fl && (old(free) != 0 ==> fl[i] == fl0[i + 1]);
        }
      }
      assert NoLoss(start, path, fl) by {
        forall r: Ref | true ensures (0 < r < start <==> r in path || r in fl) && !(r in path && r in fl) {
          assert r in fl0 <==> r in fl || (old(free) != 0 && r == next);
          assert (0 < r < start0 <==> r in path0 || r in fl0) && !(r in path0 && r in fl0);
        }
      }
    }
    // one step down, along bit i of the key
    lemma Down(key: nat, i: nat)
      requires Valid() && i < 32 && KeyBits(key)[..i] in at
      ensures var node := at[KeyBits(key)[..i]]; var bits := KeyBits(key);
        && node in mem
        && (if Test(key, BitAt(i)) then mem[node].right else mem[node].left)
           == (if bits[..i + 1] in at then at[bits[..i + 1]] else 0)
        && (bits[..i + 1] in at ==> at[bits[..i + 1]] != 0)
    {
      var bits := KeyBits(key);
      assert bits[..i + 1] == bits[..i] + [bits[i]];
      assert NodeOk(mem, at, path, bits[..i]);
      assert bits[..i + 1] in at ==> NodeOk(mem, at, path, bits[..i + 1]);
    }

    // ngx_radix32tree_find: the value of the longest stored prefix of the key
    method Find(key: nat) returns (value: nat)
      requires Valid()
      ensures value == Longest(Values(), KeyBits(key), 32)
    {
      var bit := TOP_BIT;
      value := NGX_RADIX_NO_VALUE;
      var node := root;
      ghost var i := 0;
      ghost var bits := KeyBits(key);
      FirstBit();
      assert bits[..0] == [] && NodeOk(mem, at, path, []);
      while node != 0
        invariant i <= 33 && bit == BitAt(i) && (node != 0 ==> i <= 32 && bits[..i] in at && node == at[bits[..i]])
        invariant value == if i == 0 then NGX_RADIX_NO_VALUE else Longest(Values(), bits, i - 1)
        invariant node == 0 ==> i >= 1 && (i <= 32 ==> bits[..i] !in at)
        decreases 33 - i, node
      {
        assert NodeOk(mem, at, path, bits[..i]);
        if mem[node].value != NGX_RADIX_NO_VALUE {
          value := mem[node].value;
        }
        assert value == Longest(Values(), bits, i);
        if i < 32 { Down(key, i); NextBit(i); } else { Deepest(bits[..32]); }
        if Test(key, bit) {
          node := mem[node].right;
        } else {
          node := mem[node].left;
        }
        bit := bit / 2;
        i := i + 1;
      }
      forall j | i - 1 < j <= 32 ensures bits[..j] !in Values() { NothingBelow(mem, at, path, root, bits, i, j); }
      LongestSkips(Values(), bits, i - 1, 32);
    }

    // a node at depth 32 has no children
    lemma Deepest(p: Path)
      requires Valid() && p in at && |p| == 32
      ensures at[p] in mem && mem[at[p]].left == 0 && mem[at[p]].right == 0
    {
      assert NodeOk(mem, at, path, p);
      assert p + [true] in at ==> NodeOk(mem, at, path, p + [true]);
      assert p + [false] in at ==> NodeOk(mem, at, path, p + [false]);
    }

    // the first loop of ngx_radix32tree_insert: down to the prefix, or to where it leaves the tree
    method Descend(key: nat, mask: nat) returns (node: Ref, next: Ref, bit: nat, ghost i: nat)
      requires Valid()
      ensures i <= Depth(mask, 0) && bit == BitAt(i) && KeyBits(key)[..i] in at && node == at[KeyBits(key)[..i]]
      ensures if next != 0 then i == Depth(mask, 0) else i < Depth(mask, 0) && KeyBits(key)[..i + 1] !in at
    {
      ghost var bits := KeyBits(key);
      bit := TOP_BIT;
      node, next := root, root;
      i := 0;
      FirstBit();
      assert bits[..0] == [] && NodeOk(mem, at, path, []);
      while Test(mask, bit)
        invariant i <= Depth(mask, 0) && bit == BitAt(i) && bits[..i] in at && node == at[bits[..i]] && next != 0
        decreases 32 - i
      {
        Down(key, i);
        NextBit(i);
        if Test(key, bit) {
          next := mem[node].right;
        } else {
          next := mem[node].left;
        }
        if next == 0 {
          break;
        }
        bit := bit / 2;
        node := next;
        i := i + 1;
      }
    }

    // the prefixes of a path with a node have nodes
    lemma AllAbove(bits: Path, i: nat)
      requires Valid() && i <= |bits| && bits[..i] in at
      ensures forall p :: StartsWith(bits[..i], p) ==> p in at
    {
      forall p | StartsWith(bits[..i], p) ensures p in at { assert p == bits[..|p|]; Above(bits, |p|, i); }
    }

    lemma {:induction false} Above(bits: Path, j: nat, i: nat)
      requires Valid() && j <= i <= |bits| && bits[..i] in at
      ensures bits[..j] in at
      decreases i
    {
      if j < i {
        assert NodeOk(mem, at, path, bits[..i]) && Up(bits[..i]) == bits[..i - 1];
        Above(bits, j, i - 1);
      }
    }

    // node->value = value
    method SetValue(node: Ref, value: nat, ghost p: Path)
      requires Valid() && p in at && node == at[p]
      modifies this`mem
      ensures Valid()
      ensures Values() == if value == NGX_RADIX_NO_VALUE then old(Values()) - {p} else old(Values())[p := value]
    {
      assert NodeOk(mem, at, path, p);
      assert node in path && node !in fl;
      ghost var m0 := mem;
      mem := mem[node := mem[node].(value := value)];
      Stored(m0, at, path, mem, root, p, value);
      StoredTable(m0, at, path, mem, root, p, value);
      forall i | 0 <= i < |fl| ensures mem[fl[i]] == m0[fl[i]] { assert fl[i] in fl; }
    }

    lemma Nothing(bits: Path, i: nat, d: nat)
      requires Valid() && i < d <= |bits| && |bits| <= 32 && bits[..i + 1] !in at
      ensures NoneBelow(at, bits, i, d)
    {
      forall j | i < j <= d ensures bits[..j] !in at { NothingBelow(mem, at, path, root, bits, i + 1, j); }
    }

    // lines 145-165: the nodes that are missing on the way to the prefix
    method Build(node0: Ref, bit0: nat, key: nat, mask: nat, ghost i0: nat) returns (node: Ref, ghost i: nat)
      requires Valid() && i0 < Depth(mask, 0) && bit0 == BitAt(i0)
      requires KeyBits(key)[..i0] in at && node0 == at[KeyBits(key)[..i0]] && KeyBits(key)[..i0 + 1] !in at
      modifies this`mem, this`free, this`start, this`size, this`fl, this`at, this`path
      ensures Valid() && i == Depth(mask, 0) && KeyBits(key)[..i] in at && node == at[KeyBits(key)[..i]]
      ensures Values() == old(Values())
      ensures KeyBits(key)[..i] !in old(at)
      ensures BuiltTo(old(at), at, KeyBits(key), i0, i)
    {
      ghost var bits, d := KeyBits(key), Depth(mask, 0);
      var bit, next := bit0, 0;
      node, i := node0, i0;
      Nothing(bits, i, d);
      ghost var at0 := at;
      BuiltNone(at, bits, i);
      while Test(mask, bit)
        invariant i0 <= i <= d && bit == BitAt(i) && Valid() && bits[..i] in at && node == at[bits[..i]]
        invariant Values() == old(Values())
        invariant NoneBelow(at, bits, i, d) && BuiltTo(at0, at, bits, i0, i)
        decreases 32 - i
      {
        NextBit(i);
        assert bits[..i + 1] == bits[..i] + [bits[i]];
        ghost var at1 := at;
        next := AddChild(node, Test(key, bit), bits[..i]);
        node := next;
        bit := bit / 2;
        BuiltNext(at0, at1, at, bits, i0, i, next);
        NoneNext(at1, at, bits, i, d, next);
        i := i + 1;
      }
    }

    // ngx_radix32tree_insert
    method Insert(key: nat, mask: nat, value: nat) returns (r: Code)
      requires Valid()
      modifies this`mem, this`free, this`start, this`size, this`fl, this`at, this`path
      ensures Valid() && r == (if Prefix(key, mask) in old(Values()) then BUSY else OK)
      ensures Values() == if r == BUSY || value == NGX_RADIX_NO_VALUE then old(Values())
          else old(Values())[Prefix(key, mask) := value]
      ensures forall p {:trigger p in at} :: p in at <==> p in old(at) || StartsWith(Prefix(key, mask), p)
    {
      ghost var bits, d := KeyBits(key), Depth(mask, 0);
      var node, next, bit;
      ghost var i;
      node, next, bit, i := Descend(key, mask);
      AllAbove(bits, i);
      assert NodeOk(mem, at, path, bits[..i]);
      if next != 0 {
        if mem[node].value != NGX_RADIX_NO_VALUE {
          return BUSY;
        }
        SetValue(node, value, bits[..i]);
        return OK;
      }
      BuildValue(node, bit, key, mask, value, i);
      return OK;
    }

    // lines 145-169
    method BuildValue(node0: Ref, bit: nat, key: nat, mask: nat, value: nat, ghost i0: nat)
      requires Valid() && i0 < Depth(mask, 0) && bit == BitAt(i0)
      requires KeyBits(key)[..i0] in at && node0 == at[KeyBits(key)[..i0]] && KeyBits(key)[..i0 + 1] !in at
      modifies this`mem, this`free, this`start, this`size, this`fl, this`at, this`path
      ensures Valid() && Prefix(key, mask) !in old(at)
      ensures Values() == if value == NGX_RADIX_NO_VALUE then old(Values())
          else old(Values())[Prefix(key, mask) := value]
      ensures forall p {:trigger p in at} :: p in at <==> p in old(at) || StartsWith(Prefix(key, mask), p)
    {
      AllAbove(KeyBits(key), i0);
      ghost var at0 := at;
      var node;
      ghost var i;
      node, i := Build(node0, bit, key, mask, i0);
      BuiltAll(at0, at, KeyBits(key), i0, i);
      SetValue(node, value, Prefix(key, mask));
    }

    // lines 179-191: down to the node of the prefix, if there is one
    method Lookup(key: nat, mask: nat) returns (node: Ref)
      requires Valid()
      ensures if Prefix(key, mask) in at then node == at[Prefix(key, mask)] != 0 else node == 0
    {
      ghost var bits, d := KeyBits(key), Depth(mask, 0);
      var bit := TOP_BIT;
      node := root;
      ghost var i := 0;
      FirstBit();
      assert bits[..0] == [] && NodeOk(mem, at, path, []);
      while node != 0 && Test(mask, bit)
        invariant i <= d && bit == BitAt(i)
        invariant if bits[..i] in at then node == at[bits[..i]] != 0 else node == 0
        decreases 32 - i
      {
        Down(key, i);
        NextBit(i);
        if Test(key, bit) {
          node := mem[node].right;
        } else {
          node := mem[node].left;
        }
        bit := bit / 2;
        i := i + 1;
      }
      if node == 0 { NothingBelow(mem, at, path, root, bits, i, d); }
    }

    ghost predicate Leaf(p: Path)
      reads this
    {
      p in at && p + [true] !in at && p + [false] !in at
    }

    lemma LeafLinks(p: Path)
      requires Valid() && p in at
      ensures at[p] in mem && at[p] != 0 && (Leaf(p) <==> mem[at[p]].left == 0 && mem[at[p]].right == 0)
      ensures p in Values() <==> mem[at[p]].value != NGX_RADIX_NO_VALUE
      ensures Up(p) in at && at[Up(p)] in mem && (p != [] ==> mem[at[p]].parent == at[Up(p)] && at[Up(p)] != at[p])
      ensures p == [] <==> mem[at[p]].parent == 0
    {
      assert NodeOk(mem, at, path, p) && NodeOk(mem, at, path, Up(p));
      assert p + [true] in at ==> NodeOk(mem, at, path, p + [true]);
      assert p + [false] in at ==> NodeOk(mem, at, path, p + [false]);
    }

    // lines 207-217: a leaf goes to the free list
    method Prune(node0: Ref, ghost p: Path) returns (node: Ref)
      requires Valid() && Leaf(p) && p != [] && node0 == at[p]
      modifies this`mem, this`free, this`fl, this`at, this`path
      ensures Valid() && at == old(at) - {p} && Values() == old(Values()) - {p} && Up(p) in at && node == at[Up(p)]
      ensures fl == [node0] + old(fl)
    {
      ghost var m0, at0, path0, fl0 := mem, at, path, fl;
      LeafLinks(p);
      node := node0;
      var up := mem[node].parent;
      assert node in path0 && up in path0 by { assert NodeOk(mem, at, path, p) && NodeOk(mem, at, path, Up(p)); }
      if mem[up].right == node {
        mem := mem[up := mem[up].(right := 0)];
      } else {
        mem := mem[up := mem[up].(left := 0)];
      }
      mem := mem[node := mem[node].(right := free)];
      free := node;
      at, path, fl := at - {p}, path - {node}, [node] + fl;
      Shrunk(m0, at0, path0, mem, at, path, root, node, old(free), p);
      ShrunkTable(m0, at0, path0, mem, at, path, root, node, old(free), p);
      FreedNode(m0, mem, path0, fl0, start, old(free), node, up);
      node := mem[node].parent;
    }

    // ngx_radix32tree_delete, except for a root without children
    method Delete(key: nat, mask: nat) returns (r: Code, ghost k: nat)
      requires Valid() && !(Prefix(key, mask) == [] && Leaf([]))
      modifies this`mem, this`free, this`fl, this`at, this`path
      ensures Valid() && k <= |Prefix(key, mask)| && (k < |Prefix(key, mask)| <==> old(Leaf(Prefix(key, mask))))
      ensures r == if Prefix(key, mask) in old(Values()) || old(Leaf(Prefix(key, mask))) then OK else ERROR
      ensures Values() == old(Values()) - {Prefix(key, mask)}
      ensures Cut(old(at), at, Prefix(key, mask), k)
      ensures k < |Prefix(key, mask)| ==> var q := Prefix(key, mask)[..k]; q == [] || !Leaf(q) || q in Values()
    {
      ghost var p := Prefix(key, mask);
      k := |p|;
      var node := Lookup(key, mask);
      if node == 0 {
        return ERROR, k;
      }
      LeafLinks(p);
      if mem[node].right != 0 || mem[node].left != 0 {
        if mem[node].value != NGX_RADIX_NO_VALUE {
          SetValue(node, NGX_RADIX_NO_VALUE, p);
          return OK, k;
        }
        return ERROR, k;
      }
      k := PruneUp(node, p);
      return OK, k;
    }

    // lines 206-230: a leaf is pruned, and then every ancestor that became an empty leaf
    method PruneUp(node0: Ref, ghost p: Path) returns (ghost k: nat)
      requires Valid() && Leaf(p) && p != [] && node0 == at[p]
      modifies this`mem, this`free, this`fl, this`at, this`path
      ensures Valid() && k < |p| && Values() == old(Values()) - {p}
      ensures Cut(old(at), at, p, k)
      ensures var q := p[..k]; q == [] || !Leaf(q) || q in Values()
    {
      ghost var at0, v := at, Values() - {p};
      CutNone(at, p);
      var node, more := PruneStep(node0, p, |p|, at0, v);
      k := |p| - 1;
      while more
        invariant k < |p| && Valid() && Values() == v && Cut(at0, at, p, k)
        invariant more ==> k > 0 && Leaf(p[..k]) && p[..k] !in v && node == at[p[..k]]
        invariant !more ==> p[..k] == [] || !Leaf(p[..k]) || p[..k] in v
        decreases k
      {
        node, more := PruneStep(node, p, k, at0, v);
        k := k - 1;
      }
    }

    // lines 206-229: one turn, which unlinks a leaf and asks whether its parent became an empty leaf
    method PruneStep(node0: Ref, ghost p: Path, ghost k: nat, ghost at0: map<Path, Ref>, ghost v: map<Path, nat>)
      returns (node: Ref, more: bool)
      requires Valid() && 0 < k <= |p| && Leaf(p[..k]) && node0 == at[p[..k]]
      requires Values() - {p[..k]} == v && Cut(at0, at, p, k)
      modifies this`mem, this`free, this`fl, this`at, this`path
      ensures Valid() && Values() == v && Cut(at0, at, p, k - 1)
      ensures p[..k - 1] in at && node == at[p[..k - 1]]
      ensures more <==> p[..k - 1] != [] && Leaf(p[..k - 1]) && p[..k - 1] !in v
    {
      assert Up(p[..k]) == p[..k - 1];
      CutMore(at0, at, at - {p[..k]}, p, k);
      node := Prune(node0, p[..k]);
      LeafLinks(p[..k - 1]);
      if mem[node].right != 0 || mem[node].left != 0 {
        return node, false;
      }
      if mem[node].value != NGX_RADIX_NO_VALUE {
        return node, false;
      }
      if mem[node].parent == 0 {
        return node, false;
      }
      more := true;
    }

    // ngx_radix_tree_create with preallocation, lines 62-102: all prefixes of up to
    // preallocate bits get nodes, by default of up to 6, and no other prefixes
    method Preallocate(preallocate: int)
      requires Valid() && Values() == map[] && -1 <= preallocate <= 32
      modifies this`mem, this`free, this`start, this`size, this`fl, this`at, this`path
      ensures Valid() && Values() == map[]
      ensures var n := if preallocate == -1 then 6 else preallocate;
        forall p {:trigger p in at} :: p in at <==> p in old(at) || |p| <= n
    {
      var n := if preallocate == -1 then 6 else preallocate;
      var mask: nat, inc: nat := 0, TOP_BIT;
      ghost var d := 0;
      FirstBit();
      assert NodeOk(mem, at, path, []);
      while n > 0
        invariant 0 <= n && d + n == (if preallocate == -1 then 6 else preallocate) && Valid() && Values() == map[]
        invariant mask == Shl1(32) - Shl1(32 - d) && inc == (if d < 32 then Shl1(31 - d) else 0)
        invariant forall p {:trigger p in at} :: p in at <==> p in old(at) || |p| <= d
        decreases n
      {
        n := n - 1;
        MaskNext(mask, d);
        mask := mask / 2;
        if !Test(mask, TOP_BIT) { mask := mask + TOP_BIT; }
        d := d + 1;
        PreallocateLevel(mask, inc, d);
        inc := inc / 2;
      }
    }

    // lines 91-95
    method InsertEmpty(key: nat, mask: nat)
      requires Valid() && Values() == map[]
      modifies this`mem, this`free, this`start, this`size, this`fl, this`at, this`path
      ensures Valid() && Values() == map[] && GrewTo(old(at), at, |Prefix(key, mask)|) && Prefix(key, mask) in at
    {
      var r := Insert(key, mask, NGX_RADIX_NO_VALUE);
    }

    // the prefix of d bits that the key number b stands for
    ghost function Reached(b: nat, inc: nat, d: nat): Path
      requires d <= 32
    {
      KeyBits(KeyNo(b, inc))[..d]
    }

    // line 85
    method PreallocateOne(key: nat, mask: nat, ghost inc: nat, ghost d: nat, ghost a: nat)
      requires Valid()
      requires Values() == map[] && d <= 32 && Depth(mask, 0) == d && key == KeyNo(a, inc) && AllBelow(at, inc, d, a)
      modifies this`mem, this`free, this`start, this`size, this`fl, this`at, this`path
      ensures Valid() && Values() == map[] && GrewTo(old(at), at, d) && AllBelow(at, inc, d, a + 1)
    {
      ghost var at0 := at;
      InsertEmpty(key, mask);
      assert Prefix(key, mask) == Reached(a, inc, d);
      MoreReached(at0, at, inc, d, a);
    }

    // lines 90-99
    method PreallocateLevel(mask: nat, inc: nat, ghost d: nat)
      requires Valid() && Values() == map[] && 1 <= d <= 32 && mask == Shl1(32) - Shl1(32 - d) && inc == Shl1(32 - d)
      modifies this`mem, this`free, this`start, this`size, this`fl, this`at, this`path
      ensures Valid() && Values() == map[] && GrewTo(old(at), at, d)
      ensures forall p {:trigger p in at} :: |p| == d ==> p in at
    {
      var key, more := 0, true;
      ghost var a := 0;
      MaskDepth(mask, d);
      LastKey(inc, d);
      while more
        invariant Valid() && Values() == map[] && GrewTo(old(at), at, d)
        invariant 0 <= a <= Shl1(d) && key == (if more then KeyNo(a, inc) else 0) && (more <==> a < Shl1(d))
        invariant AllBelow(at, inc, d, a)
        decreases Shl1(d) - a
      {
        PreallocateOne(key, mask, inc, d, a);
        key := Following(key, inc, a, d);
        a := a + 1;
        more := key != 0;
      }
      AllReached(inc, d);
    }

    // line 97
    method Following(key0: nat, inc: nat, ghost a: nat, ghost d: nat) returns (key: nat)
      requires d <= 32 && inc == Shl1(32 - d) && a < Shl1(d) && key0 == KeyNo(a, inc)
      ensures key == (if a + 1 < Shl1(d) then KeyNo(a + 1, inc) else 0) && (key == 0 <==> a + 1 >= Shl1(d))
    {
      FirstBit();
      LastKey(inc, d);
      NextKey(a, inc, Shl1(d));
      key := (key0 + inc) % (2 * TOP_BIT);
    }

    ghost predicate AllBelow(at: map<Path, Ref>, inc: nat, d: nat, a: nat)
      requires d <= 32
    {
      forall b: nat {:trigger Reached(b, inc, d)} :: b < a ==> Reached(b, inc, d) in at
    }

    lemma MoreReached(at0: map<Path, Ref>, at1: map<Path, Ref>, inc: nat, d: nat, a: nat)
      requires d <= 32 && AllBelow(at0, inc, d, a) && Grew(at0, at1) && Reached(a, inc, d) in at1
      ensures AllBelow(at1, inc, d, a + 1)
    {}

    lemma AllReached(inc: nat, d: nat)
      requires d <= 32 && inc == Shl1(32 - d) && AllBelow(at, inc, d, Shl1(d))
      ensures forall p {:trigger p in at} :: |p| == d ==> p in at
    {
      forall p: Path | |p| == d ensures p in at {
        KeyNoIs(Number(p), inc);
        NumberBits(p, KeyNo(Number(p), inc));
        assert Reached(Number(p), inc, d) in at;
      }
    }

    // Delete in a tree without values
    method DeleteBare(key: nat, mask: nat) returns (r: Code)
      requires Valid() && Values() == map[] && Prefix(key, mask) != []
      modifies this`mem, this`free, this`fl, this`at, this`path
      ensures Valid() && Values() == map[]
      ensures r == if old(Leaf(Prefix(key, mask))) then OK else ERROR
      ensures r == OK ==> !Leaf(Prefix(key, mask))
    {
      ghost var p, k := Prefix(key, mask), 0;
      r, k := Delete(key, mask);
      assert r == OK ==> StartsWith(p, p) && p !in at;
    }
  }

  // In a tree that never had a value, a delete of any preallocated prefix of the full depth
  // answers OK, and a second one that there is none.
  method DeleteUnset(n: nat, key: nat, mask: nat) returns (first: Code, second: Code)
    requires 1 <= n <= 32 && Depth(mask, 0) == n
    ensures first == OK && second == ERROR
  {
    var tree := new RadixTree(n);
    assert |Prefix(key, mask)| == n;
    first := tree.DeleteBare(key, mask);
    second := tree.DeleteBare(key, mask);
  }

  lemma SameStep(p: Path, q: Path, b: bool, c: bool)
    ensures p + [b] == q + [c] <==> p == q && b == c
  {
    Extends(p, b);
    Extends(q, c);
    assert (p + [b])[|p|] == b && (q + [c])[|q|] == c;
  }

  // a node next is hung below node
  ghost predicate Grows(m: Memory, at: map<Path, Ref>, path: map<Ref, Path>, m': Memory, at': map<Path, Ref>,
                        path': map<Ref, Path>,
                        root: Ref, node: Ref, next: Ref, p: Path, b: bool, pb: Path) {
    && Tree(m, root, at, path) && p in at && node == at[p] && pb == p + [b] && pb !in at && |p| < 32 && next != 0
    && next !in path && node in m
    && m' == m[next := Node(0, 0, node, NGX_RADIX_NO_VALUE)]
              [node := if b then m[node].(right := next) else m[node].(left := next)]
    && next != node && at' == at[pb := next] && path' == path[next := pb]
  }

  lemma GrownChild(at: map<Path, Ref>, at': map<Path, Ref>, p: Path, b: bool, next: Ref, q: Path, c: bool)
    requires at' == at[p + [b] := next]
    ensures Child(at', q, c) == if p == q && b == c then next else Child(at, q, c)
  {
    SameStep(p, q, b, c);
  }

  lemma GrownNode(m: Memory, at: map<Path, Ref>, path: map<Ref, Path>, m': Memory, at': map<Path, Ref>,
                  path': map<Ref, Path>, root: Ref, node: Ref, next: Ref, p: Path, b: bool, pb: Path, q: Path)
    requires Grows(m, at, path, m', at', path', root, node, next, p, b, pb) && q in at'
    ensures NodeOk(m', at', path', q)
  {
    Extends(p, b);
    assert NodeOk(m, at, path, p);
    GrownChild(at, at', p, b, next, q, true);
    GrownChild(at, at', p, b, next, q, false);
    if q == pb {
      NoOrphan(m, at, path, root, q, true);
      NoOrphan(m, at, path, root, q, false);
    } else {
      assert NodeOk(m, at, path, q);
      assert at[q] != next;
      if q != p { assert at[q] != node; }
    }
  }

  lemma GrownTable(m: Memory, at: map<Path, Ref>, path: map<Ref, Path>, m': Memory, at': map<Path, Ref>,
                   path': map<Ref, Path>, root: Ref, node: Ref, next: Ref, p: Path, b: bool, pb: Path)
    requires Grows(m, at, path, m', at', path', root, node, next, p, b, pb)
    ensures Table(m', at') == Table(m, at)
  {
    var t, t' := Table(m, at), Table(m', at');
    forall q | true ensures (q in t' <==> q in t) && (q in t ==> t'[q] == t[q]) {
      if q in at { assert NodeOk(m, at, path, q) && at[q] != next; }
    }
  }

  lemma Grown(m: Memory, at: map<Path, Ref>, path: map<Ref, Path>, m': Memory, at': map<Path, Ref>,
              path': map<Ref, Path>, root: Ref, node: Ref, next: Ref, p: Path, b: bool, pb: Path)
    requires Grows(m, at, path, m', at', path', root, node, next, p, b, pb)
    ensures Tree(m', root, at', path')
  {
    Extends(p, b);
    forall q | q in at'
      ensures NodeOk(m', at', path', q)
    {
      GrownNode(m, at, path, m', at', path', root, node, next, p, b, pb, q);
    }
    GrownPaths(at, path, next, pb);
  }

  lemma GrownPaths(at: map<Path, Ref>, path: map<Ref, Path>, next: Ref, pb: Path)
    requires Paths(at, path) && pb !in at && next !in path
    ensures Paths(at[pb := next], path[next := pb])
  {
    var at', path' := at[pb := next], path[next := pb];
    forall r | r in path' ensures path'[r] in at' && at'[path'[r]] == r {
      if r != next { assert path[r] in at && path[r] != pb; }
    }
  }

  lemma ShrunkPaths(at: map<Path, Ref>, path: map<Ref, Path>, node: Ref, p: Path)
    requires Paths(at, path) && p in at && at[p] == node
    ensures Paths(at - {p}, path - {node})
  {
    forall r | r in path - {node} ensures (path - {node})[r] in at - {p} && (at - {p})[(path - {node})[r]] == r {
      assert path[r] in at && at[path[r]] == r;
    }
  }

  // node, a leaf other than the root, leaves the tree for the free list
  ghost predicate Shrinks(m: Memory, at: map<Path, Ref>, path: map<Ref, Path>, m': Memory, at': map<Path, Ref>,
                          path': map<Ref, Path>,
                          root: Ref, node: Ref, free: Ref, p: Path) {
    && Tree(m, root, at, path) && p in at && p != [] && node == at[p] && node in m && m[node].left == 0
    && m[node].right == 0
    && m[node].parent in m && m[node].parent != node
    && (var par := m[node].parent;
        m' == m[par := if m[par].right == node then m[par].(right := 0) else m[par].(left := 0)]
               [node := m[node].(right := free)])
    && at' == at - {p} && path' == path - {node}
  }

  lemma ShrunkNode(m: Memory, at: map<Path, Ref>, path: map<Ref, Path>, m': Memory, at': map<Path, Ref>,
                   path': map<Ref, Path>, root: Ref, node: Ref, free: Ref, p: Path, q: Path)
    requires Shrinks(m, at, path, m', at', path', root, node, free, p) && q in at'
    ensures NodeOk(m', at', path', q)
  {
    Splits(p);
    var u, b := Up(p), p[|p| - 1];
    assert NodeOk(m, at, path, p) && NodeOk(m, at, path, u) && NodeOk(m, at, path, q);
    SameStep(u, q, b, true);
    SameStep(u, q, b, false);
    assert at[q] != node;
    if q == u {
      assert Child(at, u, b) == node;
      assert Child(at, u, !b) != node by {
        if u + [!b] in at { assert NodeOk(m, at, path, u + [!b]); SameStep(u, u, b, !b); }
      }
    } else {
      assert at[q] != at[u];
    }
    if q != [] {
      Splits(q);
      assert Child(at, Up(q), q[|q| - 1]) == at[q];
    }
  }

  lemma Shrunk(m: Memory, at: map<Path, Ref>, path: map<Ref, Path>, m': Memory, at': map<Path, Ref>,
               path': map<Ref, Path>, root: Ref, node: Ref, free: Ref, p: Path)
    requires Shrinks(m, at, path, m', at', path', root, node, free, p)
    ensures Tree(m', root, at', path')
  {
    assert NodeOk(m, at, path, p) && NodeOk(m, at, path, []);
    forall q | q in at'
      ensures NodeOk(m', at', path', q)
    {
      ShrunkNode(m, at, path, m', at', path', root, node, free, p, q);
    }
    ShrunkPaths(at, path, node, p);
  }

  // a node of the tree goes to the head of the free list
  lemma FreedNode(m: Memory, m': Memory, path: map<Ref, Path>, fl: seq<Ref>, start: Ref, free: Ref, node: Ref, up: Ref)
    requires FreeList(m, free, fl) && NoLoss(start, path, fl) && node in path && up in path && node != 0
    requires node in m' && m'[node].right == free
    requires forall r :: r in m && r != node && r != up ==> r in m' && m'[r] == m[r]
    ensures FreeList(m', node, [node] + fl) && NoLoss(start, path - {node}, [node] + fl)
  {
    assert node !in fl && up !in fl;
    ConsNoDup(fl, node);
    var fl' := [node] + fl;
    forall i | 0 <= i < |fl'| ensures i > 0 ==> fl'[i] == fl[i - 1] && fl'[i] in fl && m'[fl'[i]] == m[fl'[i]] {
      assert i > 0 ==> fl'[i] in fl;
    }
    forall r: Ref | true
      ensures (0 < r < start <==> r in path - {node} || r in fl') && !(r in path - {node} && r in fl')
    {
      assert r in fl' <==> r == node || r in fl;
      assert (0 < r < start <==> r in path || r in fl) && !(r in path && r in fl);
    }
  }

  lemma ShrunkTable(m: Memory, at: map<Path, Ref>, path: map<Ref, Path>, m': Memory, at': map<Path, Ref>,
                    path': map<Ref, Path>,
                    root: Ref, node: Ref, free: Ref, p: Path)
    requires Shrinks(m, at, path, m', at', path', root, node, free, p)
    ensures Table(m', at') == Table(m, at) - {p}
  {
    assert NodeOk(m, at, path, p);
    forall q | true ensures Holds(m', at', q) == (if q == p then NGX_RADIX_NO_VALUE else Holds(m, at, q)) {
      if q in at { assert NodeOk(m, at, path, q); }
    }
    TableBy(m, at, m', at', p, NGX_RADIX_NO_VALUE);
  }

  // the value at a path, if any
  ghost function Holds(m: Memory, at: map<Path, Ref>, q: Path): nat {
    if q in at && at[q] in m then m[at[q]].value else NGX_RADIX_NO_VALUE
  }

  lemma TableAt(m: Memory, at: map<Path, Ref>, q: Path)
    ensures q in Table(m, at) <==> Holds(m, at, q) != NGX_RADIX_NO_VALUE
    ensures q in Table(m, at) ==> Table(m, at)[q] == Holds(m, at, q)
  {}

  lemma SameMap(t: map<Path, nat>, t': map<Path, nat>)
    requires forall q {:trigger q in t} {:trigger q in t'} :: (q in t <==> q in t') && (q in t ==> t[q] == t'[q])
    ensures t == t'
  {}

  lemma TableBy(m: Memory, at: map<Path, Ref>, m': Memory, at': map<Path, Ref>, p: Path, value: nat)
    requires forall q {:trigger Holds(m', at', q)} :: Holds(m', at', q) == if q == p then value else Holds(m, at, q)
    ensures Table(m', at') == if value == NGX_RADIX_NO_VALUE then Table(m, at) - {p} else Table(m, at)[p := value]
  {
    var t, t' := Table(m', at'), if value == NGX_RADIX_NO_VALUE then Table(m, at) - {p} else Table(m, at)[p := value];
    forall q | true ensures (q in t <==> q in t') && (q in t ==> t[q] == t'[q]) {
      TableAt(m, at, q);
      TableAt(m', at', q);
    }
    SameMap(t, t');
  }

  // a value is stored in a node, or taken out of it
  lemma Stored(m: Memory, at: map<Path, Ref>, path: map<Ref, Path>, m': Memory, root: Ref, p: Path, value: nat)
    requires Tree(m, root, at, path) && p in at && at[p] in m && m' == m[at[p] := m[at[p]].(value := value)]
    ensures Tree(m', root, at, path)
  {
    forall q | q in at ensures NodeOk(m', at, path, q) { assert NodeOk(m, at, path, q); }
  }

  lemma StoredTable(m: Memory, at: map<Path, Ref>, path: map<Ref, Path>, m': Memory, root: Ref, p: Path, value: nat)
    requires Tree(m, root, at, path) && p in at && at[p] in m && m' == m[at[p] := m[at[p]].(value := value)]
    ensures Table(m', at) == if value == NGX_RADIX_NO_VALUE then Table(m, at) - {p} else Table(m, at)[p := value]
  {
    assert NodeOk(m, at, path, p);
    forall q | true ensures Holds(m', at, q) == (if q == p then value else Holds(m, at, q)) {
      if q in at { assert NodeOk(m, at, path, q); }
    }
    TableBy(m, at, m', at, p, value);
  }

  // deeper prefixes that are not stored do not matter
  lemma {:induction false} LongestSkips(t: map<Path, nat>, bits: Path, i: nat, n: nat)
    requires i <= n <= |bits| && forall j :: i < j <= n ==> bits[..j] !in t
    ensures Longest(t, bits, n) == Longest(t, bits, i)
    decreases n
  {
    if i < n { LongestSkips(t, bits, i, n - 1); }
  }

  // below a path that has no node there are no nodes
  lemma {:induction false} NothingBelow(m: Memory, at: map<Path, Ref>, path: map<Ref, Path>, root: Ref, bits: Path,
                                        i: nat, j: nat)
    requires Tree(m, root, at, path) && i <= j <= |bits| && bits[..i] !in at
    ensures bits[..j] !in at
    decreases j
  {
    if i < j {
      NothingBelow(m, at, path, root, bits, i, j - 1);
      assert bits[..j] == bits[..j - 1] + [bits[j - 1]];
      NoOrphan(m, at, path, root, bits[..j - 1], bits[j - 1]);
    }
  }

  // --- all prefixes of a length --------------------------------------------------------------

  // the bits of a path as a number
  function Number(p: Path): nat {
    if p == [] then 0 else 2 * Number(p[..|p| - 1]) + if p[|p| - 1] then 1 else 0
  }

  lemma {:induction false} NumberBelow(p: Path)
    ensures Number(p) < Shl1(|p|)
  {
    if p != [] { NumberBelow(p[..|p| - 1]); }
  }

  lemma {:induction false} NumberBit(p: Path, i: nat)
    requires i < |p|
    ensures Bit(Number(p), |p| - 1 - i) == p[i]
  {
    var n := Number(p[..|p| - 1]);
    assert Number(p) / 2 == n && Number(p) % 2 == (if p[|p| - 1] then 1 else 0);
    if i < |p| - 1 {
      NumberBit(p[..|p| - 1], i);
      assert Shr(Number(p), |p| - 1 - i) == Shr(n, |p| - 2 - i);
    }
  }

  // the bits of x << m
  lemma {:induction false} ShiftedUp(x: nat, m: nat, j: nat)
    ensures Bit(x * Shl1(m), j) == (j >= m && Bit(x, j - m))
    decreases m
  {
    if m > 0 {
      assert x * Shl1(m) == 2 * (x * Shl1(m - 1));
      if j > 0 { ShiftedUp(x, m - 1, j - 1); }
    }
  }

  lemma TestIsBit(key: nat, j: nat)
    ensures Test(key, Shl1(j)) == Bit(key, j)
  {
    ShrIsDiv(key, j);
  }

  lemma OneMoreBit(p: Path, v: nat)
    requires p != [] && Number(p[..|p| - 1]) == v / 2 && (p[|p| - 1] <==> v % 2 == 1)
    ensures Number(p) == v
  {}

  lemma KeyBitIs(key: nat, i: nat)
    requires i < 32
    ensures KeyBits(key)[i] <==> key / Shl1(31 - i) % 2 == 1
  {}

  // The first bits of a key, and so the prefix of a mask of d ones, are the key without its last
  // 32 - d bits.
  lemma {:induction false} PrefixNumber(key: nat, d: nat)
    requires key < Shl1(32) && d <= 32
    ensures |KeyBits(key)[..d]| == d && Number(KeyBits(key)[..d]) == key / Shl1(32 - d)
  {
    if d == 0 {
      assert key / Shl1(32) == 0 by { DivIs(key, Shl1(32), 0, key); }
    } else {
      PrefixNumber(key, d - 1);
      HalfDivided(key, Shl1(32 - d));
      KeyBitIs(key, d - 1);
      assert KeyBits(key)[..d][..d - 1] == KeyBits(key)[..d - 1];
      OneMoreBit(KeyBits(key)[..d], key / Shl1(32 - d));
    }
  }

  lemma SameNumber(p: Path, q: Path)
    requires |p| == |q| && Number(p) == Number(q)
    ensures p == q
  {
    forall i | 0 <= i < |p| ensures p[i] == q[i] {
      NumberBit(p, i);
      NumberBit(q, i);
    }
  }

  lemma HalfDivided(key: nat, u: nat)
    requires u >= 1
    ensures key / (2 * u) == key / u / 2
  {
    var q, r := key / (2 * u), key % (2 * u);
    assert key == 2 * u * q + r;
    var t := if r >= u then 1 else 0;
    assert key == u * (2 * q + t) + (r - t * u);
    DivIs(key, u, 2 * q + t, r - t * u);
  }

  // Masks of d ones and then zeros stand for these prefixes: two keys have the same one exactly if
  // they lie in the same range of 2 to the 32 - d keys.
  lemma SamePrefix(a: nat, b: nat, mask: nat, d: nat)
    requires a < Shl1(32) && b < Shl1(32) && d <= 32 && mask == Shl1(32) - Shl1(32 - d)
    ensures Prefix(a, mask) == Prefix(b, mask) <==> a / Shl1(32 - d) == b / Shl1(32 - d)
  {
    MaskDepth(mask, d);
    PrefixNumber(a, d);
    PrefixNumber(b, d);
    if a / Shl1(32 - d) == b / Shl1(32 - d) { SameNumber(KeyBits(a)[..d], KeyBits(b)[..d]); }
  }

  lemma NumberBits(p: Path, key: nat)
    requires |p| <= 32 && key == Number(p) * Shl1(32 - |p|)
    ensures Number(p) < Shl1(|p|) && KeyBits(key)[..|p|] == p
  {
    NumberBelow(p);
    forall i | 0 <= i < |p| ensures KeyBits(key)[i] == p[i] { NumberBitAt(p, key, i); }
  }

  lemma NumberBitAt(p: Path, key: nat, i: nat)
    requires |p| <= 32 && key == Number(p) * Shl1(32 - |p|) && i < |p|
    ensures Test(key, BitAt(i)) == p[i]
  {
    TestIsBit(key, 31 - i);
    ShiftedUp(Number(p), 32 - |p|, 31 - i);
    NumberBit(p, i);
  }

  lemma MaskBit(mask: nat, d: nat, i: nat)
    requires d <= 32 && mask == Shl1(32) - Shl1(32 - d) && i < 32
    ensures Test(mask, BitAt(i)) <==> i < d
  {
    assert mask == (Shl1(d) - 1) * Shl1(32 - d) by { MaskProduct(d, 32 - d); }
    TestIsBit(mask, 31 - i);
    ShiftedOnes(d, 32 - d, 31 - i);
  }

  lemma ShiftedOnes(d: nat, e: nat, j: nat)
    ensures Bit((Shl1(d) - 1) * Shl1(e), j) <==> e <= j < d + e
  {
    ShiftedUp(Shl1(d) - 1, e, j);
    if e <= j { LowOnes(d, j - e); }
  }

  lemma MaskProduct(d: nat, e: nat)
    ensures Shl1(d + e) - Shl1(e) == (Shl1(d) - 1) * Shl1(e)
  {
    Shl1Sum(d, e);
    LessOne(Shl1(d), Shl1(e));
  }

  lemma LessOne(x: nat, y: nat)
    requires x >= 1
    ensures (x - 1) * y == x * y - y
  {}

  lemma MaskDepth(mask: nat, d: nat)
    requires d <= 32 && mask == Shl1(32) - Shl1(32 - d)
    ensures Depth(mask, 0) == d
  {
    var r := Depth(mask, 0);
    if r < 32 { MaskBit(mask, d, r); }
    if d < r { MaskBit(mask, d, d); }
  }

  lemma MaskNext(mask: nat, d: nat)
    requires d < 32 && mask == Shl1(32) - Shl1(32 - d)
    ensures !Test(mask / 2, TOP_BIT) && mask / 2 + TOP_BIT == Shl1(32) - Shl1(31 - d)
  {
    FirstBit();
    Shl1Grows(31 - d, 31);
    assert mask == 2 * (Shl1(31) - Shl1(31 - d));
    assert mask / 2 == Shl1(31) - Shl1(31 - d);
    assert mask / 2 / TOP_BIT == 0;
  }

  // key number a of a level of the preallocation
  function KeyNo(a: nat, inc: nat): nat { if a == 0 then 0 else KeyNo(a - 1, inc) + inc }

  lemma {:induction false} KeyNoIs(a: nat, inc: nat)
    ensures KeyNo(a, inc) == a * inc
  {
    if a > 0 { KeyNoIs(a - 1, inc); }
  }

  lemma {:induction false} KeyNoGrows(a: nat, b: nat, inc: nat)
    requires a < b && inc >= 1
    ensures KeyNo(a, inc) < KeyNo(b, inc)
    decreases b
  {
    if a < b - 1 { KeyNoGrows(a, b - 1, inc); }
  }

  lemma LastKey(inc: nat, d: nat)
    requires d <= 32 && inc == Shl1(32 - d)
    ensures KeyNo(Shl1(d), inc) == Shl1(32)
  {
    KeyNoIs(Shl1(d), inc);
    Shl1Sum(d, 32 - d);
  }

  lemma NextKey(a: nat, inc: nat, n: nat)
    requires a < n && KeyNo(n, inc) == Shl1(32) && inc >= 1
    ensures (KeyNo(a, inc) + inc) % (2 * TOP_BIT) == (if a + 1 < n then KeyNo(a + 1, inc) else 0)
    ensures a + 1 < n ==> KeyNo(a + 1, inc) > 0
  {
    FirstBit();
    assert Shl1(32) == 2 * Shl1(31);
    if a + 1 < n { KeyNoGrows(a + 1, n, inc); }
  }
}
