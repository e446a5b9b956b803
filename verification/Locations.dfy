// src/http/ngx_http.c: static locations, from the sorted queue to the search tree, and
// ngx_http_core_find_static_location (src/http/ngx_http_core_module.c), which searches it.
module Locations {
  import opened Bits
  import opened Strings

  // ngx_http_location_queue_t, a queue being the sequence of its elements; 0 is NULL
  datatype Loc = Loc(name: string, exact: nat, inclusive: nat, redirect: bool, list: seq<Loc>)

  // ngx_http_location_tree_node_t; redirect is auto_redirect
  datatype Tree = Null | Node(left: Tree, right: Tree, tree: Tree, exact: nat, inclusive: nat, redirect: bool,
      name: string)

  function Bare(l: Loc): Loc { l.(list := []) }

  // all locations of a nested list, in order
  function Flat(s: seq<Loc>): seq<Loc>
    decreases s
  {
    if s == [] then [] else [Bare(s[0])] + Flat(s[0].list) + Flat(s[1..])
  }

  lemma {:induction false} FlatConcat(a: seq<Loc>, b: seq<Loc>)
    ensures Flat(a + b) == Flat(a) + Flat(b)
    decreases |a|
  {
    if a == [] {
      assert a + b == b;
    } else {
      assert (a + b)[1..] == a[1..] + b;
      FlatConcat(a[1..], b);
    }
  }

  lemma {:induction false} FlatPlain(s: seq<Loc>)
    requires forall i :: 0 <= i < |s| ==> s[i].list == []
    ensures Flat(s) == s
    decreases |s|
  {
    if s != [] {
      FlatPlain(s[1..]);
      assert Bare(s[0]) == s[0];
      assert Flat(s[0].list) == [];
    }
  }

  ghost predicate Increasing(s: seq<Loc>) { forall i, j :: 0 <= i < j < |s| ==> StringLess(s[i].name, s[j].name) }

  // a sorted queue without duplicates, before nesting
  ghost predicate Input(s: seq<Loc>) {
    Increasing(s) && forall i :: 0 <= i < |s| ==> s[i].list == [] && (s[i].exact != 0 || s[i].inclusive != 0)
  }

  // --- nesting -------------------------------------------------------------------------------------

  // lines 1040-1051: the first element from x on that does not go on after the name
  function End(s: seq<Loc>, name: string, x: nat): (r: nat)
    requires x <= |s|
    ensures x <= r <= |s| && (r < |s| ==> !StartsWith(s[r].name, name))
    ensures forall i :: x <= i < r ==> StartsWith(s[i].name, name)
    decreases |s| - x
  {
    if x == |s| || !StartsWith(s[x].name, name) then x else End(s, name, x + 1)
  }

  // what ngx_http_create_locations_list makes of the queue from some element on
  function Nest(s: seq<Loc>): seq<Loc>
    decreases |s|
  {
    if |s| <= 1 then s
    else if s[0].inclusive == 0 then [s[0]] + Nest(s[1..])
    else
      var x := End(s, s[0].name, 1);
      if x == 1 then [s[0]] + Nest(s[1..]) else [s[0].(list := Nest(s[1..x]))] + Nest(s[x..])
  }

  // ngx_http_create_locations_list on the queue from position q on
  method CreateList(locations: seq<Loc>, q: nat) returns (r: seq<Loc>)
    requires q < |locations| && forall i :: q <= i < |locations| ==> locations[i].list == []
    ensures r == locations[..q] + Nest(locations[q..])
    decreases |locations| - q
  {
    if q == |locations| - 1 {
      assert locations == locations[..q] + locations[q..] && |locations[q..]| == 1;
      return locations;
    }
    var lq := locations[q];
    if lq.inclusive == 0 {
      r := CreateList(locations, q + 1);
      NestSkip(locations, q);
      return;
    }
    var x := FindEnd(locations, q, lq.name);
    if q + 1 == x {
      r := CreateList(locations, x);
      NestSkip(locations, q);
      return;
    }
    var list := locations[q + 1..x];
    var nested := CreateList(list, 0);
    assert list[0..] == list && list[..0] == [];
    lq := lq.(list := nested);
    var rest := locations[..q] + [lq] + locations[x..];
    NestGroup(locations, q, x);
    Regrouped(locations[..q], lq, Nest(locations[x..]));
    assert nested == Nest(list);
    if x == |locations| {
      return rest;
    }
    assert rest[q + 1..] == locations[x..] && rest[..q + 1] == locations[..q] + [lq];
    r := CreateList(rest, q + 1);
  }

  // nothing is nested in the element at q
  lemma NestSkip(locations: seq<Loc>, q: nat)
    requires q < |locations| - 1 && (locations[q].inclusive == 0 || End(locations[q..], locations[q].name, 1) == 1)
    ensures locations[..q] + Nest(locations[q..]) == locations[..q + 1] + Nest(locations[q + 1..])
  {
    assert locations[q..][1..] == locations[q + 1..] && locations[..q + 1] == locations[..q] + [locations[q]];
    Regrouped(locations[..q], locations[q], Nest(locations[q + 1..]));
  }

  // the elements up to x are
  lemma NestGroup(locations: seq<Loc>, q: nat, x: nat)
    requires q + 1 < x <= |locations| && locations[q].inclusive != 0
    requires End(locations[q..], locations[q].name, 1) == x - q
    ensures Nest(locations[q..]) == [locations[q].(list := Nest(locations[q + 1..x]))] + Nest(locations[x..])
    ensures x == |locations| ==> Nest(locations[x..]) == [] == locations[x..]
  {
    var s := locations[q..];
    assert s[1..x - q] == locations[q + 1..x] && s[x - q..] == locations[x..];
  }

  lemma Regrouped(a: seq<Loc>, l: Loc, b: seq<Loc>)
    ensures a + ([l] + b) == a + [l] + b
  {}

  // lines 1040-1051
  method FindEnd(locations: seq<Loc>, q: nat, name: string) returns (x: nat)
    requires q < |locations|
    ensures q < x <= |locations| && x - q == End(locations[q..], name, 1)
  {
    ghost var s := locations[q..];
    x := q + 1;
    while x < |locations|
      invariant q + 1 <= x <= |locations| && End(s, name, 1) == End(s, name, x - q)
    {
      PrefixSlice(locations[x].name, name);
      if |name| > |locations[x].name| || locations[x].name[..|name|] != name {
        break;
      }
      x := x + 1;
    }
  }

  // Nesting keeps every location, once, and their order.
  lemma {:induction false} NestKeeps(s: seq<Loc>)
    requires forall i :: 0 <= i < |s| ==> s[i].list == []
    ensures Flat(Nest(s)) == s
    decreases |s|
  {
    if |s| <= 1 {
      FlatPlain(s);
    } else if s[0].inclusive == 0 || End(s, s[0].name, 1) == 1 {
      NestKeeps(s[1..]);
      KeptStep(s, 1, s[0], [], Nest(s[1..]));
    } else {
      var x := End(s, s[0].name, 1);
      NestKeeps(s[1..x]);
      NestKeeps(s[x..]);
      KeptStep(s, x, s[0].(list := Nest(s[1..x])), Nest(s[1..x]), Nest(s[x..]));
    }
  }

  lemma KeptStep(s: seq<Loc>, x: nat, head: Loc, list: seq<Loc>, rest: seq<Loc>)
    requires 1 <= x <= |s| && s[0].list == [] && head == s[0].(list := list) && Flat(list) == s[1..x]
    requires Flat(rest) == s[x..]
    ensures Flat([head] + rest) == s
  {
    NestStep(head, rest);
    assert Bare(head) == s[0];
    assert s == [s[0]] + s[1..x] + s[x..];
  }

  lemma NestStep(l: Loc, s: seq<Loc>)
    ensures Flat([l] + s) == [Bare(l)] + Flat(l.list) + Flat(s)
  {
    assert ([l] + s)[1..] == s;
  }

  // siblings are in order, and none goes on after an inclusive one
  ghost predicate Siblings(s: seq<Loc>) {
    Increasing(s) && forall i, j :: 0 <= i < j < |s| && s[i].inclusive != 0 ==> !StartsWith(s[j].name, s[i].name)
  }

  // what is nested in a location goes on after its name
  ghost predicate Deep(l: Loc)
    decreases l
  {
    && (l.list != [] ==> l.inclusive != 0) && (l.exact != 0 || l.inclusive != 0) && Siblings(l.list)
    && forall e :: e in l.list ==> StartsWith(e.name, l.name) && |e.name| > |l.name| && Deep(e)
  }

  ghost predicate Nested(s: seq<Loc>) { Siblings(s) && forall i {:trigger s[i]} :: 0 <= i < |s| ==> Deep(s[i]) }

  ghost predicate SubNames(a: seq<Loc>, b: seq<Loc>) { forall e :: e in a ==> exists f :: f in b && f.name == e.name }

  lemma {:induction false} NestNested(s: seq<Loc>)
    requires Input(s)
    ensures Nested(Nest(s)) && SubNames(Nest(s), s)
    decreases |s|
  {
    if |s| <= 1 {
      forall i | 0 <= i < |s| ensures Deep(s[i]) { PlainDeep(s[i]); }
    } else if s[0].inclusive == 0 {
      NestNested(s[1..]);
      PlainDeep(s[0]);
      Attach(s[0], Nest(s[1..]), s[1..], s);
    } else {
      var x := End(s, s[0].name, 1);
      InputParts(s, x);
      NestNested(s[x..]);
      NestNested(s[1..x]);
      NestedGroup(s, x, Nest(s[1..x]), Nest(s[x..]));
    }
  }

  lemma InputParts(s: seq<Loc>, x: nat)
    requires Input(s) && 1 <= x <= |s|
    ensures Input(s[1..x]) && Input(s[x..])
  {}

  // a location with those that go on after its name, and the rest
  lemma NestedGroup(s: seq<Loc>, x: nat, list: seq<Loc>, rest: seq<Loc>)
    requires Input(s) && 1 <= x <= |s| && s[0].inclusive != 0 && x == End(s, s[0].name, 1)
    requires Nested(list) && SubNames(list, s[1..x]) && Nested(rest) && SubNames(rest, s[x..])
    ensures var r := [if x == 1 then s[0] else s[0].(list := list)] + rest; Nested(r) && SubNames(r, s)
  {
    var head := if x == 1 then s[0] else s[0].(list := list);
    if x == 1 { PlainDeep(head); } else { HeadDeep(s, x, list); }
    forall e | e in s[x..] ensures !StartsWith(e.name, s[0].name) { Beyond(s, x, e); }
    Attach(head, rest, s[x..], s);
  }

  lemma PlainDeep(l: Loc)
    requires l.list == [] && (l.exact != 0 || l.inclusive != 0)
    ensures Deep(l)
  {}

  lemma HeadDeep(s: seq<Loc>, x: nat, list: seq<Loc>)
    requires Input(s) && 1 < x <= |s| && s[0].inclusive != 0
    requires forall i :: 1 <= i < x ==> StartsWith(s[i].name, s[0].name)
    requires Nested(list) && SubNames(list, s[1..x])
    ensures Deep(s[0].(list := list))
  {
    forall e | e in list ensures StartsWith(e.name, s[0].name) && |e.name| > |s[0].name| && Deep(e) {
      var i :| 0 <= i < |list| && list[i] == e;
      HeadElement(s, x, list, e);
    }
  }

  lemma HeadElement(s: seq<Loc>, x: nat, list: seq<Loc>, e: Loc)
    requires Input(s) && 1 < x <= |s| && (forall i :: 1 <= i < x ==> StartsWith(s[i].name, s[0].name))
    requires SubNames(list, s[1..x]) && e in list
    ensures StartsWith(e.name, s[0].name) && |e.name| > |s[0].name|
  {
    var f :| f in s[1..x] && f.name == e.name;
    var k :| 1 <= k < x && s[k] == f;
    PrefixOrder(f.name, s[0].name, s[0].name);
    StringLessOrder(s[0].name, f.name, f.name);
  }

  // names with a prefix stand together
  lemma Beyond(s: seq<Loc>, x: nat, e: Loc)
    requires Input(s) && 1 <= x <= |s| && (x < |s| ==> !StartsWith(s[x].name, s[0].name)) && e in s[x..]
    ensures !StartsWith(e.name, s[0].name)
  {
    var k :| x <= k < |s| && s[k] == e;
    if k > x && StartsWith(e.name, s[0].name) { Between(s[0].name, s[x].name, e.name); }
  }

  lemma Attach(head: Loc, t: seq<Loc>, rest: seq<Loc>, s: seq<Loc>)
    requires Nested(t) && SubNames(t, rest) && Deep(head) && Input(s) && s != [] && head.name == s[0].name
    requires forall e :: e in rest ==> e in s[1..] && (head.inclusive != 0 ==> !StartsWith(e.name, head.name))
    ensures Nested([head] + t) && SubNames([head] + t, s)
  {
    var r := [head] + t;
    forall i, j | 0 <= i < j < |r| ensures StringLess(r[i].name, r[j].name) && (r[i].inclusive != 0 ==>
        !StartsWith(r[j].name, r[i].name)) {
      if i == 0 {
        assert r[j] in t;
        var f :| f in rest && f.name == r[j].name;
        var k :| 1 <= k < |s| && s[k] == f;
      }
    }
    forall e | e in r ensures exists f :: f in s && f.name == e.name {
      if e == head { assert s[0] in s; } else {
        var f :| f in rest && f.name == e.name;
        assert f in s;
      }
    }
  }

  // --- the tree ---------------------------------------------------------------------------------------

  // ngx_queue_middle: two pointers, one twice as fast
  method Middle(s: seq<Loc>) returns (middle: nat)
    requires s != []
    ensures middle == |s| / 2
  {
    middle := 0;
    if middle == |s| - 1 {
      return;
    }
    var next := 0;
    while true
      invariant 0 <= next < |s| - 1 && next == 2 * middle
      decreases |s| - next
    {
      middle := middle + 1;
      next := next + 1;
      if next == |s| - 1 {
        return;
      }
      next := next + 1;
      if next == |s| - 1 {
        return;
      }
    }
  }

  // what ngx_http_create_locations_tree builds; prefix characters of the names are left out
  function Build(s: seq<Loc>, prefix: nat): Tree
    decreases s
  {
    if s == [] then Null
    else
      var m := |s| / 2;
      var q := s[m];
      Node(Build(s[..m], prefix), Build(s[m + 1..], prefix), Build(q.list, |q.name|), q.exact, q.inclusive, q.redirect,
           if prefix <= |q.name| then q.name[prefix..] else "")
  }

  // names, from the prefix on, fit into node->len, which is one byte
  ghost predicate Short(s: seq<Loc>, prefix: nat)
    decreases s
  {
    forall e :: e in s ==> prefix <= |e.name| <= prefix + 255 && Short(e.list, |e.name|)
  }

  lemma ShortParts(s: seq<Loc>, prefix: nat, m: nat)
    requires Short(s, prefix) && m < |s|
    ensures Short(s[..m], prefix) && Short(s[m + 1..], prefix) && Short(s[m].list, |s[m].name|)
    ensures prefix <= |s[m].name| <= prefix + 255
  {
    assert s[m] in s;
    assert forall e :: e in s[..m] || e in s[m + 1..] ==> e in s;
  }

  // lines 1111-1112: node->len is one byte
  method NodeName(name: string, prefix: nat) returns (len: nat, r: string)
    requires prefix <= |name| <= prefix + 255
    ensures len == |name| - prefix && r == name[prefix..]
  {
    len := (|name| - prefix) % 256;
    r := name[prefix..prefix + len];
  }

  // ngx_http_create_locations_tree
  method CreateTree(locations: seq<Loc>, prefix: nat) returns (node: Tree)
    requires locations != [] && Short(locations, prefix)
    ensures node == Build(locations, prefix) && node != Null
    decreases locations, 1
  {
    var m := Middle(locations);
    ShortParts(locations, prefix, m);
    var len, name := NodeName(locations[m].name, prefix);
    var left, right := CreateSides(locations, prefix, m);
    var tree := CreateBelow(locations, m, prefix + len);
    BuiltNode(locations, prefix, m);
    var q := locations[m];
    node := Node(left, right, tree, q.exact, q.inclusive, q.redirect, name);
  }

  // lines 1114-1138
  method CreateSides(locations: seq<Loc>, prefix: nat, m: nat) returns (left: Tree, right: Tree)
    requires locations != [] && Short(locations, prefix) && m == |locations| / 2
    ensures left == Build(locations[..m], prefix) && right == Build(locations[m + 1..], prefix)
    decreases locations, 0
  {
    left, right := Null, Null;
    ShortParts(locations, prefix, m);
    NoTail(locations, m, prefix);
    if locations[..m] != [] {
      left := CreateTree(locations[..m], prefix);
      if locations[m + 1..] != [] {
        right := CreateTree(locations[m + 1..], prefix);
      }
    }
  }

  // lines 1142-1149
  method CreateBelow(locations: seq<Loc>, m: nat, prefix: nat) returns (tree: Tree)
    requires m < |locations| && Short(locations[m].list, prefix)
    ensures tree == Build(locations[m].list, prefix)
    decreases locations, 0
  {
    tree := Null;
    if locations[m].list != [] {
      tree := CreateTree(locations[m].list, prefix);
    }
  }

  // ngx_queue_split() leaves nothing on the right if nothing is on the left
  lemma NoTail(s: seq<Loc>, m: nat, prefix: nat)
    requires s != [] && m == |s| / 2
    ensures s[..m] == [] ==> s[m + 1..] == []
    ensures Build([], prefix) == Null && Build([], |s[m].name|) == Null
  {}

  // the locations of a tree, in order, with their full names
  function Items(t: Tree, p: string): seq<Loc>
    decreases t
  {
    match t
    case Null => []
    case Node(left, right, tree, exact, inclusive, redirect, name) =>
      Items(left, p) + [Loc(p + name, exact, inclusive, redirect, [])] + Items(tree, p + name) + Items(right, p)
  }

  lemma SplitAt(s: seq<Loc>, m: nat)
    requires m < |s|
    ensures Flat(s) == Flat(s[..m]) + [Bare(s[m])] + Flat(s[m].list) + Flat(s[m + 1..])
  {
    Around(s, m);
    FlatAround(s[..m], s[m], s[m + 1..]);
  }

  lemma Around<T>(s: seq<T>, m: nat)
    requires m < |s|
    ensures s == s[..m] + ([s[m]] + s[m + 1..])
  {}

  lemma FlatAround(l: seq<Loc>, q: Loc, r: seq<Loc>)
    ensures Flat(l + ([q] + r)) == Flat(l) + [Bare(q)] + Flat(q.list) + Flat(r)
  {
    FlatConcat(l, [q] + r);
    NestStep(q, r);
    Regroup(Flat(l), [Bare(q)], Flat(q.list), Flat(r));
  }

  lemma Regroup(a: seq<Loc>, b: seq<Loc>, c: seq<Loc>, d: seq<Loc>)
    ensures a + (b + c + d) == a + b + c + d
  {}

  // Each location is in exactly one node, and the names along the nested trees add up to its name.
  lemma {:induction false} BuildKeeps(s: seq<Loc>, p: string)
    requires forall e :: e in s ==> Deep(e) && StartsWith(e.name, p)
    ensures Items(Build(s, |p|), p) == Flat(s)
    decreases s
  {
    if s != [] {
      var m := |s| / 2;
      var q, l, r := s[m], s[..m], s[m + 1..];
      assert q in s && forall e :: e in l || e in r ==> e in s;
      BuildKeeps(l, p);
      BuildKeeps(r, p);
      BuildKeeps(q.list, q.name);
      SplitAt(s, m);
      BuiltItems(s, p, m);
    }
  }

  lemma BuiltItems(s: seq<Loc>, p: string, m: nat)
    requires s != [] && m == |s| / 2 && StartsWith(s[m].name, p)
    ensures Items(Build(s, |p|), p) == Items(Build(s[..m], |p|), p) + [Bare(s[m])]
          + Items(Build(s[m].list, |s[m].name|), s[m].name) + Items(Build(s[m + 1..], |p|), p)
  {
    var q := s[m];
    PrefixSlice(q.name, p);
    assert p + q.name[|p|..] == q.name;
  }

  // left and right subtrees alone
  function Height(t: Tree): nat {
    if t.Null? then 0 else 1 + if Height(t.left) > Height(t.right) then Height(t.left) else Height(t.right)
  }

  lemma BuildParts(s: seq<Loc>, prefix: nat)
    requires s != []
    ensures var t, m := Build(s, prefix), |s| / 2;
        t.Node? && t.left == Build(s[..m], prefix) && t.right == Build(s[m + 1..], prefix)
  {}

  // The number of comparisons on one level is logarithmic in the number of siblings.
  lemma {:induction false} Balanced(s: seq<Loc>, prefix: nat)
    ensures Shl1(Height(Build(s, prefix))) <= if s == [] then 1 else 2 * |s|
    decreases |s|
  {
    if s != [] {
      var m := |s| / 2;
      Balanced(s[..m], prefix);
      Balanced(s[m + 1..], prefix);
      BuildParts(s, prefix);
      var t := Build(s, prefix);
      TreeHeight(t);
      OneHigher(Height(t), Height(t.left), Height(t.right), m, |s|);
    }
  }

  predicate Low(h: nat, n: nat) { Shl1(h) <= if n == 0 then 1 else 2 * n }

  lemma TreeHeight(t: Tree)
    requires t.Node?
    ensures Height(t) == 1 + if Height(t.left) > Height(t.right) then Height(t.left) else Height(t.right)
  {}

  lemma OneHigher(h: nat, l: nat, r: nat, m: nat, n: nat)
    requires h == 1 + if l > r then l else r
    requires 0 < n && m == n / 2 && Low(l, m) && Low(r, n - m - 1)
    ensures Low(h, n)
  {
    assert Shl1(h - 1) <= n by { assert Shl1(l) <= n && Shl1(r) <= n; }
    assert Shl1(h) == 2 * Shl1(h - 1);
  }

  // --- lookup ---------------------------------------------------------------------------------------------

  datatype Found = Declined | Exact(loc: nat) | Inclusive(loc: nat) | Redirect(loc: nat)

  // lines 1603-1665 as a function; best is what rv and r->loc_conf hold
  function Find(t: Tree, uri: string, best: Found): Found
    decreases t
  {
    match t
    case Null => best
    case Node(left, right, tree, exact, inclusive, redirect, name) =>
      if Order(uri, name) < 0 then Find(left, uri, best)
      else if Order(uri, name) > 0 then Find(right, uri, best)
      else if |uri| > |name| then
        if inclusive != 0 then Find(tree, uri[|name|..], Inclusive(inclusive)) else Find(right, uri, best)
      else if |uri| == |name| then
        if exact != 0 then Exact(exact) else Inclusive(inclusive)
      else Find(left, uri,
                if |uri| + 1 == |name| && redirect then Redirect(if exact != 0 then exact else inclusive) else best)
  }

  // ngx_memcmp(uri, node->name, n)
  method Compare(uri: string, name: string, n: nat) returns (rc: int)
    requires n == if |uri| <= |name| then |uri| else |name|
    ensures rc == Order(uri, name)
  {
    var i := 0;
    assert uri[0..] == uri && name[0..] == name;
    while i < n
      invariant i <= n && Order(uri, name) == Order(uri[i..], name[i..])
    {
      assert uri[i..][1..] == uri[i + 1..] && name[i..][1..] == name[i + 1..];
      if uri[i] != name[i] {
        return if uri[i] < name[i] then -1 else 1;
      }
      i := i + 1;
    }
    return 0;
  }

  // ngx_http_core_find_static_location
  method FindStaticLocation(root: Tree, uri0: string) returns (r: Found)
    ensures r == Find(root, uri0, Declined)
  {
    var node, uri, best := root, uri0, Declined;
    while node != Null
      invariant Find(node, uri, best) == Find(root, uri0, Declined)
      decreases node
    {
      var n := if |uri| <= |node.name| then |uri| else |node.name|;
      var rc := Compare(uri, node.name, n);
      if rc != 0 {
        node := if rc < 0 then node.left else node.right;
        continue;
      }
      if |uri| > |node.name| {
        if node.inclusive != 0 {
          best := Inclusive(node.inclusive);
          uri := uri[n..];
          node := node.tree;
          continue;
        }
        node := node.right;
        continue;
      }
      if |uri| == |node.name| {
        if node.exact != 0 {
          return Exact(node.exact);
        } else {
          return Inclusive(node.inclusive);
        }
      }
      if |uri| + 1 == |node.name| && node.redirect {
        best := Redirect(if node.exact != 0 then node.exact else node.inclusive);
      }
      node := node.left;
    }
    r := best;
  }

  // --- what a lookup finds ---------------------------------------------------------------------------------

  // a location that serves uri: it has this name, or it is inclusive and a prefix
  predicate Hit(e: Loc, uri: string) { e.name == uri || (e.inclusive != 0 && StartsWith(uri, e.name)) }

  ghost predicate NoHit(items: seq<Loc>, uri: string) { forall e {:trigger Hit(e, uri)} :: e in items ==> !Hit(e, uri) }

  ghost predicate BestHit(items: seq<Loc>, uri: string, e: Loc) {
    e in items && Hit(e, uri) && forall f {:trigger Hit(f, uri)} :: f in items && Hit(f, uri) ==> |f.name| <= |e.name|
  }

  function Reply(e: Loc, uri: string): Found {
    if e.name == uri && e.exact != 0 then Exact(e.exact) else Inclusive(e.inclusive)
  }

  function Target(e: Loc): nat { if e.exact != 0 then e.exact else e.inclusive }

  // a location with one more character that asks for a redirect
  ghost predicate Redirects(items: seq<Loc>, uri: string, r: Found) {
    exists d :: d in items && d.redirect && StartsWith(d.name, uri) && |d.name| == |uri| + 1
                && r == Redirect(Target(d))
  }

  // the location that serves uri with the longest name; or a redirect, if no location has this
  // name; or what was found before
  ghost predicate Answer(items: seq<Loc>, uri: string, best: Found, r: Found) {
    || (exists e :: BestHit(items, uri, e) && r == Reply(e, uri))
    || (NoHit(items, uri) && r == best)
    || (Redirects(items, uri, r) && forall e :: e in items ==> e.name != uri)
  }

  lemma HitPrefix(e: Loc, uri: string)
    ensures Hit(e, uri) ==> StartsWith(uri, e.name) && |e.name| <= |uri|
  {
    PrefixOrder(uri, e.name, "");
  }

  // below a location that does not serve uri there is none that does
  lemma {:induction false} UnderNoHit(l: Loc, uri: string)
    requires Deep(l) && !Hit(l, uri)
    ensures NoHit(Flat(l.list), uri)
    decreases l, 1
  {
    forall e | e in l.list ensures Deep(e) && !Hit(e, uri) {
      HitPrefix(e, uri);
      PrefixOrder(uri, e.name, l.name);
    }
    FlatNoHit(l.list, uri);
  }

  lemma {:induction false} FlatNoHit(s: seq<Loc>, uri: string)
    requires forall l :: l in s ==> Deep(l) && !Hit(l, uri)
    ensures NoHit(Flat(s), uri)
    decreases s, 0
  {
    if s != [] {
      assert s[0] in s;
      UnderNoHit(s[0], uri);
      FlatNoHit(s[1..], uri);
      assert Hit(Bare(s[0]), uri) == Hit(s[0], uri);
    }
  }

  // the rest of the locations does not matter
  lemma Lift(part: seq<Loc>, items: seq<Loc>, uri: string, best: Found, r: Found)
    requires Answer(part, uri, best, r) && (forall e :: e in part ==> e in items)
    requires forall e {:trigger Hit(e, uri)} :: e in items ==> e in part || !Hit(e, uri)
    ensures Answer(items, uri, best, r)
  {
    if e :| BestHit(part, uri, e) && r == Reply(e, uri) {
      assert BestHit(items, uri, e);
    } else if Redirects(part, uri, r) && forall e :: e in part ==> e.name != uri {
      var d :| d in part && d.redirect && StartsWith(d.name, uri) && |d.name| == |uri| + 1 && r == Redirect(Target(d));
      assert d in items;
      forall e | e in items ensures e.name != uri { assert e.name == uri ==> Hit(e, uri); }
    }
  }

  // --- one comparison ------------------------------------------------------------------------------------------

  ghost predicate Searching(s: seq<Loc>, p: string, uri: string, m: nat) {
    Nested(s) && m < |s| && m == |s| / 2 && StartsWith(uri, p) && forall e :: e in s ==> StartsWith(e.name, p)
  }

  lemma SkipRight(s: seq<Loc>, p: string, uri: string, m: nat)
    requires Searching(s, p, uri, m)
    requires Order(uri, s[m].name) < 0 || (Order(uri, s[m].name) == 0 && |uri| < |s[m].name|)
    ensures !Hit(s[m], uri) && NoHit(Flat(s[m].list), uri) && NoHit(Flat(s[m + 1..]), uri)
  {
    OrderIs(uri, s[m].name);
    HitPrefix(s[m], uri);
    UnderNoHit(s[m], uri);
    forall l | l in s[m + 1..] ensures Deep(l) && !Hit(l, uri) {
      var k :| m < k < |s| && s[k] == l;
      AfterMiddle(uri, s[m].name, l.name);
      HitPrefix(l, uri);
    }
    FlatNoHit(s[m + 1..], uri);
  }

  lemma SkipLeft(s: seq<Loc>, p: string, uri: string, m: nat)
    requires Searching(s, p, uri, m)
    requires Order(uri, s[m].name) > 0 || (StartsWith(uri, s[m].name) && |s[m].name| < |uri|)
    ensures NoHit(Flat(s[..m]), uri)
  {
    forall l | l in s[..m] ensures Deep(l) && !Hit(l, uri) {
      var k :| 0 <= k < m && s[k] == l;
      HitPrefix(l, uri);
      if StartsWith(uri, l.name) { BeforeMiddle(uri, s[m].name, l.name); }
    }
    FlatNoHit(s[..m], uri);
  }

  lemma SkipRightAfter(s: seq<Loc>, p: string, uri: string, m: nat)
    requires Searching(s, p, uri, m) && StartsWith(uri, s[m].name) && s[m].inclusive != 0
    ensures NoHit(Flat(s[m + 1..]), uri)
  {
    forall l | l in s[m + 1..] ensures Deep(l) && !Hit(l, uri) {
      var k :| m < k < |s| && s[k] == l;
      HitPrefix(l, uri);
      if StartsWith(uri, l.name) { AfterPrefix(uri, s[m].name, l.name); }
    }
    FlatNoHit(s[m + 1..], uri);
  }

  // a search goes on in the nested tree
  lemma Inner(part: seq<Loc>, items: seq<Loc>, uri: string, best: Found, r: Found, q: Loc)
    requires Answer(part, uri, Inclusive(q.inclusive), r) && q in items && q.inclusive != 0 && StartsWith(uri, q.name)
    requires |q.name| < |uri|
    requires forall e :: e in part ==> e in items && |e.name| > |q.name|
    requires forall e {:trigger Hit(e, uri)} :: e in items ==> e in part || e == q || !Hit(e, uri)
    ensures Answer(items, uri, best, r)
  {
    assert Hit(q, uri);
    if e :| BestHit(part, uri, e) && r == Reply(e, uri) {
      assert BestHit(items, uri, e);
    } else if Redirects(part, uri, r) && forall e :: e in part ==> e.name != uri {
      var d :| d in part && d.redirect && StartsWith(d.name, uri) && |d.name| == |uri| + 1 && r == Redirect(Target(d));
      assert d in items;
      forall e | e in items ensures e.name != uri { assert e.name == uri ==> Hit(e, uri); }
    } else {
      assert BestHit(items, uri, q) && r == Reply(q, uri);
    }
  }

  lemma {:induction false} Longer(l: Loc)
    requires Deep(l)
    ensures forall e :: e in Flat(l.list) ==> |e.name| > |l.name|
    decreases l, 1
  {
    FlatLonger(l.list, |l.name|);
  }

  lemma {:induction false} FlatLonger(s: seq<Loc>, n: nat)
    requires forall e :: e in s ==> Deep(e) && |e.name| > n
    ensures forall e :: e in Flat(s) ==> |e.name| > n
    decreases s, 0
  {
    if s != [] {
      assert s[0] in s;
      Longer(s[0]);
      FlatLonger(s[1..], n);
    }
  }

  // one turn of the loop, in terms of full names
  lemma FindStep(s: seq<Loc>, p: string, uri: string, best: Found, m: nat)
    requires Searching(s, p, uri, m)
    ensures |p| <= |uri| && |p| <= |s[m].name|
    ensures var q, r := s[m], Find(Build(s, |p|), uri[|p|..], best);
      r == if Order(uri, q.name) < 0 then Find(Build(s[..m], |p|), uri[|p|..], best)
           else if Order(uri, q.name) > 0 then Find(Build(s[m + 1..], |p|), uri[|p|..], best)
           else if |uri| > |q.name| then
             if q.inclusive != 0 then Find(Build(q.list, |q.name|), uri[|q.name|..], Inclusive(q.inclusive))
                   else Find(Build(s[m + 1..], |p|), uri[|p|..], best)
           else if |uri| == |q.name| then Reply(q, uri)
           else Find(Build(s[..m], |p|), uri[|p|..],
                     if |uri| + 1 == |q.name| && q.redirect then Redirect(Target(q)) else best)
  {
    var q := s[m];
    assert q in s;
    PrefixSlice(uri, p);
    PrefixSlice(q.name, p);
    var u, name := uri[|p|..], q.name[|p|..];
    assert Order(u, name) == Order(uri, q.name) by { StripOrder(p, uri, q.name); }
    assert Order(u, name) == 0 && |u| == |name| ==> q.name == uri by {
      OrderIs(uri, q.name);
      PrefixOrder(uri, q.name, "");
    }
    assert |u| > |name| ==> u[|name|..] == uri[|q.name|..];
    BuiltNode(s, |p|, m);
    FindNode(Build(s, |p|), u, best);
  }

  lemma BuiltNode(s: seq<Loc>, prefix: nat, m: nat)
    requires s != [] && m == |s| / 2 && prefix <= |s[m].name|
    ensures Build(s, prefix) == Node(Build(s[..m], prefix), Build(s[m + 1..], prefix), Build(s[m].list, |s[m].name|),
                                     s[m].exact, s[m].inclusive, s[m].redirect, s[m].name[prefix..])
  {}

  lemma FindNode(t: Tree, u: string, best: Found)
    requires t.Node?
    ensures Find(t, u, best) ==
      if Order(u, t.name) < 0 then Find(t.left, u, best)
      else if Order(u, t.name) > 0 then Find(t.right, u, best)
      else if |u| > |t.name| then
        if t.inclusive != 0 then Find(t.tree, u[|t.name|..], Inclusive(t.inclusive)) else Find(t.right, u, best)
      else if |u| == |t.name| then (if t.exact != 0 then Exact(t.exact) else Inclusive(t.inclusive))
      else Find(t.left, u,
                if |u| + 1 == |t.name| && t.redirect then Redirect(if t.exact != 0 then t.exact else t.inclusive)
                else best)
  {}

  // The tree built from nested locations finds the one with the longest name that serves the
  // uri; an equal name wins; a redirect is only answered if no location has the name itself.
  lemma {:induction false} Lookup(s: seq<Loc>, p: string, uri: string, best: Found)
    requires Nested(s) && StartsWith(uri, p) && forall e :: e in s ==> StartsWith(e.name, p)
    ensures |p| <= |uri| && Answer(Flat(s), uri, best, Find(Build(s, |p|), uri[|p|..], best))
    decreases s, 1
  {
    PrefixSlice(uri, p);
    if s != [] {
      var m := |s| / 2;
      var q := s[m];
      FindStep(s, p, uri, best, m);
      OrderIs(uri, q.name);
      if Order(uri, q.name) < 0 {
        SkipRight(s, p, uri, m);
        LookupLeft(s, p, uri, best, m);
      } else if Order(uri, q.name) > 0 {
        SkipLeft(s, p, uri, m);
        HitPrefix(q, uri);
        LookupRight(s, p, uri, best, m);
      } else if |uri| > |q.name| {
        SkipLeft(s, p, uri, m);
        if q.inclusive != 0 { LookupInside(s, p, uri, best, m); } else { LookupRight(s, p, uri, best, m); }
      } else if |uri| == |q.name| {
        LookupEqual(s, p, uri, best, m);
      } else {
        SkipRight(s, p, uri, m);
        LookupShort(s, p, uri, best, m);
      }
    }
  }

  lemma LookupEqual(s: seq<Loc>, p: string, uri: string, best: Found, m: nat)
    requires Searching(s, p, uri, m) && Order(uri, s[m].name) == 0 && |uri| == |s[m].name|
    ensures Answer(Flat(s), uri, best, Reply(s[m], uri))
  {
    var q := s[m];
    OrderIs(uri, q.name);
    PrefixOrder(uri, q.name, "");
    SplitAt(s, m);
    assert Hit(Bare(q), uri) && Reply(Bare(q), uri) == Reply(q, uri);
    forall f | f in Flat(s) && Hit(f, uri) ensures |f.name| <= |q.name| { HitPrefix(f, uri); }
    assert BestHit(Flat(s), uri, Bare(q));
  }

  lemma {:induction false} LookupLeft(s: seq<Loc>, p: string, uri: string, best: Found, m: nat)
    requires Searching(s, p, uri, m) && |p| <= |uri| && !Hit(s[m], uri) && NoHit(Flat(s[m].list), uri)
    requires NoHit(Flat(s[m + 1..]), uri)
    ensures Answer(Flat(s), uri, best, Find(Build(s[..m], |p|), uri[|p|..], best))
    decreases s, 0
  {
    assert Nested(s[..m]) && forall e :: e in s[..m] ==> e in s;
    Lookup(s[..m], p, uri, best);
    SplitAt(s, m);
    assert Hit(Bare(s[m]), uri) == Hit(s[m], uri);
    Lift(Flat(s[..m]), Flat(s), uri, best, Find(Build(s[..m], |p|), uri[|p|..], best));
  }

  lemma {:induction false} LookupRight(s: seq<Loc>, p: string, uri: string, best: Found, m: nat)
    requires Searching(s, p, uri, m) && |p| <= |uri| && !Hit(s[m], uri) && NoHit(Flat(s[..m]), uri)
    ensures Answer(Flat(s), uri, best, Find(Build(s[m + 1..], |p|), uri[|p|..], best))
    decreases s, 0
  {
    assert Nested(s[m + 1..]) && forall e :: e in s[m + 1..] ==> e in s;
    UnderNoHit(s[m], uri);
    Lookup(s[m + 1..], p, uri, best);
    SplitAt(s, m);
    assert Hit(Bare(s[m]), uri) == Hit(s[m], uri);
    Lift(Flat(s[m + 1..]), Flat(s), uri, best, Find(Build(s[m + 1..], |p|), uri[|p|..], best));
  }

  lemma {:induction false} LookupInside(s: seq<Loc>, p: string, uri: string, best: Found, m: nat)
    requires Searching(s, p, uri, m) && StartsWith(uri, s[m].name) && |s[m].name| < |uri| && s[m].inclusive != 0
    requires NoHit(Flat(s[..m]), uri)
    ensures var q := s[m];
        Answer(Flat(s), uri, best, Find(Build(q.list, |q.name|), uri[|q.name|..], Inclusive(q.inclusive)))
    decreases s, 0
  {
    var q := s[m];
    SkipRightAfter(s, p, uri, m);
    Lookup(q.list, q.name, uri, Inclusive(q.inclusive));
    SplitAt(s, m);
    Longer(q);
    assert Hit(Bare(q), uri) == Hit(q, uri);
    Inner(Flat(q.list), Flat(s), uri, best, Find(Build(q.list, |q.name|), uri[|q.name|..], Inclusive(q.inclusive)),
        Bare(q));
  }

  // uri ends inside the name that it is compared with
  lemma {:induction false} LookupShort(s: seq<Loc>, p: string, uri: string, best: Found, m: nat)
    requires Searching(s, p, uri, m) && |p| <= |uri| < |s[m].name| && Order(uri, s[m].name) == 0
    requires !Hit(s[m], uri) && NoHit(Flat(s[m].list), uri) && NoHit(Flat(s[m + 1..]), uri)
    ensures var q := s[m]; var best' := if |uri| + 1 == |q.name| && q.redirect then Redirect(Target(q)) else best;
      Answer(Flat(s), uri, best, Find(Build(s[..m], |p|), uri[|p|..], best'))
    decreases s, 0
  {
    var q := s[m];
    var best' := if |uri| + 1 == |q.name| && q.redirect then Redirect(Target(q)) else best;
    var r := Find(Build(s[..m], |p|), uri[|p|..], best');
    assert Nested(s[..m]) && forall e :: e in s[..m] ==> e in s;
    Lookup(s[..m], p, uri, best');
    SplitAt(s, m);
    assert Hit(Bare(q), uri) == Hit(q, uri);
    OrderIs(uri, q.name);
    if best' != best && NoHit(Flat(s[..m]), uri) && r == best' {
      assert Bare(q) in Flat(s) && Redirects(Flat(s), uri, r);
      forall e | e in Flat(s) ensures e.name != uri { assert e.name == uri ==> Hit(e, uri); }
    } else {
      if best' == best {
        Lift(Flat(s[..m]), Flat(s), uri, best, r);
      } else {
        assert Answer(Flat(s[..m]), uri, best, r);
        Lift(Flat(s[..m]), Flat(s), uri, best, r);
      }
    }
  }

  // In the tree of a sorted queue every uri finds its location.
  lemma Serves(locations: seq<Loc>, uri: string)
    requires Input(locations)
    ensures Answer(locations, uri, Declined, Find(Build(Nest(locations), 0), uri, Declined))
  {
    NestKeeps(locations);
    NestNested(locations);
    Lookup(Nest(locations), "", uri, Declined);
    assert uri[0..] == uri;
  }

  // The tree has the locations of the queue, in the same order and with their full names.
  lemma SameLocations(locations: seq<Loc>)
    requires Input(locations)
    ensures Items(Build(Nest(locations), 0), "") == locations
  {
    NestKeeps(locations);
    NestNested(locations);
    AllDeep(Nest(locations));
    BuildKeeps(Nest(locations), "");
  }

  lemma AllDeep(s: seq<Loc>)
    requires Nested(s)
    ensures forall e :: e in s ==> Deep(e) && StartsWith(e.name, "")
  {
    forall e | e in s ensures Deep(e) { var i :| 0 <= i < |s| && s[i] == e; }
  }

  lemma NestNotEmpty(s: seq<Loc>)
    requires s != []
    ensures Nest(s) != []
  {}

  // The whole way, from the sorted queue to the tree.
  method CreateLocations(locations: seq<Loc>) returns (root: Tree)
    requires Input(locations) && locations != [] && Short(Nest(locations), 0)
    ensures Items(root, "") == locations
    ensures forall uri {:trigger Find(root, uri, Declined)} ::
        Answer(locations, uri, Declined, Find(root, uri, Declined))
  {
    var nested := CreateList(locations, 0);
    assert nested == Nest(locations) by { assert locations[0..] == locations && locations[..0] == []; }
    SameLocations(locations);
    NestNotEmpty(locations);
    root := CreateTree(nested, 0);
    forall uri ensures Answer(locations, uri, Declined, Find(root, uri, Declined)) { Serves(locations, uri); }
  }

  // --- redirects ---------------------------------------------------------------------------------------------

  // auto_redirect is only set for names that end in a slash
  ghost predicate Slashed(items: seq<Loc>) {
    forall e {:trigger e.redirect} :: e in items && e.redirect ==> e.name != "" && e.name[|e.name| - 1] == '/'
  }

  // No node above that of s[i], with that of s[i] to its right, has a name after uri.
  ghost predicate Clear(s: seq<Loc>, i: nat, uri: string)
    requires i < |s|
    decreases |s|
  {
    var m := |s| / 2;
    i == m || (i < m && Clear(s[..m], i, uri)) ||
        (i > m && StringLess(s[m].name, uri) && Clear(s[m + 1..], i - m - 1, uri))
  }

  // the same for the node of the name d, in the tree that it is in
  ghost predicate Reaches(s: seq<Loc>, uri: string, d: string)
    decreases s
  {
    && (forall i {:trigger s[i]} :: 0 <= i < |s| && s[i].name == d ==> Clear(s, i, uri))
    && (forall l {:trigger l in s} :: l in s && l.inclusive != 0 && StartsWith(d, l.name) && l.name != d ==>
        Reaches(l.list, uri, d))
  }

  // a redirect for uri is due, and d asks for it
  ghost predicate Due(items: seq<Loc>, uri: string, d: Loc) {
    && d in items && d.redirect && d.name == uri + "/" && Slashed(items)
    && forall e {:trigger e in items} :: e in items ==> e.name != uri
  }

  // two siblings do not both lead to a name
  lemma OneWay(s: seq<Loc>, i: nat, j: nat, d: string)
    requires Siblings(s) && i < |s| && j < |s| && i != j && s[i].inclusive != 0
    requires s[j].inclusive != 0 || s[j].name == d
    requires StartsWith(d, s[i].name)
    ensures !StartsWith(d, s[j].name)
  {
    var a, b := s[i].name, s[j].name;
    assert if i < j then StringLess(a, b) else StringLess(b, a);
    if StartsWith(d, b) {
      PrefixOrder(d, a, b);
      PrefixOrder(d, b, a);
      OrderIs(a, b);
      OrderIs(b, a);
      StringLessOrder(a, b, a);
    }
  }

  lemma StepLeft(s: seq<Loc>, p: string, uri: string, best: Found, m: nat)
    requires Searching(s, p, uri, m) && Order(uri, s[m].name) < 0
    ensures |p| <= |uri| && Find(Build(s, |p|), uri[|p|..], best) == Find(Build(s[..m], |p|), uri[|p|..], best)
  {
    FindStep(s, p, uri, best, m);
  }

  lemma StepRight(s: seq<Loc>, p: string, uri: string, best: Found, m: nat)
    requires Searching(s, p, uri, m)
    requires Order(uri, s[m].name) > 0 || (Order(uri, s[m].name) == 0 && |uri| > |s[m].name| && s[m].inclusive == 0)
    ensures |p| <= |uri| && Find(Build(s, |p|), uri[|p|..], best) == Find(Build(s[m + 1..], |p|), uri[|p|..], best)
  {
    FindStep(s, p, uri, best, m);
  }

  lemma StepDown(s: seq<Loc>, p: string, uri: string, best: Found, m: nat)
    requires Searching(s, p, uri, m) && StartsWith(uri, s[m].name) && |s[m].name| < |uri| && s[m].inclusive != 0
    ensures |p| <= |uri|
    ensures Find(Build(s, |p|), uri[|p|..], best)
        == Find(Build(s[m].list, |s[m].name|), uri[|s[m].name|..], Inclusive(s[m].inclusive))
  {
    OrderIs(uri, s[m].name);
    FindStep(s, p, uri, best, m);
  }

  lemma Parts(s: seq<Loc>, p: string, m: nat)
    requires Nested(s) && m < |s| && forall e :: e in s ==> StartsWith(e.name, p)
    ensures Nested(s[..m]) && Nested(s[m + 1..]) && forall e :: e in s[..m] || e in s[m + 1..] ==> e in s
  {}

  lemma TurnsLeft(s: seq<Loc>, p: string, uri: string, m: nat, i: nat)
    requires Searching(s, p, uri, m) && i < m && s[i].inclusive != 0 && StartsWith(uri, s[i].name) && s[m].name != uri
    ensures Order(uri, s[m].name) < 0
  {
    assert StringLess(s[i].name, s[m].name) && !StartsWith(s[m].name, s[i].name);
    OrderIs(uri, s[m].name);
    OrderIs(s[m].name, s[i].name);
    StringLessOrder(s[i].name, s[m].name, "");
    PrefixOrder(s[m].name, uri, s[i].name);
    PrefixOrder(uri, s[m].name, s[i].name);
    PrefixOrder(uri, s[i].name, s[m].name);
    if Order(uri, s[m].name) > 0 { BeforeMiddle(uri, s[m].name, s[i].name); }
  }

  lemma TurnsRight(s: seq<Loc>, p: string, uri: string, m: nat, i: nat)
    requires Searching(s, p, uri, m) && m < i < |s| && s[i].inclusive != 0 && StartsWith(uri, s[i].name)
    requires s[m].name != uri
    ensures Order(uri, s[m].name) > 0 || (Order(uri, s[m].name) == 0 && |uri| > |s[m].name| && s[m].inclusive == 0)
  {
    OrderIs(uri, s[m].name);
    PrefixOrder(uri, s[m].name, "");
    if Order(uri, s[m].name) < 0 || (Order(uri, s[m].name) == 0 && |uri| < |s[m].name|) {
      AfterMiddle(uri, s[m].name, s[i].name);
    } else if s[m].inclusive != 0 && StartsWith(uri, s[m].name) {
      OneWay(s, i, m, uri);
    }
  }

  // the inclusive location l lies above uri
  predicate Through(l: Loc, uri: string) { l.inclusive != 0 && StartsWith(uri, l.name) && |l.name| < |uri| }

  // searching the siblings s answers r
  ghost predicate Leads(s: seq<Loc>, p: string, uri: string, best: Found, r: Found) {
    |p| <= |uri| && Find(Build(s, |p|), uri[|p|..], best) == r
  }

  lemma LeadsLeft(s: seq<Loc>, p: string, uri: string, best: Found, i: nat, m: nat, r: Found)
    requires Searching(s, p, uri, m) && i < m && Through(s[i], uri) && s[m].name != uri
    requires Leads(s[..m], p, uri, best, r)
    ensures Leads(s, p, uri, best, r)
  {
    TurnsLeft(s, p, uri, m, i);
    StepLeft(s, p, uri, best, m);
  }

  lemma LeadsRight(s: seq<Loc>, p: string, uri: string, best: Found, i: nat, m: nat, r: Found)
    requires Searching(s, p, uri, m) && m < i < |s| && Through(s[i], uri) && s[m].name != uri
    requires Leads(s[m + 1..], p, uri, best, r)
    ensures Leads(s, p, uri, best, r)
  {
    TurnsRight(s, p, uri, m, i);
    StepRight(s, p, uri, best, m);
  }

  // what the search below l answers
  ghost function Below(l: Loc, uri: string): Found
    requires |l.name| <= |uri|
  {
    Find(Build(l.list, |l.name|), uri[|l.name|..], Inclusive(l.inclusive))
  }

  // The search goes down through an inclusive location that uri goes on after.
  lemma {:induction false} GoesDown(s: seq<Loc>, p: string, uri: string, best: Found, i: nat)
    requires Nested(s) && StartsWith(uri, p) && (forall e :: e in s ==> StartsWith(e.name, p))
    requires i < |s| && Through(s[i], uri) && forall e :: e in s ==> e.name != uri
    ensures Leads(s, p, uri, best, Below(s[i], uri))
    decreases |s|
  {
    var m := |s| / 2;
    Parts(s, p, m);
    assert s[m] in s;
    if i < m {
      GoesDown(s[..m], p, uri, best, i);
      LeadsLeft(s, p, uri, best, i, m, Below(s[i], uri));
    } else if i > m {
      GoesDown(s[m + 1..], p, uri, best, i - m - 1);
      LeadsRight(s, p, uri, best, i, m, Below(s[i], uri));
    } else {
      StepDown(s, p, uri, best, m);
    }
  }

  predicate Asks(l: Loc, uri: string) { l.redirect && StartsWith(l.name, uri) && |l.name| == |uri| + 1 }

  // a comparison that ends inside the name, with no redirect
  lemma StepShort(s: seq<Loc>, p: string, uri: string, best: Found, m: nat)
    requires Searching(s, p, uri, m) && StringLess(uri, s[m].name)
    ensures |p| <= |uri|
    ensures Find(Build(s, |p|), uri[|p|..], best)
         == Find(Build(s[..m], |p|), uri[|p|..], if Asks(s[m], uri) then Redirect(Target(s[m])) else best)
  {
    OrderIs(uri, s[m].name);
    FindStep(s, p, uri, best, m);
  }

  lemma StepLong(s: seq<Loc>, p: string, uri: string, best: Found, m: nat)
    requires Searching(s, p, uri, m) && StringLess(s[m].name, uri) && !Hit(s[m], uri)
    ensures |p| <= |uri| && Find(Build(s, |p|), uri[|p|..], best) == Find(Build(s[m + 1..], |p|), uri[|p|..], best)
  {
    OrderIs(uri, s[m].name);
    OrderIs(s[m].name, uri);
    StringLessOrder(s[m].name, uri, "");
    StepRight(s, p, uri, best, m);
  }

  // nothing on this level has to do with uri
  lemma {:induction false} Quiet(s: seq<Loc>, p: string, uri: string, best: Found)
    requires Nested(s) && StartsWith(uri, p) && (forall e :: e in s ==> StartsWith(e.name, p))
    requires forall e :: e in s ==> !Hit(e, uri) && !Asks(e, uri)
    ensures |p| <= |uri| && Find(Build(s, |p|), uri[|p|..], best) == best
    decreases |s|
  {
    PrefixSlice(uri, p);
    if s != [] {
      var m := |s| / 2;
      Parts(s, p, m);
      assert s[m] in s;
      StringLessOrder(uri, s[m].name, "");
      if StringLess(uri, s[m].name) {
        StepShort(s, p, uri, best, m);
        Quiet(s[..m], p, uri, best);
      } else {
        StepLong(s, p, uri, best, m);
        Quiet(s[m + 1..], p, uri, best);
      }
    }
  }

  // among siblings that do not serve uri, s[i] alone asks for a redirect
  ghost predicate Alone(s: seq<Loc>, p: string, uri: string, i: nat) {
    && Nested(s) && StartsWith(uri, p) && (forall e :: e in s ==> StartsWith(e.name, p))
    && i < |s| && (forall e :: e in s ==> !Hit(e, uri) && (Asks(e, uri) <==> e == s[i]))
  }

  lemma AloneOrder(s: seq<Loc>, p: string, uri: string, i: nat, m: nat)
    requires Alone(s, p, uri, i) && m == |s| / 2
    ensures Searching(s, p, uri, m) && !Hit(s[m], uri) && (Asks(s[m], uri) <==> m == i) && s[i] in s
    ensures i <= m || !StringLess(s[m].name, uri) ==> StringLess(uri, s[m].name)
  {
    assert s[m] in s && s[i] in s;
    Apart(s, i);
    OrderIs(uri, s[i].name);
    StringLessOrder(uri, s[m].name, s[i].name);
    StringLessOrder(uri, s[i].name, s[m].name);
    StringLessOrder(s[m].name, s[i].name, uri);
  }

  lemma AloneLeft(s: seq<Loc>, p: string, uri: string, i: nat, m: nat)
    requires Alone(s, p, uri, i) && i < m == |s| / 2
    ensures Alone(s[..m], p, uri, i)
  {
    Parts(s, p, m);
    assert s[..m][i] == s[i];
  }

  lemma AloneRight(s: seq<Loc>, p: string, uri: string, i: nat, m: nat)
    requires Alone(s, p, uri, i) && i > m == |s| / 2
    ensures Alone(s[m + 1..], p, uri, i - m - 1)
  {
    Parts(s, p, m);
    assert s[m + 1..][i - m - 1] == s[i];
  }

  lemma BeforeAlone(s: seq<Loc>, p: string, uri: string, i: nat, m: nat)
    requires Alone(s, p, uri, i) && i >= m == |s| / 2
    ensures Nested(s[..m])
    ensures forall e :: e in s[..m] ==> StartsWith(e.name, p) && !Hit(e, uri) && !Asks(e, uri)
  {
    Parts(s, p, m);
    Apart(s, i);
  }

  lemma ClearParts(s: seq<Loc>, i: nat, uri: string, m: nat)
    requires i < |s| && m == |s| / 2
    ensures i == m ==> Clear(s, i, uri)
    ensures i < m ==> Clear(s, i, uri) == Clear(s[..m], i, uri)
    ensures i > m ==> Clear(s, i, uri) == (StringLess(s[m].name, uri) && Clear(s[m + 1..], i - m - 1, uri))
  {}

  // what the search among siblings comes to
  ghost predicate Comes(s: seq<Loc>, p: string, uri: string, best: Found, i: nat)
    requires i < |s| && |p| <= |uri|
  {
    Find(Build(s, |p|), uri[|p|..], best) == if Clear(s, i, uri) then Redirect(Target(s[i])) else best
  }

  lemma LevelHere(s: seq<Loc>, p: string, uri: string, best: Found, i: nat, m: nat)
    requires Alone(s, p, uri, i) && m == |s| / 2 && (i == m || (i > m && !StringLess(s[m].name, uri)))
    ensures |p| <= |uri| && Comes(s, p, uri, best, i)
  {
    AloneOrder(s, p, uri, i, m);
    BeforeAlone(s, p, uri, i, m);
    ClearParts(s, i, uri, m);
    StepShort(s, p, uri, best, m);
    Quiet(s[..m], p, uri, if i == m then Redirect(Target(s[i])) else best);
  }

  lemma LevelLeft(s: seq<Loc>, p: string, uri: string, best: Found, i: nat, m: nat)
    requires Alone(s, p, uri, i) && m == |s| / 2 && i < m && |p| <= |uri| && Comes(s[..m], p, uri, best, i)
    ensures Comes(s, p, uri, best, i)
  {
    AloneOrder(s, p, uri, i, m);
    ClearParts(s, i, uri, m);
    StepShort(s, p, uri, best, m);
  }

  lemma LevelRight(s: seq<Loc>, p: string, uri: string, best: Found, i: nat, m: nat)
    requires Alone(s, p, uri, i) && m == |s| / 2 && i > m && StringLess(s[m].name, uri)
    requires |p| <= |uri| && Comes(s[m + 1..], p, uri, best, i - m - 1)
    ensures Comes(s, p, uri, best, i)
  {
    AloneOrder(s, p, uri, i, m);
    ClearParts(s, i, uri, m);
    StepLong(s, p, uri, best, m);
  }

  // Among siblings the redirect is found exactly if the way to it is clear.
  lemma {:induction false} Level(s: seq<Loc>, p: string, uri: string, best: Found, i: nat)
    requires Alone(s, p, uri, i)
    ensures |p| <= |uri| && Comes(s, p, uri, best, i)
    decreases |s|
  {
    var m := |s| / 2;
    if i < m {
      AloneLeft(s, p, uri, i, m);
      Level(s[..m], p, uri, best, i);
      LevelLeft(s, p, uri, best, i, m);
    } else if i > m && StringLess(s[m].name, uri) {
      AloneRight(s, p, uri, i, m);
      Level(s[m + 1..], p, uri, best, i - m - 1);
      LevelRight(s, p, uri, best, i, m);
    } else {
      LevelHere(s, p, uri, best, i, m);
    }
  }

  lemma Apart(s: seq<Loc>, i: nat)
    requires Siblings(s) && i < |s|
    ensures forall j {:trigger s[j]} :: 0 <= j < |s| && j != i ==> s[j] != s[i]
  {
    forall j | 0 <= j < |s| && j != i ensures s[j] != s[i] { StringLessOrder(s[j].name, s[i].name, ""); }
  }

  lemma {:induction false} FlatHas(s: seq<Loc>, j: nat)
    requires j < |s|
    ensures Bare(s[j]) in Flat(s) && forall e :: e in Flat(s[j].list) ==> e in Flat(s)
    decreases |s|
  {
    if j > 0 {
      assert s[1..][j - 1] == s[j];
      FlatHas(s[1..], j - 1);
    }
  }

  // where a location stands among nested ones
  lemma {:induction false} FlatMember(s: seq<Loc>, d: Loc) returns (i: nat)
    requires d in Flat(s)
    ensures i < |s| && (d == Bare(s[i]) || d in Flat(s[i].list))
    decreases |s|
  {
    i := 0;
    if d != Bare(s[0]) && d !in Flat(s[0].list) {
      i := FlatMember(s[1..], d);
      i := i + 1;
    }
  }

  lemma {:induction false} Under(l: Loc)
    requires Deep(l)
    ensures forall e :: e in Flat(l.list) ==> StartsWith(e.name, l.name)
    decreases l, 1
  {
    FlatUnder(l.list, l.name);
  }

  lemma {:induction false} FlatUnder(s: seq<Loc>, name: string)
    requires forall e :: e in s ==> Deep(e) && StartsWith(e.name, name)
    ensures forall e :: e in Flat(s) ==> StartsWith(e.name, name)
    decreases s, 0
  {
    if s != [] {
      assert s[0] in s;
      Under(s[0]);
      forall e | e in Flat(s[0].list) ensures StartsWith(e.name, name) { PrefixOrder(e.name, s[0].name, name); }
      FlatUnder(s[1..], name);
    }
  }

  lemma Slash(uri: string)
    ensures StartsWith(uri + "/", uri) && |uri + "/"| == |uri| + 1
  {
    assert (uri + "/")[..|uri|] == uri;
    PrefixSlice(uri + "/", uri);
  }

  lemma AsksFor(e: Loc, uri: string, items: seq<Loc>)
    requires Slashed(items) && Bare(e) in items && Asks(e, uri)
    ensures e.name == uri + "/"
  {
    assert Bare(e).redirect;
    PrefixSlice(e.name, uri);
    assert e.name == e.name[..|uri|] + [e.name[|uri|]];
  }

  // the redirect is one of the siblings
  lemma HereAlone(s: seq<Loc>, p: string, uri: string, d: Loc, i: nat)
    requires Nested(s) && StartsWith(uri, p) && (forall e :: e in s ==> StartsWith(e.name, p))
    requires Due(Flat(s), uri, d) && i < |s| && d == Bare(s[i])
    ensures Alone(s, p, uri, i) && (Reaches(s, uri, d.name) <==> Clear(s, i, uri))
  {
    Slash(uri);
    forall j | 0 <= j < |s| ensures !Hit(s[j], uri) && (Asks(s[j], uri) <==> s[j] == s[i])
      ensures s[j].name == d.name ==> j == i
      ensures s[j].inclusive != 0 && StartsWith(d.name, s[j].name) ==> s[j].name == d.name
    {
      FlatHas(s, j);
      PrefixOrder(d.name, uri, s[j].name);
      PrefixOrder(uri, s[j].name, "");
      StringLessOrder(s[i].name, s[j].name, "");
      if j != i && s[j].inclusive != 0 && StartsWith(d.name, s[j].name) { OneWay(s, j, i, d.name); }
      if Asks(s[j], uri) { AsksFor(s[j], uri, Flat(s)); }
    }
    forall e | e in s ensures !Hit(e, uri) && (Asks(e, uri) <==> e == s[i]) { var j :| 0 <= j < |s| && s[j] == e; }
    forall l | l in s && l.inclusive != 0 && StartsWith(d.name, l.name)
      ensures l.name == d.name
    {
      var j :| 0 <= j < |s| && s[j] == l;
    }
  }

  // the redirect is nested in one of the siblings
  lemma ThereBelow(s: seq<Loc>, p: string, uri: string, d: Loc, i: nat)
    requires Nested(s) && Due(Flat(s), uri, d) && i < |s| && d in Flat(s[i].list)
    ensures s[i].inclusive != 0 && StartsWith(uri, s[i].name) && |s[i].name| < |uri| && Nested(s[i].list)
    ensures Due(Flat(s[i].list), uri, d)
    ensures (forall e :: e in s[i].list ==> StartsWith(e.name, s[i].name)) && (forall e :: e in s ==> e.name != uri)
    ensures Reaches(s, uri, d.name) <==> Reaches(s[i].list, uri, d.name)
  {
    Slash(uri);
    FlatHas(s, i);
    Longer(s[i]);
    Under(s[i]);
    PrefixOrder(d.name, uri, s[i].name);
    PrefixOrder(uri, s[i].name, "");
    forall e | e in s ensures e.name != uri {
      var j :| 0 <= j < |s| && s[j] == e;
      FlatHas(s, j);
    }
    assert s[i].name != uri && s[i] in s;
    forall j | 0 <= j < |s| && j != i
      ensures s[j].name != d.name && !(s[j].inclusive != 0 && StartsWith(d.name, s[j].name))
    {
      PrefixOrder(d.name, d.name, "");
      if s[j].name == d.name || s[j].inclusive != 0 { OneWay(s, i, j, d.name); }
    }
    forall l | l in s && l != s[i] && l.inclusive != 0
      ensures !StartsWith(d.name, l.name)
    {
      var j :| 0 <= j < |s| && s[j] == l;
    }
  }

  // A redirect that is due is answered exactly if the search reaches its node.
  lemma {:induction false} Redirected(s: seq<Loc>, p: string, uri: string, best: Found, d: Loc)
    requires Nested(s) && StartsWith(uri, p) && (forall e :: e in s ==> StartsWith(e.name, p)) && Due(Flat(s), uri, d)
    ensures |p| <= |uri|
    ensures Reaches(s, uri, d.name) ==> Find(Build(s, |p|), uri[|p|..], best) == Redirect(Target(d))
    ensures !Reaches(s, uri, d.name) && !best.Redirect? ==> !Find(Build(s, |p|), uri[|p|..], best).Redirect?
    decreases s
  {
    var i := FlatMember(s, d);
    if d == Bare(s[i]) {
      HereAlone(s, p, uri, d, i);
      Level(s, p, uri, best, i);
    } else {
      ThereBelow(s, p, uri, d, i);
      GoesDown(s, p, uri, best, i);
      Redirected(s[i].list, s[i].name, uri, Inclusive(s[i].inclusive), d);
    }
  }

  // For a uri that lacks the slash of a location that redirects, and is no location itself, the
  // lookup redirects exactly if no node above that of the location, and to its left, has a name
  // after the uri; otherwise it answers as if there were no redirect.
  lemma RedirectIff(locations: seq<Loc>, uri: string, d: Loc)
    requires Input(locations) && Due(locations, uri, d)
    ensures Find(Build(Nest(locations), 0), uri, Declined) == Redirect(Target(d)) <==>
        Reaches(Nest(locations), uri, uri + "/")
    ensures !Reaches(Nest(locations), uri, uri + "/") ==> !Find(Build(Nest(locations), 0), uri, Declined).Redirect?
  {
    NestKeeps(locations);
    NestNested(locations);
    Redirected(Nest(locations), "", uri, Declined, d);
    assert uri[0..] == uri;
  }

  lemma {:induction false} NothingBetween(s: seq<Loc>, i: nat, uri: string, d: string)
    requires Increasing(s) && i < |s| && s[i].name == d
    requires forall e :: e in s && StringLess(e.name, d) ==> StringLess(e.name, uri)
    ensures Clear(s, i, uri)
    decreases |s|
  {
    var m := |s| / 2;
    assert s[m] in s;
    if i < m { NothingBetween(s[..m], i, uri, d); }
    if i > m { NothingBetween(s[m + 1..], i - m - 1, uri, d); }
  }

  lemma {:induction false} AllReached(s: seq<Loc>, uri: string, d: string)
    requires Nested(s) && forall e :: e in Flat(s) && StringLess(e.name, d) ==> StringLess(e.name, uri)
    ensures Reaches(s, uri, d)
    decreases s
  {
    forall e | e in s && StringLess(e.name, d) ensures StringLess(e.name, uri) {
      var j :| 0 <= j < |s| && s[j] == e;
      FlatHas(s, j);
      assert Bare(s[j]).name == e.name;
    }
    forall i | 0 <= i < |s| && s[i].name == d ensures Clear(s, i, uri) { NothingBetween(s, i, uri, d); }
    forall l | l in s ensures Reaches(l.list, uri, d) {
      var j :| 0 <= j < |s| && s[j] == l;
      FlatHas(s, j);
      AllReached(l.list, uri, d);
    }
  }

  // The redirect is found if no location comes between the uri and the one with the slash.
  lemma RedirectFound(locations: seq<Loc>, uri: string, d: Loc)
    requires Input(locations) && Due(locations, uri, d)
    requires forall e :: e in locations && StringLess(uri, e.name) ==> !StringLess(e.name, d.name)
    ensures Find(Build(Nest(locations), 0), uri, Declined) == Redirect(Target(d))
  {
    NestKeeps(locations);
    NestNested(locations);
    forall e | e in locations && StringLess(e.name, d.name)
      ensures StringLess(e.name, uri)
    {
      StringLessOrder(e.name, uri, "");
    }
    AllReached(Nest(locations), uri, d.name);
    RedirectIff(locations, uri, d);
  }

  // It can be missed: "/a/" comes after "/a-b" and "/a-c", since '/' comes after '-', and the
  // search for "/a" turns left at the middle one.
  lemma MissedRedirect(s: seq<Loc>)
    requires s == [Loc("/a-b", 0, 1, false, []), Loc("/a-c", 0, 2, false, []), Loc("/a/", 0, 3, true, [])]
    ensures Input(s) && Due(s, "/a", s[2]) && Find(Build(Nest(s), 0), "/a", Declined) == Declined
  {
    NotNested(s);
    assert "/a" + "/" == "/a/";
    var left := s[..1];
    assert left == [s[0]] && left[..0] == [] && left[1..] == [];
    assert Build(left, 0) == Node(Null, Null, Null, 0, 1, false, "/a-b") by { assert "/a-b"[0..] == "/a-b"; }
    assert Build(s, 0).name == "/a-c" && Build(s, 0).left == Build(left, 0) by { assert "/a-c"[0..] == "/a-c"; }
    OrderIs("/a", "/a-b");
    OrderIs("/a", "/a-c");
    PrefixSlice("/a-b", "/a");
    PrefixSlice("/a-c", "/a");
  }

  lemma NotNested(s: seq<Loc>)
    requires s == [Loc("/a-b", 0, 1, false, []), Loc("/a-c", 0, 2, false, []), Loc("/a/", 0, 3, true, [])]
    ensures Nest(s) == s && Increasing(s)
  {
    PrefixSlice("/a-c", "/a-b");
    PrefixSlice("/a/", "/a-c");
    assert s[1..][1..] == [s[2]] && Nest([s[2]]) == [s[2]];
    assert Nest(s[1..]) == [s[1]] + [s[2]];
    assert "/a-b"[1..] == "a-b" && "/a-c"[1..] == "a-c" && "/a/"[1..] == "a/";
    assert "a-b"[1..] == "-b" && "a-c"[1..] == "-c" && "a/"[1..] == "/" && "-b"[1..] == "b" && "-c"[1..] == "c";
  }
}
