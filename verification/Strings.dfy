// Strings without NUL characters, and the order of strcmp().
module Strings {

  // ngx_strcmp(a, b) < 0
  predicate StringLess(a: string, b: string) {
    if b == "" then false
    else if a == "" then true
    else a[0] < b[0] || (a[0] == b[0] && StringLess(a[1..], b[1..]))
  }

  lemma {:induction false} StringLessOrder(a: string, b: string, c: string)
    ensures StringLess(a, b) ==> !StringLess(b, a) && a != b
    ensures !StringLess(b, a) && !StringLess(c, b) ==> !StringLess(c, a)
    ensures StringLess(a, b) && !StringLess(c, b) ==> StringLess(a, c)
    ensures !StringLess(a, b) && !StringLess(b, a) ==> a == b
  {
    if a != "" && b != "" && c != "" {
      StringLessOrder(a[1..], b[1..], c[1..]);
      assert a == [a[0]] + a[1..] && b == [b[0]] + b[1..];
    } else if a != "" && b != "" {
      StringLessOrder(a[1..], b[1..], "");
      assert a == [a[0]] + a[1..] && b == [b[0]] + b[1..];
    }
  }

  // p is a prefix of s
  predicate StartsWith(s: string, p: string) {
    p == "" || (s != "" && s[0] == p[0] && StartsWith(s[1..], p[1..]))
  }

  lemma {:induction false} PrefixSlice(s: string, p: string)
    ensures StartsWith(s, p) <==> |p| <= |s| && s[..|p|] == p
    decreases |p|
  {
    if p == "" {
      assert s[..0] == "";
    } else if s != "" {
      PrefixSlice(s[1..], p[1..]);
      if |p| <= |s| {
        assert s[..|p|] == [s[0]] + s[1..][..|p| - 1];
        assert p == [p[0]] + p[1..];
      }
    }
  }

  lemma {:induction false} PrefixOrder(a: string, b: string, c: string)
    ensures StartsWith(a, a)
    ensures StartsWith(a, b) ==> |b| <= |a| && (|b| == |a| ==> a == b)
    ensures StartsWith(a, b) && StartsWith(b, c) ==> StartsWith(a, c)
    ensures StartsWith(a, b) && StartsWith(a, c) && |c| <= |b| ==> StartsWith(b, c)
    decreases |a|
  {
    if a != "" {
      PrefixOrder(a[1..], if b == "" then "" else b[1..], if c == "" then "" else c[1..]);
      assert a == [a[0]] + a[1..];
      if b != "" { assert b == [b[0]] + b[1..]; }
    }
  }

  // strncmp(a, b, n) for the length n of the shorter string: -1, 0 or 1
  function Order(a: string, b: string): int {
    if a == "" || b == "" then 0
    else if a[0] == b[0] then Order(a[1..], b[1..])
    else if a[0] < b[0] then -1 else 1
  }

  lemma {:induction false} OrderIs(a: string, b: string)
    ensures StringLess(a, b) <==> Order(a, b) < 0 || (Order(a, b) == 0 && |a| < |b|)
    ensures Order(a, b) == 0 && |b| <= |a| <==> StartsWith(a, b)
    ensures Order(a, b) == 0 && |a| <= |b| <==> StartsWith(b, a)
    decreases |a|
  {
    if a != "" && b != "" { OrderIs(a[1..], b[1..]); }
  }

  // what comes after m is no prefix of a string before m, and not of a shorter one
  lemma {:induction false} AfterMiddle(u: string, m: string, r: string)
    requires StringLess(m, r) && (Order(u, m) < 0 || (Order(u, m) == 0 && |u| < |m|))
    ensures !StartsWith(u, r)
    decreases |u|
  {
    if u != "" && u[0] == m[0] && r[0] == u[0] { AfterMiddle(u[1..], m[1..], r[1..]); }
  }

  // what comes before m and is a prefix of a string after m is a prefix of m
  lemma {:induction false} BeforeMiddle(u: string, m: string, l: string)
    requires StringLess(l, m) && (Order(u, m) > 0 || (StartsWith(u, m) && |m| < |u|)) && StartsWith(u, l)
    ensures StartsWith(m, l) && |l| < |u|
    decreases |u|
  {
    if l != "" && m != "" && u[0] == m[0] { BeforeMiddle(u[1..], m[1..], l[1..]); }
  }

  // what comes after a prefix m of a string, and is itself one, goes on after m
  lemma {:induction false} AfterPrefix(u: string, m: string, r: string)
    requires StartsWith(u, m) && StartsWith(u, r) && StringLess(m, r)
    ensures StartsWith(r, m)
    decreases |u|
  {
    if m != "" { AfterPrefix(u[1..], m[1..], r[1..]); }
  }

  lemma {:induction false} StripOrder(p: string, a: string, b: string)
    requires StartsWith(a, p) && StartsWith(b, p)
    ensures |p| <= |a| && |p| <= |b| && Order(a[|p|..], b[|p|..]) == Order(a, b)
    ensures StartsWith(a[|p|..], b[|p|..]) == StartsWith(a, b) && (a[|p|..] == b[|p|..] <==> a == b)
    decreases |p|
  {
    PrefixSlice(a, p);
    PrefixSlice(b, p);
    assert a == p + a[|p|..] && b == p + b[|p|..];
    if p != "" {
      StripOrder(p[1..], a[1..], b[1..]);
      assert a[1..][|p| - 1..] == a[|p|..] && b[1..][|p| - 1..] == b[|p|..];
    } else {
      assert a[0..] == a && b[0..] == b;
    }
  }

  // the strings between two that go on after p go on after p
  lemma {:induction false} Between(p: string, a: string, b: string)
    requires StringLess(p, a) && StringLess(a, b) && StartsWith(b, p)
    ensures StartsWith(a, p)
    decreases |p|
  {
    if p != "" { Between(p[1..], a[1..], b[1..]); }
  }
}
