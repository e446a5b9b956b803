// src/core/ngx_hash.c: wildcard tables. A name such as "*.example.com" is stored as
// "com.example." and ".example.com" as "com.example"; "example.*" is stored as "example".
module WildcardHash {

  // A table value with its two low bits: 00 is data, 01 data for subdomains only, 10 a
  // table that also matches the name itself, 11 a table for subdomains only.
  datatype Entry = Data(value: nat) | WildOnly(value: nat) | Sub(table: Wildcard) | SubOnly(table: Wildcard)

  // ngx_hash_wildcard_t; its ngx_hash_t is taken as an exact map from labels
  datatype Wildcard = Wildcard(hash: map<string, Entry>, value: nat)

  // --- names ---------------------------------------------------------------------------------

  // where the first label ends
  function Cut(s: string): (r: nat)
    ensures r <= |s| && (r < |s| ==> s[r] == '.') && forall i :: 0 <= i < r ==> s[i] != '.'
  {
    if s == "" || s[0] == '.' then 0 else 1 + Cut(s[1..])
  }

  function First(s: string): string { s[..Cut(s)] }
  predicate HasDot(s: string) { Cut(s) < |s| }
  function Rest(s: string): string
    requires HasDot(s)
  {
    s[Cut(s) + 1..]
  }

  // where the last label starts
  function Start(q: string): (r: nat)
    ensures r <= |q| && (r > 0 ==> q[r - 1] == '.') && forall i :: r <= i < |q| ==> q[i] != '.'
  {
    if q == "" || q[|q| - 1] == '.' then |q| else Start(q[..|q| - 1])
  }

  function Last(q: string): string { q[Start(q)..] }
  predicate More(q: string) { Start(q) > 0 }
  function Front(q: string): string
    requires More(q)
  {
    q[..Start(q) - 1]
  }

  // --- what a stored name means -----------------------------------------------------------------

  // a host name q, read from its last l, matches the stored name
  predicate Matches(key: string, q: string)
    decreases |key|
  {
    First(key) == Last(q) &&
    (!HasDot(key) || (More(q) && (Rest(key) == "" || Matches(Rest(key), Front(q)))))
  }

  // the number of labels of a stored name
  function Labels(key: string): nat
    decreases |key|
  {
    if HasDot(key) && Rest(key) != "" then 1 + Labels(Rest(key)) else 1
  }

  type Names = map<string, nat>

  ghost predicate Best(m: Names, q: string, key: string) {
    key in m && Matches(key, q) && forall k :: k in m && Matches(k, q) ==> Labels(k) <= Labels(key)
  }

  // no name is stored both as ".s" and as "*.s"
  ghost predicate NoConflict(m: Names) { forall k {:trigger k in m} :: k in m ==> k + "." !in m && m[k] != 0 }

  // --- lookup ------------------------------------------------------------------------------------

  // ngx_hash_find_wc_head
  function FindHead(w: Wildcard, q: string): nat
    decreases |q|
  {
    if Last(q) !in w.hash then w.value
    else
      match w.hash[Last(q)]
      case Data(v) => v
      case WildOnly(v) => if More(q) then v else 0
      case Sub(t) =>
        if !More(q) then t.value
        else var v := FindHead(t, Front(q)); if v != 0 then v else t.value
      case SubOnly(t) =>
        if !More(q) then 0
        else var v := FindHead(t, Front(q)); if v != 0 then v else t.value
  }

  // --- what a table stands for ---------------------------------------------------------------------

  function Under(l: string, rest: string): string { l + "." + rest }

  // the names below a label
  ghost function Below(m: Names, l: string): Names {
    map r | r in (set k | k in m && HasDot(k) && First(k) == l && Rest(k) != "" :: Rest(k)) && Under(l, r) in m ::
        m[Under(l, r)]
  }

  ghost predicate EntryOk(e: Entry, m: Names, l: string)
    decreases e, 0
  {
    var plain, star := l in m, l + "." in m;
    var below := Below(m, l);
    match e
    case Data(v) => plain && below == map[] && v == m[l]
    case WildOnly(v) => !plain && star && below == map[] && v == m[l + "."]
    case Sub(t) => plain && below != map[] && t.value == m[l] && Rep(t, below)
    case SubOnly(t) => !plain && below != map[] && t.value == (if star then m[l + "."] else 0) && Rep(t, below)
  }

  // the table holds the names m
  ghost predicate Rep(w: Wildcard, m: Names)
    decreases w, 1
  {
    && (forall k {:trigger First(k)} :: k in m ==> First(k) in w.hash)
    && (forall l {:trigger w.hash[l]} :: l in w.hash ==> '.' !in l && EntryOk(w.hash[l], m, l))
  }

  // --- names and labels ---------------------------------------------------------------------------

  lemma {:induction false} CutOf(l: string, t: string)
    requires '.' !in l
    ensures Cut(l) == |l| && Cut(l + "." + t) == |l|
  {
    if l != "" {
      assert '.' !in l[1..];
      CutOf(l[1..], t);
      assert (l + "." + t)[1..] == l[1..] + "." + t;
    } else {
      assert l + "." + t == "." + t;
    }
  }

  lemma UnderParts(l: string, r: string)
    requires '.' !in l
    ensures HasDot(Under(l, r)) && First(Under(l, r)) == l && Rest(Under(l, r)) == r && !HasDot(l) && First(l) == l
  {
    CutOf(l, r);
  }

  lemma Splits(k: string)
    ensures '.' !in First(k) && k == if HasDot(k) then Under(First(k), Rest(k)) else First(k)
  {}

  lemma InBelow(m: Names, l: string, r: string)
    requires '.' !in l
    ensures r in Below(m, l) <==> r != "" && Under(l, r) in m
    ensures r in Below(m, l) ==> Below(m, l)[r] == m[Under(l, r)]
  {
    UnderParts(l, r);
    if r != "" && Under(l, r) in m {
      assert HasDot(Under(l, r)) && First(Under(l, r)) == l && Rest(Under(l, r)) != "";
    }
    forall k | k in m && HasDot(k) && First(k) == l && Rest(k) == r ensures k == Under(l, r) { Splits(k); }
  }

  lemma BelowNoConflict(m: Names, l: string)
    requires NoConflict(m) && '.' !in l
    ensures NoConflict(Below(m, l))
  {
    forall r | r in Below(m, l) ensures r + "." !in Below(m, l) && Below(m, l)[r] != 0 {
      InBelow(m, l, r);
      InBelow(m, l, r + ".");
      assert Under(l, r) + "." == Under(l, r + ".");
      assert Under(l, r) in m;
    }
  }

  // the stored names that match q: its last label alone, with a dot, or above a name that matches the front of q
  lemma MatchCases(m: Names, q: string, k: string)
    requires k in m && Matches(k, q)
    ensures '.' !in Last(q) && First(k) == Last(q)
    ensures var l := Last(q);
      || k == l || (k == Under(l, "") && More(q))
      || (HasDot(k) && k == Under(l, Rest(k)) && More(q) && Rest(k) in Below(m, l) && Matches(Rest(k), Front(q)))
    ensures Labels(k) == if k == Last(q) || k == Under(Last(q), "") then 1 else 1 + Labels(Rest(k))
  {
    var l := Last(q);
    Splits(k);
    UnderParts(l, "");
    if HasDot(k) { InBelow(m, l, Rest(k)); UnderParts(l, Rest(k)); }
  }

  lemma MatchesPlain(l: string, q: string)
    requires Last(q) == l && '.' !in l
    ensures Matches(l, q) && Labels(l) == 1 && (Matches(Under(l, ""), q) <==> More(q)) && Labels(Under(l, "")) == 1
  {
    UnderParts(l, "");
  }

  lemma MatchesUnder(l: string, r: string, q: string)
    requires Last(q) == l && '.' !in l && r != ""
    ensures Matches(Under(l, r), q) <==> More(q) && Matches(r, Front(q))
    ensures Labels(Under(l, r)) == 1 + Labels(r)
  {
    UnderParts(l, r);
  }

  ghost predicate NoMatch(m: Names, q: string) { forall k {:trigger Matches(k, q)} :: k in m ==> !Matches(k, q) }

  // the outcome of a lookup: the best match, or the value of the table or nothing
  ghost predicate Found(m: Names, q: string, r: nat, default: nat) {
    (exists key :: Best(m, q, key) && r == m[key]) || (NoMatch(m, q) && (r == 0 || r == default))
  }

  // a match below a label is the best one
  lemma BestBelow(m: Names, q: string, r: string)
    requires '.' !in Last(q) && More(q) && Best(Below(m, Last(q)), Front(q), r)
    ensures Best(m, q, Under(Last(q), r)) && m[Under(Last(q), r)] == Below(m, Last(q))[r]
  {
    var l := Last(q);
    InBelow(m, l, r);
    MatchesUnder(l, r, q);
    forall k | k in m && Matches(k, q) ensures Labels(k) <= Labels(Under(l, r)) { MatchCases(m, q, k); }
  }

  // without one, only the label itself can match
  lemma OwnResult(m: Names, q: string)
    requires NoConflict(m) && '.' !in Last(q) && (More(q) ==> NoMatch(Below(m, Last(q)), Front(q)))
    ensures Last(q) in m ==> Best(m, q, Last(q))
    ensures Last(q) !in m && Under(Last(q), "") in m && More(q) ==> Best(m, q, Under(Last(q), ""))
    ensures Last(q) !in m && !(Under(Last(q), "") in m && More(q)) ==> NoMatch(m, q)
  {
    var l := Last(q);
    MatchesPlain(l, q);
    assert Under(l, "") == l + ".";
    forall k | k in m && Matches(k, q) ensures k == l || (k == Under(l, "") && More(q)) {
      MatchCases(m, q, k);
    }
    assert l in m ==> l + "." !in m;
  }

  // ngx_hash_find_wc_head finds the stored name with the most labels that matches.
  lemma {:induction false} HeadFinds(w: Wildcard, m: Names, q: string)
    requires Rep(w, m) && NoConflict(m)
    ensures Found(m, q, FindHead(w, q), w.value)
    decreases |q|
  {
    var l := Last(q);
    if l !in w.hash {
      forall k | k in m ensures !Matches(k, q) { assert First(k) in w.hash; }
    } else {
      assert EntryOk(w.hash[l], m, l);
      assert Under(l, "") == l + ".";
      if (w.hash[l].Sub? || w.hash[l].SubOnly?) && More(q) {
        var t := w.hash[l].table;
        BelowNoConflict(m, l);
        HeadFinds(t, Below(m, l), Front(q));
        if r :| Best(Below(m, l), Front(q), r) && FindHead(t, Front(q)) == Below(m, l)[r] {
          BestBelow(m, q, r);
          assert Below(m, l)[r] != 0;
        } else {
          OwnResult(m, q);
        }
      } else {
        OwnResult(m, q);
      }
    }
  }

  // the loops of lines 69-83, then the recursion of lines 89-149
  method FindWcHead(w: Wildcard, name: string) returns (value: nat)
    ensures value == FindHead(w, name)
    decreases |name|
  {
    var n := |name|;
    while n > 0
      invariant 0 <= n <= |name| && forall i :: n <= i < |name| ==> name[i] != '.'
    {
      if name[n - 1] == '.' {
        break;
      }
      n := n - 1;
    }
    LastStart(name, n);
    if name[n..] in w.hash {
      match w.hash[name[n..]] {
        case Sub(t) =>
          if n == 0 {
            return t.value;
          }
          value := FindWcHead(t, name[..n - 1]);
          if value != 0 {
            return;
          }
          return t.value;
        case SubOnly(t) =>
          if n == 0 {
            return 0;
          }
          value := FindWcHead(t, name[..n - 1]);
          if value != 0 {
            return;
          }
          return t.value;
        case WildOnly(v) =>
          if n == 0 {
            return 0;
          }
          return v;
        case Data(v) => return v;
      }
    }
    return w.value;
  }

  lemma {:induction false} LastStart(q: string, n: nat)
    requires n <= |q| && (n > 0 ==> q[n - 1] == '.') && forall i :: n <= i < |q| ==> q[i] != '.'
    ensures Start(q) == n
  {}

  // --- names that end in a wildcard ------------------------------------------------------------------

  // a host name q, read from its first label, goes on after the stored name
  predicate MatchesTail(key: string, q: string)
    decreases |key|
  {
    HasDot(q) && First(key) == First(q) && (!HasDot(key) || MatchesTail(Rest(key), Rest(q)))
  }

  ghost predicate BestTail(m: Names, q: string, key: string) {
    key in m && MatchesTail(key, q) && forall k :: k in m && MatchesTail(k, q) ==> Labels(k) <= Labels(key)
  }

  ghost predicate NoMatchTail(m: Names, q: string) { forall k {:trigger MatchesTail(k, q)} :: k in m ==> !MatchesTail(k,
                              q) }

  ghost predicate FoundTail(m: Names, q: string, r: nat, default: nat) {
    (exists key :: BestTail(m, q, key) && r == m[key]) || (NoMatchTail(m, q) && (r == 0 || r == default))
  }

  // names without the wildcard label do not end with a dot
  ghost predicate NoTrailingDot(m: Names) {
    forall k {:trigger k in m} :: k in m ==> k != "" && k[|k| - 1] != '.' && m[k] != 0
  }

  // ngx_hash_find_wc_tail
  method FindWcTail(w: Wildcard, name: string) returns (value: nat)
    ensures value == FindTail(w, name)
    decreases |name|
  {
    var i := 0;
    while i < |name|
      invariant i <= |name| && forall j :: 0 <= j < i ==> name[j] != '.'
    {
      if name[i] == '.' {
        break;
      }
      i := i + 1;
    }
    FirstEnd(name, i);
    if i == |name| {
      return 0;
    }
    if name[..i] in w.hash {
      match w.hash[name[..i]] {
        case Data(v) => return v;
        case WildOnly(v) => return v + 1;
        case Sub(t) =>
          value := FindWcTail(t, name[i + 1..]);
          if value != 0 {
            return;
          }
          return t.value;
        case SubOnly(t) =>
          value := FindWcTail(t, name[i + 1..]);
          if value != 0 {
            return;
          }
          return t.value;
      }
    }
    return w.value;
  }

  lemma {:induction false} FirstEnd(s: string, n: nat)
    requires n <= |s| && (n < |s| ==> s[n] == '.') && forall i :: 0 <= i < n ==> s[i] != '.'
    ensures Cut(s) == n
  {}

  function FindTail(w: Wildcard, q: string): nat
    decreases |q|
  {
    if !HasDot(q) then 0
    else if First(q) !in w.hash then w.value
    else
      match w.hash[First(q)]
      case Data(v) => v
      case WildOnly(v) => v + 1
      case Sub(t) => var v := FindTail(t, Rest(q)); if v != 0 then v else t.value
      case SubOnly(t) => var v := FindTail(t, Rest(q)); if v != 0 then v else t.value
  }

  lemma TailCases(m: Names, q: string, k: string)
    requires NoTrailingDot(m) && k in m && HasDot(q) && First(k) == First(q)
    ensures '.' !in First(q) && (HasDot(k) <==> k != First(q))
    ensures HasDot(k) ==>
        Rest(k) in Below(m, First(q)) && k == Under(First(q), Rest(k)) && Labels(k) == 1 + Labels(Rest(k))
    ensures !HasDot(k) ==> MatchesTail(k, q) && Labels(k) == 1
  {
    var l := First(q);
    Splits(k);
    UnderParts(l, "");
    if HasDot(k) { InBelow(m, l, Rest(k)); UnderParts(l, Rest(k)); }
  }

  lemma BelowNoTrailingDot(m: Names, l: string)
    requires NoTrailingDot(m) && '.' !in l
    ensures NoTrailingDot(Below(m, l))
  {
    forall r | r in Below(m, l) ensures r != "" && r[|r| - 1] != '.' && Below(m, l)[r] != 0 {
      InBelow(m, l, r);
      assert Under(l, r) in m && Under(l, r)[|Under(l, r)| - 1] == r[|r| - 1];
    }
  }

  lemma BestTailBelow(m: Names, q: string, r: string)
    requires NoTrailingDot(m) && HasDot(q) && BestTail(Below(m, First(q)), Rest(q), r)
    ensures BestTail(m, q, Under(First(q), r)) && m[Under(First(q), r)] == Below(m, First(q))[r]
  {
    var l := First(q);
    InBelow(m, l, r);
    UnderParts(l, r);
    forall k | k in m && MatchesTail(k, q) ensures Labels(k) <= Labels(Under(l, r)) { TailCases(m, q, k); }
  }

  lemma NotBelowTail(m: Names, q: string, k: string)
    requires NoTrailingDot(m) && HasDot(q) && NoMatchTail(Below(m, First(q)), Rest(q)) && k in m
    ensures MatchesTail(k, q) ==> k == First(q)
  {
    if First(k) == First(q) {
      TailCases(m, q, k);
      if HasDot(k) { assert !MatchesTail(Rest(k), Rest(q)); }
    }
  }

  lemma OwnTail(m: Names, q: string)
    requires NoTrailingDot(m) && HasDot(q) && NoMatchTail(Below(m, First(q)), Rest(q))
    ensures First(q) in m ==> BestTail(m, q, First(q))
    ensures First(q) !in m ==> NoMatchTail(m, q)
  {
    var l := First(q);
    UnderParts(l, "");
    if l in m { TailCases(m, q, l); }
    forall k | k in m ensures MatchesTail(k, q) ==> k == l { NotBelowTail(m, q, k); }
  }

  // ngx_hash_find_wc_tail finds the stored name with the most labels that q goes on after.
  lemma {:induction false} TailFinds(w: Wildcard, m: Names, q: string)
    requires Rep(w, m) && NoTrailingDot(m)
    ensures FoundTail(m, q, FindTail(w, q), w.value)
    decreases |q|
  {
    if HasDot(q) {
      var l := First(q);
      if l !in w.hash {
        forall k | k in m ensures !MatchesTail(k, q) { assert First(k) in w.hash; }
      } else {
        assert EntryOk(w.hash[l], m, l);
        assert (l + ".")[|l|] == '.' && |l + "."| == |l| + 1;
        if w.hash[l].Sub? || w.hash[l].SubOnly? {
          var t := w.hash[l].table;
          BelowNoTrailingDot(m, l);
          TailFinds(t, Below(m, l), Rest(q));
          if r :| BestTail(Below(m, l), Rest(q), r) && FindTail(t, Rest(q)) == Below(m, l)[r] {
            BestTailBelow(m, q, r);
            assert Below(m, l)[r] != 0;
          } else {
            OwnTail(m, q);
          }
        } else {
          OwnTail(m, q);
        }
      }
    }
  }

  // --- building a table -----------------------------------------------------------------------------

  // ngx_hash_key_t
  datatype Key = Key(name: string, value: nat)

  // in ngx_dns_strcmp the dot comes before all characters of a host name
  function Rank(c: char): int { if c == '.' then 32 else c as int }
  ghost predicate Clean(s: string) { forall i :: 0 <= i < |s| ==> s[i] as int > 32 }

  // ngx_dns_strcmp(a, b) < 0, for names in lower case
  predicate DnsLess(a: string, b: string) {
    if b == "" then false
    else if a == "" then true
    else if a[0] == b[0] then DnsLess(a[1..], b[1..])
    else Rank(a[0]) < Rank(b[0])
  }

  ghost predicate Sorted(names: seq<Key>) {
    && (forall i :: 0 <= i < |names| ==> Clean(names[i].name))
    && (forall i, j :: 0 <= i < j < |names| ==> DnsLess(names[i].name, names[j].name))
  }

  // the array holds the names m
  ghost predicate Stores(names: seq<Key>, m: Names) {
    && (forall i {:trigger names[i]} :: 0 <= i < |names| ==> names[i].name in m && m[names[i].name] == names[i].value)
    && (forall k {:trigger k in m} :: k in m ==> exists i :: 0 <= i < |names| && names[i].name == k)
  }

  lemma {:induction false} LessUnder(l: string, a: string, b: string)
    ensures DnsLess(Under(l, a), Under(l, b)) == DnsLess(a, b)
  {
    if l == "" {
      assert Under(l, a)[1..] == a && Under(l, b)[1..] == b;
    } else {
      assert Under(l, a)[1..] == Under(l[1..], a) && Under(l, b)[1..] == Under(l[1..], b);
      LessUnder(l[1..], a, b);
    }
  }

  // the names with one first label stand together
  lemma {:induction false} Together(a: string, b: string, c: string)
    requires Clean(a) && Clean(b) && Clean(c) && DnsLess(a, b) && DnsLess(b, c) && First(a) == First(c)
    ensures First(b) == First(a)
    decreases |a|
  {
    if a == "" || a[0] == '.' {
      assert First(c) == "" ==> c == "" || c[0] == '.';
    } else {
      assert First(a)[0] == a[0] && c != "" && c[0] == a[0] && c[0] != '.';
      Tail(a); Tail(b); Tail(c);
      Together(a[1..], b[1..], c[1..]);
    }
  }

  lemma Tail(s: string)
    requires s != "" && s[0] != '.'
    ensures First(s) == [s[0]] + First(s[1..]) && Cut(s) == 1 + Cut(s[1..]) && (Clean(s) ==> Clean(s[1..]))
  {
    var n := Cut(s[1..]);
    assert Cut(s) == 1 + n;
    assert s[..1 + n] == [s[0]] + s[1..][..n];
  }

  // the label itself comes first, then the label with a dot
  lemma {:induction false} OwnFirst(a: string, b: string)
    requires Clean(a) && Clean(b) && DnsLess(a, b) && First(a) == First(b)
    ensures HasDot(b) && (HasDot(a) ==> Rest(b) != "")
    decreases |a|
  {
    if a != "" && a[0] != '.' {
      assert First(a)[0] == a[0] && b != "" && b[0] == a[0];
      Tail(a); Tail(b);
      OwnFirst(a[1..], b[1..]);
    }
  }

  // lines 508-515: the length of the first label
  method LabelLength(s: string) returns (len: nat, dot: bool)
    ensures len == Cut(s) && dot == HasDot(s)
  {
    len, dot := 0, false;
    while len < |s|
      invariant len <= |s| && forall i :: 0 <= i < len ==> s[i] != '.'
    {
      if s[len] == '.' {
        dot := true;
        break;
      }
      len := len + 1;
    }
    FirstEnd(s, len);
  }

  // the tests of lines 558-567 on a later name: same label, and not only the same beginning
  predicate SameGroup(head: string, s: string, len: nat, dot: bool)
    requires len <= |head|
  {
    len <= |s| && s[..len] == head[..len] && (dot || |s| <= len || s[len] == '.')
  }

  lemma GroupTest(head: string, s: string, len: nat, dot: bool)
    requires dot == HasDot(head) && len == Cut(head) + (if dot then 1 else 0) && Clean(head) && Clean(s)
    requires DnsLess(head, s)
    ensures SameGroup(head, s, len, dot) <==> First(s) == First(head)
  {
    if SameGroup(head, s, len, dot) { SameLabel(head, s, len, dot); }
    if First(s) == First(head) {
      OwnFirst(head, s);
      SameBeginning(head, s, len, dot);
    }
  }

  lemma SameLabel(head: string, s: string, len: nat, dot: bool)
    requires dot == HasDot(head) && len == Cut(head) + (if dot then 1 else 0) && SameGroup(head, s, len, dot)
    ensures First(s) == First(head)
  {
    var cut := Cut(head);
    forall x | 0 <= x < len ensures s[x] == head[x] { assert s[..len][x] == head[..len][x]; }
    FirstEnd(s, cut);
  }

  lemma SameBeginning(head: string, s: string, len: nat, dot: bool)
    requires dot == HasDot(head) && len == Cut(head) + (if dot then 1 else 0) && First(s) == First(head) && HasDot(s)
    ensures SameGroup(head, s, len, dot)
  {
    var cut := Cut(head);
    assert Cut(s) == |First(s)| == cut;
    forall x | 0 <= x < len ensures s[x] == head[x] {
      if x < cut { assert First(s)[x] == First(head)[x]; }
    }
  }

  // the names of one group, n .. i
  ghost predicate Group(names: seq<Key>, n: nat, i: nat) {
    n < i <= |names| && (forall j :: n <= j < i ==> First(names[j].name) == First(names[n].name))
  }

  // whether the first name of a group is the label alone, with or without a dot
  function Own(names: seq<Key>, n: nat): nat
    requires n < |names|
  {
    if HasDot(names[n].name) && Rest(names[n].name) != "" then 0 else 1
  }

  ghost predicate CroppedAt(names: seq<Key>, k: nat, r: Key) {
    k < |names| && HasDot(names[k].name) && r == Key(Rest(names[k].name), names[k].value)
  }

  // the names below the label of a group, with the label cut off: lines 540-583
  ghost predicate Cropped(names: seq<Key>, n: nat, i: nat, next: seq<Key>) {
    && Group(names, n, i) && |next| + Own(names, n) == i - n
    && forall j {:trigger next[j]} :: 0 <= j < |next| ==> CroppedAt(names, n + Own(names, n) + j, next[j])
  }

  lemma CroppedSorted(names: seq<Key>, n: nat, i: nat, next: seq<Key>)
    requires Sorted(names) && Cropped(names, n, i, next)
    ensures Sorted(next)
  {
    forall j | 0 <= j < |next| ensures Clean(next[j].name) { CroppedClean(names, n + Own(names, n) + j, next[j]); }
    forall j, k | 0 <= j < k < |next| ensures DnsLess(next[j].name, next[k].name) {
      CroppedLess(names, n + Own(names, n) + j, n + Own(names, n) + k, next[j], next[k]);
    }
  }

  lemma CroppedClean(names: seq<Key>, k: nat, r: Key)
    requires Sorted(names) && CroppedAt(names, k, r)
    ensures Clean(r.name)
  {
    assert forall x :: 0 <= x < |r.name| ==> r.name[x] == names[k].name[Cut(names[k].name) + 1 + x];
  }

  lemma CroppedLess(names: seq<Key>, k: nat, k': nat, r: Key, r': Key)
    requires Sorted(names) && CroppedAt(names, k, r) && CroppedAt(names, k', r') && k < k'
    requires First(names[k].name) == First(names[k'].name)
    ensures DnsLess(r.name, r'.name)
  {
    Splits(names[k].name);
    Splits(names[k'].name);
    LessUnder(First(names[k].name), r.name, r'.name);
  }

  // all names with the label of the group are in the group
  ghost predicate WholeGroup(names: seq<Key>, n: nat, i: nat) {
    Group(names, n, i) && forall j :: 0 <= j < |names| && First(names[j].name) == First(names[n].name) ==> n <= j < i
  }

  // no name of the group but the first can be the label alone, with or without a dot
  lemma Deeper(names: seq<Key>, m: Names, n: nat, i: nat, j: nat)
    requires Sorted(names) && Stores(names, m) && NoConflict(m) && Group(names, n, i) && n < j < i
    ensures HasDot(names[j].name) && Rest(names[j].name) != ""
    ensures names[j].name == Under(First(names[n].name), Rest(names[j].name))
  {
    OwnFirst(names[n].name, names[j].name);
    Splits(names[n].name);
    Splits(names[j].name);
    assert Under(First(names[n].name), "") == First(names[n].name) + ".";
    assert !HasDot(names[n].name) ==> names[n].name in m && names[n].name + "." !in m;
  }

  lemma CroppedStored(names: seq<Key>, m: Names, n: nat, i: nat, k: nat, r: Key)
    requires Sorted(names) && Stores(names, m) && NoConflict(m) && Group(names, n, i) && n + Own(names, n) <= k < i
    requires CroppedAt(names, k, r)
    ensures r.name in Below(m, First(names[n].name)) && Below(m, First(names[n].name))[r.name] == r.value
  {
    var l := First(names[n].name);
    Splits(names[n].name);
    if k > n { Deeper(names, m, n, i, k); }
    Splits(names[k].name);
    InBelow(m, l, r.name);
  }

  lemma StoredCropped(names: seq<Key>, m: Names, n: nat, i: nat, next: seq<Key>, r: string)
    requires Sorted(names) && Stores(names, m) && NoConflict(m) && WholeGroup(names, n, i) && Cropped(names, n, i, next)
    requires r in Below(m, First(names[n].name))
    ensures exists j :: 0 <= j < |next| && next[j].name == r
  {
    var x := StoredUnder(names, m, n, i, r);
    UnderParts(First(names[n].name), r);
    assert CroppedAt(names, x, next[x - n - Own(names, n)]);
    assert next[x - n - Own(names, n)].name == r;
  }

  lemma StoredUnder(names: seq<Key>, m: Names, n: nat, i: nat, r: string) returns (x: nat)
    requires Stores(names, m) && WholeGroup(names, n, i) && r in Below(m, First(names[n].name))
    ensures n + Own(names, n) <= x < i && i <= |names| && names[x].name == Under(First(names[n].name), r)
    ensures '.' !in First(names[n].name)
  {
    var l := First(names[n].name);
    Splits(names[n].name);
    InBelow(m, l, r);
    UnderParts(l, r);
    x :| 0 <= x < |names| && names[x].name == Under(l, r);
  }

  lemma CroppedStores(names: seq<Key>, m: Names, n: nat, i: nat, next: seq<Key>)
    requires Sorted(names) && Stores(names, m) && NoConflict(m) && WholeGroup(names, n, i) && Cropped(names, n, i, next)
    ensures Stores(next, Below(m, First(names[n].name)))
  {
    var below := Below(m, First(names[n].name));
    forall j | 0 <= j < |next| ensures next[j].name in below && below[next[j].name] == next[j].value {
      CroppedStored(names, m, n, i, n + Own(names, n) + j, next[j]);
    }
    forall r | r in below
      ensures exists j :: 0 <= j < |next| && next[j].name == r
    {
      StoredCropped(names, m, n, i, next, r);
    }
  }

  // lines 585-607
  ghost predicate EntryFor(names: seq<Key>, n: nat, next: seq<Key>, t: Wildcard, e: Entry)
    requires n < |names|
  {
    var head, dot := names[n], HasDot(names[n].name);
    if next != [] then
      t.value == (if Own(names, n) == 0 then 0 else head.value) && e == if dot then SubOnly(t) else Sub(t)
    else e == if dot then WildOnly(head.value) else Data(head.value)
  }

  lemma EntryIsOk(names: seq<Key>, m: Names, n: nat, i: nat, next: seq<Key>, t: Wildcard, e: Entry)
    requires Sorted(names) && Stores(names, m) && NoConflict(m) && WholeGroup(names, n, i) && Cropped(names, n, i, next)
    requires EntryFor(names, n, next, t, e) && (next != [] ==> Rep(t, Below(m, First(names[n].name))))
    ensures EntryOk(e, m, First(names[n].name))
  {
    var l, head := First(names[n].name), names[n].name;
    CroppedStores(names, m, n, i, next);
    Splits(head);
    UnderParts(l, "");
    assert Under(l, "") == l + ".";
    forall x | 0 <= x < |names| && (names[x].name == l || names[x].name == l + ".") ensures x == n {
      if n < x { Deeper(names, m, n, i, x); }
    }
    assert Below(m, l) == map[] <==> next == [] by {
      if next != [] { assert next[0].name in Below(m, l); }
    }
  }

  // lines 532-583: the rest of the group, with the label cut off
  method CollectGroup(names: seq<Key>, n: nat, cut: nat, dot: bool, ghost bound: nat)
    returns (i: nat, next: seq<Key>, len: nat)
    requires Sorted(names) && n < |names| && (forall j :: 0 <= j < |names| ==> |names[j].name| <= bound)
    requires cut == Cut(names[n].name) && dot == HasDot(names[n].name)
    requires forall j :: 0 <= j < n ==> First(names[j].name) != First(names[n].name)
    ensures WholeGroup(names, n, i) && Cropped(names, n, i, next) && (|names[n].name| == len <==> Own(names, n) == 1)
    ensures forall j :: 0 <= j < |next| ==> |next[j].name| < bound
  {
    len := cut;
    var dotLen := len + 1;
    if dot {
      len := len + 1;
    }
    next := [];
    if |names[n].name| != len {
      next := next + [Key(names[n].name[len..], names[n].value)];
    }
    i := n + 1;
    while i < |names|
      invariant Cropped(names, n, i, next)
      invariant forall j :: 0 <= j < |next| ==> |next[j].name| < bound
    {
      GroupTest(names[n].name, names[i].name, len, dot);
      if !SameGroup(names[n].name, names[i].name, len, dot) {
        break;
      }
      OwnFirst(names[n].name, names[i].name);
      assert CroppedAt(names, i, Key(names[i].name[dotLen..], names[i].value));
      next := next + [Key(names[i].name[dotLen..], names[i].value)];
      i := i + 1;
    }
    forall j | 0 <= j < |names| && First(names[j].name) == First(names[n].name) ensures n <= j < i {
      if i < j { Together(names[n].name, names[i].name, names[j].name); }
    }
  }

  // lines 508-608 for one group of names
  method BuildGroup(names: seq<Key>, n: nat, ghost m: Names, ghost bound: nat) returns (i: nat, l: string, e: Entry)
    requires Sorted(names) && Stores(names, m) && NoConflict(m) && n < |names|
    requires forall j :: 0 <= j < |names| ==> |names[j].name| <= bound
    requires forall j :: 0 <= j < n ==> First(names[j].name) != First(names[n].name)
    ensures WholeGroup(names, n, i) && l == First(names[n].name) && EntryOk(e, m, l)
    decreases bound, 0
  {
    var cut, dot := LabelLength(names[n].name);
    l := names[n].name[..cut];
    var next, len;
    i, next, len := CollectGroup(names, n, cut, dot, bound);
    var wdc := Wildcard(map[], 0);
    if |next| > 0 {
      CroppedSorted(names, n, i, next);
      CroppedStores(names, m, n, i, next);
      UnderParts(l, "");
      BelowNoConflict(m, l);
      assert |next[0].name| < bound;
      wdc := WildcardInit(next, Below(m, l), bound - 1);
      if |names[n].name| == len {
        wdc := wdc.(value := names[n].value);
      }
      e := if dot then SubOnly(wdc) else Sub(wdc);
    } else if dot {
      e := WildOnly(names[n].value);
    } else {
      e := Data(names[n].value);
    }
    EntryIsOk(names, m, n, i, next, wdc, e);
  }

  // ngx_hash_wildcard_init
  method WildcardInit(names: seq<Key>, ghost m: Names, ghost bound: nat) returns (w: Wildcard)
    requires Sorted(names) && Stores(names, m) && NoConflict(m)
    requires forall j :: 0 <= j < |names| ==> |names[j].name| <= bound
    ensures Rep(w, m) && w.value == 0
    decreases bound, 1
  {
    var currNames: map<string, Entry> := map[];
    var n := 0;
    while n < |names|
      invariant n <= |names|
      invariant Grouped(names, m, n, currNames)
      decreases |names| - n
    {
      var i, l, e := BuildGroup(names, n, m, bound);
      GroupedNext(names, m, n, i, currNames, e);
      currNames := currNames[l := e];
      n := i;
    }
    w := Wildcard(currNames, 0);
    forall k | k in m ensures First(k) in currNames {
      var j :| 0 <= j < |names| && names[j].name == k;
    }
  }

  // the labels of the first n names have their entries, and no later name has one of them
  ghost predicate Grouped(names: seq<Key>, m: Names, n: nat, hash: map<string, Entry>) {
    && n <= |names| && (forall j :: 0 <= j < n ==> First(names[j].name) in hash)
    && (forall l {:trigger hash[l]} :: l in hash ==> '.' !in l && EntryOk(hash[l], m, l))
    && forall j, k :: 0 <= j < n <= k < |names| ==> First(names[j].name) != First(names[k].name)
  }

  lemma GroupedNext(names: seq<Key>, m: Names, n: nat, i: nat, hash: map<string, Entry>, e: Entry)
    requires Grouped(names, m, n, hash) && n < |names| && WholeGroup(names, n, i) && EntryOk(e, m, First(names[n].name))
    ensures Grouped(names, m, i, hash[First(names[n].name) := e])
  {
    Splits(names[n].name);
  }

  // --- the combined lookup -----------------------------------------------------------------------------

  datatype Optional = None | Some(table: Wildcard)

  // the table that ngx_hash_wildcard_init built for these names, if there are any
  ghost predicate Built(t: Optional, m: Names) { if t.Some? then Rep(t.table, m) && t.table.value == 0 else m == map[] }

  // An exact name comes first, then the best "*.s", then the best "s.*".
  ghost predicate Combined(exact: Names, head: Names, tail: Names, name: string, value: nat) {
    if name in exact && exact[name] != 0 then value == exact[name]
    else if name == "" then value == 0
    else if !NoMatch(head, name) then exists key :: Best(head, name, key) && value == head[key]
    else if !NoMatchTail(tail, name) then exists key :: BestTail(tail, name, key) && value == tail[key]
    else value == 0
  }

  // ngx_hash_find_combined
  method FindCombined(exact: map<string, nat>, wcHead: Optional, wcTail: Optional, name: string, ghost head: Names,
                      ghost tail: Names)
    returns (value: nat)
    requires Built(wcHead, head) && NoConflict(head) && Built(wcTail, tail) && NoTrailingDot(tail)
    ensures Combined(exact, head, tail, name, value)
  {
    if wcHead.Some? { Answers(wcHead.table, head, name); }
    if wcTail.Some? { TailAnswers(wcTail.table, tail, name); }
    if name in exact {
      value := exact[name];
      if value != 0 {
        return;
      }
    }
    if |name| == 0 {
      return 0;
    }
    if wcHead.Some? {
      value := FindWcHead(wcHead.table, name);
      if value != 0 {
        return;
      }
    }
    if wcTail.Some? {
      value := FindWcTail(wcTail.table, name);
      if value != 0 {
        return;
      }
    }
    return 0;
  }

  // A table built by ngx_hash_wildcard_init answers nothing exactly when no stored name matches.
  lemma Answers(w: Wildcard, m: Names, q: string)
    requires Rep(w, m) && NoConflict(m) && w.value == 0
    ensures FindHead(w, q) == 0 <==> NoMatch(m, q)
    ensures FindHead(w, q) != 0 ==> exists key :: Best(m, q, key) && FindHead(w, q) == m[key]
  {
    HeadFinds(w, m, q);
  }

  lemma TailAnswers(w: Wildcard, m: Names, q: string)
    requires Rep(w, m) && NoTrailingDot(m) && w.value == 0
    ensures FindTail(w, q) == 0 <==> NoMatchTail(m, q)
    ensures FindTail(w, q) != 0 ==> exists key :: BestTail(m, q, key) && FindTail(w, q) == m[key]
  {
    TailFinds(w, m, q);
    if key :| BestTail(m, q, key) && FindTail(w, q) == m[key] { assert m[key] != 0; }
  }
}
