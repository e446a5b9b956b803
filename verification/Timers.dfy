// src/event/ngx_event_timer.c and ngx_event_timer.h: timers kept in a red-black
// tree whose keys are the low 64 bits of millisecond deadlines.
module Timers {
  import opened RbtreeShape
  import opened RbtreeColour
  import opened Rbtree

  const NGX_TIMER_INFINITE: Word := MODULUS - 1
  const NGX_TIMER_LAZY_DELAY := 300

  // x lies in the half of the circle of words that starts at base
  predicate InWindow(base: Word, x: Word) { (x - base) % MODULUS < MODULUS / 2 }

  function Abs(x: int): int { if x < 0 then -x else x }

  // the deadlines of all these timers have passed
  ghost predicate AllDue(m: Memory, now: Word, fired: seq<Ref>) {
    forall x {:trigger x in fired} :: x in fired ==> x in m && SignedDifference(m[x].key, now) <= 0
  }

  ghost predicate SameKeys(m0: Memory, m: Memory, order: seq<Ref>) {
    forall x {:trigger x in order} :: x in order ==> x in m && x in m0 && m[x].key == m0[x].key
  }

  lemma FiredNext(order0: seq<Ref>, fired: seq<Ref>, order1: seq<Ref>, x: Ref)
    requires |fired| <= |order0| && fired == order0[..|fired|] && order1 == order0[|fired|..] && order1 != []
    requires x == order1[0]
    ensures |fired| < |order0| && fired + [x] == order0[..|fired| + 1] && order1[1..] == order0[|fired| + 1..]
    ensures forall y :: y in fired + [x] <==> y in fired || y == x
  {}

  lemma DueNext(m0: Memory, m1: Memory, m2: Memory, now: Word, fired: seq<Ref>, order: seq<Ref>, x: Ref)
    requires AllDue(m0, now, fired) && SameKeys(m0, m1, order) && order != [] && x == order[0] && x in m1
    requires SignedDifference(m1[x].key, now) <= 0
    requires SameKeys(m1, m2, order[1..])
    ensures AllDue(m0, now, fired + [x]) && SameKeys(m0, m2, order[1..])
  {
    assert x in order;
    assert forall y :: y in order[1..] ==> y in order;
  }

  ghost predicate AllInWindow(base: Word, m: Memory, order: seq<Ref>) {
    forall i {:trigger order[i]} :: 0 <= i < |order| ==> order[i] in m && InWindow(base, m[order[i]].key)
  }

  lemma InsertedInWindow(base: Word, m: Memory, m': Memory, order: seq<Ref>, k: nat, n: Ref)
    requires AllInWindow(base, m, order) && SameData(m, m') && n in m && InWindow(base, m[n].key) && k <= |order|
    ensures AllInWindow(base, m', Inserted(order, k, n))
  {
    var order' := Inserted(order, k, n);
    forall i | 0 <= i < |order'| ensures order'[i] in m' && InWindow(base, m'[order'[i]].key) {
      assert order'[i] == if i < k then order[i] else if i == k then n else order[i - 1];
    }
  }

  // ngx_event_t objects are named by the address of their embedded timer node.
  class TimerSet {
    const tree: RbTree
    var now: Word                     // ngx_current_msec
    var timerSet: map<Ref, bool>
    var timedOut: map<Ref, bool>

    // the deadlines of the timers in the tree, and the clock, are not spread too far
    ghost predicate Windowed(base: Word)
      reads this, tree
    {
      InWindow(base, now) && AllInWindow(base, tree.mem, tree.order)
    }

    // timer_set holds exactly for the events whose node is in the tree
    ghost predicate Valid()
      reads this, tree
    {
      && tree.Valid() && tree.kind == ByTimer && timedOut.Keys == timerSet.Keys
      && timerSet.Keys <= tree.mem.Keys && tree.sentinel !in timerSet && tree.g.Keys <= timerSet.Keys
      && forall x :: x in timerSet ==> (timerSet[x] <==> x in tree.g)
    }

    // ngx_event_timer_init
    constructor (memory: Memory, sentinel: Ref, events: set<Ref>)
      requires sentinel in memory && sentinel !in events && events <= memory.Keys
      ensures Valid() && fresh(tree) && timerSet.Keys == events && tree.order == []
    {
      tree := new RbTree(memory, sentinel, ByTimer);
      now := 0;
      timerSet, timedOut := map x | x in events :: false, map x | x in events :: false;
    }

    // milliseconds until the deadline of x, negative if it has passed
    ghost function Left(x: Ref): int
      requires x in tree.mem
      reads this, tree
    {
      SignedDifference(tree.mem[x].key, now)
    }

    // ngx_event_find_timer: the time to the earliest deadline, across a wrap of the clock
    method FindTimer(ghost base: Word) returns (r: Word)
      requires Valid() && Windowed(base)
      ensures tree.g.Keys == {} ==> r == NGX_TIMER_INFINITE
      ensures tree.g.Keys != {} ==>
          exists x :: x in tree.g && x in tree.mem && r == (if Left(x) > 0 then Left(x) else 0)
                                             && forall y :: y in tree.g && y in tree.mem ==> Left(x) <= Left(y)
    {
      if tree.root == tree.sentinel {
        tree.EmptyTree();
        return NGX_TIMER_INFINITE;
      }
      assert Spanned(tree.g, tree.root, |tree.order|);
      var node := tree.Min(tree.root);
      assert OrderedAt(tree.g, tree.order, node);
      forall y | y in tree.g && y in tree.mem ensures Left(node) <= Left(y) {
        assert OrderedAt(tree.g, tree.order, y);
        Ordering(base, 0, tree.g[y].pos);
      }
      var timer := SignedDifference(tree.mem[node].key, now);
      r := if timer > 0 then timer else 0;
    }

    // positions in the tree and times to the deadline agree
    lemma Ordering(base: Word, i: nat, j: nat)
      requires Valid() && Windowed(base) && i <= j < |tree.order|
      ensures Left(tree.order[i]) <= Left(tree.order[j])
    {
      var a, b := tree.mem[tree.order[i]], tree.mem[tree.order[j]];
      TimerOrder(base, a.key, now);
      TimerOrder(base, b.key, now);
      TimerOrder(base, b.key, a.key);
      assert i < j ==> !Before(ByTimer, b, a);
    }

    // ngx_event_del_timer
    method DelTimer(ev: Ref)
      requires Valid() && ev in timerSet && timerSet[ev]
      modifies this`timerSet, tree
      ensures Valid() && timerSet == old(timerSet)[ev := false]
      ensures tree.Gone(old(tree.g), old(tree.order), ev) && old(tree.order)[old(tree.g)[ev].pos] == ev
      ensures tree.mem.Keys == old(tree.mem.Keys)
      ensures forall x :: x in tree.mem && x != ev ==> tree.mem[x].key == old(tree.mem)[x].key
    {
      tree.Delete(ev);
      timerSet := timerSet[ev := false];
    }

    // one turn of the loop of ngx_event_expire_timers
    method ExpireFirst(ghost base: Word) returns (due: bool, node: Ref)
      requires Valid() && Windowed(base) && tree.root != tree.sentinel
      modifies this`timerSet, this`timedOut, tree
      ensures Valid() && Windowed(base) && |old(tree.order)| > 0 && node == old(tree.order)[0]
      ensures node in old(tree.mem) && due == old(Left(node) <= 0)
      ensures due ==> tree.order == old(tree.order)[1..]
      ensures due ==>
          node in timerSet && timerSet == old(timerSet)[node := false] && timedOut == old(timedOut)[node := true]
      ensures !due ==> timerSet == old(timerSet) && timedOut == old(timedOut) && tree.order == old(tree.order)
      ensures !due ==> forall x :: x in tree.order ==> x in tree.mem && Left(x) > 0
      ensures SameKeys(old(tree.mem), tree.mem, tree.order)
    {
      assert Spanned(tree.g, tree.root, |tree.order|);
      node := tree.Min(tree.root);
      assert OrderedAt(tree.g, tree.order, node);
      due := SignedDifference(tree.mem[node].key, now) <= 0;
      if due {
        assert forall i :: 1 <= i < |tree.order| ==> tree.order[i] != node && tree.order[i] in tree.g;
        DelTimer(node);
        timedOut := timedOut[node := true];
      } else {
        forall x | x in tree.order ensures x in tree.mem && Left(x) > 0 {
          var j :| 0 <= j < |tree.order| && tree.order[j] == x;
          Ordering(base, 0, j);
        }
      }
    }

    // the flags after the timers in `fired` went off, and no others
    ghost predicate Marked(set0: map<Ref, bool>, out0: map<Ref, bool>, fired: seq<Ref>)
      reads this
    {
      && timerSet == (map x | x in set0 :: set0[x] && x !in fired)
      && timedOut == map x | x in out0 :: out0[x] || x in fired
    }

    lemma MarkedFirst(set0: map<Ref, bool>, out0: map<Ref, bool>, fired: seq<Ref>,
                      set1: map<Ref, bool>, out1: map<Ref, bool>, x: Ref)
      requires set1 == (map y | y in set0 :: set0[y] && y !in fired)
      requires out1 == (map y | y in out0 :: out0[y] || y in fired)
      requires x in set0 && x in out0 && timerSet == set1[x := false] && timedOut == out1[x := true]
      ensures Marked(set0, out0, fired + [x])
    {}

    // ngx_event_expire_timers: exactly the timers that are due fire, the earliest first;
    // `fired` lists the calls of their handlers, which set no timers themselves.
    method ExpireTimers(ghost base: Word) returns (fired: seq<Ref>)
      requires Valid() && Windowed(base)
      modifies this`timerSet, this`timedOut, tree
      ensures Valid() && Windowed(base) && |fired| <= |old(tree.order)|
      ensures fired == old(tree.order)[..|fired|] && tree.order == old(tree.order)[|fired|..]
      ensures AllDue(old(tree.mem), now, fired)
      ensures forall x :: x in tree.order ==> x in tree.mem && Left(x) > 0
      ensures Marked(old(timerSet), old(timedOut), fired)
    {
      fired := [];
      ghost var order0, mem0 := tree.order, tree.mem;
      while tree.root != tree.sentinel
        invariant Valid() && Windowed(base) && now == old(now)
        invariant |fired| <= |order0| && fired == order0[..|fired|] && tree.order == order0[|fired|..]
        invariant AllDue(mem0, now, fired)
        invariant SameKeys(mem0, tree.mem, tree.order)
        invariant Marked(old(timerSet), old(timedOut), fired)
        decreases |tree.order|
      {
        ghost var set1, out1, order1, mem1 := timerSet, timedOut, tree.order, tree.mem;
        var due, node := ExpireFirst(base);
        if !due {
          return;
        }
        MarkedFirst(old(timerSet), old(timedOut), fired, set1, out1, node);
        FiredNext(order0, fired, order1, node);
        DueNext(mem0, mem1, tree.mem, now, fired, order1, node);
        fired := fired + [node];
      }
      tree.EmptyTree();
    }

    // ngx_event_add_timer. The deadline asked for is set, except that a timer that
    // is running keeps one less than 300 ms away.
    method AddTimer(ev: Ref, timer: Word, ghost base: Word)
      requires Valid() && Windowed(base) && ev in timerSet && InWindow(base, (now + timer) % MODULUS)
      modifies this`timerSet, tree
      ensures Valid() && Windowed(base) && timerSet == old(timerSet)[ev := true]
      ensures tree.g.Keys == old(tree.g.Keys) + {ev} && tree.mem.Keys == old(tree.mem.Keys)
      ensures forall x :: x in tree.mem && x != ev ==> tree.mem[x].key == old(tree.mem)[x].key
      ensures var key := (now + timer) % MODULUS; var late := SignedDifference(key, old(tree.mem)[ev].key);
        if old(timerSet[ev]) && -300 < late < 300
        then tree.mem[ev].key == old(tree.mem)[ev].key && tree.order == old(tree.order)
        else tree.mem[ev].key == key
    {
      var key := (now + timer) % MODULUS;
      if timerSet[ev] {
        var diff := SignedDifference(key, tree.mem[ev].key);
        if Abs(diff) < NGX_TIMER_LAZY_DELAY {
          return;
        }
        DelTimer(ev);
      }
      Arm(ev, key, base);
    }

    // lines 252-264
    method Arm(ev: Ref, key: Word, ghost base: Word)
      requires Valid() && Windowed(base) && ev in timerSet && !timerSet[ev] && InWindow(base, key)
      modifies this`timerSet, tree
      ensures Valid() && Windowed(base) && timerSet == old(timerSet)[ev := true]
      ensures tree.g.Keys == old(tree.g.Keys) + {ev} && tree.mem.Keys == old(tree.mem.Keys) && tree.mem[ev].key == key
      ensures forall x :: x in tree.mem && x != ev ==> tree.mem[x].key == old(tree.mem)[x].key
    {
      SetKey(ev, key);
      ghost var m1, order1 := tree.mem, tree.order;
      assert AllInWindow(base, m1, order1);
      ghost var k := tree.Insert(ev, base);
      InsertedInWindow(base, m1, tree.mem, order1, k, ev);
      timerSet := timerSet[ev := true];
    }

    // ev->timer.key = key, for a timer that is not in the tree
    method SetKey(ev: Ref, key: Word)
      requires Valid() && ev in timerSet && !timerSet[ev]
      modifies tree`mem
      ensures Valid() && OnlyAt(old(tree.mem), tree.mem, ev) && tree.mem[ev].key == key
    {
      ghost var m0 := tree.mem;
      tree.mem := tree.mem[ev := tree.mem[ev].(key := key)];
      OutsideStructure(m0, tree.mem, tree.g, tree.sentinel, tree.root, |tree.order|, ev);
      OutsideColoured(m0, tree.mem, tree.g, tree.sentinel, tree.root, |tree.order|, tree.h, ev);
      assert forall i :: 0 <= i < |tree.order| ==> tree.order[i] != ev;
    }
  }
}
