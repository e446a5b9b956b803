// The bookkeeping of src/core/ngx_open_file_cache.c: which entries exist, which of them
// are in the tree and in the expire queue, who holds them, and which descriptors are open.
// Vnode events are not part of this model, so file->event is NULL throughout.
module CachedFiles {
  import opened Sequences
  import opened RbtreeShape

  const INVALID: int := -1          // NGX_INVALID_FILE
  const COUNT: nat := 0x100_0000    // file->count has 24 bits
  const USES: nat := 0x1_0000_0000  // file->uses has 32 bits

  datatype Meta = Meta(mtime: int, size: int, isFile: bool, isLink: bool, isExec: bool)

  // ngx_cached_open_file_t
  datatype File = File(name: string, fd: int, err: int, uniq: int, meta: Meta, created: int, accessed: int,
                       uses: nat, count: nat, close: bool, isDir: bool)

  // ngx_open_file_info_t
  datatype Info = Info(fd: int, uniq: int, err: int, isDir: bool, meta: Meta, errors: bool, testDir: bool, valid: int,
      minUses: nat)

  // tree and queue hold entries; handles are the cleanup handlers of requests that use an
  // entry; owner maps the open descriptors to their entries, but for those in pending,
  // which no entry has yet
  datatype Cache = Cache(tree: set<Ref>, files: map<Ref, File>, queue: seq<Ref>, current: nat,
                         handles: multiset<Ref>, owner: map<int, Ref>, pending: set<int>)

  // --- the invariant -----------------------------------------------------------------

  // entries in the tree are cached files, errors or directories; the others were replaced
  // or expired while in use
  ghost predicate FileOk(c: Cache, f: Ref) {
    && f in c.files
    && var e := c.files[f];
    && e.count == c.handles[f] && e.count < COUNT
    && (e.fd != INVALID ==> e.fd in c.owner && c.owner[e.fd] == f)
    && if f in c.tree
       then ((e.err != 0 || e.isDir) ==> e.fd == INVALID && e.count == 0)
            && (e.err == 0 && !e.isDir ==> !e.close && (e.fd == INVALID ==> e.count == 0))
       else e.close && e.err == 0 && !e.isDir && e.fd != INVALID && e.count > 0
  }

  ghost predicate OwnerOk(c: Cache, d: int) {
    d in c.owner && d != INVALID && d !in c.pending && c.owner[d] in c.files && c.files[c.owner[d]].fd == d
  }

  // the queue lists the tree, except for the entry that was just taken out of it
  ghost predicate Shape(c: Cache, out: set<Ref>) {
    && NoDup(c.queue) && (forall f {:trigger f in c.queue} :: f in c.queue <==> f in c.tree && f !in out)
    && out <= c.tree && c.current == |c.queue| + |out| && c.tree <= c.files.Keys && 0 !in c.files
    && (forall f, g :: f in c.tree && g in c.tree && f != g ==> c.files[f].name != c.files[g].name)
    && (forall f {:trigger c.handles[f]} :: c.handles[f] > 0 ==> f in c.files)
  }

  ghost predicate Consistent(c: Cache, out: set<Ref>) {
    && Shape(c, out)
    && (forall f {:trigger FileOk(c, f)} :: f in c.files ==> FileOk(c, f))
    && (forall d {:trigger OwnerOk(c, d)} :: d in c.owner ==> OwnerOk(c, d))
  }

  // A request that keeps its handle keeps the same open descriptor.
  ghost predicate HandleKept(c: Cache, c': Cache, f: Ref) {
    && f in c.files && f in c'.files && c'.files[f].fd == c.files[f].fd && c.files[f].fd in c'.owner
    && c'.owner[c.files[f].fd] == f
  }

  ghost predicate HandlesKept(c: Cache, c': Cache) {
    forall f {:trigger HandleKept(c, c', f)} :: c.handles[f] > 0 && c'.handles[f] > 0 ==> HandleKept(c, c', f)
  }

  lemma KeptTwice(c: Cache, c1: Cache, c2: Cache)
    requires HandlesKept(c, c1) && HandlesKept(c1, c2) && forall f :: c2.handles[f] > 0 ==> c1.handles[f] > 0
    ensures HandlesKept(c, c2)
  {
    forall f | c.handles[f] > 0 && c2.handles[f] > 0 ensures HandleKept(c, c2, f) {
      assert HandleKept(c, c1, f) && HandleKept(c1, c2, f);
    }
  }

  // entries other than fs stay as they are, unless they are dropped or marked to be closed
  ghost predicate OthersKept(c: Cache, c': Cache, fs: set<Ref>) {
    forall g {:trigger c'.files[g]} :: g in c.files && g in c'.files && g !in fs ==>
      c'.files[g] == c.files[g] || (c'.files[g] == c.files[g].(close := true) && g !in c'.tree && g in c.handles)
  }

  // No descriptor belongs to two entries, and exactly the descriptors of entries are open.
  lemma OneOwner(c: Cache, f: Ref, g: Ref, d: int)
    requires Consistent(c, {}) && f in c.files && g in c.files && f != g
    ensures c.files[f].fd == c.files[g].fd ==> c.files[f].fd == INVALID
    ensures d in c.owner <==> d != INVALID && exists x :: x in c.files && c.files[x].fd == d
  {
    assert FileOk(c, f) && FileOk(c, g);
    if d in c.owner { assert OwnerOk(c, d); }
    if x :| d != INVALID && x in c.files && c.files[x].fd == d { assert FileOk(c, x); }
  }

  // --- changes to one entry ----------------------------------------------------------------

  // everything but entry f is as it should be
  ghost predicate Rest(c: Cache, f: Ref) {
    && (forall g {:trigger FileOk(c, g)} :: g in c.files && g != f ==> FileOk(c, g))
    && (forall d {:trigger OwnerOk(c, d)} :: d in c.owner && c.owner[d] != f ==> OwnerOk(c, d))
  }

  ghost predicate SameFile(c: Cache, c': Cache, g: Ref) {
    && (g in c'.files <==> g in c.files) && (g in c.files ==> c'.files[g] == c.files[g])
    && (g in c'.tree <==> g in c.tree) && c'.handles[g] == c.handles[g]
  }

  ghost predicate SameOwner(c: Cache, c': Cache, f: Ref, d: int) {
    && (d in c.owner && c.owner[d] != f ==> d in c'.owner && c'.owner[d] == c.owner[d])
    && (d in c'.owner && c'.owner[d] != f ==> d in c.owner && c'.owner[d] == c.owner[d])
  }

  ghost predicate OnlyFile(c: Cache, c': Cache, f: Ref) {
    && (forall g {:trigger SameFile(c, c', g)} :: g != f ==> SameFile(c, c', g))
    && (forall d {:trigger SameOwner(c, c', f, d)} :: SameOwner(c, c', f, d))
    && c'.pending <= c.pending
  }

  lemma OthersFramed(c: Cache, c': Cache, f: Ref)
    requires Rest(c, f) && OnlyFile(c, c', f)
    ensures Rest(c', f)
    ensures forall g {:trigger HandleKept(c, c', g)} :: g != f && c.handles[g] > 0 && g in c.files ==>
        HandleKept(c, c', g)
    ensures forall g {:trigger c'.files[g]} :: g in c.files && g in c'.files && g != f ==> c'.files[g] == c.files[g]
  {
    forall g | g in c'.files && g != f ensures FileOk(c', g) {
      assert SameFile(c, c', g) && FileOk(c, g) && SameOwner(c, c', f, c.files[g].fd);
    }
    forall d | d in c'.owner && c'.owner[d] != f ensures OwnerOk(c', d) {
      assert SameOwner(c, c', f, d) && OwnerOk(c, d) && SameFile(c, c', c.owner[d]);
    }
    forall g | g != f && c.handles[g] > 0 && g in c.files ensures HandleKept(c, c', g) {
      assert SameFile(c, c', g) && FileOk(c, g) && FileOk(c', g);
      assert c.files[g].fd != INVALID;
    }
    forall g | g in c.files && g in c'.files && g != f ensures c'.files[g] == c.files[g] { assert SameFile(c, c', g); }
  }

  lemma AllOk(c: Cache, f: Ref)
    requires Rest(c, f) && (f in c.files ==> FileOk(c, f))
    requires forall d :: d in c.owner && c.owner[d] == f ==> OwnerOk(c, d)
    ensures forall g {:trigger FileOk(c, g)} :: g in c.files ==> FileOk(c, g)
    ensures forall d {:trigger OwnerOk(c, d)} :: d in c.owner ==> OwnerOk(c, d)
  {}

  // --- steps --------------------------------------------------------------------------

  function Minus(xs: seq<Ref>, f: Ref): seq<Ref> { if f in xs then Without(xs, IndexOf(xs, f)) else xs }

  // close(file->fd)
  function Closed(c: Cache, f: Ref): Cache
    requires f in c.files
  {
    if c.files[f].fd == INVALID then c else c.(owner := c.owner - {c.files[f].fd})
  }

  function Freed(c: Cache, f: Ref): Cache { c.(files := c.files - {f}) }

  // ngx_close_cached_file
  function CloseCached(c: Cache, f: Ref, minUses: nat, now: int): Cache
    requires f in c.files
  {
    var e := c.files[f];
    if !e.close then
      var c1 := c.(files := c.files[f := e.(accessed := now)], queue := [f] + Minus(c.queue, f));
      if e.uses >= minUses || e.count > 0 then c1
      else Closed(c1, f).(files := c1.files[f := e.(accessed := now, fd := INVALID)])
    else if e.count > 0 then c
    else Freed(Closed(c, f), f)
  }

  // ngx_open_file_cleanup, first half: a request gives its handle back
  function Released(c: Cache, f: Ref, minUses: nat, now: int): Cache {
    if f !in c.files || c.files[f].count == 0 then c
    else CloseCached(c.(files := c.files[f := c.files[f].(count := c.files[f].count - 1)],
          handles := c.handles - multiset{f}), f, minUses, now)
  }

  // An entry in use stays open. One that nobody holds any more stays open if it is cached and
  // was used often enough, and then is the last to expire; if it is not cached it goes.
  ghost predicate ClosedRightly(c: Cache, c': Cache, f: Ref, minUses: nat, now: int) {
    && f in c.files && c.files[f].count > 0
    && var e := c.files[f];
    if f in c.tree
    then && f in c'.files && c'.queue == [f] + Minus(c.queue, f)
         && c'.files[f] == e.(accessed := now, count := e.count - 1,
                              fd := if e.count > 1 || e.uses >= minUses then e.fd else INVALID)
    else c'.queue == c.queue && (f in c'.files <==> e.count > 1)
  }

  lemma ReleasedOk(c: Cache, f: Ref, minUses: nat, now: int)
    requires Consistent(c, {}) && c.handles[f] > 0
    ensures f in c.files && c.files[f].count > 0
    ensures var c' := Released(c, f, minUses, now);
      && Consistent(c', {}) && HandlesKept(c, c') && OthersKept(c, c', {f})
      && c'.handles == c.handles - multiset{f} && c'.tree == c.tree && c'.pending == c.pending
      && ClosedRightly(c, c', f, minUses, now)
  {
    assert FileOk(c, f);
    var c' := Released(c, f, minUses, now);
    OthersFramed(c, c', f);
    if f in c'.files { assert FileOk(c', f); }
    forall d | d in c'.owner && c'.owner[d] == f ensures OwnerOk(c', d) { assert OwnerOk(c, d); }
    AllOk(c', f);
    ReleasedShape(c, f, minUses, now);
    if c.handles[f] > 0 && c'.handles[f] > 0 { assert HandleKept(c, c', f); }
  }

  lemma ReleasedShape(c: Cache, f: Ref, minUses: nat, now: int)
    requires Consistent(c, {}) && f in c.files && c.handles[f] > 0 && c.files[f].count > 0
    ensures Shape(Released(c, f, minUses, now), {})
  {
    assert FileOk(c, f);
    if !c.files[f].close {
      assert f in c.queue;
      WithoutOne(c.queue, f);
    }
  }

  // the least recently used entry leaves queue and tree
  function Shortened(c: Cache): Cache
    requires c.queue != [] && c.current > 0
  {
    c.(queue := c.queue[..|c.queue| - 1], tree := c.tree - {c.queue[|c.queue| - 1]}, current := c.current - 1)
  }

  // one turn of ngx_expire_old_cached_files: the least recently used entry goes
  function Evicted(c: Cache): Cache
    requires c.queue != [] && c.queue[|c.queue| - 1] in c.files && c.current > 0
  {
    var f := c.queue[|c.queue| - 1];
    var e := c.files[f];
    var c1 := Shortened(c);
    if e.err == 0 && !e.isDir then CloseCached(c1.(files := c1.files[f := e.(close := true)]), f, 0, 0)
    else Freed(c1, f)
  }

  lemma EvictedOk(c: Cache, out: set<Ref>)
    requires Consistent(c, out) && c.queue != []
    ensures c.queue[|c.queue| - 1] in c.files && c.current > 0
    ensures var c' := Evicted(c);
      Consistent(c', out) && HandlesKept(c, c') && OthersKept(c, c', {}) && c'.handles == c.handles &&
          c'.queue == c.queue[..|c.queue| - 1]
      && c'.current == c.current - 1 && c'.pending == c.pending && c'.tree == c.tree - {c.queue[|c.queue| - 1]}
  {
    var f := c.queue[|c.queue| - 1];
    assert f in c.queue && FileOk(c, f);
    var c' := Evicted(c);
    OthersFramed(c, c', f);
    if f in c'.files { assert FileOk(c', f); }
    forall d | d in c'.owner && c'.owner[d] == f ensures OwnerOk(c', d) { assert OwnerOk(c, d); }
    AllOk(c', f);
    EvictedShape(c, out);
    if c.handles[f] > 0 && c'.handles[f] > 0 { assert HandleKept(c, c', f); }
  }

  lemma EvictedShape(c: Cache, out: set<Ref>)
    requires Consistent(c, out) && c.queue != [] && c.queue[|c.queue| - 1] in c.files && c.current > 0
    ensures Shape(Evicted(c), out)
  {
    var f := c.queue[|c.queue| - 1];
    assert f in c.queue && FileOk(c, f);
    EvictedQueue(c.queue, Evicted(c).queue, f);
  }

  lemma EvictedQueue(q: seq<Ref>, q': seq<Ref>, f: Ref)
    requires q != [] && q' == q[..|q| - 1] && f == q[|q| - 1]
    ensures forall g {:trigger g in q'} :: g in q <==> g in q' || g == f
  {
    assert q == q' + [f];
  }

  // k turns
  ghost predicate EvictsTo(c: Cache, c': Cache, out: set<Ref>, k: nat) {
    && Consistent(c', out) && Along(c, c', {}) && c'.handles == c.handles
    && k <= |c.queue| && c'.queue == c.queue[..|c.queue| - k] && c'.current + k == c.current
    && c'.pending == c.pending && c'.tree <= c.tree && c'.files.Keys <= c.files.Keys && c'.owner.Keys <= c.owner.Keys
    && (forall f :: f in c.tree && f !in c'.tree ==> f in c.queue)
  }

  lemma EvictNone(c: Cache, out: set<Ref>)
    requires Consistent(c, out)
    ensures EvictsTo(c, c, out, 0)
  {
    forall f | c.handles[f] > 0 ensures HandleKept(c, c, f) { assert FileOk(c, f); }
  }

  lemma EvictOne(c: Cache, out: set<Ref>)
    requires Consistent(c, out) && c.queue != []
    ensures c.queue[|c.queue| - 1] in c.files && c.current > 0 && EvictsTo(c, Evicted(c), out, 1)
  {
    EvictedOk(c, out);
    assert c.queue[|c.queue| - 1] in c.queue;
  }

  // the entry that is next to go has not changed since the first eviction
  lemma NextToGo(c: Cache, c': Cache, out: set<Ref>, k: nat)
    requires Consistent(c, out) && EvictsTo(c, c', out, k) && c'.queue != []
    ensures k < |c.queue| && var f := c'.queue[|c'.queue| - 1];
      f == c.queue[|c.queue| - k - 1] && f in c.files && f in c'.files && c'.files[f] == c.files[f]
  {
    var f := c'.queue[|c'.queue| - 1];
    assert f in c'.queue && f in c.queue;
  }

  // entry i of the queue was not used for longer than the cache allows
  predicate Idle(c: Cache, i: int, now: int, inactive: int) {
    0 <= i < |c.queue| && c.queue[i] in c.files && now - c.files[c.queue[i]].accessed > inactive
  }

  // What ngx_expire_old_cached_files(cache, n) does: it evicts k entries from the end of the
  // queue, the first by force if n is 0, the others because they were idle; it stops at the
  // third, at an entry that was not idle, or at the end of the queue.
  ghost predicate ExpiresTo(c: Cache, c': Cache, out: set<Ref>, k: nat, n: nat, now: int, inactive: int) {
    && EvictsTo(c, c', out, k) && n + k <= 3 && WereIdle(c, k, n, now, inactive)
    && (k == |c.queue| || n + k == 3 || (n + k > 0 && !Idle(c, |c.queue| - k - 1, now, inactive)))
  }

  ghost predicate WereIdle(c: Cache, k: nat, n: nat, now: int, inactive: int) {
    forall i {:trigger Idle(c, i, now, inactive)} :: |c.queue| - k <= i < |c.queue| - (if n == 0 then 1 else 0) ==>
        Idle(c, i, now, inactive)
  }

  // lines 741-751: there is a least recently used entry, and it goes by force or was idle
  predicate MayGo(c: Cache, force: bool, now: int, inactive: int) {
    && c.queue != [] && c.queue[|c.queue| - 1] in c.files
    && (force || now - c.files[c.queue[|c.queue| - 1]].accessed > inactive)
  }

  ghost function Turn(c: Cache): Cache {
    if c.queue != [] && c.queue[|c.queue| - 1] in c.files && c.current > 0 then Evicted(c) else c
  }

  // k turns of the loop
  ghost function Turns(c: Cache, k: nat): Cache { if k == 0 then c else Turn(Turns(c, k - 1)) }

  // each of which was taken with good reason; n is the loop's counter before the first
  ghost predicate Reasons(c: Cache, k: nat, n: nat, now: int, inactive: int) {
    k > 0 ==> Reasons(c, k - 1, n, now, inactive) && MayGo(Turns(c, k - 1), n + k - 1 == 0, now, inactive)
  }

  lemma {:induction false} TurnsEvict(c: Cache, out: set<Ref>, k: nat, n: nat, now: int, inactive: int)
    requires Consistent(c, out) && Reasons(c, k, n, now, inactive)
    ensures EvictsTo(c, Turns(c, k), out, k) && WereIdle(c, k, n, now, inactive)
  {
    if k == 0 {
      EvictNone(c, out);
    } else {
      TurnsEvict(c, out, k - 1, n, now, inactive);
      OneTurn(c, Turns(c, k - 1), out, k, n, now, inactive);
    }
  }

  lemma OneTurn(c: Cache, c1: Cache, out: set<Ref>, k: nat, n: nat, now: int, inactive: int)
    requires Consistent(c, out) && k > 0 && EvictsTo(c, c1, out, k - 1) && WereIdle(c, k - 1, n, now, inactive)
    requires MayGo(c1, n + k - 1 == 0, now, inactive)
    ensures EvictsTo(c, Turn(c1), out, k) && WereIdle(c, k, n, now, inactive)
  {
    EvictOne(c1, out);
    EvictTwice(c, c1, Turn(c1), out, k - 1, 1);
    NextToGo(c, c1, out, k - 1);
    OneMoreIdle(c, c1, k, n, now, inactive);
  }

  lemma OneMoreIdle(c: Cache, c1: Cache, k: nat, n: nat, now: int, inactive: int)
    requires 0 < k <= |c.queue| && WereIdle(c, k - 1, n, now, inactive) && MayGo(c1, n + k - 1 == 0, now, inactive)
    requires var f := c1.queue[|c1.queue| - 1]; f == c.queue[|c.queue| - k] && f in c.files && c1.files[f] == c.files[f]
    ensures WereIdle(c, k, n, now, inactive)
  {}

  lemma StoppedThere(c: Cache, out: set<Ref>, k: nat, n: nat, now: int, inactive: int)
    requires Consistent(c, out) && Reasons(c, k, n, now, inactive) && n + k <= 3
    requires n + k == 3 || !MayGo(Turns(c, k), n + k == 0, now, inactive)
    ensures ExpiresTo(c, Turns(c, k), out, k, n, now, inactive)
  {
    var c1 := Turns(c, k);
    TurnsEvict(c, out, k, n, now, inactive);
    if c1.queue != [] { NextToGo(c, c1, out, k); }
  }

  lemma EvictTwice(c: Cache, c1: Cache, c': Cache, out: set<Ref>, j: nat, k: nat)
    requires EvictsTo(c, c1, out, j) && EvictsTo(c1, c', out, k)
    ensures EvictsTo(c, c', out, j + k)
  {
    AlongTwice(c, c1, c', {});
    assert c'.queue == c.queue[..|c.queue| - (j + k)];
    assert forall f :: f in c1.queue ==> f in c.queue;
  }

  // steps that take no handle away, and touch only the entries fs but for evictions
  ghost predicate Along(c: Cache, c': Cache, fs: set<Ref>) {
    && HandlesKept(c, c') && OthersKept(c, c', fs) && c.handles <= c'.handles
    && (forall g {:trigger g in c'.tree} :: g in c'.tree && g !in fs ==> g in c.tree)
    && (forall g {:trigger g in c'.files} :: g in c'.files && g !in fs ==> g in c.files)
    && (forall g {:trigger c'.handles[g]} :: g !in fs ==> c'.handles[g] == c.handles[g])
  }

  lemma AlongTwice(c: Cache, c1: Cache, c': Cache, fs: set<Ref>)
    requires Along(c, c1, fs) && Along(c1, c', fs)
    ensures Along(c, c', fs)
  {
    forall g | c.handles[g] > 0 && c'.handles[g] > 0 ensures HandleKept(c, c', g) {
      assert c.handles[g] <= c1.handles[g];
      assert HandleKept(c, c1, g) && HandleKept(c1, c', g);
    }
    forall g | g in c.files && g in c'.files && g !in fs
      ensures c'.files[g] == c.files[g] ||
          (c'.files[g] == c.files[g].(close := true) && g !in c'.tree && g in c.handles)
    {
      assert g in c1.files && c1.handles[g] == c.handles[g];
      assert g in c'.tree ==> g in c1.tree;
    }
    forall g | g !in fs ensures c'.handles[g] == c.handles[g] { assert c1.handles[g] == c.handles[g]; }
  }

  lemma AlongMore(c: Cache, c': Cache, fs: set<Ref>, gs: set<Ref>)
    requires Along(c, c', fs) && fs <= gs
    ensures Along(c, c', gs)
  {}

  // --- destroying the cache -------------------------------------------------------------------

  // lines 92-114: an entry goes, whoever holds it
  function Swept(c: Cache): Cache
    requires c.queue != [] && c.queue[|c.queue| - 1] in c.files && c.current > 0
  {
    var f := c.queue[|c.queue| - 1];
    var e := c.files[f];
    var c1 := Shortened(c);
    if e.err == 0 && !e.isDir then CloseCached(c1.(files := c1.files[f := e.(close := true, count := 0)]), f, 0, 0)
    else Freed(c1, f)
  }

  // some entries of the tree are gone, and their descriptors with them
  ghost predicate Sweeping(c0: Cache, c: Cache) {
    && NoDup(c.queue) && c.current == |c.queue| && c.tree <= c0.tree && c.handles == c0.handles && c.pending == {}
    && (forall f {:trigger f in c.queue} :: f in c.queue <==> f in c.tree)
    && (forall f {:trigger f in c.files} :: f in c.files <==> f in c0.files && (f in c0.tree ==> f in c.tree))
    && (forall f {:trigger c.files[f]} :: f in c.files ==> f in c0.files && c.files[f] == c0.files[f])
    && (forall d {:trigger d in c.owner} :: d in c.owner <==>
        d in c0.owner && (c0.owner[d] in c0.tree ==> c0.owner[d] in c.tree))
    && (forall d {:trigger c.owner[d]} :: d in c.owner ==> c.owner[d] == c0.owner[d])
  }

  lemma SweptNext(c0: Cache, c: Cache)
    requires Consistent(c0, {}) && Sweeping(c0, c) && c.queue != []
    ensures c.current > 0 && var f := c.queue[|c.queue| - 1];
      f in c.tree && f in c.files && (c.files[f].fd != INVALID ==> c.files[f].fd in c.owner) && Sweeping(c0, Swept(c))
  {
    var f := c.queue[|c.queue| - 1];
    assert f in c.queue && FileOk(c0, f);
    assert f in c.files && c.files[f] == c0.files[f];
    var c' := Swept(c);
    EvictedQueue(c.queue, c'.queue, f);
    forall d | true ensures d in c'.owner <==> d in c0.owner && (c0.owner[d] in c0.tree ==> c0.owner[d] in c'.tree) {
      if d in c0.owner { assert OwnerOk(c0, d); }
      assert d in c.owner <==> d in c0.owner && (c0.owner[d] in c0.tree ==> c0.owner[d] in c.tree);
    }
  }

  lemma AllSwept(c0: Cache, c: Cache)
    requires Consistent(c0, {}) && Sweeping(c0, c) && c.queue == []
    ensures c.tree == {} && c.current == 0
    ensures forall d :: d in c.owner <==> d in c0.owner && c0.owner[d] !in c0.tree
    ensures c0.handles == multiset{} ==> c.files == map[] && c.owner == map[]
  {
    assert forall f {:trigger f in c.tree} :: f in c.tree ==> f in c.queue;
    if c0.handles == multiset{} {
      assert forall f {:trigger f in c0.files} :: f in c0.files ==> FileOk(c0, f);
      assert forall d {:trigger d in c0.owner} :: d in c0.owner ==> OwnerOk(c0, d);
    }
  }

  // --- opening a file ---------------------------------------------------------------------

  // lines 200-202: an entry is used
  function Used(c: Cache, f: Ref): Cache
    requires f in c.files
  {
    c.(files := c.files[f := c.files[f].(uses := (c.files[f].uses + 1) % USES)], queue := Minus(c.queue, f))
  }

  // lines 321-325: the entry of a file that changed while in use leaves the tree
  function Detached(c: Cache, f: Ref): Cache
    requires f in c.files && c.current > 0
  {
    c.(tree := c.tree - {f}, current := c.current - 1, files := c.files[f := c.files[f].(close := true)])
  }

  // lines 429-450: the entry of a file that cannot be opened any more
  function Dropped(c: Cache, f: Ref): Cache
    requires f in c.files && c.current > 0
  {
    if c.files[f].count == 0 then Freed(Closed(c, f), f).(tree := c.tree - {f}, current := c.current - 1)
    else Detached(c, f)
  }

  // lines 344-369; junk is what the memory held before
  function Created(c: Cache, f: Ref, name: string, junk: File): Cache {
    c.(tree := c.tree + {f}, current := c.current + 1,
        files := c.files[f := junk.(name := name, uses := 1, count := 0)])
  }

  // the fields that lines 377-400 fill in
  function Refilled(e: File, of: Info, now: int): File {
    var e0 := e.(fd := of.fd, err := of.err, created := now, accessed := now);
    if of.err == 0
    then e0.(uniq := of.uniq, meta := of.meta, close := false, isDir := of.isDir, count := if of.isDir then e0.count
          else (e0.count + 1) % COUNT)
    else e0
  }

  // lines 377-404, with the cleanup handler of lines 410-420; a new descriptor gets its owner
  function Updated(c: Cache, f: Ref, of: Info, now: int): Cache
    requires f in c.files
  {
    c.(files := c.files[f := Refilled(c.files[f], of, now)], queue := [f] + c.queue,
       handles := if of.err == 0 && !of.isDir then c.handles + multiset{f} else c.handles,
       owner := if of.fd != INVALID && of.fd in c.pending then c.owner[of.fd := f] else c.owner,
       pending := c.pending - {of.fd})
  }

  // the cache as it would be if entry f did not have its descriptor
  function Bare(c: Cache, f: Ref): Cache
    requires f in c.files
  {
    c.(files := c.files[f := c.files[f].(fd := INVALID)])
  }

  // the update with a directory that comes with a descriptor, one that is not new
  lemma UpdatedBare(c: Cache, f: Ref, of: Info, now: int)
    requires f in c.files && of.isDir && of.err == 0 && c.pending == {}
    ensures f in Updated(c, f, of, now).files
    ensures Bare(Updated(c, f, of, now), f) == Updated(c, f, of.(fd := INVALID), now)
  {}

  lemma NotBare(c: Cache, f: Ref)
    requires f in c.files && f in c.tree && c.files[f].isDir && c.files[f].fd != INVALID
    ensures !FileOk(c, f) && !Consistent(c, {})
  {}

  // lines 222-246 and 402-420: an entry answers a request without a system call
  function Hit(c: Cache, f: Ref, now: int): Cache
    requires f in c.files
  {
    var e := c.files[f];
    var held := e.err == 0 && !e.isDir;
    c.(files := c.files[f := e.(accessed := now, count := if held then (e.count + 1) % COUNT else e.count)],
       queue := [f] + c.queue, handles := if held then c.handles + multiset{f} else c.handles)
  }

  lemma UsedOk(c: Cache, f: Ref)
    requires Consistent(c, {}) && f in c.tree
    ensures var c' := Used(c, f); Consistent(c', {f}) && Along(c, c', {f}) && FileOk(c', f)
  {
    assert f in c.queue && FileOk(c, f);
    var c' := Used(c, f);
    OthersFramed(c, c', f);
    assert FileOk(c', f);
    forall d | d in c'.owner && c'.owner[d] == f ensures OwnerOk(c', d) { assert OwnerOk(c, d); }
    AllOk(c', f);
    WithoutOne(c.queue, f);
    if c.handles[f] > 0 { assert HandleKept(c, c', f); }
  }

  lemma DroppedOk(c: Cache, f: Ref)
    requires Consistent(c, {f}) && FileOk(c, f)
    ensures f in c.files && c.current > 0
    ensures var c' := Dropped(c, f); Consistent(c', {}) && Along(c, c', {f}) && c'.tree == c.tree - {f}
  {
    var c' := Dropped(c, f);
    OthersFramed(c, c', f);
    if f in c'.files { assert FileOk(c', f); }
    forall d | d in c'.owner && c'.owner[d] == f ensures OwnerOk(c', d) { assert OwnerOk(c, d); }
    AllOk(c', f);
    if c.handles[f] > 0 && c'.handles[f] > 0 { assert HandleKept(c, c', f); }
  }

  lemma DetachedOk(c: Cache, f: Ref)
    requires Consistent(c, {f}) && FileOk(c, f) && c.files[f].count > 0
    ensures c.current > 0
    ensures var c' := Detached(c, f); Consistent(c', {}) && Along(c, c', {f}) && c'.tree == c.tree - {f}
  {
    var c' := Detached(c, f);
    OthersFramed(c, c', f);
    assert FileOk(c', f);
    forall d | d in c'.owner && c'.owner[d] == f ensures OwnerOk(c', d) { assert OwnerOk(c, d); }
    AllOk(c', f);
    assert HandleKept(c, c', f);
  }

  lemma HitOk(c: Cache, f: Ref, now: int)
    requires Consistent(c, {f}) && FileOk(c, f) && c.handles[f] + 1 < COUNT
    requires c.files[f].fd == INVALID ==> c.files[f].err != 0 || c.files[f].isDir
    ensures var c' := Hit(c, f, now); Consistent(c', {}) && Along(c, c', {f})
  {
    var c' := Hit(c, f, now);
    OthersFramed(c, c', f);
    assert FileOk(c', f);
    forall d | d in c'.owner && c'.owner[d] == f ensures OwnerOk(c', d) { assert OwnerOk(c, d); }
    assert f !in c.queue;
    ConsNoDup(c.queue, f);
    AllOk(c', f);
    if c.handles[f] > 0 { assert HandleKept(c, c', f); }
  }

  // What an entry that is about to be updated looks like: its old descriptor is closed, or
  // it is the one that the request gets too.
  ghost predicate Ready(c: Cache, f: Ref, of: Info) {
    && Shape(c, {f}) && Rest(c, f) && f in c.files && c.files[f].count == c.handles[f] && c.handles[f] + 1 < COUNT
    && (of.fd == INVALID <==> of.err != 0 || of.isDir)
    && if of.fd != INVALID && c.files[f].fd == of.fd && of.fd in c.owner
       then c.owner[of.fd] == f && of.fd !in c.pending && forall d :: d in c.owner && c.owner[d] == f ==> d == of.fd
       else c.handles[f] == 0 && (of.fd != INVALID ==> of.fd in c.pending && of.fd !in c.owner)
            && forall d :: d in c.owner ==> c.owner[d] != f
  }

  lemma UpdatedOk(c: Cache, f: Ref, of: Info, now: int)
    requires Ready(c, f, of)
    ensures var c' := Updated(c, f, of, now); Consistent(c', {}) && Along(c, c', {f})
  {
    var c' := Updated(c, f, of, now);
    assert OnlyFile(c, c', f);
    OthersFramed(c, c', f);
    assert FileOk(c', f);
    forall d | d in c'.owner && c'.owner[d] == f ensures OwnerOk(c', d) {}
    assert f !in c.queue;
    ConsNoDup(c.queue, f);
    AllOk(c', f);
    if c.handles[f] > 0 { assert HandleKept(c, c', f); }
  }

  // an old descriptor that nobody holds is closed before the update (lines 308-318)
  lemma ReadyToReplace(c: Cache, f: Ref, of: Info)
    requires Consistent(c, {f}) && FileOk(c, f) && c.handles[f] == 0 && (of.fd == INVALID <==> of.err != 0 || of.isDir)
    requires of.fd != INVALID ==> of.fd in c.pending
    ensures Ready(Closed(c, f), f, of) && Along(c, Closed(c, f), {f})
  {
    var c' := Closed(c, f);
    OthersFramed(c, c', f);
    forall d | d in c'.owner ensures c'.owner[d] != f && d !in c'.pending { assert OwnerOk(c, d); }
  }

  lemma ReadyToKeep(c: Cache, f: Ref, of: Info)
    requires Consistent(c, {f}) && FileOk(c, f) && of.fd == c.files[f].fd != INVALID && of.err == 0 && !of.isDir
    requires c.handles[f] + 1 < COUNT
    ensures Ready(c, f, of)
  {
    forall d | d in c.owner && c.owner[d] == f ensures d == of.fd { assert OwnerOk(c, d); }
    assert OwnerOk(c, of.fd);
  }

  lemma ReadyToFill(c: Cache, f: Ref, name: string, junk: File, of: Info)
    requires Consistent(c, {}) && f !in c.files && f != 0 && (of.fd == INVALID <==> of.err != 0 || of.isDir)
    requires (of.fd != INVALID ==> of.fd in c.pending) && forall g :: g in c.tree ==> c.files[g].name != name
    ensures var c' := Created(c, f, name, junk); Ready(c', f, of) && Along(c, c', {f})
  {
    var c' := Created(c, f, name, junk);
    assert f !in c.queue;
    OthersFramed(c, c', f);
    forall d | d in c'.owner ensures c'.owner[d] != f && d !in c'.pending { assert OwnerOk(c, d); }
    assert c.handles[f] == 0;
  }

  // opening or closing a descriptor that no entry has yet
  lemma PendingOk(c: Cache, out: set<Ref>, pending: set<int>)
    requires Consistent(c, out) && forall d :: d in pending ==> d !in c.owner
    ensures Consistent(c.(pending := pending), out) && Along(c, c.(pending := pending), {})
    ensures forall f :: FileOk(c, f) ==> FileOk(c.(pending := pending), f)
  {
    var c' := c.(pending := pending);
    forall f | FileOk(c, f) ensures FileOk(c', f) {}
    forall f | f in c'.files ensures FileOk(c', f) { assert FileOk(c, f); }
    forall d | d in c'.owner ensures OwnerOk(c', d) { assert OwnerOk(c, d); }
    forall f | c.handles[f] > 0 ensures HandleKept(c, c', f) { assert FileOk(c, f); }
  }
}
