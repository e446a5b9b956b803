// src/core/ngx_open_file_cache.c: entries in a red-black tree and an expire queue. What
// the kernel answers is a parameter; vnode events are not part of this model.
module FileCache {
  import opened Sequences
  import opened RbtreeShape
  import opened Rbtree
  import opened RbtreeFacts
  import opened CachedFiles

  // what ngx_file_info(), ngx_open_file() and ngx_fd_info() answer
  datatype Stat = NoInfo(errno: int) | StatInfo(uniq: int, isDir: bool, meta: Meta)
  datatype Open = Refused(errno: int) | Opened(fd: int)
  datatype Kernel = Kernel(stat: Stat, open: Open, fstat: Stat)

  // the name alone settles it: an open file whose name still leads to it, or a directory
  predicate ByName(k: Kernel, of: Info) {
    k.stat.StatInfo? && if of.fd != INVALID then of.uniq == k.stat.uniq else of.testDir && k.stat.isDir
  }

  // ngx_open_and_stat_file succeeds
  predicate Succeeds(k: Kernel, of: Info) {
    ByName(k, of) || (((of.fd == INVALID && !of.testDir) || k.stat.StatInfo?) && k.open.Opened? && k.fstat.StatInfo?)
  }

  // what it reports then
  predicate Answers(k: Kernel, of0: Info, of: Info) {
    if ByName(k, of0) then of == of0.(uniq := k.stat.uniq, isDir := k.stat.isDir, meta := k.stat.meta)
    else ((of0.fd == INVALID && !of0.testDir) || k.stat.StatInfo?) && k.open.Opened? && k.fstat.StatInfo?
         && of.uniq == k.fstat.uniq && of.isDir == k.fstat.isDir && of.meta == k.fstat.meta
         && of.fd == if k.fstat.isDir then INVALID else k.open.fd
  }

  // the error that is reported if it does not; none if only fstat() failed
  function Errno(k: Kernel, of: Info): int {
    if (of.fd != INVALID || of.testDir) && k.stat.NoInfo? then k.stat.errno
    else if k.open.Refused? then k.open.errno
    else 0
  }

  // a request is told what the kernel said
  predicate Answered(k: Kernel, of0: Info, ok: bool, of: Info) {
    ok == Succeeds(k, of0) && if ok then Answers(k, of0, of) else of.err == Errno(k, of0)
  }

  // what the kernel is asked about an entry: whether its file is still the one that is open
  function Asked(of: Info, e: File): Info {
    of.(fd := e.fd, uniq := e.uniq, testDir := of.testDir || e.isDir)
  }

  // an entry that has no file open adds nothing to what is asked
  lemma AskedAnew(k: Kernel, of0: Info, e: File, ok: bool, of: Info)
    requires e.fd == INVALID && !e.isDir && of0.fd == INVALID && Answered(k, of0, ok, of)
    ensures Answered(k, Asked(of0, e), ok, of)
  {}

  // a file that is served from the cache, and registered with its request
  ghost predicate Serves(c: Cache, c': Cache, name: string, of: Info, f: Ref, now: int) {
    && f in c'.tree && f in c'.files && c'.queue != [] && c'.queue[0] == f && Reports(c'.files[f], of)
    && c'.files[f].name == name && c'.files[f].accessed == now
    && if of.isDir then of.fd == INVALID && c'.handles == c.handles
       else of.fd in c'.owner && c'.owner[of.fd] == f && c'.handles == c.handles + multiset{f}
  }

  // the request is told what the entry says
  predicate Reports(e: File, of: Info) {
    e.err == 0 && of.err == 0 && e.fd == of.fd && e.uniq == of.uniq && e.isDir == of.isDir && e.meta == of.meta
  }

  // the name is not cached, or cached as this error
  ghost predicate Fails(c: Cache, name: string, of: Info) {
    forall f {:trigger f in c.tree} :: f in c.tree && f in c.files && c.files[f].name == name ==>
        of.err != 0 && c.files[f].err == of.err
  }

  lemma UpdatedServes(c: Cache, f: Ref, of: Info, now: int, name: string)
    requires Ready(c, f, of) && f in c.tree && c.files[f].name == name && Consistent(Updated(c, f, of, now), {})
    requires c.pending == if of.fd == INVALID || of.fd in c.owner then {} else {of.fd}
    ensures Updated(c, f, of, now).pending == {} && Updated(c, f, of, now).current == c.current
    ensures of.err == 0 ==> Serves(c, Updated(c, f, of, now), name, of, f, now)
    ensures of.err != 0 ==>
        of.fd == INVALID && Updated(c, f, of, now).handles == c.handles && Fails(Updated(c, f, of, now), name, of)
  {
    var c' := Updated(c, f, of, now);
    assert forall g :: g in c'.tree && c'.files[g].name == name ==> g == f;
  }

  lemma HitServes(c: Cache, f: Ref, of: Info, now: int, name: string)
    requires Shape(c, {f}) && Consistent(Hit(c, f, now), {}) && f in c.tree && f in c.files && c.files[f].name == name
    requires if c.files[f].err == 0 then Reports(c.files[f], of) else of.err == c.files[f].err && of.fd == INVALID
    ensures c.files[f].err == 0 ==> Serves(c, Hit(c, f, now), name, of, f, now)
    ensures c.files[f].err != 0 ==> Hit(c, f, now).handles == c.handles && Fails(Hit(c, f, now), name, of)
  {
    var c' := Hit(c, f, now);
    assert FileOk(c', f);
    assert forall g :: g in c'.tree && c'.files[g].name == name ==> g == f;
  }

  // a request is done
  ghost predicate Ends(c: Cache, c1: Cache, name: string, of: Info, f: Ref, ok: bool, now: int, fs: set<Ref>) {
    && Consistent(c1, {}) && c1.pending == {} && Along(c, c1, fs)
    && if ok then Serves(c, c1, name, of, f, now)
       else of.fd == INVALID && c1.handles == c.handles && Fails(c1, name, of)
  }

  lemma EndsMore(c: Cache, c1: Cache, name: string, of: Info, f: Ref, ok: bool, now: int, fs: set<Ref>, gs: set<Ref>)
    requires Ends(c, c1, name, of, f, ok, now, fs) && fs <= gs
    ensures Ends(c, c1, name, of, f, ok, now, gs)
  {
    AlongMore(c, c1, fs, gs);
  }

  lemma FilledEnds(c: Cache, c1: Cache, f: Ref, of: Info, now: int, name: string, fs: set<Ref>)
    requires Ready(c1, f, of) && f in c1.tree && c1.files[f].name == name && f in fs
    requires c1.pending == (if of.fd == INVALID || of.fd in c1.owner then {} else {of.fd})
    requires (Along(c, c1, {f}) || Along(c, c1, fs)) && c1.handles == c.handles
    ensures Ends(c, Updated(c1, f, of, now), name, of, f, of.err == 0, now, fs)
    ensures Updated(c1, f, of, now).current == c1.current
  {
    UpdatedOk(c1, f, of, now);
    var c2 := Updated(c1, f, of, now);
    UpdatedServes(c1, f, of, now, name);
    AlongMore(c1, c2, {f}, fs);
    if Along(c, c1, {f}) { AlongMore(c, c1, {f}, fs); }
    AlongTwice(c, c1, c2, fs);
  }

  lemma CreatedReady(c: Cache, c2: Cache, f: Ref, name: string, junk: File, of: Info, fs: set<Ref>)
    requires Consistent(c2, {}) && f !in c2.files && f != 0 && (of.fd == INVALID <==> of.err != 0 || of.isDir)
    requires f in fs
    requires (of.fd != INVALID ==> of.fd in c2.pending) && (forall g :: g in c2.tree ==> c2.files[g].name != name)
    requires Along(c, c2, fs)
    ensures Ready(Created(c2, f, name, junk), f, of) && Along(c, Created(c2, f, name, junk), fs)
  {
    ReadyToFill(c2, f, name, junk, of);
    var c3 := Created(c2, f, name, junk);
    AlongMore(c2, c3, {f}, fs);
    AlongTwice(c, c2, c3, fs);
  }

  lemma DetachedAlong(c: Cache, c1: Cache, c2: Cache, f: Ref, spare: Ref)
    requires Along(c, c1, {f}) && Along(c1, c2, {f})
    ensures Along(c, c2, {f, spare})
  {
    AlongTwice(c, c1, c2, {f});
    AlongMore(c, c2, {f}, {f, spare});
  }

  ghost predicate Unmoved(c: Cache, c': Cache, name: string, g: Ref) {
    g in c'.tree && g in c'.files && c'.files[g].name != name ==>
      g in c.tree && g in c.files && c'.files[g] == c.files[g]
  }

  // the entries of other names are those of c
  ghost predicate Apart(c: Cache, c': Cache, name: string) {
    forall g {:trigger Unmoved(c, c', name, g)} :: Unmoved(c, c', name, g)
  }

  lemma ApartSame(c: Cache, c1: Cache, c2: Cache, name: string)
    requires Apart(c, c1, name) && c2.files == c1.files && c2.tree == c1.tree
    ensures Apart(c, c2, name)
  {
    forall g | true ensures Unmoved(c, c2, name, g) { assert Unmoved(c, c1, name, g); }
  }

  lemma ApartTwice(c: Cache, c1: Cache, c2: Cache, name: string, fs: set<Ref>)
    requires Apart(c, c1, name) && Along(c1, c2, fs)
    requires forall g :: g in fs && g in c2.tree && g in c2.files ==> c2.files[g].name == name
    ensures Apart(c, c2, name)
  {
    forall g | true ensures Unmoved(c, c2, name, g) {
      if g in c2.tree && g in c2.files && c2.files[g].name != name {
        assert g !in fs && g in c1.files && c2.files[g] == c1.files[g] && g in c1.tree;
        assert Unmoved(c, c1, name, g);
      }
    }
  }

  lemma ApartCreated(c: Cache, c1: Cache, f: Ref, name: string, junk: File)
    requires Apart(c, c1, name) && f !in c1.files && f !in c.files
    ensures Apart(c, Created(c1, f, name, junk), name) && Counted(c, Created(c1, f, name, junk), f)
  {
    var c2 := Created(c1, f, name, junk);
    forall g | true ensures Unmoved(c, c2, name, g) { assert Unmoved(c, c1, name, g); }
  }

  // how often entry f was used, and when it was made
  ghost predicate Counted(c: Cache, c': Cache, f: Ref) {
    && f in c'.files
    && (if f in c.tree && f in c.files
        then c'.files[f].uses == (c.files[f].uses + 1) % 0x1_0000_0000 && c'.files[f].created == c.files[f].created
        else c'.files[f].uses == 1)
  }

  // What a request leaves in the entry of its name: it was accessed now, once more than before or
  // for the first time, and was made when the kernel was last asked.
  ghost predicate Stamp(c: Cache, c': Cache, name: string, now: int, asked: bool, g: Ref) {
    g in c'.tree && g in c'.files && c'.files[g].name == name ==>
      && c'.files[g].accessed == now
      && (if asked then c'.files[g].created == now
          else g in c.tree && g in c.files && c.files[g].name == name && c'.files[g].created == c.files[g].created)
      && c'.files[g].uses == if g in c.tree && g in c.files then (c.files[g].uses + 1) % 0x1_0000_0000 else 1
  }

  // other entries stay
  ghost predicate Stamped(c: Cache, c': Cache, name: string, now: int, asked: bool) {
    Apart(c, c', name) && forall g {:trigger Stamp(c, c', name, now, asked, g)} :: Stamp(c, c', name, now, asked, g)
  }

  lemma UpdatedStamped(c: Cache, c1: Cache, f: Ref, of: Info, now: int, name: string)
    requires Apart(c, c1, name) && Counted(c, c1, f) && Shape(c1, {f}) && c1.files[f].name == name
    ensures Stamped(c, Updated(c1, f, of, now), name, now, true)
  {
    var c2 := Updated(c1, f, of, now);
    forall g | true ensures Unmoved(c, c2, name, g) { assert Unmoved(c, c1, name, g); }
    forall g | true ensures Stamp(c, c2, name, now, true, g) {
      if g in c2.tree && g in c2.files && c2.files[g].name == name { assert g == f; }
    }
  }

  lemma HitStamped(c: Cache, c1: Cache, f: Ref, now: int, name: string)
    requires Apart(c, c1, name) && Counted(c, c1, f) && f in c.tree && f in c.files && c.files[f].name == name
    requires Shape(c1, {f}) && c1.files[f].name == name
    ensures Stamped(c, Hit(c1, f, now), name, now, false)
  {
    var c2 := Hit(c1, f, now);
    forall g | true ensures Unmoved(c, c2, name, g) { assert Unmoved(c, c1, name, g); }
    forall g | true ensures Stamp(c, c2, name, now, false, g) {
      if g in c2.tree && g in c2.files && c2.files[g].name == name { assert g == f; }
    }
  }

  lemma DroppedStamped(c: Cache, c1: Cache, f: Ref, now: int, name: string)
    requires Apart(c, c1, name) && Shape(c1, {f}) && f in c1.files && c1.files[f].name == name && c1.current > 0
    ensures Stamped(c, Dropped(c1, f), name, now, true)
  {
    var c2 := Dropped(c1, f);
    forall g | true ensures Unmoved(c, c2, name, g) { assert Unmoved(c, c1, name, g); }
    forall g | true ensures Stamp(c, c2, name, now, true, g) {
      assert g in c2.tree ==> g in c1.tree && g != f && c2.files[g] == c1.files[g];
    }
  }

  ghost predicate DatedAt(c: Cache, checked: map<string, int>, g: Ref) {
    g in c.tree && g in c.files ==>
      c.files[g].name in checked && c.files[g].created == checked[c.files[g].name]
  }

  // Every entry was made when the kernel was last asked about its name.
  ghost predicate Dated(c: Cache, checked: map<string, int>) {
    forall g {:trigger DatedAt(c, checked, g)} :: DatedAt(c, checked, g)
  }

  lemma DatedNext(c: Cache, c': Cache, name: string, now: int, asked: bool, checked: map<string, int>)
    requires Dated(c, checked) && Stamped(c, c', name, now, asked)
    ensures Dated(c', if asked then checked[name := now] else checked)
  {
    var checked' := if asked then checked[name := now] else checked;
    forall g | true ensures DatedAt(c', checked', g) {
      assert Unmoved(c, c', name, g) && Stamp(c, c', name, now, asked, g);
      assert DatedAt(c, checked, g);
    }
  }

  // nothing is made or renamed
  lemma DatedStill(c: Cache, c': Cache, checked: map<string, int>)
    requires Dated(c, checked) && c'.tree <= c.tree
    requires forall g {:trigger c'.files[g]} :: g in c'.tree && g in c'.files ==>
      g in c.files && c'.files[g].name == c.files[g].name && c'.files[g].created == c.files[g].created
    ensures Dated(c', checked)
  {
    forall g | true ensures DatedAt(c', checked, g) { assert DatedAt(c, checked, g); }
  }

  // Entries go from the end of a queue: none, or one to three if room has to be made.
  ghost predicate Shortens(q: seq<Ref>, q': seq<Ref>, full: bool) {
    q' <= q && |q| <= |q'| + 3 && if full then q != [] ==> |q'| < |q| else q' == q
  }

  // entry f comes first, and if it is a new one there is room for it
  ghost predicate Lined(q: seq<Ref>, q': seq<Ref>, f: Ref, made: bool, max: nat) {
    q' != [] && q'[0] == f && Shortens(q, q'[1..], made && |q| >= max)
  }

  // what is listed as an answer
  predicate Listed(ok: bool, of0: Info, of: Info) { ok || (of0.errors && of.err != 0) }

  // an entry was taken out of the queue for a request
  ghost predicate Begun(c: Cache, c0: Cache, f: Ref, name: string) {
    && Consistent(c0, {f}) && FileOk(c0, f) && Along(c, c0, {f}) && c0.handles == c.handles && f in c0.tree
    && c0.files[f].name == name && c0.handles[f] + 1 < COUNT
    && Apart(c, c0, name) && Counted(c, c0, f) && f in c.tree && f in c.files && c.files[f].name == name
    && c0.queue == Minus(c.queue, f)
  }

  lemma UsedBegun(c: Cache, f: Ref)
    requires Consistent(c, {}) && f in c.tree && c.handles[f] + 1 < COUNT
    ensures f in c.files && Begun(c, Used(c, f), f, c.files[f].name)
  {
    UsedOk(c, f);
  }

  class OpenFileCache {
    const tree: RbTree
    const crc: string -> Word         // ngx_crc32_long
    const max: nat
    const inactive: int
    var files: map<Ref, File>
    var queue: seq<Ref>               // expire_queue, most recently used first
    var current: nat
    ghost var handles: multiset<Ref>
    ghost var owner: map<int, Ref>
    ghost var pending: set<int>
    ghost var opens: nat              // descriptors opened and closed so far
    ghost var closes: nat
    ghost var checked: map<string, int>   // when the kernel was last asked about a name

    ghost function Now(): Cache
      reads this, tree
    {
      Cache(tree.g.Keys, files, queue, current, handles, owner, pending)
    }

    // the tree indexes the entries by hash and name
    ghost predicate Indexed()
      reads this, tree
    {
      && tree.Valid() && tree.kind == ByFile && 0 !in tree.g && tree.sentinel !in files
      && forall f {:trigger f in tree.g} :: f in tree.g ==>
           f in files && f in tree.mem && tree.mem[f].name == files[f].name && tree.mem[f].key == crc(files[f].name)
    }

    ghost predicate Balanced()
      reads this
    {
      opens == closes + |owner| + |pending|
    }

    ghost predicate Valid()
      reads this, tree
    {
      Indexed() && Consistent(Now(), {}) && pending == {} && 1 <= max && current <= max && Balanced()
      && Dated(Now(), checked)
    }

    // ngx_open_file_cache_init
    constructor (memory: Memory, sentinel: Ref, crc: string -> Word, max: nat, inactive: int)
      requires sentinel in memory && max >= 1
      ensures Valid() && fresh(tree) && files == map[] && handles == multiset{} && opens == 0
      ensures tree.sentinel == sentinel && tree.mem.Keys == memory.Keys && Now().tree == {} && owner == map[]
      ensures this.crc == crc && this.max == max && this.inactive == inactive
    {
      tree := new RbTree(memory, sentinel, ByFile);
      this.crc, this.max, this.inactive := crc, max, inactive;
      files, queue, current := map[], [], 0;
      handles, owner, pending, opens, closes, checked := multiset{}, map[], {}, 0, 0, map[];
    }

    // --- tree, queue and descriptors -----------------------------------------------------

    // ngx_rbtree_delete(&cache->rbtree, &file->node); cache->current--;
    method Remove(f: Ref)
      requires Indexed() && f in tree.g && current > 0
      modifies this`current, tree
      ensures Indexed() && tree.g.Keys == old(tree.g.Keys) - {f} && current == old(current) - 1
      ensures tree.mem.Keys == old(tree.mem.Keys)
    {
      tree.Delete(f);
      current := current - 1;
    }

    // lines 360-364
    method Add(f: Ref)
      requires Indexed() && f in tree.mem && f !in tree.g && f in files && f != 0
      modifies this`current, tree
      ensures Indexed() && tree.g.Keys == old(tree.g.Keys) + {f} && current == old(current) + 1
      ensures tree.mem.Keys == old(tree.mem.Keys)
    {
      ghost var m0 := tree.mem;
      tree.mem := tree.mem[f := tree.mem[f].(key := crc(files[f].name), name := files[f].name)];
      OutsideStructure(m0, tree.mem, tree.g, tree.sentinel, tree.root, |tree.order|, f);
      OutsideColoured(m0, tree.mem, tree.g, tree.sentinel, tree.root, |tree.order|, tree.h, f);
      assert forall i :: 0 <= i < |tree.order| ==> tree.order[i] != f;
      ghost var k := tree.Insert(f, 0);
      current := current + 1;
    }

    // ngx_close_file: only ever called on an open descriptor
    method CloseFile(fd: int)
      requires fd in owner && Balanced()
      modifies this`owner, this`closes
      ensures owner == old(owner) - {fd} && Balanced()
    {
      owner := owner - {fd};
      closes := closes + 1;
      assert old(owner).Keys == owner.Keys + {fd};
    }

    // ngx_open_file_lookup
    method Find(name: string) returns (f: Ref)
      requires Indexed()
      ensures f != 0 ==> f in tree.g && f in files && files[f].name == name
      ensures f == 0 ==> forall g :: g in tree.g && g in files ==> files[g].name != name
    {
      f := Lookup(tree, name, crc(name));
      assert forall g :: g in tree.g ==> g in tree.mem;
    }

    // ngx_queue_remove
    method QueueRemove(f: Ref)
      modifies this`queue
      ensures queue == Minus(old(queue), f)
    {
      if f in queue {
        queue := Without(queue, IndexOf(queue, f));
      }
    }

    // --- ngx_close_cached_file, ngx_open_file_cleanup --------------------------------------

    method CloseCachedFile(f: Ref, minUses: nat, now: int, ghost c: Cache)
      requires c == Now() && f in files && (files[f].fd != INVALID ==> files[f].fd in owner) && Balanced()
      modifies this`files, this`queue, this`owner, this`closes
      ensures Now() == CloseCached(c, f, minUses, now) && Balanced()
    {
      if !files[f].close {
        files := files[f := files[f].(accessed := now)];
        QueueRemove(f);
        queue := [f] + queue;
        if files[f].uses >= minUses || files[f].count > 0 {
          return;
        }
      }
      if files[f].count > 0 {
        return;
      }
      if files[f].fd != INVALID {
        CloseFile(files[f].fd);
        files := files[f := files[f].(fd := INVALID)];
      }
      if !files[f].close {
        return;
      }
      files := files - {f};
    }

    // --- ngx_expire_old_cached_files ---------------------------------------------------

    // the body of the loop, lines 745-769
    method ExpireLast(ghost c: Cache, ghost out: set<Ref>)
      requires c == Now() && Indexed() && Consistent(c, out) && Balanced() && queue != []
      modifies this`files, this`queue, this`owner, this`closes, this`current, tree
      ensures Indexed() && Now() == Turn(c) && Balanced() && tree.mem.Keys == old(tree.mem.Keys)
    {
      EvictOne(c, out);
      assert queue[|queue| - 1] in queue && FileOk(c, queue[|queue| - 1]);
      EvictFields(c);
    }

    method TakeLast(ghost c: Cache) returns (f: Ref)
      requires c == Now() && Indexed() && queue != [] && current > 0 && queue[|queue| - 1] in tree.g
      modifies this`queue, this`current, tree
      ensures f == c.queue[|c.queue| - 1] && Indexed() && Now() == Shortened(c) && tree.mem.Keys == old(tree.mem.Keys)
    {
      f := queue[|queue| - 1];
      queue := queue[..|queue| - 1];
      Remove(f);
    }

    method EvictFields(ghost c: Cache)
      requires c == Now() && Indexed() && Balanced() && queue != [] && current > 0
      requires var f := queue[|queue| - 1]; f in tree.g && f in files && (files[f].fd != INVALID ==>
          files[f].fd in owner)
      modifies this`files, this`queue, this`owner, this`closes, this`current, tree
      ensures Indexed() && Balanced() && Now() == Evicted(c) && tree.mem.Keys == old(tree.mem.Keys)
    {
      var f := TakeLast(c);
      if files[f].err == 0 && !files[f].isDir {
        files := files[f := files[f].(close := true)];
        CloseCachedFile(f, 0, 0, Now());
      } else {
        files := files - {f};
      }
    }

    method ExpireOld(n: nat, now: int, ghost c: Cache, ghost out: set<Ref>) returns (ghost k: nat, ghost c1: Cache)
      requires c == Now() && Indexed() && Consistent(c, out) && Balanced() && n <= 1
      modifies this`files, this`queue, this`owner, this`closes, this`current, tree
      ensures c1 == Now() && ExpiresTo(c, c1, out, k, n, now, inactive)
      ensures Indexed() && Balanced() && tree.mem.Keys == old(tree.mem.Keys)
    {
      k := ExpireSome(n, now, c, out);
      c1 := Now();
      StoppedThere(c, out, k, n, now, inactive);
    }

    // lines 739-770
    method ExpireSome(n: nat, now: int, ghost c: Cache, ghost out: set<Ref>) returns (ghost k: nat)
      requires Indexed() && c == Now() && Consistent(c, out) && Balanced() && n <= 1
      modifies this`files, this`queue, this`owner, this`closes, this`current, tree
      ensures Now() == Turns(c, k) && Reasons(c, k, n, now, inactive) && n + k <= 3
      ensures n + k == 3 || !MayGo(Turns(c, k), n + k == 0, now, inactive)
      ensures Indexed() && Balanced() && tree.mem.Keys == old(tree.mem.Keys)
    {
      k := 0;
      var m := n;
      while m < 3 && IdleLast(m == 0, now)
        invariant m == n + k && m <= 3 && Now() == Turns(c, k) && Reasons(c, k, n, now, inactive)
        invariant Indexed() && Balanced() && tree.mem.Keys == old(tree.mem.Keys)
        decreases 3 - m
      {
        ExpireTurn(now, c, out, k, n);
        m := m + 1;
        k := k + 1;
      }
    }

    // MayGo of the fields
    predicate IdleLast(force: bool, now: int)
      reads this, tree
      ensures IdleLast(force, now) == MayGo(Now(), force, now, inactive)
    {
      queue != [] && queue[|queue| - 1] in files && (force || now - files[queue[|queue| - 1]].accessed > inactive)
    }

    method ExpireTurn(now: int, ghost c: Cache, ghost out: set<Ref>, ghost k: nat, ghost n: nat)
      requires Indexed() && Balanced() && Now() == Turns(c, k) && Consistent(c, out) && Reasons(c, k, n, now, inactive)
      requires MayGo(Turns(c, k), n + k == 0, now, inactive)
      modifies this`files, this`queue, this`owner, this`closes, this`current, tree
      ensures Indexed() && Balanced() && Now() == Turns(c, k + 1) && Reasons(c, k + 1, n, now, inactive)
      ensures tree.mem.Keys == old(tree.mem.Keys)
    {
      TurnsEvict(c, out, k, n, now, inactive);
      ExpireLast(Turns(c, k), out);
    }

    // --- ngx_open_file_cleanup and ngx_open_file_cache_cleanup ------------------------------

    // a request ends and gives its handle back
    method Cleanup(f: Ref, minUses: nat, now: int)
      requires Valid() && handles[f] > 0
      modifies this`files, this`queue, this`owner, this`closes, this`current, this`handles, tree
      ensures Valid() && HandlesKept(old(Now()), Now()) && handles == old(handles) - multiset{f}
      ensures tree.mem.Keys == old(tree.mem.Keys)
      ensures ClosedRightly(old(Now()), Released(old(Now()), f, minUses, now), f, minUses, now)
      ensures exists k :: ExpiresTo(Released(old(Now()), f, minUses, now), Now(), {}, k, 1, now, inactive)
    {
      ghost var c := Now();
      ghost var c1 := Release(f, minUses, now, c);
      ghost var k, c2 := ExpireOld(1, now, c1, {});
      KeptTwice(c, c1, c2);
      DatedStill(c1, c2, checked);
    }

    // line 651
    method GiveBack(f: Ref)
      requires Indexed() && f in files && files[f].count > 0
      modifies this`files, this`handles
      ensures Indexed() && files == old(files)[f := old(files)[f].(count := old(files)[f].count - 1)]
      ensures handles == old(handles) - multiset{f}
    {
      files := files[f := files[f].(count := files[f].count - 1)];
      handles := handles - multiset{f};
    }

    // lines 651-653
    method Release(f: Ref, minUses: nat, now: int, ghost c: Cache) returns (ghost c1: Cache)
      requires c == Now() && Valid() && handles[f] > 0
      modifies this`files, this`queue, this`owner, this`closes, this`current, this`handles
      ensures Valid() && c1 == Now() == Released(c, f, minUses, now) && HandlesKept(c, c1)
      ensures c1.handles == c.handles - multiset{f} && ClosedRightly(c, c1, f, minUses, now)
    {
      ReleasedOk(c, f, minUses, now);
      assert FileOk(c, f);
      GiveBack(f);
      CloseCachedFile(f, minUses, now, Now());
      c1 := Now();
      DatedStill(c, c1, checked);
    }

    // The cache is destroyed: the descriptors of all cached files are closed, and the only
    // ones left belong to entries that were replaced or expired while in use.
    method CacheCleanup(ghost c: Cache) returns (ghost c1: Cache)
      requires c == Now() && Valid()
      modifies this`files, this`queue, this`owner, this`closes, this`current, tree
      ensures c1 == Now() && Balanced() && c1.tree == {} && c1.queue == [] && c1.current == 0 && c1.pending == {}
      ensures c1.handles == c.handles
      ensures forall d :: d in c1.owner <==> d in c.owner && c.owner[d] !in c.tree
      ensures c.handles == multiset{} ==> c1.files == map[] && c1.owner == map[]
    {
      c1 := c;
      while queue != []
        invariant Indexed() && Balanced() && c1 == Now() && Sweeping(c, c1)
        decreases |queue|
      {
        SweptNext(c, c1);
        CleanLast(c1);
        c1 := Now();
      }
      AllSwept(c, c1);
    }

    // lines 92-114
    method CleanLast(ghost c: Cache)
      requires c == Now() && Indexed() && Balanced() && queue != [] && current > 0
      requires var f := queue[|queue| - 1]; f in tree.g && f in files && (files[f].fd != INVALID ==>
          files[f].fd in owner)
      modifies this`files, this`queue, this`owner, this`closes, this`current, tree
      ensures Indexed() && Balanced() && Now() == Swept(c)
    {
      var f := TakeLast(c);
      if files[f].err == 0 && !files[f].isDir {
        files := files[f := files[f].(close := true, count := 0)];
        CloseCachedFile(f, 0, 0, Now());
      } else {
        files := files - {f};
      }
    }

    // --- ngx_open_cached_file ----------------------------------------------------------------

    // the kernel hands out descriptors that are not in use, and its error codes are positive
    ghost predicate Possible(k: Kernel)
      reads this
    {
      && (k.open.Opened? ==> k.open.fd >= 0 && k.open.fd !in owner && k.open.fd !in pending)
      && (k.stat.NoInfo? ==> k.stat.errno > 0) && (k.open.Refused? ==> k.open.errno > 0)
    }

    // ngx_open_and_stat_file
    method OpenAndStat(of0: Info, k: Kernel, ghost name: string, ghost now: int) returns (ok: bool, of: Info)
      requires Possible(k) && Balanced() && pending == {} && (of0.fd != INVALID ==> of0.fd in owner)
      modifies this`pending, this`opens, this`closes, this`checked
      ensures checked == old(checked)[name := now]
      ensures Balanced() && of.errors == of0.errors && of.valid == of0.valid && of.minUses == of0.minUses
      ensures ok == Succeeds(k, of0)
      ensures !ok ==> of.fd == INVALID && pending == {} && (of0.err == 0 ==> of.err == Errno(k, of0) >= 0)
      ensures ok ==> of.err == of0.err && Answers(k, of0, of)
      ensures ok ==> pending == if of.fd == INVALID || of.fd == of0.fd then {} else {of.fd}
      ensures ok && of.fd != INVALID && of.fd != of0.fd ==> k.open == Opened(of.fd)
    {
      checked := checked[name := now];
      of := of0;
      if of.fd != INVALID {
        match k.stat {
          case NoInfo(errno) => return false, of.(fd := INVALID, err := errno);
          case StatInfo(uniq, isDir, meta) =>
            if of.uniq == uniq {
              return true, of.(uniq := uniq, isDir := isDir, meta := meta);
            }
        }
      } else if of.testDir {
        match k.stat {
          case NoInfo(errno) => return false, of.(fd := INVALID, err := errno);
          case StatInfo(uniq, isDir, meta) =>
            if isDir {
              return true, of.(uniq := uniq, isDir := isDir, meta := meta);
            }
        }
      }
      match k.open {
        case Refused(errno) => return false, of.(fd := INVALID, err := errno);
        case Opened(fd) =>
          pending, opens := {fd}, opens + 1;
          match k.fstat {
            case NoInfo(_) =>
              ClosePending(fd);
              return false, of.(fd := INVALID);
            case StatInfo(uniq, isDir, meta) =>
              if isDir {
                ClosePending(fd);
                of := of.(fd := INVALID);
              } else {
                of := of.(fd := fd);
              }
              return true, of.(uniq := uniq, isDir := isDir, meta := meta);
          }
      }
    }

    // ngx_close_file, for a descriptor that no entry has yet
    method ClosePending(fd: int)
      requires fd in pending && Balanced()
      modifies this`pending, this`closes
      ensures pending == old(pending) - {fd} && Balanced()
    {
      pending := pending - {fd};
      closes := closes + 1;
    }

    // what every outcome promises
    ghost predicate Outcome(c: Cache, c1: Cache, name: string, of: Info, f: Ref, ok: bool, now: int, fs: set<Ref>)
      reads this, tree
    {
      c1 == Now() && Indexed() && Balanced() && 1 <= max && current <= max && Ends(c, c1, name, of, f, ok, now, fs)
    }

    // lines 377-400
    method FillFields(e0: File, of: Info, now: int) returns (e: File)
      ensures e == Refilled(e0, of, now)
    {
      e := e0.(fd := of.fd, err := of.err, created := now, accessed := now);
      if of.err == 0 {
        var count := e.count;
        if !of.isDir {
          count := (count + 1) % COUNT;
        }
        e := e.(uniq := of.uniq, meta := of.meta, close := false, isDir := of.isDir, count := count);
      }
    }

    // lines 373-404
    method UpdateEntry(f: Ref, of: Info, now: int, ghost c: Cache)
      requires c == Now() && Indexed() && Balanced() && f in files
      requires (of.fd in pending ==> of.fd !in owner && of.fd != INVALID)
      modifies this`files, this`queue, this`handles, this`owner, this`pending
      ensures Indexed() && Balanced() && Now() == Updated(c, f, of, now)
    {
      Record(f, of, now);
      OwnDescriptor(f, of.fd);
    }

    method Record(f: Ref, of: Info, now: int)
      requires Indexed() && f in files
      modifies this`files, this`queue, this`handles
      ensures Indexed() && files == old(files)[f := Refilled(old(files)[f], of, now)] && queue == [f] + old(queue)
      ensures handles == if of.err == 0 && !of.isDir then old(handles) + multiset{f} else old(handles)
    {
      var e := FillFields(files[f], of, now);
      if of.err == 0 && !of.isDir {
        handles := handles + multiset{f};
      }
      files, queue := files[f := e], [f] + queue;
    }

    // a new descriptor belongs to the entry
    ghost method OwnDescriptor(f: Ref, fd: int)
      requires Balanced() && (fd in pending ==> fd !in owner && fd != INVALID)
      modifies this`owner, this`pending
      ensures Balanced() && pending == old(pending) - {fd}
      ensures owner == if fd != INVALID && fd in old(pending) then old(owner)[fd := f] else old(owner)
    {
      if fd in pending {
        owner := owner[fd := f];
        pending := pending - {fd};
      }
      assert pending == old(pending) - {fd};
    }

    // lines 373-425, for an entry that is ready to be filled
    method Fill(f: Ref, of: Info, now: int, name: string, ghost c: Cache, ghost c1: Cache, ghost fs: set<Ref>)
      returns (ok: bool, ghost c2: Cache)
      requires c1 == Now() && Indexed() && Balanced() && Ready(c1, f, of) && f in tree.g && files[f].name == name
      requires 1 <= max && current <= max
      requires pending == (if of.fd == INVALID || of.fd in owner then {} else {of.fd})
      requires (Along(c, c1, {f}) || Along(c, c1, fs)) && c1.handles == c.handles && f in fs
      requires Apart(c, c1, name) && Counted(c, c1, f)
      modifies this`files, this`queue, this`handles, this`owner, this`pending
      ensures ok == (of.err == 0) && Outcome(c, c2, name, of, f, ok, now, fs) && Stamped(c, c2, name, now, true)
      ensures c2.queue == [f] + c1.queue
    {
      UpdatedStamped(c, c1, f, of, now, name);
      FilledEnds(c, c1, f, of, now, name, fs);
      c2 := Updated(c1, f, of, now);
      UpdateEntry(f, of, now, c1);
      ok := of.err == 0;
    }

    // lines 427-459: the request fails, and an entry that was in use before it leaves the tree
    method FailEntry(f: Ref, ghost c0: Cache)
      requires c0 == Now() && Indexed() && Balanced() && Consistent(c0, {f}) && FileOk(c0, f) && f in files
      requires current > 0 && f in tree.g
      modifies this`files, this`owner, this`closes, this`current, tree
      ensures Indexed() && Balanced() && Now() == Dropped(c0, f) && tree.mem.Keys == old(tree.mem.Keys)
    {
      Remove(f);
      if files[f].count == 0 {
        if files[f].fd != INVALID {
          CloseFile(files[f].fd);
        }
        files := files - {f};
      } else {
        files := files[f := files[f].(close := true)];
      }
    }

    // lines 338-404: a new entry, after making room for it
    method CreateEntry(name: string, of: Info, spare: Ref, junk: File, now: int, ghost c: Cache, ghost c0: Cache,
                       ghost fs: set<Ref>)
      returns (ok: bool, ghost c1: Cache)
      requires c0 == Now() && Indexed() && Balanced() && Consistent(c0, {}) && 1 <= max && current <= max
      requires spare in tree.mem && spare !in files && spare != 0 && spare != tree.sentinel && spare in fs
      requires (of.fd == INVALID <==> of.err != 0 || of.isDir) && pending == (if of.fd == INVALID then {} else {of.fd})
      requires of.fd != INVALID ==> of.fd !in owner
      requires forall g {:trigger g in tree.g} :: g in tree.g && g in files ==> files[g].name != name
      requires Along(c, c0, fs) && c0.handles == c.handles && Apart(c, c0, name) && spare !in c.files
      modifies this`files, this`queue, this`handles, this`owner, this`pending, this`current, this`closes, tree
      ensures ok == (of.err == 0) && Outcome(c, c1, name, of, spare, ok, now, fs) && Stamped(c, c1, name, now, true)
      ensures Lined(c0.queue, c1.queue, spare, true, max) && tree.mem.Keys == old(tree.mem.Keys)
    {
      ghost var c2 := c0;
      if current >= max {
        c2 := MakeRoom(now, name, c, c0, fs);
      }
      ok, c1 := FillNew(name, of, spare, junk, now, c, c2, fs);
    }

    method FillNew(name: string, of: Info, spare: Ref, junk: File, now: int, ghost c: Cache, ghost c2: Cache,
                   ghost fs: set<Ref>)
      returns (ok: bool, ghost c1: Cache)
      requires c2 == Now() && Indexed() && Balanced() && Consistent(c2, {}) && current < max
      requires spare in tree.mem && spare !in files && spare != 0 && spare != tree.sentinel && spare in fs
      requires (of.fd == INVALID <==> of.err != 0 || of.isDir) && pending == (if of.fd == INVALID then {} else {of.fd})
      requires of.fd != INVALID ==> of.fd !in owner
      requires forall g {:trigger g in c2.tree} :: g in c2.tree && g in c2.files ==> c2.files[g].name != name
      requires Along(c, c2, fs) && c2.handles == c.handles && Apart(c, c2, name) && spare !in c.files
      modifies this`files, this`queue, this`handles, this`owner, this`pending, this`current, tree
      ensures ok == (of.err == 0) && Outcome(c, c1, name, of, spare, ok, now, fs) && Stamped(c, c1, name, now, true)
      ensures c1.queue == [spare] + c2.queue && tree.mem.Keys == old(tree.mem.Keys)
    {
      CreatedReady(c, c2, spare, name, junk, of, fs);
      ApartCreated(c, c2, spare, name, junk);
      PlaceEntry(name, spare, junk, c2);
      ok, c1 := Fill(spare, of, now, name, c, Created(c2, spare, name, junk), fs);
    }

    // lines 344-369
    method PlaceEntry(name: string, spare: Ref, junk: File, ghost c2: Cache)
      requires c2 == Now() && Indexed() && spare in tree.mem && spare !in files && spare != 0 && spare != tree.sentinel
      modifies this`files, this`current, tree
      ensures Indexed() && Now() == Created(c2, spare, name, junk)
      ensures tree.mem.Keys == old(tree.mem.Keys)
    {
      files := files[spare := junk.(name := name, uses := 1, count := 0)];
      Add(spare);
    }

    // lines 340-342
    method MakeRoom(now: int, name: string, ghost c: Cache, ghost c0: Cache, ghost fs: set<Ref>)
      returns (ghost c2: Cache)
      requires c0 == Now() && Indexed() && Balanced() && Consistent(c0, {}) && current == max >= 1
      requires forall g {:trigger g in c0.tree} :: g in c0.tree && g in c0.files ==> c0.files[g].name != name
      requires Along(c, c0, fs) && Apart(c, c0, name)
      modifies this`files, this`queue, this`owner, this`closes, this`current, tree
      ensures c2 == Now() && Indexed() && Balanced() && Consistent(c2, {}) && current < max
      ensures tree.mem.Keys == old(tree.mem.Keys)
      ensures Along(c, c2, fs) && c2.handles == c0.handles && c2.pending == c0.pending && c2.files.Keys <= c0.files.Keys
      ensures c2.owner.Keys <= c0.owner.Keys && Apart(c, c2, name) && Shortens(c0.queue, c2.queue, true)
      ensures forall g {:trigger g in c2.tree} :: g in c2.tree && g in c2.files ==> c2.files[g].name != name
    {
      ghost var k;
      k, c2 := ExpireOld(0, now, c0, {});
      ApartTwice(c, c0, c2, name, {});
      AlongMore(c0, c2, {}, fs);
      AlongTwice(c, c0, c2, fs);
      Renamed(c0, c2, name);
    }

    // evictions give no entry another name
    lemma Renamed(c: Cache, c': Cache, name: string)
      requires Consistent(c, {}) && Consistent(c', {}) && Along(c, c', {})
      requires forall g {:trigger g in c.tree} :: g in c.tree && g in c.files ==> c.files[g].name != name
      ensures forall g {:trigger g in c'.tree} :: g in c'.tree && g in c'.files ==> c'.files[g].name != name
    {
      forall g | g in c'.tree ensures c'.files[g].name != name {
        assert g in c.tree && g in c'.files && g in c.files;
      }
    }

    // A directory has the number of the file that is open. The numbers are those of one file
    // system (line 278, "file became directory").
    predicate BecameDirectory(e: File, k: Kernel) {
      e.fd != INVALID && k.stat.StatInfo? && k.stat.uniq == e.uniq && k.stat.isDir
    }

    // The request is served with a directory, and all is well but for the descriptor of the
    // file, which the answer and the entry have kept. It is closed, or, if requests hold the
    // entry f0 of the file, it is theirs.
    ghost predicate Spoiled(c: Cache, c1: Cache, name: string, of: Info, f0: Ref, file: Ref, ok: bool, now: int,
                            fs: set<Ref>, fd: int, held: bool)
      reads this, tree
    {
      && c1 == Now() && Indexed() && Balanced() && 1 <= max && current <= max && ok && of.isDir
      && of.fd == fd != INVALID
      && file in c1.files && c1.files[file].fd == fd
      && Ends(c, Bare(c1, file), name, of.(fd := INVALID), file, ok, now, fs)
      && (if held then file != f0 && c1.handles[f0] > 0 && fd in c1.owner && c1.owner[fd] == f0
          else file == f0 && fd !in c1.owner)
      && !Consistent(c1, {})
    }

    // Another file has the name when it is asked about, and the file of the entry, which is
    // open, has it again when it is opened.
    predicate SwitchedBack(e: File, k: Kernel) {
      && e.fd != INVALID && k.stat.StatInfo? && k.stat.uniq != e.uniq && k.open.Opened? && k.fstat.StatInfo?
      && !k.fstat.isDir && k.fstat.uniq == e.uniq
    }

    // The request is served, but the descriptor fd is open, belongs to an entry that has another
    // one, and will never be closed.
    ghost predicate Leaked(c1: Cache, f: Ref, of: Info, ok: bool, fd: int)
      reads this, tree
    {
      && c1 == Now() && Indexed() && Balanced() && pending == {} && ok && f in c1.tree && f in c1.files
      && c1.files[f].fd == of.fd != fd
      && fd in c1.owner && c1.owner[fd] == f
      && (forall x {:trigger x in c1.files} :: x in c1.files ==> c1.files[x].fd != fd) && !Consistent(c1, {})
    }

    lemma LeaksThen(c: Cache, f: Ref, of: Info, now: int)
      requires Consistent(c, {f}) && FileOk(c, f) && c.files[f].fd != INVALID && of.fd != c.files[f].fd
      ensures var c' := Updated(c, f, of, now); var fd := c.files[f].fd;
        && fd in c'.owner && c'.owner[fd] == f && !Consistent(c', {})
        && forall x {:trigger x in c'.files} :: x in c'.files ==> c'.files[x].fd != fd
    {
      var c' := Updated(c, f, of, now);
      var fd := c.files[f].fd;
      forall x | x in c'.files ensures c'.files[x].fd != fd { if x != f { assert FileOk(c, x); } }
      assert fd in c'.owner && !OwnerOk(c', fd);
    }

    // an entry taken out of the queue for a request
    ghost predicate Working(c: Cache, c0: Cache, f: Ref, name: string)
      reads this, tree
    {
      c0 == Now() && Indexed() && Balanced() && 1 <= max && current <= max && Begun(c, c0, f, name)
    }

    // the request fails, and the entry goes
    method GiveUp(f: Ref, of: Info, name: string, now: int, ghost c: Cache, ghost c0: Cache) returns (ghost c1: Cache)
      requires Working(c, c0, f, name) && pending == {} && of.fd == INVALID
      modifies this`files, this`owner, this`closes, this`current, tree
      ensures Outcome(c, c1, name, of, f, false, now, {f}) && Stamped(c, c1, name, now, true) && c1.queue == c0.queue
      ensures tree.mem.Keys == old(tree.mem.Keys)
    {
      DroppedOk(c0, f);
      DroppedStamped(c, c0, f, now, name);
      FailEntry(f, c0);
      c1 := Now();
      AlongTwice(c, c0, c1, {f});
      assert forall g {:trigger g in c1.tree} ::
          g in c1.tree && g in c1.files ==> g in c0.tree && g != f && c1.files[g] == c0.files[g];
    }

    // lines 332-336, 208-212 and 266-270: the kernel is asked, with the entry out of the queue
    method Ask(f: Ref, of0: Info, k: Kernel, ghost name: string, ghost now: int, ghost c: Cache, ghost c0: Cache)
      returns (ok: bool, of: Info, ghost c1: Cache)
      requires Working(c, c0, f, name) && Possible(k) && pending == {} && (of0.fd != INVALID ==> of0.fd in owner)
      requires of0.err == 0
      modifies this`pending, this`opens, this`closes, this`checked
      ensures checked == old(checked)[name := now]
      ensures Working(c, c1, f, name) && c1 == c0.(pending := pending) && of.errors == of0.errors
      ensures ok == Succeeds(k, of0)
      ensures !ok ==> of.fd == INVALID && pending == {} && of.err == Errno(k, of0) >= 0
      ensures ok ==> of.err == 0 && Answers(k, of0, of)
      ensures pending == if of.fd == INVALID || of.fd == of0.fd then {} else {of.fd}
      ensures of.fd != INVALID && of.fd != of0.fd ==> of.fd !in owner
    {
      ok, of := OpenAndStat(of0, k, name, now);
      c1 := Now();
      PendingOk(c0, {f}, pending);
      ApartSame(c, c0, c1, name);
      AlongMore(c0, c1, {}, {f});
      AlongTwice(c, c0, c1, {f});
    }

    // the kernel is asked, and the request fails if it says no and the error is not to be cached
    method AskOrFail(f: Ref, of0: Info, k: Kernel, now: int, name: string, ghost fs: set<Ref>, ghost c: Cache,
                     ghost c0: Cache)
      returns (ok: bool, of: Info, gone: bool, ghost c1: Cache)
      requires Working(c, c0, f, name) && Possible(k) && pending == {} && (of0.fd != INVALID ==> of0.fd in owner)
      requires of0.err == 0 && f in fs
      modifies this`files, this`owner, this`pending, this`current, this`closes, this`opens, this`checked, tree
      ensures checked == old(checked)[name := now] && tree.mem.Keys == old(tree.mem.Keys)
      ensures Answered(k, of0, ok, of) && (ok ==> of.err == 0)
      ensures gone == !Listed(ok, of0, of)
      ensures gone ==> Outcome(c, c1, name, of, f, false, now, fs) && Stamped(c, c1, name, now, true)
      ensures gone ==> c1.queue == c0.queue
      ensures !gone ==> Working(c, c1, f, name) && c1 == c0.(pending := pending) && (ok || of.err > 0)
      ensures !gone ==> pending == if of.fd == INVALID || of.fd == of0.fd then {} else {of.fd}
      ensures !gone && !ok ==> of.fd == INVALID
      ensures !gone && of.fd != INVALID && of.fd != of0.fd ==> of.fd !in owner
    {
      ok, of, c1 := Ask(f, of0, k, name, now, c, c0);
      gone := !ok && (of.err == 0 || !of.errors);
      if gone {
        c1 := GiveUp(f, of, name, now, c, c1);
        EndsMore(c, c1, name, of, f, false, now, {f}, fs);
      }
    }

    // lines 204-215: the file was not used often enough to keep it open
    method Reopen(f: Ref, of0: Info, k: Kernel, now: int, name: string, ghost c: Cache, ghost c0: Cache,
                  ghost fs: set<Ref>)
      returns (ok: bool, of: Info, ghost c2: Cache)
      requires Working(c, c0, f, name) && Possible(k) && pending == {} && of0.fd == INVALID && of0.err == 0
      requires files[f].fd == INVALID && files[f].err == 0 && !files[f].isDir && f in fs
      modifies this`files, this`queue, this`handles, this`owner, this`pending, this`current, this`closes, this`opens,
          this`checked, tree
      ensures Outcome(c, c2, name, of, f, ok, now, fs) && Answered(k, of0, ok, of)
      ensures Stamped(c, c2, name, now, true) && checked == old(checked)[name := now]
      ensures c2.queue == (if Listed(ok, of0, of) then [f] + c0.queue else c0.queue)
      ensures tree.mem.Keys == old(tree.mem.Keys)
    {
      var gone;
      ok, of, gone, c2 := AskOrFail(f, of0, k, now, name, fs, c, c0);
      AnewMeans(k, of0, ok, of);
      if !gone {
        ok, c2 := Refill(f, of, now, name, c, c2, fs);
      }
    }

    lemma AnewMeans(k: Kernel, of0: Info, ok: bool, of: Info)
      requires Answered(k, of0, ok, of) && of0.fd == INVALID && (ok ==> of.err == 0)
      requires k.open.Opened? ==> k.open.fd >= 0
      ensures ok ==> (of.fd == INVALID <==> of.isDir)
    {}

    // line 214
    method Refill(f: Ref, of: Info, now: int, name: string, ghost c: Cache, ghost c1: Cache,
                  ghost fs: set<Ref>)
      returns (ok: bool, ghost c2: Cache)
      requires Working(c, c1, f, name) && files[f].fd == INVALID && f in fs
      requires (of.fd == INVALID <==> of.err != 0 || of.isDir)
      requires pending == (if of.fd == INVALID then {} else {of.fd}) && (of.fd != INVALID ==> of.fd !in owner)
      modifies this`files, this`queue, this`handles, this`owner, this`pending
      ensures ok == (of.err == 0) && Outcome(c, c2, name, of, f, ok, now, fs) && Stamped(c, c2, name, now, true)
      ensures c2.queue == [f] + c1.queue
    {
      assert FileOk(c1, f);
      ReadyToReplace(c1, f, of);
      ok, c2 := Fill(f, of, now, name, c, c1, fs);
    }

    // when an answer about entry e gets its descriptor out of hand
    lemma AnswerMeans(e: File, k: Kernel, of0: Info, ok: bool, of: Info)
      requires of0.fd == e.fd && of0.uniq == e.uniq
      requires Answered(k, of0, ok, of) && (ok ==> of.err == 0)
      requires k.open.Opened? ==> k.open.fd >= 0 && k.open.fd != e.fd
      ensures !ok ==> !SwitchedBack(e, k) && !BecameDirectory(e, k)
      ensures ok ==> Overwrites(e, of) == SwitchedBack(e, k) && Spoils(e, of) == BecameDirectory(e, k)
      ensures ok && !Spoils(e, of) ==> (of.fd == INVALID <==> of.err != 0 || of.isDir)
      ensures ok && of.fd != INVALID && of.fd == e.fd ==> of.uniq == e.uniq
    {}

    // lines 252-265
    method Question(of0: Info, e: File) returns (of: Info)
      ensures of == Asked(of0, e)
    {
      of := of0;
      if e.isDir {
        of := of.(testDir := true);
      }
      of := of.(fd := e.fd, uniq := e.uniq);
    }

    // the answer fits the entry
    ghost predicate Settling(c: Cache, c1: Cache, f: Ref, of: Info, name: string)
      reads this, tree
    {
      && Working(c, c1, f, name) && (files[f].fd != INVALID || files[f].err != 0 || files[f].isDir)
      && (!Spoils(files[f], of) ==> (of.fd == INVALID <==> of.err != 0 || of.isDir))
      && pending == (if of.fd == INVALID || of.fd == files[f].fd then {} else {of.fd})
      && (of.fd != INVALID && of.fd != files[f].fd ==> of.fd !in owner)
      && (of.fd != INVALID && of.fd == files[f].fd ==> of.uniq == files[f].uniq)
    }

    // lines 252-274
    method AskAgain(f: Ref, of0: Info, k: Kernel, now: int, name: string, ghost fs: set<Ref>, ghost c: Cache,
                    ghost c0: Cache)
      returns (ok: bool, of: Info, gone: bool, ghost c1: Cache)
      requires Working(c, c0, f, name) && Possible(k) && pending == {} && of0.fd == INVALID && of0.err == 0
      requires (files[f].fd != INVALID || files[f].err != 0 || files[f].isDir) && f in fs
      modifies this`files, this`owner, this`pending, this`current, this`closes, this`opens, this`checked, tree
      ensures checked == old(checked)[name := now] && tree.mem.Keys == old(tree.mem.Keys)
      ensures Answered(k, Asked(of0, c0.files[f]), ok, of) && (ok ==> of.err == 0) && gone == !Listed(ok, of0, of)
      ensures gone ==> Outcome(c, c1, name, of, f, false, now, fs) && Stamped(c, c1, name, now, true)
      ensures gone ==> c1.queue == c0.queue && !SwitchedBack(c0.files[f], k) && !BecameDirectory(c0.files[f], k)
      ensures !gone ==> c1 == c0.(pending := pending) && Settling(c, c1, f, of, name) && (ok || of.err > 0)
      ensures !gone ==>
          Overwrites(c0.files[f], of) == SwitchedBack(c0.files[f], k) &&
          Spoils(c0.files[f], of) == BecameDirectory(c0.files[f], k)
    {
      var e := files[f];
      var q := Question(of0, e);
      ok, of, gone, c1 := AskOrFail(f, q, k, now, name, fs, c, c0);
      AnswerMeans(e, k, q, ok, of);
    }

    // lines 252-336: the entry is older than the request allows
    method Retest(f: Ref, of0: Info, k: Kernel, now: int, name: string, spare: Ref, junk: File, ghost c: Cache,
                  ghost c0: Cache)
      returns (ok: bool, of: Info, file: Ref, ghost c2: Cache)
      requires Working(c, c0, f, name) && Possible(k) && pending == {} && of0.fd == INVALID && of0.err == 0
      requires files[f].fd != INVALID || files[f].err != 0 || files[f].isDir
      requires spare in tree.mem && spare !in files && spare != 0 && spare != tree.sentinel && spare !in c.files
      modifies this`files, this`queue, this`handles, this`owner, this`pending, this`current, this`closes, this`opens,
          this`checked, tree
      ensures var e := c0.files[f]; Turnout(c, c2, name, of, f, file, ok, now, {f, spare}, e.fd, e.count > 0,
          SwitchedBack(e, k), BecameDirectory(e, k))
      ensures Answered(k, Asked(of0, c0.files[f]), ok, of)
      ensures Stamped(c, c2, name, now, true) && checked == old(checked)[name := now]
      ensures if Listed(ok, of0, of) then Lined(c0.queue, c2.queue, file, file == spare, max) else c2.queue == c0.queue
      ensures tree.mem.Keys == old(tree.mem.Keys)
    {
      file := f;
      var gone;
      ok, of, gone, c2 := AskAgain(f, of0, k, now, name, {f, spare}, c, c0);
      if !gone {
        ok, file, c2 := Settle(f, of, now, name, spare, junk, c, c2);
      }
    }

    // lines 276-336: what the answer of the kernel says about an entry
    method Settle(f: Ref, of: Info, now: int, name: string, spare: Ref, junk: File, ghost c: Cache, ghost c1: Cache)
      returns (ok: bool, file: Ref, ghost c2: Cache)
      requires Settling(c, c1, f, of, name)
      requires spare in tree.mem && spare !in files && spare != 0 && spare != tree.sentinel && spare !in c.files
      modifies this`files, this`queue, this`handles, this`owner, this`pending, this`current, this`closes, tree
      ensures ok == (of.err == 0) && tree.mem.Keys == old(tree.mem.Keys) && Stamped(c, c2, name, now, true)
      ensures Lined(c1.queue, c2.queue, file, file == spare, max)
      ensures var e := c1.files[f]; Turnout(c, c2, name, of, f, file, ok, now, {f, spare}, e.fd, e.count > 0,
          Overwrites(e, of), Spoils(e, of))
    {
      var e := files[f];
      file := f;
      var update := false;
      if of.isDir {
        update := e.isDir || e.err != 0;
      } else if of.err == 0 {
        update := e.isDir || e.err != 0 || of.uniq == e.uniq;
      } else {
        update := e.err != 0 || e.isDir;
      }
      assert FileOk(c1, f);
      if update && e.fd != INVALID && of.fd != e.fd {
        LeaksThen(c1, f, of, now);
        UpdatedStamped(c, c1, f, of, now, name);
        UpdateEntry(f, of, now, c1);
        c2 := Now();
        ok := true;
      } else if update {
        if e.fd != INVALID { ReadyToKeep(c1, f, of); } else { ReadyToReplace(c1, f, of); }
        ok, c2 := Fill(f, of, now, name, c, c1, {f, spare});
      } else if of.isDir && of.fd != INVALID {
        ok, file, c2 := ReplaceKeeping(f, of, now, name, spare, junk, c, c1);
      } else {
        ok, file, c2 := Replace(f, of, now, name, spare, junk, c, c1);
      }
    }

    // the entry has a file open, and it is given another descriptor of the same file
    predicate Overwrites(e: File, of: Info) {
      e.fd != INVALID && of.fd != INVALID && of.fd != e.fd && of.uniq == e.uniq
    }

    // the entry has a file open, and a directory comes with its descriptor
    predicate Spoils(e: File, of: Info) { e.fd != INVALID && of.fd == e.fd && of.isDir && of.err == 0 }

    // how a request for an old entry turns out: its descriptor fd leaks, or spoils the new entry, or all is well
    ghost predicate Turnout(c: Cache, c1: Cache, name: string, of: Info, f: Ref, file: Ref, ok: bool, now: int,
                            fs: set<Ref>, fd: int, held: bool, leaks: bool, spoils: bool)
      reads this, tree
    {
      if leaks then Leaked(c1, f, of, ok, fd)
      else if spoils then Spoiled(c, c1, name, of, f, file, ok, now, fs, fd, held)
      else Outcome(c, c1, name, of, file, ok, now, fs)
    }

    // lines 308-404 once more, for a directory that comes with the descriptor of the file
    method ReplaceKeeping(f: Ref, of: Info, now: int, name: string, spare: Ref, junk: File, ghost c: Cache,
        ghost c1: Cache)
      returns (ok: bool, file: Ref, ghost c3: Cache)
      requires Working(c, c1, f, name) && Spoils(files[f], of) && pending == {}
      requires spare in tree.mem && spare !in files && spare != 0 && spare != tree.sentinel && spare !in c.files
      modifies this`files, this`queue, this`handles, this`owner, this`pending, this`current, this`closes, tree
      ensures ok && Spoiled(c, c3, name, of, f, file, ok, now, {f, spare}, of.fd, c1.files[f].count > 0)
      ensures Stamped(c, c3, name, now, true) && Lined(c1.queue, c3.queue, file, file == spare, max)
      ensures tree.mem.Keys == old(tree.mem.Keys)
    {
      if files[f].count == 0 {
        ghost var c2 := CloseUnused(f, of.(fd := INVALID), c1);
        AlongTwice(c, c1, c2, {f});
        file := f;
        ok, c3 := FillKeeping(f, of, now, name, c, c2, f, {f, spare}, false);
      } else {
        file := spare;
        ok, c3 := CreateKeeping(f, of, now, name, spare, junk, c, c1);
      }
    }

    method CreateKeeping(f: Ref, of: Info, now: int, name: string, spare: Ref, junk: File, ghost c: Cache,
        ghost c1: Cache)
      returns (ok: bool, ghost c3: Cache)
      requires Working(c, c1, f, name) && Spoils(files[f], of) && pending == {} && files[f].count > 0
      requires spare in tree.mem && spare !in files && spare != 0 && spare != tree.sentinel && spare !in c.files
      modifies this`files, this`queue, this`handles, this`owner, this`pending, this`current, tree
      ensures ok && Spoiled(c, c3, name, of, f, spare, ok, now, {f, spare}, of.fd, true)
      ensures Stamped(c, c3, name, now, true) && Lined(c1.queue, c3.queue, spare, true, max)
      ensures tree.mem.Keys == old(tree.mem.Keys)
    {
      ghost var c2 := Detach(f, name, c1);
      DetachedAlong(c, c1, c2, f, spare);
      ApartTwice(c, c1, c2, name, {f});
      if current >= max {
        assert false;  // the old entry has just made room
      }
      assert HandleKept(c1, c2, f) by { assert c1.handles[f] > 0 && c2.handles[f] > 0; }
      ok, c3 := PlaceKeeping(name, of, spare, junk, now, c, c2, f);
    }

    method PlaceKeeping(name: string, of: Info, spare: Ref, junk: File, now: int, ghost c: Cache, ghost c2: Cache,
        ghost f0: Ref)
      returns (ok: bool, ghost c3: Cache)
      requires c2 == Now() && Indexed() && Balanced() && Consistent(c2, {}) && current < max && pending == {}
      requires of.isDir && of.err == 0 && of.fd != INVALID && handles[f0] > 0 && of.fd in owner && owner[of.fd] == f0
      requires spare in tree.mem && spare !in files && spare != 0 && spare != tree.sentinel && f0 in files
      requires forall g {:trigger g in c2.tree} :: g in c2.tree && g in c2.files ==> c2.files[g].name != name
      requires Along(c, c2, {f0, spare}) && c2.handles == c.handles && Apart(c, c2, name) && spare !in c.files
      modifies this`files, this`queue, this`handles, this`owner, this`pending, this`current, tree
      ensures ok && Spoiled(c, c3, name, of, f0, spare, ok, now, {f0, spare}, of.fd, true)
      ensures Stamped(c, c3, name, now, true) && c3.queue == [spare] + c2.queue
      ensures tree.mem.Keys == old(tree.mem.Keys)
    {
      CreatedReady(c, c2, spare, name, junk, of.(fd := INVALID), {f0, spare});
      ApartCreated(c, c2, spare, name, junk);
      PlaceEntry(name, spare, junk, c2);
      ok, c3 := FillKeeping(spare, of, now, name, c, Created(c2, spare, name, junk), f0, {f0, spare}, true);
    }

    method FillKeeping(f: Ref, of: Info, now: int, name: string, ghost c: Cache, ghost c1: Cache, ghost f0: Ref,
                       ghost fs: set<Ref>, ghost held: bool)
      returns (ok: bool, ghost c2: Cache)
      requires c1 == Now() && Indexed() && Balanced() && Ready(c1, f, of.(fd := INVALID)) && f in tree.g
      requires files[f].name == name
      requires 1 <= max && current <= max && pending == {} && of.isDir && of.err == 0 && of.fd != INVALID
      requires (Along(c, c1, {f}) || Along(c, c1, fs)) && c1.handles == c.handles && f in fs
      requires if held then f != f0 && handles[f0] > 0 && of.fd in owner && owner[of.fd] == f0
               else f == f0 && of.fd !in owner
      requires Apart(c, c1, name) && Counted(c, c1, f)
      modifies this`files, this`queue, this`handles, this`owner, this`pending
      ensures ok && Spoiled(c, c2, name, of, f0, f, ok, now, fs, of.fd, held) && Stamped(c, c2, name, now, true)
      ensures c2.queue == [f] + c1.queue
    {
      FilledEnds(c, c1, f, of.(fd := INVALID), now, name, fs);
      UpdatedStamped(c, c1, f, of, now, name);
      c2 := Updated(c1, f, of, now);
      UpdatedBare(c1, f, of, now);
      UpdateEntry(f, of, now, c1);
      NotBare(c2, f);
      ok := true;
    }

    // lines 308-336: another file has the name now, or none
    method Replace(f: Ref, of: Info, now: int, name: string, spare: Ref, junk: File, ghost c: Cache, ghost c1: Cache)
      returns (ok: bool, file: Ref, ghost c3: Cache)
      requires Working(c, c1, f, name) && files[f].fd != INVALID && (of.fd == INVALID <==> of.err != 0 || of.isDir)
      requires pending == (if of.fd == INVALID then {} else {of.fd}) && (of.fd != INVALID ==> of.fd !in owner)
      requires spare in tree.mem && spare !in files && spare != 0 && spare != tree.sentinel && spare !in c.files
      modifies this`files, this`queue, this`handles, this`owner, this`pending, this`current, this`closes, tree
      ensures ok == (of.err == 0) && Outcome(c, c3, name, of, file, ok, now, {f, spare})
      ensures Stamped(c, c3, name, now, true) && Lined(c1.queue, c3.queue, file, file == spare, max)
      ensures tree.mem.Keys == old(tree.mem.Keys)
    {
      if files[f].count == 0 {
        file := f;
        ok, c3 := ReplaceUnused(f, of, now, name, c, c1, {f, spare});
      } else {
        file := spare;
        ok, c3 := ReplaceHeld(f, of, now, name, spare, junk, c, c1);
      }
    }

    method ReplaceUnused(f: Ref, of: Info, now: int, name: string, ghost c: Cache, ghost c1: Cache, ghost fs: set<Ref>)
      returns (ok: bool, ghost c3: Cache)
      requires Working(c, c1, f, name) && files[f].fd != INVALID && (of.fd == INVALID <==> of.err != 0 || of.isDir)
      requires pending == (if of.fd == INVALID then {} else {of.fd}) && (of.fd != INVALID ==> of.fd !in owner)
      requires files[f].count == 0 && f in fs
      modifies this`files, this`queue, this`handles, this`owner, this`pending, this`closes
      ensures ok == (of.err == 0) && Outcome(c, c3, name, of, f, ok, now, fs) && Stamped(c, c3, name, now, true)
      ensures c3.queue == [f] + c1.queue
    {
      ghost var c2 := CloseUnused(f, of, c1);
      AlongTwice(c, c1, c2, {f});
      ApartSame(c, c1, c2, name);
      ok, c3 := Fill(f, of, now, name, c, c2, fs);
    }

    method ReplaceHeld(f: Ref, of: Info, now: int, name: string, spare: Ref, junk: File, ghost c: Cache,
                       ghost c1: Cache)
      returns (ok: bool, ghost c3: Cache)
      requires Working(c, c1, f, name) && files[f].fd != INVALID && (of.fd == INVALID <==> of.err != 0 || of.isDir)
      requires pending == (if of.fd == INVALID then {} else {of.fd}) && (of.fd != INVALID ==> of.fd !in owner)
      requires spare in tree.mem && spare !in files && spare != 0 && spare != tree.sentinel && spare !in c.files
      requires files[f].count > 0
      modifies this`files, this`queue, this`handles, this`owner, this`pending, this`current, this`closes, tree
      ensures ok == (of.err == 0) && Outcome(c, c3, name, of, spare, ok, now, {f, spare})
      ensures Stamped(c, c3, name, now, true) && tree.mem.Keys == old(tree.mem.Keys)
      ensures Lined(c1.queue, c3.queue, spare, true, max)
    {
      ghost var c2 := Detach(f, name, c1);
      DetachedAlong(c, c1, c2, f, spare);
      ApartTwice(c, c1, c2, name, {f});
      ok, c3 := CreateEntry(name, of, spare, junk, now, c, c2, {f, spare});
    }

    // lines 308-316
    method CloseUnused(f: Ref, of: Info, ghost c1: Cache) returns (ghost c2: Cache)
      requires c1 == Now() && Indexed() && Balanced() && Consistent(c1, {f}) && FileOk(c1, f) && f in files
      requires files[f].fd != INVALID && handles[f] == 0
      requires (of.fd == INVALID <==> of.err != 0 || of.isDir) && (of.fd != INVALID ==> of.fd in pending)
      modifies this`owner, this`closes
      ensures c2 == Now() == CachedFiles.Closed(c1, f) && Indexed() && Balanced() && Ready(c2, f, of)
      ensures Along(c1, c2, {f})
    {
      ReadyToReplace(c1, f, of);
      CloseFile(files[f].fd);
      c2 := Now();
    }

    // lines 321-325
    method Detach(f: Ref, name: string, ghost c1: Cache) returns (ghost c2: Cache)
      requires c1 == Now() && Indexed() && Balanced() && Consistent(c1, {f}) && FileOk(c1, f) && files[f].count > 0
      requires f in tree.g
      requires 1 <= max && current <= max && files[f].name == name
      modifies this`files, this`current, tree
      ensures c2 == Now() && Indexed() && Balanced() && Consistent(c2, {}) && Along(c1, c2, {f})
      ensures c2.handles == c1.handles && c2.queue == c1.queue
      ensures c2.files.Keys == c1.files.Keys && current <= max && tree.mem.Keys == old(tree.mem.Keys) && f !in c2.tree
      ensures forall g {:trigger g in c2.tree} :: g in c2.tree && g in c2.files ==> c2.files[g].name != name
    {
      DetachedOk(c1, f);
      Remove(f);
      files := files[f := files[f].(close := true)];
      c2 := Now();
      assert c2 == Detached(c1, f);
      assert forall g {:trigger g in c2.tree} :: g in c2.tree ==> g in c1.tree && g != f && c2.files[g] == c1.files[g];
    }

    // the entry of a name may answer without asking the kernel: it was opened before or is
    // an error or a directory, and is young enough
    predicate Fresh(e: File, of: Info, now: int) {
      (e.fd != INVALID || e.err != 0 || e.isDir) && (of.uniq == 0 || of.uniq == e.uniq) && now - e.created < of.valid
    }

    // lines 222-246 and 402-404
    method HitFields(f: Ref, of0: Info, now: int, ghost c0: Cache) returns (of: Info)
      requires c0 == Now() && Indexed() && f in files && of0.err == 0 && of0.fd == INVALID
      modifies this`files, this`queue, this`handles
      ensures Indexed() && Now() == Hit(c0, f, now)
      ensures if c0.files[f].err == 0 then Reports(c0.files[f], of) else of == of0.(err := c0.files[f].err)
    {
      var e := files[f];
      of := of0;
      if e.err == 0 {
        of := of.(fd := e.fd, uniq := e.uniq, meta := e.meta, isDir := e.isDir);
        if !e.isDir {
          e := e.(count := (e.count + 1) % COUNT);
          handles := handles + multiset{f};
        }
      } else {
        of := of.(err := e.err);
      }
      files := files[f := e.(accessed := now)];
      queue := [f] + queue;
    }

    method HitEntry(f: Ref, of0: Info, now: int, name: string, ghost c: Cache, ghost c0: Cache,
                    ghost fs: set<Ref>)
      returns (ok: bool, of: Info, ghost c1: Cache)
      requires Working(c, c0, f, name) && pending == {} && of0.fd == INVALID && of0.err == 0
      requires files[f].fd != INVALID || files[f].err != 0 || files[f].isDir
      requires f in fs
      modifies this`files, this`queue, this`handles
      ensures Outcome(c, c1, name, of, f, ok, now, fs) && Stamped(c, c1, name, now, false)
      ensures c1.queue == [f] + c0.queue
      ensures ok == (c0.files[f].err == 0) && (if ok then Reports(c0.files[f], of) else of.err == c0.files[f].err)
    {
      HitOk(c0, f, now);
      of := HitFields(f, of0, now, c0);
      ok := of.err == 0;
      c1 := Now();
      AlongTwice(c, c0, c1, {f});
      HitServes(c0, f, of, now, name);
      HitStamped(c, c0, f, now, name);
      EndsMore(c, c1, name, of, f, ok, now, {f}, fs);
    }

    // a descriptor gets out of hand: the entry is too old to answer alone, and its name was
    // switched back or became a directory
    predicate Mislaid(e: File, of0: Info, k: Kernel, now: int) {
      !Fresh(e, of0, now) && (SwitchedBack(e, k) || BecameDirectory(e, k))
    }

    // What a request for a cached name gets: a fresh entry answers alone, and otherwise the
    // kernel is asked about the descriptor of the entry.
    ghost predicate Told(e: File, of0: Info, k: Kernel, now: int, ok: bool, of: Info, silent: bool) {
      if Fresh(e, of0, now) then silent && ok == (e.err == 0) && (if ok then Reports(e, of) else of.err == e.err)
      else Answered(k, Asked(of0, e), ok, of)
    }

    // The entry f0 can answer, and the kernel was asked about its name less than of0.valid ago.
    ghost predicate Recent(c: Cache, f0: Ref, name: string, of0: Info, now: int, checked: map<string, int>) {
      && f0 in c.files && (c.files[f0].fd != INVALID || c.files[f0].err != 0 || c.files[f0].isDir)
      && (of0.uniq == 0 || of0.uniq == c.files[f0].uniq) && name in checked && now - checked[name] < of0.valid
    }

    // ngx_open_cached_file; c is the cache before, c1 after, and f0 the entry that the name had.
    // The cache stays valid exactly if no descriptor gets out of hand. The kernel is asked exactly
    // if there is no entry that was checked recently, and the entry is dated accordingly.
    method OpenCachedFile(name: string, of0: Info, k: Kernel, now: int, spare: Ref, junk: File, ghost c: Cache)
      returns (ok: bool, of: Info, file: Ref, f0: Ref, ghost c1: Cache)
      requires c == Now() && Valid() && Possible(k) && (forall f {:trigger handles[f]} :: handles[f] + 1 < COUNT)
      requires spare in tree.mem && spare !in files && spare != 0 && spare != tree.sentinel && spare !in c.files
      modifies this`files, this`queue, this`handles, this`owner, this`pending, this`current, this`closes, this`opens,
          this`checked, tree
      ensures f0 == 0 ==> forall f {:trigger f in c.tree} :: f in c.tree && f in c.files ==> c.files[f].name != name
      ensures f0 != 0 ==> f0 in c.tree && f0 in c.files && c.files[f0].name == name
      ensures Valid() <==> !(f0 != 0 && Mislaid(c.files[f0], of0.(fd := INVALID, err := 0), k, now))
      ensures Valid() ==> Outcome(c, c1, name, of, file, ok, now, {f0, spare})
      ensures !Valid() ==> f0 != 0 && var e := c.files[f0];
          if SwitchedBack(e, k) then Leaked(c1, f0, of, ok, e.fd)
          else Spoiled(c, c1, name, of, f0, file, ok, now, {f0, spare}, e.fd, e.count > 0)
      ensures f0 == 0 ==> Answered(k, of0.(fd := INVALID, err := 0), ok, of)
      ensures f0 != 0 ==>
          Told(c.files[f0], of0.(fd := INVALID, err := 0), k, now, ok, of, opens == old(opens) && closes == old(closes))
      ensures var recent := Recent(c, f0, name, of0, now, old(checked));
          && Stamped(c, c1, name, now, !recent)
          && checked == (if recent then old(checked) else old(checked)[name := now])
          && if recent || Listed(ok, of0, of) then Lined(Minus(c.queue, f0), c1.queue, file, file == spare, max)
             else c1.queue == Minus(c.queue, f0)
      ensures tree.mem.Keys == old(tree.mem.Keys)
    {
      of := of0.(fd := INVALID, err := 0);
      f0 := Find(name);
      if f0 == 0 {
        ok, of, file, c1 := OpenNew(name, of, k, now, spare, junk, c);
        AlongMore(c, c1, {spare}, {0, spare});
      } else {
        FreshRecent(c, f0, name, of0, now, checked);
        ok, of, file, c1 := OpenOld(f0, name, of, k, now, spare, junk, c);
      }
    }

    lemma FreshRecent(c: Cache, f0: Ref, name: string, of0: Info, now: int, checked: map<string, int>)
      requires Dated(c, checked) && f0 in c.tree && f0 in c.files && c.files[f0].name == name
      ensures Fresh(c.files[f0], of0.(fd := INVALID, err := 0), now) == Recent(c, f0, name, of0, now, checked)
    {
      assert DatedAt(c, checked, f0);
    }

    // lines 200-202
    method Use(f0: Ref, name: string, ghost c: Cache) returns (ghost c0: Cache)
      requires c == Now() && Indexed() && Balanced() && Consistent(c, {}) && 1 <= max && current <= max
      requires f0 in tree.g && f0 in files && files[f0].name == name && handles[f0] + 1 < COUNT
      modifies this`files, this`queue
      ensures Working(c, c0, f0, name) && c0 == Used(c, f0)
    {
      UsedBegun(c, f0);
      c0 := Used(c, f0);
      UseFields(f0, c);
    }

    method UseFields(f: Ref, ghost c: Cache)
      requires c == Now() && Indexed() && f in files
      modifies this`files, this`queue
      ensures Indexed() && Now() == Used(c, f)
    {
      files := files[f := files[f].(uses := (files[f].uses + 1) % USES)];
      QueueRemove(f);
    }

    // lines 198-336: the name is cached
    method OpenOld(f0: Ref, name: string, of0: Info, k: Kernel, now: int, spare: Ref, junk: File, ghost c: Cache)
      returns (ok: bool, of: Info, file: Ref, ghost c1: Cache)
      requires c == Now() && Valid() && Possible(k) && handles[f0] + 1 < COUNT && of0.fd == INVALID && of0.err == 0
      requires f0 in tree.g && f0 in files && files[f0].name == name
      requires spare in tree.mem && spare !in files && spare != 0 && spare != tree.sentinel && spare !in c.files
      modifies this`files, this`queue, this`handles, this`owner, this`pending, this`current, this`closes, this`opens,
          this`checked, tree
      ensures var e := c.files[f0]; Turnout(c, c1, name, of, f0, file, ok, now, {f0, spare}, e.fd, e.count > 0,
          !Fresh(e, of0, now) && SwitchedBack(e, k), !Fresh(e, of0, now) && BecameDirectory(e, k))
      ensures Told(c.files[f0], of0, k, now, ok, of, opens == old(opens) && closes == old(closes))
      ensures Stamped(c, c1, name, now, !Fresh(c.files[f0], of0, now))
      ensures if Listed(ok, of0, of) || Fresh(c.files[f0], of0, now)
              then Lined(Minus(c.queue, f0), c1.queue, file, file == spare, max)
              else c1.queue == Minus(c.queue, f0)
      ensures checked == if Fresh(c.files[f0], of0, now) then old(checked) else old(checked)[name := now]
      ensures Dated(c1, checked)
      ensures tree.mem.Keys == old(tree.mem.Keys)
    {
      ghost var c0 := Use(f0, name, c);
      UsesApart(c.files[f0], c0.files[f0], of0, k, now);
      ghost var last := checked;
      ok, of, file, c1 := OpenUsed(f0, name, of0, k, now, spare, junk, c, c0);
      DatedNext(c, c1, name, now, !Fresh(c.files[f0], of0, now), last);
    }

    // how often it was used does not matter for how an entry answers
    lemma UsesApart(e: File, e0: File, of0: Info, k: Kernel, now: int)
      requires e0 == e.(uses := e0.uses)
      ensures Fresh(e0, of0, now) == Fresh(e, of0, now) && Asked(of0, e0) == Asked(of0, e)
      ensures SwitchedBack(e0, k) == SwitchedBack(e, k) && BecameDirectory(e0, k) == BecameDirectory(e, k)
    {}

    method OpenUsed(f0: Ref, name: string, of0: Info, k: Kernel, now: int, spare: Ref, junk: File, ghost c: Cache,
                    ghost c0: Cache)
      returns (ok: bool, of: Info, file: Ref, ghost c1: Cache)
      requires Working(c, c0, f0, name) && Possible(k) && pending == {} && of0.fd == INVALID && of0.err == 0
      requires spare in tree.mem && spare !in files && spare != 0 && spare != tree.sentinel && spare !in c.files
      modifies this`files, this`queue, this`handles, this`owner, this`pending, this`current, this`closes, this`opens,
          this`checked, tree
      ensures var e := c0.files[f0]; Turnout(c, c1, name, of, f0, file, ok, now, {f0, spare}, e.fd, e.count > 0,
          !Fresh(e, of0, now) && SwitchedBack(e, k), !Fresh(e, of0, now) && BecameDirectory(e, k))
      ensures Told(c0.files[f0], of0, k, now, ok, of, opens == old(opens) && closes == old(closes))
      ensures Stamped(c, c1, name, now, !Fresh(c0.files[f0], of0, now))
      ensures if Listed(ok, of0, of) || Fresh(c0.files[f0], of0, now)
              then Lined(c0.queue, c1.queue, file, file == spare, max)
              else c1.queue == c0.queue
      ensures checked == if Fresh(c0.files[f0], of0, now) then old(checked) else old(checked)[name := now]
      ensures tree.mem.Keys == old(tree.mem.Keys)
    {
      var e := files[f0];
      if e.fd == INVALID && e.err == 0 && !e.isDir {
        ok, of, c1 := Reopen(f0, of0, k, now, name, c, c0, {f0, spare});
        AskedAnew(k, of0, e, ok, of);
        file := f0;
      } else if (of0.uniq == 0 || of0.uniq == e.uniq) && now - e.created < of0.valid {
        ok, of, c1 := HitEntry(f0, of0, now, name, c, c0, {f0, spare});
        file := f0;
      } else {
        ok, of, file, c1 := Retest(f0, of0, k, now, name, spare, junk, c, c0);
      }
    }

    // lines 332-336: the name is not cached
    method OpenNew(name: string, of0: Info, k: Kernel, now: int, spare: Ref, junk: File, ghost c: Cache)
      returns (ok: bool, of: Info, file: Ref, ghost c2: Cache)
      requires c == Now() && Valid() && Possible(k) && of0.fd == INVALID && of0.err == 0
      requires forall f {:trigger f in tree.g} :: f in tree.g && f in files ==> files[f].name != name
      requires spare in tree.mem && spare !in files && spare != 0 && spare != tree.sentinel && spare !in c.files
      modifies this`files, this`queue, this`handles, this`owner, this`pending, this`current, this`closes, this`opens,
          this`checked, tree
      ensures Outcome(c, c2, name, of, file, ok, now, {spare}) && Answered(k, of0, ok, of)
      ensures Stamped(c, c2, name, now, true) && checked == old(checked)[name := now] && Dated(c2, checked)
      ensures if Listed(ok, of0, of) then Lined(c.queue, c2.queue, spare, true, max) else c2.queue == c.queue
      ensures file == spare
      ensures tree.mem.Keys == old(tree.mem.Keys)
    {
      ghost var last := checked;
      file := spare;
      ok, of := OpenAndStat(of0, k, name, now);
      c2 := Now();
      PendingOk(c, {}, pending);
      AlongMore(c, c2, {}, {spare});
      if ok || (of.err != 0 && of.errors) {
        ok, c2 := CreateEntry(name, of, spare, junk, now, c, c2, {spare});
      }
      DatedNext(c, c2, name, now, true, last);
    }
  }

  // what the request of the runs below asks for, and the state after it: "a" is open as
  // descriptor 3 of file 1, and the request holds its entry 2
  function Query(uniq: int): Info { Info(INVALID, uniq, 0, false, Meta(0, 0, true, false, false), false, false, 0, 0) }

  ghost predicate AOpen(c1: Cache) {
    && Consistent(c1, {}) && c1.tree == {2} && c1.files.Keys == {2} && c1.handles == multiset{2}
    && c1.files[2].name == "a" && c1.files[2].fd == 3 && c1.files[2].uniq == 1 && c1.files[2].count == 1
    && c1.files[2].accessed == 0 && forall d :: d in c1.owner ==> d == 3
  }

  ghost predicate Prepared(cache: OpenFileCache, c1: Cache)
    reads cache, cache.tree
  {
    c1 == cache.Now() && cache.Valid() && cache.tree.mem.Keys == {1, 2, 3} && cache.tree.sentinel == 1 &&
        cache.inactive == 60
  }

  method OpenFirst(junk: File) returns (cache: OpenFileCache, ghost c1: Cache)
    ensures fresh(cache) && fresh(cache.tree) && Prepared(cache, c1) && AOpen(c1)
  {
    var node := Node(0, 0, 0, 0, false, "");
    cache := new OpenFileCache(map[1 := node, 2 := node, 3 := node], 1, _ => 0, 8, 60);
    ghost var c := cache.Now();
    var kernel := Kernel(NoInfo(2), Opened(3), StatInfo(1, false, Query(0).meta));
    var ok, of, file, f0;
    ok, of, file, f0, c1 := cache.OpenCachedFile("a", Query(0), kernel, 0, 2, junk, c);
    FirstIsOpen(c, c1, of, file);
  }

  lemma FirstIsOpen(c: Cache, c1: Cache, of: Info, file: Ref)
    requires c.tree == {} && c.files == map[] && c.owner == map[] && c.handles == multiset{}
    requires Ends(c, c1, "a", of, file, true, 0, {0, 2}) && of.fd == 3 && of.uniq == 1 && !of.isDir
    ensures AOpen(c1)
  {
    OnlyOne(c1, file, 2);
    assert c1.handles == multiset{2};
  }

  // A descriptor is lost: another file has the name when it is asked about, and file 1 has it
  // again when it is opened.
  method SwitchLeaks(junk: File) returns (cache: OpenFileCache)
    ensures fresh(cache) && cache.Indexed() && 2 in cache.files && cache.files[2].fd == 4
    ensures 3 in cache.owner && cache.owner[3] == 2 && forall f :: f in cache.files ==> cache.files[f].fd != 3
  {
    ghost var c1, c2;
    cache, c1 := OpenFirst(junk);
    var kernel := Kernel(StatInfo(2, false, junk.meta), Opened(4), StatInfo(1, false, junk.meta));
    var ok, of, file, f0;
    ok, of, file, f0, c2 := cache.OpenCachedFile("a", Query(5), kernel, 0, 3, junk, c1);
  }

  // entry f is a directory with descriptor 3
  ghost predicate Kept(cache: OpenFileCache, f: Ref)
    reads cache, cache.tree
  {
    f in cache.tree.g && f in cache.files && cache.files[f].isDir && cache.files[f].fd == 3
  }

  // A directory has the number of the file when its name is asked about: it gets an entry with
  // the descriptor that belongs to the first request.
  method DirectoryShares(junk: File) returns (cache: OpenFileCache)
    ensures fresh(cache) && cache.Indexed() && Kept(cache, 3) && 3 in cache.owner && cache.owner[3] == 2
    ensures cache.handles[2] > 0
  {
    ghost var c1;
    cache, c1 := OpenFirst(junk);
    AskForDirectory(cache, junk, c1);
  }

  // the same after the first request is done: the descriptor is closed, and the entry keeps it
  method DirectoryKeeps(junk: File) returns (cache: OpenFileCache)
    ensures fresh(cache) && cache.Indexed() && Kept(cache, 2) && 3 !in cache.owner
  {
    ghost var c1;
    cache, c1 := OpenFirst(junk);
    ghost var c := GiveItBack(cache, c1);
    AskForDirectory(cache, junk, c);
  }

  method AskForDirectory(cache: OpenFileCache, junk: File, ghost c: Cache)
    requires Prepared(cache, c) && c.tree == {2} && c.files.Keys == {2} && (forall f :: c.handles[f] + 1 < COUNT)
    requires c.files[2].name == "a" && c.files[2].fd == 3 && c.files[2].uniq == 1
    modifies cache, cache.tree
    ensures cache.Indexed()
    ensures if c.handles[2] > 0 then Kept(cache, 3) && cache.handles[2] > 0 && 3 in cache.owner && cache.owner[3] == 2
      else Kept(cache, 2) && 3 !in cache.owner
  {
    assert FileOk(c, 2);
    var kernel := Kernel(StatInfo(1, true, junk.meta), Refused(2), NoInfo(2));
    var ok, of, file, f0;
    ghost var c2;
    ok, of, file, f0, c2 := cache.OpenCachedFile("a", Query(5), kernel, 0, 3, junk, c);
    assert f0 == 2;
    WhichOne(c, c2, of.(fd := INVALID), file);
  }

  lemma WhichOne(c: Cache, c2: Cache, of: Info, file: Ref)
    requires c.tree == {2} && file in c2.files && Ends(c, Bare(c2, file), "a", of, file, true, 0, {2, 3}) && of.isDir
    ensures (file == 2 || file == 3) && file in c2.tree && c2.files[file].isDir
  {}

  method GiveItBack(cache: OpenFileCache, ghost c1: Cache) returns (ghost c: Cache)
    requires Prepared(cache, c1) && AOpen(c1)
    modifies cache, cache.tree
    ensures Prepared(cache, c) && c.tree == {2} && c.files.Keys == {2} && c.handles == multiset{}
    ensures c.files[2] == c1.files[2].(count := 0)
  {
    cache.Cleanup(2, 0, 0);
    c := cache.Now();
    StillOpen(c1, c, cache.inactive);
  }

  // an entry that was used just now does not expire when its only handle is given back
  lemma StillOpen(c1: Cache, c: Cache, inactive: int)
    requires Consistent(c1, {}) && Consistent(c, {}) && c1.tree == {2} && c1.files.Keys == {2}
    requires c1.handles == multiset{2}
    requires c1.files[2].count == 1 && c1.files[2].fd != INVALID && c1.files[2].accessed == 0 && inactive >= 0
    requires exists k :: ExpiresTo(Released(c1, 2, 0, 0), c, {}, k, 1, 0, inactive)
    ensures c.tree == {2} && c.files.Keys == {2} && c.handles == multiset{}
    ensures c.files[2] == c1.files[2].(count := 0)
  {
    var r := Released(c1, 2, 0, 0);
    assert FileOk(c1, 2);
    ReleasedOk(c1, 2, 0, 0);
    assert 2 in r.queue;
    var k :| ExpiresTo(r, c, {}, k, 1, 0, inactive);
    assert r.queue[|r.queue| - 1] in r.queue;
    assert !Idle(r, |r.queue| - 1, 0, inactive);
    assert c.queue == r.queue;
  }

  lemma OnlyOne(c: Cache, f: Ref, spare: Ref)
    requires Consistent(c, {}) && f in c.tree && forall g :: g in c.files ==> g == spare || g == 0
    ensures f == spare && f in c.files && c.files.Keys == {f} && c.tree == {f}
    ensures forall d :: d in c.owner ==> d == c.files[f].fd
    ensures forall g :: g != f ==> c.handles[g] == 0
    ensures c.handles[f] == c.files[f].count
  {
    assert FileOk(c, f);
    forall d | d in c.owner ensures d == c.files[f].fd { assert OwnerOk(c, d); }
    assert forall g {:trigger c.handles[g]} :: c.handles[g] > 0 ==> g in c.files && g == f;
  }
}
