// src/core/ngx_hash.c: the exact table, packed into buckets of bounded size.
module ExactHash {
  import opened Bits

  const PTR: nat := 8              // sizeof(void *)
  const SHORT: nat := 0x1_0000     // u_short counts modulo 65536

  // ngx_hash_key_t; a name whose data is NULL is skipped
  datatype Name = Name(present: bool, text: string, hash: nat, value: nat)

  // ngx_hash_elt_t
  datatype Elt = Elt(value: nat, name: string)

  // buckets holds addresses, 0 for NULL
  datatype Table = Table(buckets: seq<nat>, memory: map<nat, Elt>)

  datatype Built = Built(table: Table) | Failed

  // NGX_HASH_ELT_SIZE
  function EltSize(text: string): nat { PTR + Align(|text| + 2, PTR) }

  lemma EltSizeFacts(text: string)
    ensures EltSize(text) % PTR == 0 && EltSize(text) >= 16 && EltSize(text) >= |text| + 10
  {}

  // Where the reader looks for the next element is where the writer put it: value and
  // length take 10 bytes before the name.
  lemma Stepping(a: nat, text: string)
    requires a % PTR == 0
    ensures Align(a + 10 + |text|, PTR) == a + EltSize(text)
  {}

  function LowerChar(c: char): char { if 'A' <= c <= 'Z' then (c as int + 32) as char else c }
  function Lower(s: string): (r: string)
    ensures |r| == |s|
  {
    seq(|s|, i requires 0 <= i < |s| => LowerChar(s[i]))
  }

  // key % hash->size
  function Slot(hash: nat, size: nat): (r: nat)
    requires size >= 1
    ensures r < size
  {
    hash % size
  }

  // the elements of bucket b among the first n names, in order
  function Entries(names: seq<Name>, size: nat, b: nat, n: nat): seq<Name>
    requires size >= 1 && n <= |names|
  {
    if n == 0 then []
    else
      var rest := Entries(names, size, b, n - 1);
      if names[n - 1].present && Slot(names[n - 1].hash, size) == b then rest + [names[n - 1]] else rest
  }

  // the bytes that elements take
  function SizeOf(es: seq<Name>): nat {
    if es == [] then 0 else SizeOf(es[..|es| - 1]) + EltSize(es[|es| - 1].text)
  }

  lemma SizeOfSnoc(es: seq<Name>, e: Name)
    ensures SizeOf(es + [e]) == SizeOf(es) + EltSize(e.text)
  {
    assert (es + [e])[..|es|] == es;
  }

  lemma {:induction false} SizeOfTake(es: seq<Name>, k: nat)
    requires k < |es|
    ensures SizeOf(es[..k]) + EltSize(es[k].text) <= SizeOf(es)
    ensures SizeOf(es[..k + 1]) == SizeOf(es[..k]) + EltSize(es[k].text)
    decreases |es|
  {
    assert es[..k + 1] == es[..k] + [es[k]];
    SizeOfSnoc(es[..k], es[k]);
    if k < |es| - 1 {
      assert es[..|es| - 1][..k] == es[..k];
      SizeOfTake(es[..|es| - 1], k);
    } else {
      assert es[..k + 1] == es;
    }
  }

  lemma {:induction false} SizeOfAligned(es: seq<Name>)
    ensures SizeOf(es) % PTR == 0
  {
    if es != [] {
      SizeOfAligned(es[..|es| - 1]);
      EltSizeFacts(es[|es| - 1].text);
    }
  }

  // the bytes that the first n names take in bucket b
  function Load(names: seq<Name>, size: nat, b: nat, n: nat): nat
    requires size >= 1 && n <= |names|
  {
    if n == 0 then 0 else Load(names, size, b, n - 1) + Adds(names[n - 1], size, b)
  }

  function Adds(name: Name, size: nat, b: nat): nat
    requires size >= 1
  {
    if name.present && Slot(name.hash, size) == b then EltSize(name.text) else 0
  }

  lemma {:induction false} LoadIs(names: seq<Name>, size: nat, b: nat, n: nat)
    requires size >= 1 && n <= |names|
    ensures Load(names, size, b, n) == SizeOf(Entries(names, size, b, n))
    decreases n
  {
    if n > 0 {
      LoadIs(names, size, b, n - 1);
      SizeOfSnoc(Entries(names, size, b, n - 1), names[n - 1]);
    }
  }

  lemma {:induction false} LoadGrows(names: seq<Name>, size: nat, b: nat, n: nat, m: nat)
    requires size >= 1 && n <= m <= |names|
    ensures Load(names, size, b, n) <= Load(names, size, b, m)
    decreases m
  {
    if n < m { LoadGrows(names, size, b, n, m - 1); }
  }

  // --- choosing the number of buckets -------------------------------------------------------------

  // every bucket of a table of this size has room for its elements
  ghost predicate Fits(names: seq<Name>, size: nat, room: nat)
    requires size >= 1
  {
    forall b: nat {:trigger Load(names, size, b, |names|)} :: b < size ==> Load(names, size, b, |names|) <= room
  }

  ghost predicate Counted(test: seq<nat>, names: seq<Name>, size: nat, n: nat, base: nat)
    requires 1 <= size && n <= |names|
  {
    |test| == size && forall b: nat {:trigger test[b]} :: b < size ==> test[b] == base + Load(names, size, b, n)
  }

  // (u_short) (test + size)
  function AddShort(test: nat, size: nat): (r: nat)
    ensures test + size < SHORT ==> r == test + size
  {
    (test + size) % SHORT
  }

  lemma CounterAdded(test: seq<nat>, names: seq<Name>, size: nat, n: nat, key: nat)
    requires 1 <= size && n < |names| && Counted(test, names, size, n, 0) && names[n].present
    requires key == Slot(names[n].hash, size)
    requires key < size && test[key] + EltSize(names[n].text) < SHORT
    ensures Counted(test[key := AddShort(test[key], EltSize(names[n].text))], names, size, n + 1, 0)
  {}

  lemma CounterKept(test: seq<nat>, names: seq<Name>, size: nat, n: nat)
    requires 1 <= size && n < |names| && Counted(test, names, size, n, 0) && !names[n].present
    ensures Counted(test, names, size, n + 1, 0)
  {}

  // lines 300-321: the counters are 16 bits wide, which is enough for buckets below 32768 bytes
  method TestSize(names: seq<Name>, size: nat, room: nat) returns (found: bool)
    requires 1 <= size && room < SHORT / 2 && forall n :: 0 <= n < |names| ==> EltSize(names[n].text) <= room
    ensures found <==> Fits(names, size, room)
  {
    var test: seq<nat> := seq(size, i => 0);
    var n := 0;
    while n < |names|
      invariant n <= |names| && Counted(test, names, size, n, 0)
      invariant forall b: nat {:trigger test[b]} :: b < size ==> test[b] <= room
    {
      if names[n].present {
        var key := Slot(names[n].hash, size);
        CounterAdded(test, names, size, n, key);
        test := test[key := AddShort(test[key], EltSize(names[n].text))];
        if test[key] > room % SHORT {
          LoadGrows(names, size, key, n + 1, |names|);
          return false;
        }
      } else {
        CounterKept(test, names, size, n);
      }
      n := n + 1;
    }
    forall b: nat | b < size ensures Load(names, size, b, |names|) <= room { assert test[b] <= room; }
    return true;
  }

  // none of these numbers of buckets gives every bucket enough room
  ghost predicate NoFit(names: seq<Name>, from: int, to: nat, room: int) {
    room >= 0 && forall s: nat {:trigger Fits(names, s, room)} :: from <= s < to && 1 <= s ==> !Fits(names, s, room)
  }

  // nor any from where the search starts: a thousand buckets before the end if the table is
  // crowded, and otherwise the least number that could hold all names, at 16 bytes each
  ghost predicate NoneTried(names: seq<Name>, to: nat, maxSize: nat, room: int) {
    room >= 16 && NoFit(names, if Crowded(|names|, maxSize) then maxSize - 1000 else |names| / (room / 16), to, room)
  }

  ghost predicate AllPresent(names: seq<Name>) { forall n {:trigger names[n]} :: 0 <= n < |names| ==> names[n].present }

  // a large table with more than one name to a hundred buckets
  predicate Crowded(nelts: nat, maxSize: nat) { maxSize > 10000 && nelts > 0 && maxSize / nelts < 100 }

  // the names in bucket b among the first n
  function Many(names: seq<Name>, size: nat, b: nat, n: nat): nat
    requires size >= 1 && n <= |names|
  {
    if n == 0 then 0
    else Many(names, size, b, n - 1) + if names[n - 1].present && Slot(names[n - 1].hash, size) == b then 1 else 0
  }

  // an element takes at least 16 bytes
  lemma {:induction false} LoadOfMany(names: seq<Name>, size: nat, b: nat, n: nat)
    requires size >= 1 && n <= |names|
    ensures 16 * Many(names, size, b, n) <= Load(names, size, b, n)
    decreases n
  {
    if n > 0 {
      LoadOfMany(names, size, b, n - 1);
      EltSizeFacts(names[n - 1].text);
    }
  }

  // the names in the first k buckets
  function InFirst(names: seq<Name>, size: nat, k: nat, n: nat): nat
    requires size >= 1 && n <= |names|
  {
    if k == 0 then 0 else InFirst(names, size, k - 1, n) + Many(names, size, k - 1, n)
  }

  lemma {:induction false} InFirstNext(names: seq<Name>, size: nat, k: nat, n: nat)
    requires size >= 1 && n < |names| && names[n].present
    ensures InFirst(names, size, k, n + 1)
        == InFirst(names, size, k, n) + if Slot(names[n].hash, size) < k then 1 else 0
    decreases k
  {
    if k > 0 { InFirstNext(names, size, k - 1, n); }
  }

  lemma {:induction false} NoneYet(names: seq<Name>, size: nat, k: nat)
    requires size >= 1
    ensures InFirst(names, size, k, 0) == 0
    decreases k
  {
    if k > 0 { NoneYet(names, size, k - 1); }
  }

  // every name is in one bucket
  lemma {:induction false} AllInBuckets(names: seq<Name>, size: nat, n: nat)
    requires size >= 1 && n <= |names| && AllPresent(names)
    ensures InFirst(names, size, size, n) == n
    decreases n
  {
    if n == 0 {
      NoneYet(names, size, size);
    } else {
      AllInBuckets(names, size, n - 1);
      InFirstNext(names, size, size, n - 1);
    }
  }

  lemma FewInOne(names: seq<Name>, size: nat, b: nat, room: nat)
    requires 1 <= size && b < size && Fits(names, size, room)
    ensures Many(names, size, b, |names|) <= room / 16
  {
    LoadOfMany(names, size, b, |names|);
    assert Load(names, size, b, |names|) <= room;
  }

  lemma OneMore(k: nat, most: nat)
    ensures (k + 1) * most == k * most + most
  {}

  lemma {:induction false} FewInEach(names: seq<Name>, size: nat, k: nat, most: nat)
    requires 1 <= size && k <= size && forall b :: 0 <= b < size ==> Many(names, size, b, |names|) <= most
    ensures InFirst(names, size, k, |names|) <= k * most
    decreases k
  {
    if k > 0 {
      FewInEach(names, size, k - 1, most);
      OneMore(k - 1, most);
    }
  }

  // Buckets of this room hold at most room / 16 names each, so that too few of them never fit.
  lemma FitsNames(names: seq<Name>, size: nat, room: nat)
    requires 1 <= size && room >= 16 && AllPresent(names) && Fits(names, size, room)
    ensures |names| / (room / 16) <= size
  {
    AllInBuckets(names, size, |names|);
    forall b | 0 <= b < size ensures Many(names, size, b, |names|) <= room / 16 { FewInOne(names, size, b, room); }
    FewInEach(names, size, size, room / 16);
    Quotient(|names|, room / 16, size);
  }

  lemma Quotient(n: nat, k: nat, size: nat)
    requires k >= 1 && n <= size * k
    ensures n / k <= size
  {
    var q := n / k;
    assert n == q * k + n % k;
    if q > size {
      Expanded(size, q - size, k);
      MulAtLeast(k, q - size);
    }
  }

  lemma Expanded(s: nat, d: nat, k: nat)
    ensures (s + d) * k == s * k + k * d
  {}

  // lines 289-336: the first number of buckets tried that fits. Where no name is absent, and the
  // table is not crowded, it is the least of all.
  method ChooseSize(names: seq<Name>, maxSize: nat, room: nat) returns (size: nat)
    requires 16 <= room < SHORT / 2 && forall n :: 0 <= n < |names| ==> EltSize(names[n].text) <= room
    ensures 1 <= size && (size < maxSize ==> Fits(names, size, room))
    ensures size < maxSize ==> !NoneTried(names, maxSize, maxSize, room)
    ensures NoneTried(names, if size < maxSize then size else maxSize, maxSize, room)
    ensures AllPresent(names) && !Crowded(|names|, maxSize) ==>
        NoFit(names, 1, if size < maxSize then size else maxSize, room)
  {
    size := StartSize(|names|, maxSize, room);
    ghost var from := size;
    while size < maxSize
      invariant from <= size && NoFit(names, from, size, room)
    {
      var found := TestSize(names, size, room);
      if found {
        break;
      }
      size := size + 1;
    }
    if AllPresent(names) {
      forall s: nat | 1 <= s && Fits(names, s, room) ensures |names| / (room / 16) <= s { FitsNames(names, s, room); }
    }
  }

  // lines 291-296
  function StartSize(nelts: nat, maxSize: nat, bucketSize: nat): (r: nat)
    requires bucketSize >= 16
    ensures r >= 1
  {
    var start := nelts / (bucketSize / (2 * PTR));
    if Crowded(nelts, maxSize) then maxSize - 1000 else if start > 0 then start else 1
  }

  // --- how wide the counters have to be --------------------------------------------------------------

  // line 308 and line 316 on one bucket
  predicate Passes(sizes: seq<nat>, room: nat, test: nat)
    decreases |sizes|
  {
    sizes == [] || (var t := (test + sizes[0]) % SHORT; t <= room % SHORT && Passes(sizes[1..], room, t))
  }

  function Sum(sizes: seq<nat>): nat { if sizes == [] then 0 else sizes[0] + Sum(sizes[1..]) }

  // no single element is larger than the room: lines 273-282
  ghost predicate Sound(room: nat) {
    forall sizes: seq<nat> {:trigger Passes(sizes, room, 0)} :: (forall i :: 0 <= i < |sizes| ==>
        sizes[i] <= room) ==> (Passes(sizes, room, 0) <==> Sum(sizes) <= room)
  }

  lemma {:induction false} PassesIff(sizes: seq<nat>, room: nat, test: nat)
    requires room < SHORT / 2 && test <= room && forall i :: 0 <= i < |sizes| ==> sizes[i] <= room
    ensures Passes(sizes, room, test) <==> test + Sum(sizes) <= room
    decreases |sizes|
  {
    if sizes != [] {
      assert (test + sizes[0]) % SHORT == test + sizes[0];
      if test + sizes[0] <= room {
        forall i | 0 <= i < |sizes[1..]| ensures sizes[1..][i] <= room {}
        PassesIff(sizes[1..], room, test + sizes[0]);
      }
    }
  }

  // The 16-bit test of a bucket is exact for all elements if and only if the room is below 32768.
  lemma SoundIff(room: nat)
    ensures Sound(room) <==> room < SHORT / 2
  {
    if room < SHORT / 2 {
      forall sizes: seq<nat> | forall i :: 0 <= i < |sizes| ==> sizes[i] <= room
        ensures Passes(sizes, room, 0) <==> Sum(sizes) <= room
      {
        PassesIff(sizes, room, 0);
      }
    } else if room < SHORT {
      var sizes := [SHORT / 2, SHORT / 2];
      assert sizes[1..] == [SHORT / 2] && sizes[1..][1..] == [];
      assert Passes(sizes[1..], room, SHORT / 2);
      assert Sum(sizes[1..]) == SHORT / 2;
      assert Passes(sizes, room, 0) && Sum(sizes) == SHORT;
    } else {
      var k := room / SHORT + 1;
      ManyWraps(k, room);
      assert Passes(Wraps(k), room, 0) && Sum(Wraps(k)) > room;
    }
  }

  // elements of 65536 bytes never move the counter
  function Wraps(k: nat): (r: seq<nat>)
    ensures |r| == k && forall i :: 0 <= i < k ==> r[i] == SHORT
  {
    seq(k, i => SHORT)
  }

  lemma {:induction false} ManyWraps(k: nat, room: nat)
    ensures Passes(Wraps(k), room, 0) && Sum(Wraps(k)) == k * SHORT
    decreases k
  {
    if k > 0 {
      assert Wraps(k)[1..] == Wraps(k - 1);
      ManyWraps(k - 1, room);
    }
  }

  // --- the layout of the buckets ------------------------------------------------------------------------

  // buckets without names are NULL; the others are aligned and do not overlap, terminators included
  ghost predicate Placed(buckets: seq<nat>, names: seq<Name>, size: nat, elts: nat, end: nat)
    requires 1 <= size
  {
    && |buckets| == size
    && (forall b: nat {:trigger buckets[b]} :: b < size ==>
        BucketPlaced(buckets[b], Load(names, size, b, |names|), elts, end))
    && (forall b: nat, c: nat {:trigger buckets[b], buckets[c]} ::
        b < c < size && buckets[b] != 0 && buckets[c] != 0 ==>
          buckets[b] + Load(names, size, b, |names|) + PTR <= buckets[c])
  }

  ghost predicate BucketPlaced(bucket: nat, load: nat, elts: nat, end: nat) {
    && (bucket == 0 <==> load == 0)
    && (bucket != 0 ==> bucket % PTR == 0 && elts <= bucket && bucket + load + PTR <= end)
  }

  // line 361: the width of a bucket
  method WidthOf(test: nat, ghost load: nat, ghost room: nat, cacheline: nat) returns (width: nat)
    requires test == PTR + load && load <= room < SHORT / 2 && PTR <= cacheline <= 0x4000
    requires cacheline % PTR == 0
    ensures PTR + load <= width && width % PTR == 0
  {
    AlignedWidth(test, cacheline);
    assert Align(test, cacheline) < SHORT;
    width := Align(test, cacheline) % SHORT;
  }

  lemma AddAligned(x: nat, y: nat)
    requires x % PTR == 0 && y % PTR == 0
    ensures (x + y) % PTR == 0
  {}

  lemma AlignedWidth(x: nat, cacheline: nat)
    requires cacheline >= 1 && cacheline % PTR == 0
    ensures Align(x, cacheline) % PTR == 0
  {
    var q, k := (x + cacheline - 1) / cacheline, cacheline / PTR;
    assert Align(x, cacheline) == PTR * (q * k) by {
      assert cacheline == PTR * k;
      assert q * (PTR * k) == PTR * (q * k);
    }
  }

  // lines 340-403; len bytes from elts on are reserved
  method Layout(names: seq<Name>, size: nat, room: nat, cacheline: nat, elts: nat) returns (buckets: seq<nat>, len: nat)
    requires 1 <= size && Fits(names, size, room) && room < SHORT / 2
    requires cacheline % PTR == 0 && PTR <= cacheline <= 0x4000 && elts > 0 && elts % PTR == 0
    ensures Placed(buckets, names, size, elts, elts + len)
  {
    var test := CountAll(names, size, room);
    buckets := [];
    len := 0;
    while |buckets| < size
      invariant |buckets| <= size && (elts + len) % PTR == 0
      invariant forall b: nat {:trigger buckets[b]} :: b < |buckets| ==>
          BucketPlaced(buckets[b], Load(names, size, b, |names|), elts, elts + len)
      invariant forall b: nat, c: nat {:trigger buckets[b], buckets[c]} ::
          b < c < |buckets| && buckets[b] != 0 && buckets[c] != 0 ==>
                  buckets[b] + Load(names, size, b, |names|) + PTR <= buckets[c]
      decreases size - |buckets|
    {
      var i := |buckets|;
      if test[i] == PTR {
        buckets := buckets + [0];
      } else {
        ghost var load := Load(names, size, i, |names|);
        assert test[i] == PTR + load;
        var width := WidthOf(test[i], load, room, cacheline);
        AddAligned(elts + len, width);
        buckets := buckets + [elts + len];
        len := len + width;
      }
    }
  }

  // lines 340-352
  method CountAll(names: seq<Name>, size: nat, room: nat) returns (test: seq<nat>)
    requires 1 <= size && Fits(names, size, room) && room < SHORT / 2
    ensures Counted(test, names, size, |names|, PTR)
  {
    test := seq(size, i => PTR);
    var n := 0;
    while n < |names|
      invariant n <= |names| && Counted(test, names, size, n, PTR)
    {
      if names[n].present {
        var key := Slot(names[n].hash, size);
        LoadGrows(names, size, key, n + 1, |names|);
        assert Load(names, size, key, |names|) <= room;
        test := test[key := AddShort(test[key], EltSize(names[n].text))];
      }
      n := n + 1;
    }
  }

  // --- filling the buckets ----------------------------------------------------------------------------------

  ghost predicate ElementAt(memory: map<nat, Elt>, base: nat, es: seq<Name>, k: nat)
    requires k < |es|
  {
    var a := base + SizeOf(es[..k]);
    a in memory && memory[a] == Elt(es[k].value, Lower(es[k].text))
  }

  ghost predicate Elements(memory: map<nat, Elt>, base: nat, es: seq<Name>) {
    forall k: nat {:trigger ElementAt(memory, base, es, k)} :: k < |es| ==> ElementAt(memory, base, es, k)
  }

  ghost predicate Terminated(memory: map<nat, Elt>, a: nat) { a in memory && memory[a].value == 0 }

  // nothing is written but between elts and end
  ghost predicate Within(memory: map<nat, Elt>, memory': map<nat, Elt>, elts: nat, end: nat) {
    forall a: nat {:trigger a in memory'} :: a < elts || end <= a ==>
        (a in memory' <==> a in memory) && (a in memory ==> memory'[a] == memory[a])
  }

  // a bucket as the reader expects it
  ghost predicate BucketOk(memory: map<nat, Elt>, base: nat, es: seq<Name>) {
    if es == [] then base == 0
    else base != 0 && base % PTR == 0 && Elements(memory, base, es) && Terminated(memory, base + SizeOf(es))
  }

  ghost predicate Represents(t: Table, names: seq<Name>) {
    |t.buckets| >= 1
    && forall b: nat {:trigger t.buckets[b]} :: b < |t.buckets| ==>
        BucketOk(t.memory, t.buckets[b], Entries(names, |t.buckets|, b, |names|))
  }

  // a write outside of the elements of a bucket
  lemma ElementsKept(memory: map<nat, Elt>, memory': map<nat, Elt>, base: nat, es: seq<Name>, a: nat, e: Elt)
    requires Elements(memory, base, es) && memory' == memory[a := e] && !(base <= a < base + SizeOf(es))
    ensures Elements(memory', base, es)
  {
    forall k: nat | k < |es| ensures ElementAt(memory', base, es, k) {
      assert ElementAt(memory, base, es, k);
      SizeOfTake(es, k);
      EltSizeFacts(es[k].text);
    }
  }

  // a write at the end of a bucket
  lemma ElementsMore(memory: map<nat, Elt>, memory': map<nat, Elt>, base: nat, es: seq<Name>, e: Name)
    requires Elements(memory, base, es) && memory' == memory[base + SizeOf(es) := Elt(e.value, Lower(e.text))]
    ensures Elements(memory', base, es + [e])
  {
    ElementsKept(memory, memory', base, es, base + SizeOf(es), Elt(e.value, Lower(e.text)));
    forall k: nat | k < |es + [e]| ensures ElementAt(memory', base, es + [e], k) {
      if k < |es| { OneElement(memory', base, es, e, k); } else { assert (es + [e])[..k] == es; }
    }
  }

  lemma OneElement(memory: map<nat, Elt>, base: nat, es: seq<Name>, e: Name, k: nat)
    requires k < |es| && ElementAt(memory, base, es, k)
    ensures ElementAt(memory, base, es + [e], k)
  {
    assert (es + [e])[..k] == es[..k] && (es + [e])[k] == es[k];
  }

  // lines 409-423
  method Fill(names: seq<Name>, size: nat, room: nat, buckets: seq<nat>, memory0: map<nat, Elt>, ghost elts: nat,
              ghost end: nat)
    returns (memory: map<nat, Elt>, test: seq<nat>)
    requires 1 <= size && Fits(names, size, room) && room < SHORT / 2 && Placed(buckets, names, size, elts, end)
    ensures Counted(test, names, size, |names|, 0) && Within(memory0, memory, elts, end)
    ensures forall b: nat {:trigger buckets[b]} :: b < size ==>
        Elements(memory, buckets[b], Entries(names, size, b, |names|))
  {
    memory := memory0;
    test := seq(size, i => 0);
    var n := 0;
    while n < |names|
      invariant n <= |names| && Counted(test, names, size, n, 0) && Within(memory0, memory, elts, end)
      invariant forall b: nat {:trigger buckets[b]} :: b < size ==>
          Elements(memory, buckets[b], Entries(names, size, b, n))
    {
      if names[n].present {
        memory, test := Write(names, size, room, buckets, memory, test, n, elts, end);
      }
      n := n + 1;
    }
  }

  // the counter of the bucket stays below 65536
  lemma CountedNext(names: seq<Name>, size: nat, room: nat, test: seq<nat>, n: nat)
    requires 1 <= size && Fits(names, size, room) && room < SHORT / 2 && n < |names| && names[n].present
    requires Counted(test, names, size, n, 0)
    ensures var key := Slot(names[n].hash, size);
      Counted(test[key := AddShort(test[key], EltSize(names[n].text))], names, size, n + 1, 0)
      && Load(names, size, key, n) < Load(names, size, key, |names|)
  {
    var key := Slot(names[n].hash, size);
    LoadGrows(names, size, key, n + 1, |names|);
    assert Load(names, size, key, |names|) <= room;
    EltSizeFacts(names[n].text);
  }

  // a bucket that is not written to
  lemma OtherBucket(names: seq<Name>, size: nat, buckets: seq<nat>, memory: map<nat, Elt>, n: nat, elts: nat, end: nat,
                    key: nat, elt: nat, e: Elt, b: nat)
    requires 1 <= size && Placed(buckets, names, size, elts, end) && n < |names| && names[n].present
    requires key == Slot(names[n].hash, size) && b < size && b != key
    requires elt == buckets[key] + SizeOf(Entries(names, size, key, n))
    requires Elements(memory, buckets[b], Entries(names, size, b, n))
    requires SizeOf(Entries(names, size, key, n)) < Load(names, size, key, |names|)
    ensures Elements(memory[elt := e], buckets[b], Entries(names, size, b, n + 1))
  {
    LoadIs(names, size, b, n);
    LoadGrows(names, size, b, n, |names|);
    assert BucketPlaced(buckets[b], Load(names, size, b, |names|), elts, end);
    assert BucketPlaced(buckets[key], Load(names, size, key, |names|), elts, end);
    ElementsKept(memory, memory[elt := e], buckets[b], Entries(names, size, b, n), elt, e);
  }

  // the element is the next one of its bucket, and the other buckets stay as they are
  lemma Written(names: seq<Name>, size: nat, buckets: seq<nat>, memory: map<nat, Elt>, test: seq<nat>, n: nat,
                elts: nat, end: nat, key: nat, elt: nat)
    requires 1 <= size && Placed(buckets, names, size, elts, end) && n < |names| && names[n].present
    requires Counted(test, names, size, n, 0) && key == Slot(names[n].hash, size) && elt == buckets[key] + test[key]
    requires Load(names, size, key, n) < Load(names, size, key, |names|)
    requires forall b: nat {:trigger buckets[b]} ::
        b < size ==> Elements(memory, buckets[b], Entries(names, size, b, n))
    ensures forall b: nat {:trigger buckets[b]} :: b < size ==>
        Elements(memory[elt := Elt(names[n].value, Lower(names[n].text))], buckets[b], Entries(names, size, b, n + 1))
  {
    var e := Elt(names[n].value, Lower(names[n].text));
    LoadIs(names, size, key, n);
    forall b: nat | b < size ensures Elements(memory[elt := e], buckets[b], Entries(names, size, b, n + 1)) {
      if b == key {
        OwnBucket(names, size, memory, n, key, buckets[key]);
      } else {
        OtherBucket(names, size, buckets, memory, n, elts, end, key, elt, e, b);
      }
    }
  }

  lemma OwnBucket(names: seq<Name>, size: nat, memory: map<nat, Elt>, n: nat, key: nat, base: nat)
    requires 1 <= size && n < |names| && names[n].present && key == Slot(names[n].hash, size)
    requires Elements(memory, base, Entries(names, size, key, n))
    ensures var es, e := Entries(names, size, key, n), Elt(names[n].value, Lower(names[n].text));
            Elements(memory[base + SizeOf(es) := e], base, Entries(names, size, key, n + 1))
  {
    var es, e := Entries(names, size, key, n), Elt(names[n].value, Lower(names[n].text));
    ElementsMore(memory, memory[base + SizeOf(es) := e], base, es, names[n]);
  }

  // lines 414-422
  method Write(names: seq<Name>, size: nat, room: nat, buckets: seq<nat>, memory0: map<nat, Elt>, test0: seq<nat>,
               n: nat, ghost elts: nat, ghost end: nat)
    returns (memory: map<nat, Elt>, test: seq<nat>)
    requires 1 <= size && Fits(names, size, room) && room < SHORT / 2 && Placed(buckets, names, size, elts, end)
    requires n < |names| && names[n].present && Counted(test0, names, size, n, 0)
    requires forall b: nat {:trigger buckets[b]} :: b < size ==>
        Elements(memory0, buckets[b], Entries(names, size, b, n))
    ensures Counted(test, names, size, n + 1, 0) && Within(memory0, memory, elts, end)
    ensures forall b: nat {:trigger buckets[b]} :: b < size ==>
        Elements(memory, buckets[b], Entries(names, size, b, n + 1))
  {
    var key := Slot(names[n].hash, size);
    var elt := buckets[key] + test0[key];
    memory := memory0[elt := Elt(names[n].value, Lower(names[n].text))];
    test := test0[key := AddShort(test0[key], EltSize(names[n].text))];
    CountedNext(names, size, room, test0, n);
    Written(names, size, buckets, memory0, test0, n, elts, end, key, elt);
    assert BucketPlaced(buckets[key], Load(names, size, key, |names|), elts, end);
  }

  // lines 425-433
  method Terminate(names: seq<Name>, size: nat, buckets: seq<nat>, memory0: map<nat, Elt>, test: seq<nat>,
                   ghost elts: nat, ghost end: nat)
    returns (memory: map<nat, Elt>)
    requires 1 <= size && Placed(buckets, names, size, elts, end) && Counted(test, names, size, |names|, 0)
    requires forall b: nat {:trigger buckets[b]} :: b < size ==>
        Elements(memory0, buckets[b], Entries(names, size, b, |names|))
    ensures forall b: nat {:trigger buckets[b]} :: b < size ==>
        Elements(memory, buckets[b], Entries(names, size, b, |names|))
    ensures forall b: nat {:trigger buckets[b]} :: b < size && buckets[b] != 0 ==>
        Terminated(memory, buckets[b] + Load(names, size, b, |names|))
    ensures Within(memory0, memory, elts, end)
  {
    memory := memory0;
    var i := 0;
    while i < size
      invariant i <= size && Within(memory0, memory, elts, end)
      invariant forall b: nat {:trigger buckets[b]} :: b < size ==>
          Elements(memory, buckets[b], Entries(names, size, b, |names|))
      invariant forall b: nat {:trigger buckets[b]} :: b < i && buckets[b] != 0 ==>
          Terminated(memory, buckets[b] + Load(names, size, b, |names|))
    {
      if buckets[i] != 0 {
        ghost var m0 := memory;
        var elt := buckets[i] + test[i];
        assert BucketPlaced(buckets[i], Load(names, size, i, |names|), elts, end);
        memory := memory[elt := Elt(0, "")];
        forall b: nat | b < size ensures Elements(memory, buckets[b], Entries(names, size, b, |names|)) {
          LoadIs(names, size, b, |names|);
          assert BucketPlaced(buckets[b], Load(names, size, b, |names|), elts, end);
          ElementsKept(m0, memory, buckets[b], Entries(names, size, b, |names|), elt, Elt(0, ""));
        }
      }
      i := i + 1;
    }
  }

  // lines 273-282
  method CheckSizes(names: seq<Name>, bucketSize: nat) returns (ok: bool)
    ensures ok <==> forall i :: 0 <= i < |names| ==> EltSize(names[i].text) + PTR <= bucketSize
  {
    var n := 0;
    while n < |names|
      invariant n <= |names| && forall i :: 0 <= i < n ==> EltSize(names[i].text) + PTR <= bucketSize
    {
      if bucketSize < EltSize(names[n].text) + PTR {
        return false;
      }
      n := n + 1;
    }
    return true;
  }

  // lines 338-438
  method BuildTable(names: seq<Name>, size: nat, room: nat, cacheline: nat, elts: nat, memory0: map<nat, Elt>)
    returns (t: Table, ghost len: nat)
    requires 1 <= size && Fits(names, size, room) && room < SHORT / 2
    requires cacheline % PTR == 0 && PTR <= cacheline <= 0x4000 && elts > 0 && elts % PTR == 0
    ensures Represents(t, names) && |t.buckets| == size
    ensures Placed(t.buckets, names, size, elts, elts + len) && Within(memory0, t.memory, elts, elts + len)
  {
    var buckets, length := Layout(names, size, room, cacheline, elts);
    len := length;
    var memory, test := Fill(names, size, room, buckets, memory0, elts, elts + len);
    memory := Terminate(names, size, buckets, memory, test, elts, elts + len);
    t := Table(buckets, memory);
    forall b: nat | b < size ensures BucketOk(memory, buckets[b], Entries(names, size, b, |names|)) {
      LoadIs(names, size, b, |names|);
      EmptyLoad(Entries(names, size, b, |names|));
      assert BucketPlaced(buckets[b], Load(names, size, b, |names|), elts, elts + len);
    }
  }

  ghost predicate NameTooLong(names: seq<Name>, bucketSize: nat) {
    exists n :: 0 <= n < |names| && bucketSize < EltSize(names[n].text) + PTR
  }

  // ngx_hash_init, for buckets of less than 32 kilobytes; len bytes from elts on are reserved.
  // The buckets with their terminators lie in them, one after the other, and nothing is written
  // beside them.
  method HashInit(names: seq<Name>, maxSize: nat, bucketSize: nat, cacheline: nat, elts: nat, memory0: map<nat, Elt>)
    returns (r: Built, ghost len: nat)
    requires bucketSize < SHORT / 2 + PTR && (names == [] ==> bucketSize >= PTR + 16)
    requires cacheline % PTR == 0 && PTR <= cacheline <= 0x4000 && elts > 0 && elts % PTR == 0
    ensures r.Built? ==> Represents(r.table, names) && 1 <= |r.table.buckets| < maxSize
    ensures r.Built? ==> Placed(r.table.buckets, names, |r.table.buckets|, elts, elts + len)
    ensures r.Built? ==> Within(memory0, r.table.memory, elts, elts + len)
    ensures r.Failed? <==> NameTooLong(names, bucketSize) || NoneTried(names, maxSize, maxSize, bucketSize - PTR)
    ensures r.Built? ==> NoneTried(names, |r.table.buckets|, maxSize, bucketSize - PTR)
    ensures AllPresent(names) && !Crowded(|names|, maxSize) ==>
        (r.Failed? <==> NameTooLong(names, bucketSize) || NoFit(names, 1, maxSize, bucketSize - PTR))
    ensures AllPresent(names) && !Crowded(|names|, maxSize) && r.Built? ==>
        NoFit(names, 1, |r.table.buckets|, bucketSize - PTR)
  {
    len := 0;
    var ok := CheckSizes(names, bucketSize);
    if !ok {
      return Failed, len;
    }
    if names != [] { EltSizeFacts(names[0].text); }
    var size := ChooseSize(names, maxSize, bucketSize - PTR);
    if size >= maxSize {
      return Failed, len;
    }
    var t;
    t, len := BuildTable(names, size, bucketSize - PTR, cacheline, elts, memory0);
    r := Built(t);
  }

  // Names that are absent count for where the search starts: four of them are refused although a
  // table of one bucket has room for them.
  method AbsentCount() returns (names: seq<Name>, r: Built)
    ensures r == Failed && Fits(names, 1, 16) && forall n :: 0 <= n < |names| ==> !names[n].present
  {
    names := seq(4, _ => Name(false, "", 0, 0));
    ghost var len;
    r, len := HashInit(names, 4, PTR + 16, PTR, PTR, map[]);
    assert Load(names, 1, 0, 1) == 0 && Load(names, 1, 0, 2) == 0 && Load(names, 1, 0, 3) == 0;
  }

  lemma EmptyLoad(es: seq<Name>)
    ensures SizeOf(es) == 0 <==> es == []
  {
    if es != [] { EltSizeFacts(es[|es| - 1].text); }
  }

  // --- lookup ------------------------------------------------------------------------------------------------

  // the first element of a bucket with this name
  ghost predicate FirstMatch(es: seq<Name>, name: string, k: nat) {
    k < |es| && Lower(es[k].text) == name && forall j :: 0 <= j < k ==> Lower(es[j].text) != name
  }

  // the reader stands at element k of the bucket, or at its end
  ghost predicate Standing(memory: map<nat, Elt>, base: nat, es: seq<Name>, elt: nat, k: nat) {
    && k <= |es| && elt == base + SizeOf(es[..k]) && elt % PTR == 0 && elt in memory
    && if k < |es| then memory[elt] == Elt(es[k].value, Lower(es[k].text)) else memory[elt].value == 0
  }

  lemma Stands(memory: map<nat, Elt>, base: nat, es: seq<Name>, k: nat)
    requires BucketOk(memory, base, es) && base != 0 && k <= |es|
    ensures Standing(memory, base, es, base + SizeOf(es[..k]), k)
  {
    SizeOfAligned(es[..k]);
    AddAligned(base, SizeOf(es[..k]));
    if k < |es| { assert ElementAt(memory, base, es, k); } else { assert es[..k] == es; }
  }

  // line 50
  lemma NextStands(memory: map<nat, Elt>, base: nat, es: seq<Name>, elt: nat, k: nat)
    requires BucketOk(memory, base, es) && base != 0 && k < |es| && Standing(memory, base, es, elt, k)
    ensures Standing(memory, base, es, Align(elt + 10 + |memory[elt].name|, PTR), k + 1)
  {
    Stepping(elt, es[k].text);
    EltSizeLower(es[k].text);
    SizeOfTake(es, k);
    Stands(memory, base, es, k + 1);
  }

  lemma EltSizeLower(text: string)
    ensures |Lower(text)| == |text|
  {}

  // ngx_hash_find
  method Find(t: Table, key: nat, name: string, ghost names: seq<Name>, ghost es: seq<Name>)
    returns (value: nat, ghost k: nat)
    requires Represents(t, names) && es == Entries(names, |t.buckets|, Slot(key, |t.buckets|), |names|)
    requires forall j :: 0 <= j < |es| ==> es[j].value != 0
    ensures if value == 0 then forall j :: 0 <= j < |es| ==>
        Lower(es[j].text) != name else FirstMatch(es, name, k) && value == es[k].value
  {
    k := 0;
    var elt: nat := t.buckets[Slot(key, |t.buckets|)];
    ghost var base := elt;
    assert BucketOk(t.memory, base, es);
    if elt == 0 {
      return 0, 0;
    }
    Stands(t.memory, base, es, 0);
    assert es[..0] == [];
    while t.memory[elt].value != 0
      invariant Standing(t.memory, base, es, elt, k)
      invariant forall j :: 0 <= j < k ==> Lower(es[j].text) != name
      decreases |es| - k
    {
      if |name| == |t.memory[elt].name| {
        var same := SameBytes(name, t.memory[elt].name);
        if same {
          return t.memory[elt].value, k;
        }
      }
      NextStands(t.memory, base, es, elt, k);
      elt := Align(elt + 10 + |t.memory[elt].name|, PTR);
      k := k + 1;
    }
    return 0, k;
  }

  // lines 40-44
  method SameBytes(a: string, b: string) returns (same: bool)
    requires |a| == |b|
    ensures same <==> a == b
  {
    var i := 0;
    while i < |a|
      invariant i <= |a| && forall j :: 0 <= j < i ==> a[j] == b[j]
    {
      if a[i] != b[i] {
        return false;
      }
      i := i + 1;
    }
    return true;
  }

  lemma {:induction false} EntryIsName(names: seq<Name>, size: nat, b: nat, n: nat, k: nat) returns (i: nat)
    requires size >= 1 && n <= |names| && k < |Entries(names, size, b, n)|
    ensures i < n && names[i] == Entries(names, size, b, n)[k] && names[i].present && Slot(names[i].hash, size) == b
    decreases n
  {
    if k < |Entries(names, size, b, n - 1)| {
      i := EntryIsName(names, size, b, n - 1, k);
    } else {
      i := n - 1;
    }
  }

  lemma {:induction false} NameIsEntry(names: seq<Name>, size: nat, b: nat, n: nat, i: nat) returns (k: nat)
    requires size >= 1 && i < n <= |names| && names[i].present && Slot(names[i].hash, size) == b
    ensures k < |Entries(names, size, b, n)| && Entries(names, size, b, n)[k] == names[i]
    decreases n
  {
    if i < n - 1 {
      k := NameIsEntry(names, size, b, n - 1, i);
    } else {
      k := |Entries(names, size, b, n - 1)|;
    }
  }

  // Hash keys are those of the names in lower case, and no two names are the same.
  ghost predicate Keyed(names: seq<Name>, hash: string -> nat) {
    && (forall n {:trigger names[n]} :: 0 <= n < |names| ==>
        names[n].value != 0 && (names[n].present ==> names[n].hash == hash(Lower(names[n].text))))
    && (forall i, j :: 0 <= i < j < |names| && names[i].present && names[j].present ==>
        Lower(names[i].text) != Lower(names[j].text))
  }

  // A name is found exactly if it was stored, with its value.
  method FindName(t: Table, name: string, hash: string -> nat, ghost names: seq<Name>) returns (value: nat)
    requires Represents(t, names) && Keyed(names, hash)
    ensures forall n :: 0 <= n < |names| && names[n].present && Lower(names[n].text) == name ==> value == names[n].value
    ensures value != 0 ==> exists n :: 0 <= n < |names| && names[n].present && Lower(names[n].text) == name
  {
    ghost var k;
    ghost var size := |t.buckets|;
    ghost var b := Slot(hash(name), size);
    ghost var es := Entries(names, size, b, |names|);
    forall j | 0 <= j < |es| ensures es[j].value != 0 { var i := EntryIsName(names, size, b, |names|, j); }
    value, k := Find(t, hash(name), name, names, es);
    forall n | 0 <= n < |names| && names[n].present && Lower(names[n].text) == name ensures value == names[n].value {
      var j := NameIsEntry(names, size, b, |names|, n);
      if value != 0 { var i := EntryIsName(names, size, b, |names|, k); }
    }
    if value != 0 { var i := EntryIsName(names, size, b, |names|, k); }
  }
}
