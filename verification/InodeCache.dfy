/**
 The inode cache as the source keeps it: inodes that are never released, two hash tables of
 pointers to them, and a wrapping counter for numbers.  A pointer is an index into `inodes`.
 Every method is proved to do to the abstract cache what `Inodes` says.
 */
module InodeCache {
  import opened Options
  import opened Bits
  import opened GoldenHash
  import opened Inodes

  const HASH_BITS: nat := 10
  const HASH_SIZE: nat := 1024

  type Slot = x: int | 0 <= x < 1024

  /** hash_min(key, HASH_BITS(table)) of a 64-bit key: the ten high bits of the product. */
  function BucketOf(key: U64): Slot {
    ((key * GOLDEN_RATIO_PRIME_64) % TWO64) / 0x40_0000_0000_0000
  }

  lemma {:induction false} BucketIsHash(key: U64)
    ensures BucketOf(key) == Hash(key, HASH_BITS)
  {
    Weights(18, 51, 54, 57, 61, 63);
  }

  type Ptr = nat

  datatype Inode = Inode(
    ino: U64, fileid: U64, fh: Handle, attr: Attr, count: U64, icount: int, stale: bool)

  function FileOf(i: Inode): File {
    File(i.fileid, i.fh, i.attr, i.count)
  }

  /** The chains of a hash table. */
  type Chains = seq<seq<Ptr>>

  /** The chains hold exactly the pointers below `|slots|`, each in its own bucket. */
  ghost predicate Filed(t: Chains, slots: seq<Slot>) {
    && |t| == HASH_SIZE
    && (forall p {:trigger slots[p]} :: 0 <= p < |slots| ==> p in t[slots[p]])
    && (forall b: Slot, p: Ptr {:trigger p in t[b]} :: p in t[b] ==> p < |slots| && slots[p] == b)
  }

  /** hash_add: a new node goes in front of its chain. */
  function HashAdd(t: Chains, b: Slot, p: Ptr): Chains
    requires |t| == HASH_SIZE
  {
    t[b := [p] + t[b]]
  }

  lemma {:induction false} FiledOneMore(t: Chains, slots: seq<Slot>, b: Slot)
    requires Filed(t, slots)
    ensures Filed(HashAdd(t, b, |slots|), slots + [b])
  {
    var t', slots' := HashAdd(t, b, |slots|), slots + [b];
    forall c: Slot, p | p in t'[c]
      ensures p < |slots'| && slots'[p] == c
    {
      assert p in t[c] || (p == |slots| && c == b);
    }
    forall p | 0 <= p < |slots'|
      ensures p in t'[slots'[p]]
    {
      if p < |slots| {
        assert slots'[p] == slots[p];
        assert p in t[slots[p]];
      }
    }
  }

  /** Pointer `p` is the one its number stands for. */
  ghost predicate Located(at: map<nat, Ptr>, ids: seq<U64>, p: Ptr) {
    p < |ids| && ids[p] in at && at[ids[p]] == p
  }

  /** Numbers and pointers correspond; zero is no number. */
  ghost predicate Numbered(at: map<nat, Ptr>, ids: seq<U64>) {
    && (forall n :: n in at ==> at[n] < |ids| && ids[at[n]] == n != 0)
    && (forall p {:trigger Located(at, ids, p)} :: 0 <= p < |ids| ==> Located(at, ids, p))
  }

  lemma {:induction false} NumberedOneMore(at: map<nat, Ptr>, ids: seq<U64>, n: U64)
    requires Numbered(at, ids) && n !in at && n != 0
    ensures Numbered(at[n as nat := |ids|], ids + [n])
  {
    var at', ids' := at[n as nat := |ids|], ids + [n];
    forall p | 0 <= p < |ids'|
      ensures Located(at', ids', p)
    {
      if p < |ids| {
        assert Located(at, ids, p);
      }
    }
  }

  /** Every number leads to an inode. */
  ghost predicate Lead(at: map<nat, Ptr>, inodes: seq<Inode>) {
    forall n :: n in at ==> at[n] < |inodes|
  }

  ghost function FilesOf(at: map<nat, Ptr>, inodes: seq<Inode>): map<nat, File>
    requires Lead(at, inodes)
  {
    map n | n in at :: FileOf(inodes[at[n]])
  }

  lemma {:induction false} FilesOneMore(at: map<nat, Ptr>, inodes: seq<Inode>, n: nat, i: Inode)
    requires Lead(at, inodes)
    ensures Lead(at[n := |inodes|], inodes + [i])
    ensures FilesOf(at[n := |inodes|], inodes + [i]) == FilesOf(at, inodes)[n := FileOf(i)]
  {
  }

  /** What a handler answers: entries given or taken, an error, or a failed assertion. */
  datatype Reply = Reply(notes: seq<Note>) | Error | Abort

  /** A handler did what the abstract step says. */
  ghost predicate Did(o: Outcome, c: Cache, r: Reply) {
    match o
    case Done(d, notes) => r == Reply(notes) && c == d
    case Failed(d) => r == Error && c == d
    case Aborted => r == Abort
    case Stuck => false
  }

  /** Lookup is find-or-make followed by the increment. */
  lemma {:induction false} DidLookup(c: Cache, fh: Handle, a: Fattr, g: FhGetResult, d: Cache, r: Reply)
    requires Wf(c) && g == FhGet(c, fh, a) && !g.Endless?
    requires g.NoInode? ==> r == Error && d == c
    requires g.Got? ==> g.number in g.cache.files && d == Increased(g.cache, g.number) && r == Reply([Gave(g.number)])
    ensures Did(Step(c, Lookup(fh, a)), d, r)
  {
  }

  /** Create is find-or-make followed by the exchange. */
  lemma {:induction false} DidCreate(c: Cache, fh: Handle, a: Fattr, g: FhGetResult, d: Cache, r: Reply)
    requires Wf(c) && g == FhGet(c, fh, a) && !g.Endless?
    requires g.NoInode? ==> r == Error && d == c
    requires g.Got? ==>
               && g.number in g.cache.files && d == SetCount(g.cache, g.number, 1)
               && r == if g.cache.files[g.number].count == 0 then Reply([Gave(g.number)]) else Abort
    ensures Did(Step(c, Create(fh, a)), d, r)
  {
  }

  ghost predicate CanForget(c: Cache, ino: nat, nlookup: nat) {
    ino in c.files && nlookup <= c.files[ino].count
  }

  /** Forgetting takes the count off a known inode, and aborts on any other. */
  lemma {:induction false} DidForget(c: Cache, ino: nat, nlookup: nat, left: nat, d: Cache, r: Reply)
    requires Wf(c)
    requires CanForget(c, ino, nlookup) ==> left == c.files[ino].count - nlookup
    requires CanForget(c, ino, nlookup) ==> d == SetCount(c, ino, left) && r == Reply([Took(ino, nlookup)])
    requires !CanForget(c, ino, nlookup) ==> r == Abort
    ensures Did(Step(c, Forget(ino, nlookup)), d, r)
  {
  }

  ghost function Prepend(ns: seq<nat>, b: Batch): Batch {
    if b.Batch? then b.(numbers := ns + b.numbers) else b
  }

  /** One entry of a listing: the number found goes behind those before it. */
  lemma {:induction false} OneMoreEntry(c: Cache, entries: seq<(Handle, Fattr)>, k: nat, ns: seq<nat>, g: FhGetResult)
    requires Wf(c) && k < |entries| && g == FhGet(c, entries[k].0, entries[k].1)
    ensures g.NoInode? ==> Prepend(ns, FhGetAll(c, entries[k..])) == BatchFailed(c)
    ensures g.Endless? ==> Prepend(ns, FhGetAll(c, entries[k..])) == BatchEndless
    ensures g.Got? ==>
              && Wf(g.cache)
              && Prepend(ns, FhGetAll(c, entries[k..])) == Prepend(ns + [g.number], FhGetAll(g.cache, entries[k + 1..]))
  {
    if g.Got? {
      FhGetKeeps(c, entries[k].0, entries[k].1);
      var b := FhGetAll(g.cache, entries[k + 1..]);
      assert entries[k..][1..] == entries[k + 1..];
      if b.Batch? {
        assert ns + ([g.number] + b.numbers) == ns + [g.number] + b.numbers;
      }
    }
  }

  lemma {:induction false} AllEntries(c: Cache, entries: seq<(Handle, Fattr)>)
    requires Wf(c)
    ensures Prepend([], FhGetAll(c, entries[0..])) == FhGetAll(c, entries)
  {
    assert entries[0..] == entries;
    var b := FhGetAll(c, entries);
    if b.Batch? {
      assert [] + b.numbers == b.numbers;
    }
  }

  lemma {:induction false} NoMoreEntries(c: Cache, entries: seq<(Handle, Fattr)>, ns: seq<nat>)
    requires Wf(c)
    ensures Prepend(ns, FhGetAll(c, entries[|entries|..])) == Batch(c, ns)
  {
    assert ns + [] == ns;
  }

  /** How many entries of these sizes go into a reply: one that fills it exactly stays out. */
  function Fits(sizes: seq<nat>, room: nat): (n: nat)
    ensures n <= |sizes|
  {
    if sizes == [] || sizes[0] >= room then 0 else 1 + Fits(sizes[1..], room - sizes[0])
  }

  function Total(sizes: seq<nat>): nat {
    if sizes == [] then 0 else sizes[0] + Total(sizes[1..])
  }

  /** As many entries go out as leave room in the reply, and one more would not. */
  lemma {:induction false} FitsExactly(sizes: seq<nat>, size: nat)
    ensures var n := Fits(sizes, size);
            && n <= |sizes| && (n > 0 ==> Total(sizes[..n]) < size)
            && (n < |sizes| ==> Total(sizes[..n + 1]) >= size)
    decreases |sizes|
  {
    var n := Fits(sizes, size);
    if n > 0 {
      FitsExactly(sizes[1..], size - sizes[0]);
      assert sizes[..n][1..] == sizes[1..][..n - 1];
      if n < |sizes| {
        assert sizes[..n + 1][1..] == sizes[1..][..n];
      }
    } else if sizes != [] {
      assert sizes[..1][1..] == [];
    }
  }

  /** The first `n` entries have been packed, into `len` bytes. */
  ghost predicate Packed(sizes: seq<nat>, size: nat, n: nat, len: nat) {
    n <= |sizes| && len <= size && Fits(sizes, size) == n + Fits(sizes[n..], size - len)
  }

  lemma {:induction false} PackedStep(sizes: seq<nat>, size: nat, n: nat, len: nat)
    requires Packed(sizes, size, n, len)
    ensures n == |sizes| || sizes[n] >= size - len ==> Fits(sizes, size) == n
    ensures n < |sizes| && sizes[n] < size - len ==> Packed(sizes, size, n + 1, len + sizes[n])
  {
    if n < |sizes| {
      assert sizes[n..][1..] == sizes[n + 1..];
    }
  }

  lemma {:induction false} IncreasedAppend(c: Cache, ns: seq<nat>, n: nat)
    requires n in c.files && forall i :: 0 <= i < |ns| ==> ns[i] in c.files
    ensures n in IncreasedAll(c, ns).files && IncreasedAll(c, ns + [n]) == Increased(IncreasedAll(c, ns), n)
    decreases |ns|
  {
    if ns == [] {
      assert ns + [n] == [n];
    } else {
      IncreasedAppend(Increased(c, ns[0]), ns[1..], n);
      assert (ns + [n])[1..] == ns[1..] + [n];
    }
  }

  /** From `c` the first `n` numbers have been handed out, which gave `d` and `notes`. */
  ghost predicate Delivered(c: Cache, ns: seq<nat>, n: nat, d: Cache, notes: seq<Note>) {
    && n <= |ns| && (forall i :: 0 <= i < |ns| ==> ns[i] in c.files)
    && d == IncreasedAll(c, ns[..n]) && notes == GaveAll(ns[..n])
  }

  lemma {:induction false} DeliverNone(c: Cache, ns: seq<nat>)
    requires forall i :: 0 <= i < |ns| ==> ns[i] in c.files
    ensures Delivered(c, ns, 0, c, [])
  {
  }

  lemma {:induction false} DeliverOneMore(c: Cache, ns: seq<nat>, n: nat, d: Cache, notes: seq<Note>)
    requires Delivered(c, ns, n, d, notes) && n < |ns|
    ensures ns[n] in d.files && Delivered(c, ns, n + 1, Increased(d, ns[n]), notes + [Gave(ns[n])])
  {
    IncreasedAppend(c, ns[..n], ns[n]);
    assert ns[..n + 1] == ns[..n] + [ns[n]];
  }

  /** Readdirplus is find-or-make for every entry, then handing out those that fit. */
  lemma {:induction false} DidReaddirPlus(
    c: Cache, entries: seq<(Handle, Fattr)>, ns: seq<nat>, n: nat, m: Cache, d: Cache, notes: seq<Note>)
    requires Wf(c) && FhGetAll(c, entries) == Batch(m, ns) && Delivered(m, ns, n, d, notes)
    ensures Did(Step(c, ReaddirPlus(entries, n)), d, Reply(notes))
  {
  }

  lemma {:induction false} DidNotReaddirPlus(c: Cache, entries: seq<(Handle, Fattr)>, n: nat, d: Cache)
    requires Wf(c) && FhGetAll(c, entries) == BatchFailed(d)
    ensures Did(Step(c, ReaddirPlus(entries, n)), d, Error)
  {
  }

  /** A request of the kernel, with the server's answer; `sizes` are the sizes of the entries. */
  datatype Call =
    | CallInit
    | CallLookup(fh: Handle, attr: Fattr)
    | CallCreate(fh: Handle, attr: Fattr)
    | CallReaddirPlus(entries: seq<(Handle, Fattr)>, sizes: seq<nat>, size: nat)
    | CallForget(ino: U64, nlookup: U64)

  predicate Proper(call: Call) {
    call.CallReaddirPlus? ==> |call.sizes| == |call.entries|
  }

  function OpOf(call: Call): FuseOp {
    match call
    case CallInit => Init
    case CallLookup(fh, a) => Lookup(fh, a)
    case CallCreate(fh, a) => Create(fh, a)
    case CallReaddirPlus(entries, sizes, size) => ReaddirPlus(entries, Fits(sizes, size))
    case CallForget(ino, nlookup) => Forget(ino, nlookup)
  }

  function OpsOf(calls: seq<Call>): seq<FuseOp> {
    if calls == [] then [] else [OpOf(calls[0])] + OpsOf(calls[1..])
  }

  /** One call of a run. */
  lemma {:induction false} RunStep(c: Cache, log: seq<Note>, calls: seq<Call>)
    requires Wf(c) && Balanced(c, log) && calls != [] && NeverStuck(c, log, OpsOf(calls))
    ensures var o := Step(c, OpOf(calls[0]));
            && !o.Stuck? && Sound(c, log, o)
            && Run(c, log, OpsOf(calls)) == (match o
               case Done(d, notes) => Run(d, log + notes, OpsOf(calls[1..]))
               case Failed(d) => Run(d, log, OpsOf(calls[1..]))
               case Aborted => Ended
               case Stuck => Ended)
            && (o.Done? ==> NeverStuck(o.cache, log + o.notes, OpsOf(calls[1..])))
            && (o.Failed? ==> NeverStuck(o.cache, log, OpsOf(calls[1..])))
  {
    StepSound(c, log, OpOf(calls[0]));
    assert OpsOf(calls)[1..] == OpsOf(calls[1..]);
  }

  class Super {
    var currId: U64
    var idTable: Chains
    var fhTable: Chains
    var inodes: seq<Inode>
    /** Where each number is, the number of each inode, and its buckets. */
    ghost var at: map<nat, Ptr>
    ghost var ids: seq<U64>
    ghost var idSlots: seq<Slot>
    ghost var fhSlots: seq<Slot>

    /** Both tables hold the same inodes, each in its key's bucket. */
    ghost predicate Indexed()
      reads this
    {
      && Numbered(at, ids) && Filed(idTable, idSlots) && Filed(fhTable, fhSlots)
      && |inodes| == |ids| == |idSlots| == |fhSlots|
      && forall p {:trigger inodes[p]} :: 0 <= p < |inodes| ==>
          && inodes[p].ino == ids[p] && !inodes[p].stale && inodes[p].icount <= 0
          && idSlots[p] == BucketOf(inodes[p].ino) && fhSlots[p] == BucketOf(inodes[p].fileid)
    }

    /** The cache as a value. */
    ghost function Model(): Cache
      reads this
      requires Indexed()
    {
      Cache(currId, FilesOf(at, inodes))
    }

    ghost predicate Valid()
      reads this
    {
      Indexed() && Wf(Model())
    }

    constructor ()
      ensures Valid() && Model() == EMPTY
    {
      currId, inodes := 0, [];
      idTable, fhTable := seq(HASH_SIZE, _ => []), seq(HASH_SIZE, _ => []);
      at, ids, idSlots, fhSlots := map[], [], [], [];
      new;
      assert Model().files == map[];
    }

    /** hsfs_ilookup: the map from numbers to inodes. */
    method IdFind(key: U64) returns (r: Option<Ptr>)
      requires Indexed()
      ensures r == if key in at then Some(at[key]) else None
    {
      var chain := idTable[BucketOf(key)];
      assert key in at ==> inodes[at[key]].ino == key && idSlots[at[key]] == BucketOf(key);
      for k := 0 to |chain|
        invariant forall j :: 0 <= j < k ==> chain[j] < |ids| && ids[chain[j]] != key
      {
        var p := chain[k];
        assert p in idTable[BucketOf(key)];
        if inodes[p].ino == key {
          assert Located(at, ids, p);
          return Some(p);
        }
      }
      return None;
    }

    /** __fh_ifind with nfs_find_actor: the inode of a file id and handle. */
    method FhFind(fileid: U64, fh: Handle) returns (r: Option<Ptr>)
      requires Indexed()
      ensures r.None? ==> forall p :: 0 <= p < |inodes| ==> !(inodes[p].fileid == fileid && inodes[p].fh == fh)
      ensures r.Some? ==> r.value < |inodes| && inodes[r.value].fileid == fileid && inodes[r.value].fh == fh
    {
      var chain := fhTable[BucketOf(fileid)];
      for k := 0 to |chain|
        invariant forall j :: 0 <= j < k ==>
          chain[j] < |inodes| && !(inodes[chain[j]].fileid == fileid && inodes[chain[j]].fh == fh)
      {
        var p := chain[k];
        assert p in fhTable[BucketOf(fileid)];
        var i := inodes[p];
        assert Located(at, ids, p);
        if i.fileid == fileid && i.fh == fh && i.ino != 0 && !i.stale {
          return Some(p);
        }
      }
      forall p | 0 <= p < |inodes| && inodes[p].fileid == fileid
        ensures inodes[p].fh != fh
      {
        assert fhSlots[p] == BucketOf(fileid);
      }
      return None;
    }

    /** The do-while search for the next number that is not in use. */
    method PickNumber(ghost free: nat) returns (id: U64)
      requires Indexed() && 2 <= free < TWO64 && free !in at
      ensures id as int == NextNumber(currId, at.Keys, free)
    {
      id := currId;
      ghost var used := at.Keys;
      var taken := true;
      while taken
        invariant taken ==> NextNumber(currId, used, free) == NextNumber(id, used, free)
        invariant !taken ==> NextNumber(currId, used, free) == id
        decreases taken, Distance(id, free)
      {
        NextNumberStep(id, used, free);
        id := Successor(id);
        var found := IdFind(id);
        taken := found.Some?;
      }
    }

    /** get_new_inode, nfs_init_locked, __inode_add_to_lists and the I_NEW branch of hsi_nfs_fhget. */
    method NewInode(fh: Handle, fileid: U64, attr: Attr, ghost free: nat) returns (p: Ptr)
      requires Indexed() && 2 <= free < TWO64 && free !in at
      modifies this
      ensures Indexed() && p == |old(inodes)| && currId in at
      ensures currId == NextNumber(old(currId), old(at).Keys, free)
      ensures inodes == old(inodes) + [Inode(currId, fileid, fh, attr, 0, 0, false)]
      ensures Model().files == old(Model()).files[currId as nat := File(fileid, fh, attr, 0)]
    {
      var id := PickNumber(free);
      p := |inodes|;
      NumberedOneMore(at, ids, id);
      FiledOneMore(idTable, idSlots, BucketOf(id));
      FiledOneMore(fhTable, fhSlots, BucketOf(fileid));
      var i := Inode(id, fileid, fh, attr, 0, 0, false);
      FilesOneMore(at, inodes, id, i);
      currId, inodes := id, inodes + [i];
      idTable, fhTable := HashAdd(idTable, BucketOf(id), p), HashAdd(fhTable, BucketOf(fileid), p);
      at, ids := at[id as nat := p], ids + [id];
      idSlots, fhSlots := idSlots + [BucketOf(id)], fhSlots + [BucketOf(fileid)];
    }

    /** Fields of one inode change; its number and file do not. */
    method SetInode(p: Ptr, i: Inode)
      requires Indexed() && p < |inodes| && !i.stale && i.icount <= 0
      requires i.ino == inodes[p].ino && i.fileid == inodes[p].fileid
      modifies this`inodes
      ensures Indexed() && inodes == old(inodes)[p := i] && i.ino in at
      ensures Model() == old(Model()).(files := old(Model()).files[i.ino as nat := FileOf(i)])
    {
      assert Located(at, ids, p);
      inodes := inodes[p := i];
      forall n | n in at && n != i.ino
        ensures inodes[at[n]] == old(inodes)[at[n]]
      {
        assert at[n] != p;
      }
    }

    /** nfs_refresh_inode and nfs_update_inode */
    method Refresh(p: Ptr, a: Fattr)
      requires Indexed() && p < |inodes|
      modifies this`inodes
      ensures Indexed() && |inodes| == |old(inodes)| && inodes[p].ino in at
      ensures forall q :: 0 <= q < |inodes| && q != p ==> inodes[q] == old(inodes)[q]
      ensures inodes[p].ino == old(inodes)[p].ino && Learned(FileOf(old(inodes)[p]), FileOf(inodes[p]), a)
      ensures Model() == old(Model()).(files :=
                old(Model()).files[inodes[p].ino as nat := Refreshed(FileOf(old(inodes)[p]), a)])
    {
      RefreshedLearns(FileOf(inodes[p]), a);
      var i := inodes[p];
      if a.valid && i.fileid == a.fileid && FileType(i.attr.mode) == FileType(a.mode) {
        i := i.(attr := AttrOf(a));
      }
      SetInode(p, i);
    }

    /** What FhFind finds is what the abstract cache knows. */
    lemma {:induction false} FoundIsKnown(p: Ptr)
      requires Indexed() && Wf(Model()) && p < |inodes|
      ensures inodes[p].ino in at && Model().files[inodes[p].ino] == FileOf(inodes[p])
      ensures Known(Model(), inodes[p].fileid, inodes[p].fh)
      ensures NumberOf(Model(), inodes[p].fileid, inodes[p].fh) == inodes[p].ino
    {
      assert Located(at, ids, p);
      NumberOfUnique(Model(), inodes[p].ino);
    }

    /** The number a new inode gets is the abstract cache's fresh number. */
    lemma {:induction false} NumberIsFresh(n: nat, free: nat)
      requires Indexed() && 2 <= free < TWO64 && free !in at
      requires n == NextNumber(currId, at.Keys, free)
      ensures RoomFor(Model()) && n == FreshNumber(Model())
    {
      var c := Model();
      assert c.files.Keys == at.Keys;
      assert free !in c.files;
      var other :| 2 <= other < TWO64 && other !in c.files && FreshNumber(c) == NextNumber(c.curr, c.files.Keys, other);
      NextNumberUnique(currId, at.Keys, free, other);
    }

    /** hsi_nfs_fhget on an inode that was found. */
    method Found(p: Ptr, a: Fattr)
      requires Valid() && p < |inodes| && Usable(a) && inodes[p].fileid == a.fileid
      modifies this`inodes
      ensures Valid() && |inodes| == |old(inodes)|
      ensures forall q :: 0 <= q < |inodes| ==> inodes[q].ino == old(inodes)[q].ino
      ensures Inodes.FhGet(old(Model()), old(inodes)[p].fh, a) == Got(Model(), inodes[p].ino)
    {
      FoundIsKnown(p);
      FhGetKeeps(Model(), inodes[p].fh, a);
      ghost var r := Inodes.FhGet(Model(), inodes[p].fh, a);
      Refresh(p, a);
      assert Model() == r.cache;
    }

    /** hsi_nfs_fhget when there is no inode yet. */
    method Made(fh: Handle, a: Fattr) returns (p: Ptr)
      requires Valid() && Usable(a) && RoomFor(Model()) && !Known(Model(), a.fileid, fh)
      modifies this
      ensures Valid() && |inodes| == |old(inodes)| + 1 && p < |inodes|
      ensures forall q :: 0 <= q < |old(inodes)| ==> inodes[q].ino == old(inodes)[q].ino
      ensures Inodes.FhGet(old(Model()), fh, a) == Got(Model(), inodes[p].ino)
    {
      FhGetKeeps(Model(), fh, a);
      ghost var r := Inodes.FhGet(Model(), fh, a);
      ghost var free :| 2 <= free < TWO64 && free !in Model().files;
      NumberIsFresh(NextNumber(currId, at.Keys, free), free);
      p := NewInode(fh, a.fileid, AttrOf(a), free);
      assert Model() == r.cache;
    }

    /** hsi_nfs_fhget and hsfs_iget5_locked; the one case left out is a search that never ends. */
    method FhGet(fh: Handle, a: Fattr) returns (r: Option<Ptr>)
      requires Valid() && !Inodes.FhGet(Model(), fh, a).Endless?
      modifies this
      ensures Valid() && |old(inodes)| <= |inodes|
      ensures forall p :: 0 <= p < |old(inodes)| ==> inodes[p].ino == old(inodes)[p].ino
      ensures r.None? ==> Inodes.FhGet(old(Model()), fh, a).NoInode? && Model() == old(Model())
      ensures r.Some? ==> r.value < |inodes| && Inodes.FhGet(old(Model()), fh, a) == Got(Model(), inodes[r.value].ino)
      ensures r.Some? ==> Acquired(old(Model()), Model(), inodes[r.value].ino, fh, a)
      ensures r.Some? <==> a.valid && a.nlink != 0
    {
      if Usable(a) {
        FhGetLearns(Model(), fh, a);
      } else {
        return None;
      }
      r := FhFind(a.fileid, fh);
      if r.Some? {
        Found(r.value, a);
      } else {
        assert !Known(Model(), a.fileid, fh);
        var p := Made(fh, a);
        r := Some(p);
      }
    }

    /** The lookup count of one inode is set. */
    method SetCount(p: Ptr, v: U64)
      requires Valid() && p < |inodes|
      modifies this`inodes
      ensures Valid() && |inodes| == |old(inodes)| && inodes[p].ino in old(Model()).files
      ensures forall q :: 0 <= q < |inodes| ==> inodes[q].ino == old(inodes)[q].ino
      ensures Model() == Inodes.SetCount(old(Model()), inodes[p].ino, v)
    {
      FoundIsKnown(p);
      ghost var n := inodes[p].ino;
      UpdateKeeps(Model(), n, Model().files[n].(count := v));
      SetInode(p, inodes[p].(count := v));
    }

    /** hsx_fuse_ref_inc */
    method RefInc(p: Ptr)
      requires Valid() && p < |inodes|
      modifies this`inodes
      ensures Valid() && |inodes| == |old(inodes)| && inodes[p].ino in old(Model()).files
      ensures forall q :: 0 <= q < |inodes| ==> inodes[q].ino == old(inodes)[q].ino
      ensures Model() == Increased(old(Model()), inodes[p].ino)
    {
      FoundIsKnown(p);
      var v := (inodes[p].count + 1) % TWO64;
      assert Increased(Model(), inodes[p].ino) == Inodes.SetCount(Model(), inodes[p].ino, v);
      SetCount(p, v);
    }

    /** hsx_fuse_ref_xchg and the assertion after it. */
    method Claim(p: Ptr) returns (r: Reply)
      requires Valid() && p < |inodes|
      modifies this`inodes
      ensures Valid() && inodes[p].ino in old(Model()).files
      ensures r == if old(Model()).files[inodes[p].ino].count == 0 then Reply([Gave(inodes[p].ino)]) else Abort
      ensures Model() == Inodes.SetCount(old(Model()), inodes[p].ino, 1)
    {
      FoundIsKnown(p);
      var ref := inodes[p].count;
      SetCount(p, 1);
      r := if ref == 0 then Reply([Gave(inodes[p].ino)]) else Abort;
    }

    /** hsfs_iput: the use count was never raised, so this never releases the inode. */
    method Put(p: Ptr) returns (last: bool)
      requires Valid() && p < |inodes|
      modifies this`inodes
      ensures Valid() && Model() == old(Model()) && |inodes| == |old(inodes)| && !last
    {
      FoundIsKnown(p);
      assert Model().files == Model().files[inodes[p].ino as nat := FileOf(inodes[p])];
      var i := inodes[p].(icount := inodes[p].icount - 1);
      last := i.icount == 0;
      SetInode(p, i);
    }

    /** hsx_fuse_init */
    method FuseInit() returns (r: Reply)
      requires Valid()
      modifies this`inodes
      ensures Valid() && Did(Step(old(Model()), Init), Model(), r)
    {
      var root := IdFind(1);
      if root.None? {
        return Abort;
      }
      FoundIsKnown(root.value);
      r := Claim(root.value);
    }

    /** hsx_fuse_lookup on the server's answer. */
    method FuseLookup(fh: Handle, a: Fattr) returns (r: Reply)
      requires Valid() && !Inodes.FhGet(Model(), fh, a).Endless?
      modifies this
      ensures Valid() && Did(Step(old(Model()), Lookup(fh, a)), Model(), r)
    {
      var child := FhGet(fh, a);
      ghost var g := if child.None? then NoInode else Got(Model(), inodes[child.value].ino);
      if child.None? {
        r := Error;
      } else {
        RefInc(child.value);
        r := Reply([Gave(inodes[child.value].ino)]);
      }
      DidLookup(old(Model()), fh, a, g, Model(), r);
    }

    /** The inode, if there is one, is claimed; `c` is the cache before it was found or made. */
    method ClaimFound(child: Option<Ptr>, ghost c: Cache, fh: Handle, a: Fattr) returns (r: Reply)
      requires Valid() && Wf(c)
      requires child.None? ==> Inodes.FhGet(c, fh, a).NoInode? && Model() == c
      requires child.Some? ==> child.value < |inodes| && Inodes.FhGet(c, fh, a) == Got(Model(), inodes[child.value].ino)
      modifies this`inodes
      ensures Valid() && Did(Step(c, Create(fh, a)), Model(), r)
    {
      ghost var g := if child.None? then NoInode else Got(Model(), inodes[child.value].ino);
      if child.None? {
        r := Error;
      } else {
        r := Claim(child.value);
      }
      DidCreate(c, fh, a, g, Model(), r);
    }

    /** hsx_fuse_mkdir on the server's answer; the other creating handlers do the same. */
    method FuseCreate(fh: Handle, a: Fattr) returns (r: Reply)
      requires Valid() && !Inodes.FhGet(Model(), fh, a).Endless?
      modifies this
      ensures Valid() && Did(Step(old(Model()), Create(fh, a)), Model(), r)
    {
      var child := FhGet(fh, a);
      r := ClaimFound(child, old(Model()), fh, a);
    }

    /** The count is lowered; at zero the inode is put. */
    method Lower(p: Ptr, left: U64)
      requires Valid() && p < |inodes|
      modifies this`inodes
      ensures Valid() && old(inodes[p].ino) in old(Model()).files
      ensures Model() == Inodes.SetCount(old(Model()), old(inodes[p].ino), left)
    {
      SetCount(p, left);
      if left == 0 {
        var last := Put(p);
      }
    }

    /** The assertions of a forget, the inode is known and its count is not too low, and what is left of the count. */
    method FindCounted(ino: U64, nlookup: U64) returns (r: Option<Ptr>, left: U64)
      requires Valid()
      ensures r.Some? <==> CanForget(Model(), ino, nlookup)
      ensures r.Some? ==> r.value < |inodes| && inodes[r.value].ino == ino
      ensures r.Some? ==> left as int == Model().files[ino].count - nlookup as int
    {
      left := 0;
      r := IdFind(ino);
      if r.Some? {
        FoundIsKnown(r.value);
        if nlookup > inodes[r.value].count {
          r := None;
        } else {
          left := inodes[r.value].count - nlookup;
        }
      }
    }

    /** hsx_fuse_forget */
    method FuseForget(ino: U64, nlookup: U64) returns (r: Reply)
      requires Valid()
      modifies this`inodes
      ensures Valid() && Did(Step(old(Model()), Forget(ino, nlookup)), Model(), r)
    {
      var node, left := FindCounted(ino, nlookup);
      if node.None? {
        r := Abort;
      } else {
        Lower(node.value, left);
        r := Reply([Took(ino, nlookup)]);
      }
      DidForget(old(Model()), ino, nlookup, left, Model(), r);
    }

    /** The pointers lead to inodes with these numbers. */
    ghost predicate Numbers(ptrs: seq<Ptr>, ns: seq<nat>)
      reads this`inodes
    {
      |ptrs| == |ns| && forall i :: 0 <= i < |ptrs| ==> ptrs[i] < |inodes| && inodes[ptrs[i]].ino == ns[i]
    }

    lemma {:induction false} NumbersOneMore(ptrs: seq<Ptr>, ns: seq<nat>, p: Ptr, n: nat)
      requires Numbers(ptrs, ns) && p < |inodes| && inodes[p].ino == n
      ensures Numbers(ptrs + [p], ns + [n])
    {
    }

    /** One round of the loop below. */
    method GetOne(entries: seq<(Handle, Fattr)>, k: nat, ptrs: seq<Ptr>, ghost ns: seq<nat>, ghost total: Batch)
      returns (r: Option<Ptr>, ghost n: nat)
      requires Valid() && k < |entries| && Numbers(ptrs, ns)
      requires total == Prepend(ns, FhGetAll(Model(), entries[k..])) && !total.BatchEndless?
      modifies this
      ensures Valid() && Numbers(ptrs, ns)
      ensures r.None? ==> total == BatchFailed(Model())
      ensures r.Some? ==> Numbers(ptrs + [r.value], ns + [n])
      ensures r.Some? ==> total == Prepend(ns + [n], FhGetAll(Model(), entries[k + 1..]))
    {
      ghost var g := Inodes.FhGet(Model(), entries[k].0, entries[k].1);
      OneMoreEntry(Model(), entries, k, ns, g);
      r := FhGet(entries[k].0, entries[k].1);
      n := 0;
      if r.Some? {
        n := inodes[r.value].ino;
        assert g == Got(Model(), n);
        NumbersOneMore(ptrs, ns, r.value, n);
      }
    }

    /** The loop of hsi_nfs3_readdir_plus; an entry without a handle has no valid attributes here. */
    method GetAll(entries: seq<(Handle, Fattr)>) returns (ok: bool, ptrs: seq<Ptr>, ghost ns: seq<nat>)
      requires Valid() && FhGetAll(Model(), entries) != BatchEndless
      modifies this
      ensures Valid() && Numbers(ptrs, ns)
      ensures FhGetAll(old(Model()), entries) == if ok then Batch(Model(), ns) else BatchFailed(Model())
    {
      ok, ptrs, ns := true, [], [];
      ghost var total := FhGetAll(Model(), entries);
      AllEntries(Model(), entries);
      for k := 0 to |entries|
        invariant Valid() && Numbers(ptrs, ns) && ok
        invariant total == Prepend(ns, FhGetAll(Model(), entries[k..]))
      {
        var r, n := GetOne(entries, k, ptrs, ns, total);
        if r.None? {
          ok := false;
          return;
        }
        ptrs, ns := ptrs + [r.value], ns + [n];
      }
      NoMoreEntries(Model(), entries, ns);
    }

    /** __free_ctx after a failure: every inode of the list is put. */
    method PutAll(ptrs: seq<Ptr>)
      requires Valid() && forall i :: 0 <= i < |ptrs| ==> ptrs[i] < |inodes|
      modifies this`inodes
      ensures Valid() && Model() == old(Model())
    {
      for k := 0 to |ptrs|
        invariant Valid() && Model() == old(Model()) && |inodes| == |old(inodes)|
      {
        var last := Put(ptrs[k]);
      }
    }

    lemma {:induction false} NumbersKnown(ptrs: seq<Ptr>, ns: seq<nat>)
      requires Indexed() && Numbers(ptrs, ns)
      ensures forall i :: 0 <= i < |ns| ==> ns[i] in Model().files
    {
      forall i | 0 <= i < |ns|
        ensures ns[i] in Model().files
      {
        assert Located(at, ids, ptrs[i]);
        assert inodes[ptrs[i]].ino == ns[i];
      }
    }

    /** One more entry goes out. */
    method Deliver(ptrs: seq<Ptr>, n: nat, notes: seq<Note>, ghost c: Cache, ghost ns: seq<nat>)
      returns (more: seq<Note>)
      requires Valid() && Numbers(ptrs, ns) && n < |ns| && Delivered(c, ns, n, Model(), notes)
      modifies this`inodes
      ensures Valid() && Numbers(ptrs, ns) && Delivered(c, ns, n + 1, Model(), more)
    {
      DeliverOneMore(c, ns, n, Model(), notes);
      RefInc(ptrs[n]);
      more := notes + [Gave(inodes[ptrs[n]].ino)];
    }

    /**
     The packing loop of hsx_fuse_readdir_plus: `sizes[i]` is what entry i takes in the reply.
     The first n entries go out, each with its count raised.
     */
    method Pack(ptrs: seq<Ptr>, sizes: seq<nat>, size: nat, ghost ns: seq<nat>) returns (notes: seq<Note>, n: nat)
      requires Valid() && Numbers(ptrs, ns) && |sizes| == |ptrs|
      requires forall i :: 0 <= i < |ns| ==> ns[i] in Model().files
      modifies this`inodes
      ensures Valid() && n == Fits(sizes, size)
      ensures Delivered(old(Model()), ns, n, Model(), notes)
    {
      ghost var c := Model();
      DeliverNone(c, ns);
      var len: nat := 0;
      notes, n := [], 0;
      assert sizes[0..] == sizes;
      while n < |ptrs|
        invariant Valid() && Numbers(ptrs, ns) && Packed(sizes, size, n, len)
        invariant Delivered(c, ns, n, Model(), notes)
      {
        PackedStep(sizes, size, n, len);
        var res := sizes[n];
        if res > size - len {
          break;
        } else if res == size - len {
          break;
        }
        notes := Deliver(ptrs, n, notes, c, ns);
        len, n := len + res, n + 1;
      }
      PackedStep(sizes, size, n, len);
    }

    /** hsx_fuse_readdir_plus on the server's answer. */
    method FuseReaddirPlus(entries: seq<(Handle, Fattr)>, sizes: seq<nat>, size: nat) returns (r: Reply)
      requires Valid() && |sizes| == |entries| && FhGetAll(Model(), entries) != BatchEndless
      modifies this
      ensures Valid() && Did(Step(old(Model()), ReaddirPlus(entries, Fits(sizes, size))), Model(), r)
    {
      var ok, ptrs, ns := GetAll(entries);
      if !ok {
        PutAll(ptrs);
        DidNotReaddirPlus(old(Model()), entries, Fits(sizes, size), Model());
        return Error;
      }
      NumbersKnown(ptrs, ns);
      ghost var m := Model();
      var notes, n := Pack(ptrs, sizes, size, ns);
      DidReaddirPlus(old(Model()), entries, ns, n, m, Model(), notes);
      r := Reply(notes);
    }

    method Handle(call: Call) returns (r: Reply)
      requires Valid() && Proper(call) && !Step(Model(), OpOf(call)).Stuck?
      modifies this
      ensures Valid() && Did(Step(old(Model()), OpOf(call)), Model(), r)
    {
      match call
      case CallInit => r := FuseInit();
      case CallLookup(fh, a) => r := FuseLookup(fh, a);
      case CallCreate(fh, a) => r := FuseCreate(fh, a);
      case CallReaddirPlus(entries, sizes, size) => r := FuseReaddirPlus(entries, sizes, size);
      case CallForget(ino, nlookup) => r := FuseForget(ino, nlookup);
    }

    /** The handlers, call after call, are the run of the abstract steps; a failed assertion ends it. */
    method Serve(calls: seq<Call>, before: seq<Note>) returns (log: seq<Note>, alive: bool)
      requires Valid() && Balanced(Model(), before) && NeverStuck(Model(), before, OpsOf(calls))
      requires forall i :: 0 <= i < |calls| ==> Proper(calls[i])
      modifies this
      ensures Valid() && Run(old(Model()), before, OpsOf(calls)) == if alive then Trace(Model(), log) else Ended
    {
      log, alive := before, true;
      assert calls[0..] == calls;
      for k := 0 to |calls|
        invariant Valid() && alive && Balanced(Model(), log) && NeverStuck(Model(), log, OpsOf(calls[k..]))
        invariant Run(old(Model()), before, OpsOf(calls)) == Run(Model(), log, OpsOf(calls[k..]))
      {
        RunStep(Model(), log, calls[k..]);
        assert calls[k..][1..] == calls[k + 1..];
        var r := Handle(calls[k]);
        match r
        case Reply(notes) => log := log + notes;
        case Error =>
        case Abort => return log, false;
      }
    }
  }
}
