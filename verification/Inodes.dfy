/**
 Inodes and lookup counts as values: what the inode cache and the FUSE handlers do to a plain
 map from inode number to file, and what holds over every run of handlers.
 */
module Inodes {
  import opened Options
  import opened Bits

  type Handle = seq<int>

  /** The attributes of a reply; `valid` says whether the full set is present. */
  datatype Fattr = Fattr(
    valid: bool, fileid: U64, mode: nat, nlink: nat, uid: nat, gid: nat, size: nat, used: nat,
    atime: int, mtime: int, ctime: int)

  /** The attributes an inode keeps. */
  datatype Attr = Attr(
    mode: nat, nlink: nat, uid: nat, gid: nat, size: nat, blocks: nat, atime: int, mtime: int, ctime: int)

  const LLONG_MAX: nat := 0x7fff_ffff_ffff_ffff

  /** Sizes are clamped to the largest offset but one; blocks are counted in 512-byte units. */
  function AttrOf(a: Fattr): Attr {
    var size := if a.size > LLONG_MAX - 1 then LLONG_MAX - 1 else a.size;
    var used := ((a.used + 511) % TWO64) / 512;
    Attr(a.mode, a.nlink, a.uid, a.gid, size, if used > LLONG_MAX then LLONG_MAX else used,
         a.atime, a.mtime, a.ctime)
  }

  /** mode & S_IFMT */
  function FileType(mode: nat): nat {
    mode / 0x1000 % 0x10
  }

  datatype File = File(fileid: U64, fh: Handle, attr: Attr, count: nat)

  /** The last number given out, and the files by number. */
  datatype Cache = Cache(curr: nat, files: map<nat, File>)

  ghost predicate HasKey(f: File, fileid: U64, fh: Handle) {
    f.fileid == fileid && f.fh == fh
  }

  ghost predicate SameKey(f: File, g: File) {
    f.fileid == g.fileid && f.fh == g.fh
  }

  ghost predicate Wf(c: Cache) {
    && (forall n :: n in c.files ==> 1 <= n < TWO64 && c.files[n].count < TWO64)
    && (forall n, m {:trigger SameKey(c.files[n], c.files[m])} ::
          n in c.files && m in c.files && SameKey(c.files[n], c.files[m]) ==> n == m)
    && (if c.files == map[] then c.curr == 0 else 1 <= c.curr < TWO64 && 1 in c.files)
  }

  // ---- numbers ----

  /** curr_id++, skipping zero and one when it wraps. */
  function Successor(curr: nat): nat {
    if (curr + 1) % TWO64 == 0 then 2 else (curr + 1) % TWO64
  }

  /** How many steps the counter needs from `curr` to reach `free`. */
  function Distance(curr: nat, free: nat): nat
    requires curr < TWO64 && 1 <= free < TWO64
  {
    if curr < free then free - curr else TWO64 - curr + free
  }

  /** The next unused number; `free` is one that is not used. */
  function NextNumber(curr: nat, used: set<nat>, ghost free: nat): (n: nat)
    requires curr < TWO64 && free !in used && free < TWO64
    requires free >= 2 || (free == 1 && curr == 0)
    ensures n !in used && 1 <= n < TWO64
    ensures n == 1 ==> curr == 0
    decreases Distance(curr, free)
  {
    var n := Successor(curr);
    if n !in used then n else NextNumber(n, used, free)
  }

  lemma {:induction false} NextNumberStep(curr: nat, used: set<nat>, free: nat)
    requires curr < TWO64 && free !in used && 2 <= free < TWO64
    ensures var n := Successor(curr);
            && n < TWO64
            && NextNumber(curr, used, free) == (if n in used then NextNumber(n, used, free) else n)
            && (n in used ==> Distance(n, free) < Distance(curr, free))
  {
  }

  /** Which free number is taken as the witness does not matter. */
  lemma {:induction false} NextNumberUnique(curr: nat, used: set<nat>, f: nat, g: nat)
    requires curr < TWO64 && f !in used && g !in used && f < TWO64 && g < TWO64
    requires f >= 2 || (f == 1 && curr == 0)
    requires g >= 2 || (g == 1 && curr == 0)
    ensures NextNumber(curr, used, f) == NextNumber(curr, used, g)
    decreases Distance(curr, f)
  {
    var n := Successor(curr);
    if n in used {
      NextNumberUnique(n, used, f, g);
    }
  }

  ghost predicate RoomFor(c: Cache) {
    exists n :: 2 <= n < TWO64 && n !in c.files
  }

  ghost function FreshNumber(c: Cache): (n: nat)
    requires c.curr < TWO64 && RoomFor(c)
    ensures n !in c.files && 1 <= n < TWO64 && (n == 1 ==> c.curr == 0)
  {
    var free :| 2 <= free < TWO64 && free !in c.files;
    NextNumber(c.curr, c.files.Keys, free)
  }

  /** The first inode is number one, and no later one is. */
  lemma {:induction false} FirstNumberIsOne(c: Cache)
    requires Wf(c) && RoomFor(c)
    ensures FreshNumber(c) == 1 <==> c.files == map[]
  {
  }

  // ---- find or create ----

  /** At most one number has the file. */
  lemma {:induction false} NumberOfUnique(c: Cache, n: nat)
    requires Wf(c) && n in c.files
    ensures Known(c, c.files[n].fileid, c.files[n].fh)
    ensures NumberOf(c, c.files[n].fileid, c.files[n].fh) == n
  {
    var f := c.files[n];
    assert HasKey(c.files[n], f.fileid, f.fh);
    assert SameKey(c.files[NumberOf(c, f.fileid, f.fh)], c.files[n]);
  }

  ghost predicate Known(c: Cache, fileid: U64, fh: Handle) {
    exists n :: n in c.files && HasKey(c.files[n], fileid, fh)
  }

  ghost function NumberOf(c: Cache, fileid: U64, fh: Handle): (n: nat)
    requires Known(c, fileid, fh)
    ensures n in c.files && HasKey(c.files[n], fileid, fh)
  {
    var n :| n in c.files && HasKey(c.files[n], fileid, fh);
    n
  }

  /** A reply refreshes the attributes unless it would change the identity or type of the file. */
  function Refreshed(f: File, a: Fattr): File {
    if !a.valid || f.fileid != a.fileid || FileType(f.attr.mode) != FileType(a.mode) then f
    else f.(attr := AttrOf(a))
  }

  /** `Endless` is the number search that never ends because every number is taken. */
  datatype FhGetResult = Got(cache: Cache, number: nat) | NoInode | Endless

  predicate Usable(a: Fattr) {
    a.valid && a.nlink != 0
  }

  /** The inode for a handle: refreshed when it is known, new otherwise. */
  ghost function FhGet(c: Cache, fh: Handle, a: Fattr): (r: FhGetResult)
    requires Wf(c)
  {
    if !Usable(a) then NoInode
    else if Known(c, a.fileid, fh) then
      var n := NumberOf(c, a.fileid, fh);
      Got(c.(files := c.files[n := Refreshed(c.files[n], a)]), n)
    else if !RoomFor(c) then Endless
    else
      var n := FreshNumber(c);
      Got(Cache(n, c.files[n := File(a.fileid, fh, AttrOf(a), 0)]), n)
  }

  // ---- what an inode learns ----

  /**
   The attributes are the reply's: the size unless an offset cannot hold it, and as many blocks of 512
   bytes as hold what is used, unless counting them overflows.
   */
  predicate Reflects(t: Attr, a: Fattr) {
    && t.mode == a.mode && t.nlink == a.nlink && t.uid == a.uid && t.gid == a.gid
    && t.atime == a.atime && t.mtime == a.mtime && t.ctime == a.ctime
    && (if a.size < LLONG_MAX then t.size == a.size else t.size == LLONG_MAX - 1)
    && (if a.used + 511 < TWO64 then 512 * t.blocks - 512 < a.used <= 512 * t.blocks
        else a.used < TWO64 ==> t.blocks == 0)
  }

  predicate SameType(m: nat, n: nat) {
    And(m, S_IFMT) == And(n, S_IFMT)
  }

  /** After a reply for this file, of its type, it has the reply's attributes; any other reply changes nothing. */
  predicate Learned(f: File, g: File, a: Fattr) {
    && g.fileid == f.fileid && g.fh == f.fh && g.count == f.count
    && if a.valid && f.fileid == a.fileid && SameType(f.attr.mode, a.mode) then Reflects(g.attr, a) else g == f
  }

  /** Number `n` is the file of the reply, known or new, and has learned what is in it; no other file changes. */
  ghost predicate Acquired(c: Cache, d: Cache, n: nat, fh: Handle, a: Fattr) {
    && d.files.Keys == c.files.Keys + {n} && HasKey(d.files[n], a.fileid, fh)
    && (if n in c.files then HasKey(c.files[n], a.fileid, fh) && Learned(c.files[n], d.files[n], a)
        else d.files[n].count == 0 && Reflects(d.files[n].attr, a))
    && forall m :: m in c.files && m != n ==> d.files[m] == c.files[m]
  }

  lemma {:induction false} AttrReflects(a: Fattr)
    ensures Reflects(AttrOf(a), a)
  {
    if TWO64 <= a.used + 511 && a.used < TWO64 {
      assert (a.used + 511) % TWO64 == a.used + 511 - TWO64;
    }
  }

  lemma {:induction false} TypesDiffer(m: nat, n: nat)
    ensures FileType(m) == FileType(n) <==> SameType(m, n)
  {
    TypeField(m);
    TypeField(n);
  }

  lemma {:induction false} RefreshedLearns(f: File, a: Fattr)
    ensures Learned(f, Refreshed(f, a), a)
  {
    AttrReflects(a);
    TypesDiffer(f.attr.mode, a.mode);
  }

  /** Find-or-create gives the file of the reply, with the attributes of the reply. */
  lemma {:induction false} FhGetLearns(c: Cache, fh: Handle, a: Fattr)
    requires Wf(c) && FhGet(c, fh, a).Got?
    ensures var r := FhGet(c, fh, a); Acquired(c, r.cache, r.number, fh, a)
  {
    if Known(c, a.fileid, fh) {
      RefreshedLearns(c.files[NumberOf(c, a.fileid, fh)], a);
    } else {
      AttrReflects(a);
    }
  }

  /** What no step of any handler changes: a number keeps its file identity and type. */
  ghost predicate Preserves(c: Cache, d: Cache) {
    forall n :: n in c.files ==> n in d.files && SameFile(c.files[n], d.files[n])
  }

  predicate SameFile(f: File, g: File) {
    g.fileid == f.fileid && g.fh == f.fh && FileType(g.attr.mode) == FileType(f.attr.mode)
  }

  /** Changing attributes or the count of one file keeps the cache in order. */
  lemma {:induction false} UpdateKeeps(c: Cache, n: nat, f: File)
    requires Wf(c) && n in c.files && SameFile(c.files[n], f) && f.count < TWO64
    ensures Wf(c.(files := c.files[n := f])) && Preserves(c, c.(files := c.files[n := f]))
  {
    var d := c.(files := c.files[n := f]);
    assert d.files.Keys == c.files.Keys;
    forall m, k | m in d.files && k in d.files && SameKey(d.files[m], d.files[k])
      ensures m == k
    {
      assert SameKey(c.files[m], c.files[k]);
    }
  }

  lemma {:induction false} InsertKeeps(c: Cache, n: nat, f: File)
    requires Wf(c) && n !in c.files && 1 <= n < TWO64 && (n == 1 <==> c.files == map[])
    requires !Known(c, f.fileid, f.fh) && f.count < TWO64
    ensures Wf(Cache(n, c.files[n := f])) && Preserves(c, Cache(n, c.files[n := f]))
  {
    var d := Cache(n, c.files[n := f]);
    assert d.files.Keys == c.files.Keys + {n};
    forall m, k | m in d.files && k in d.files && SameKey(d.files[m], d.files[k])
      ensures m == k
    {
      if m != n && k != n {
        assert SameKey(c.files[m], c.files[k]);
      }
    }
  }

  lemma {:induction false} FhGetKeeps(c: Cache, fh: Handle, a: Fattr)
    requires Wf(c) && FhGet(c, fh, a).Got?
    ensures var r := FhGet(c, fh, a);
            && Wf(r.cache) && Preserves(c, r.cache)
            && r.number in r.cache.files && HasKey(r.cache.files[r.number], a.fileid, fh)
            && CountsFrom(c, r.cache)
  {
    var r := FhGet(c, fh, a);
    if Known(c, a.fileid, fh) {
      UpdateKeeps(c, r.number, Refreshed(c.files[r.number], a));
    } else {
      FirstNumberIsOne(c);
      InsertKeeps(c, r.number, File(a.fileid, fh, AttrOf(a), 0));
    }
  }

  /** Counts of known files are unchanged, and new files start at zero. */
  ghost predicate CountsFrom(c: Cache, d: Cache) {
    forall n :: n in d.files ==> d.files[n].count == if n in c.files then c.files[n].count else 0
  }

  /** Asking twice for the same file gives the same number. */
  lemma {:induction false} FhGetTwice(c: Cache, fh: Handle, a: Fattr, b: Fattr)
    requires Wf(c) && FhGet(c, fh, a).Got? && Usable(b) && a.fileid == b.fileid
    ensures var r := FhGet(c, fh, a);
            Wf(r.cache) && FhGet(r.cache, fh, b).Got? && FhGet(r.cache, fh, b).number == r.number
  {
    FhGetKeeps(c, fh, a);
    var r := FhGet(c, fh, a);
    assert HasKey(r.cache.files[r.number], b.fileid, fh);
    assert SameKey(r.cache.files[NumberOf(r.cache, b.fileid, fh)], r.cache.files[r.number]);
  }

  const EMPTY: Cache := Cache(0, map[])

  /** Mounting gives the root number one, as the source asserts. */
  lemma {:induction false} RootIsOne(fh: Handle, a: Fattr)
    requires Usable(a)
    ensures Wf(EMPTY)
    ensures FhGet(EMPTY, fh, a) == Got(Cache(1, map[1 := File(a.fileid, fh, AttrOf(a), 0)]), 1)
    ensures Acquired(EMPTY, FhGet(EMPTY, fh, a).cache, 1, fh, a)
  {
    AttrReflects(a);
    assert 2 !in EMPTY.files;
    assert RoomFor(EMPTY);
    FirstNumberIsOne(EMPTY);
  }

  // ---- handlers ----

  datatype FuseOp =
    | Init
    | Lookup(fh: Handle, attr: Fattr)
    | Create(fh: Handle, attr: Fattr)                                   // also mkdir, mknod and symlink
    | ReaddirPlus(entries: seq<(Handle, Fattr)>, delivered: nat)        // `delivered` fit the reply
    | Forget(number: nat, nlookup: nat)

  /** What passes to and from the kernel. */
  datatype Note = Gave(number: nat) | Took(number: nat, nlookup: nat)

  datatype Outcome =
    | Done(cache: Cache, notes: seq<Note>)
    | Failed(cache: Cache)   // an error reply; nothing was handed out
    | Aborted                // a FUSE_ASSERT failed
    | Stuck                  // the number search does not end

  function SetCount(c: Cache, n: nat, count: nat): Cache
    requires n in c.files
  {
    c.(files := c.files[n := c.files[n].(count := count)])
  }

  /** hsx_fuse_ref_inc by one, in an unsigned 64-bit word. */
  function Increased(c: Cache, n: nat): Cache
    requires n in c.files
  {
    SetCount(c, n, (c.files[n].count + 1) % TWO64)
  }

  /** hsx_fuse_ref_xchg to one, with the assertion that the old value is zero. */
  function Claimed(c: Cache, n: nat): Outcome
    requires n in c.files
  {
    if c.files[n].count != 0 then Aborted else Done(SetCount(c, n, 1), [Gave(n)])
  }

  datatype Batch = Batch(cache: Cache, numbers: seq<nat>) | BatchFailed(cache: Cache) | BatchEndless

  /** hsi_nfs_fhget for each entry of a listing. */
  ghost function FhGetAll(c: Cache, entries: seq<(Handle, Fattr)>): (b: Batch)
    requires Wf(c)
    ensures b.Batch? ==> Wf(b.cache) && Preserves(c, b.cache) && CountsFrom(c, b.cache)
    ensures b.Batch? ==> |b.numbers| == |entries| && forall i :: 0 <= i < |b.numbers| ==> b.numbers[i] in b.cache.files
    ensures b.BatchFailed? ==> Wf(b.cache) && Preserves(c, b.cache) && CountsFrom(c, b.cache)
    decreases |entries|
  {
    if entries == [] then Batch(c, [])
    else
      match FhGet(c, entries[0].0, entries[0].1)
      case NoInode => BatchFailed(c)
      case Endless => BatchEndless
      case Got(d, n) =>
        FhGetKeeps(c, entries[0].0, entries[0].1);
        match FhGetAll(d, entries[1..])
        case Batch(e, ns) => Batch(e, [n] + ns)
        case BatchFailed(e) => BatchFailed(e)
        case BatchEndless => BatchEndless
  }

  /** Every entry of a listing gets the number of its own file. */
  lemma {:induction false} ListingNumbers(c: Cache, entries: seq<(Handle, Fattr)>)
    requires Wf(c) && FhGetAll(c, entries).Batch?
    ensures var b := FhGetAll(c, entries);
            forall i :: 0 <= i < |entries| ==>
              HasKey(b.cache.files[b.numbers[i]], entries[i].1.fileid, entries[i].0)
    decreases |entries|
  {
    if entries != [] {
      var r, b := FhGet(c, entries[0].0, entries[0].1), FhGetAll(c, entries);
      FhGetKeeps(c, entries[0].0, entries[0].1);
      ListingNumbers(r.cache, entries[1..]);
      var rest := FhGetAll(r.cache, entries[1..]);
      forall i | 0 <= i < |entries|
        ensures HasKey(b.cache.files[b.numbers[i]], entries[i].1.fileid, entries[i].0)
      {
        if i > 0 {
          assert b.numbers[i] == rest.numbers[i - 1] && entries[i] == entries[1..][i - 1];
        } else {
          assert SameFile(r.cache.files[r.number], rest.cache.files[r.number]);
        }
      }
    }
  }

  /** hsx_fuse_ref_inc for each number in turn. */
  function IncreasedAll(c: Cache, ns: seq<nat>): Cache
    requires forall i :: 0 <= i < |ns| ==> ns[i] in c.files
    decreases |ns|
  {
    if ns == [] then c else IncreasedAll(Increased(c, ns[0]), ns[1..])
  }

  function GaveAll(ns: seq<nat>): seq<Note> {
    seq(|ns|, i requires 0 <= i < |ns| => Gave(ns[i]))
  }

  /** What a forget does to the cache. */
  ghost function Forgotten(c: Cache, n: nat, k: nat): Outcome {
    if n !in c.files || k > c.files[n].count then Aborted
    else Done(SetCount(c, n, c.files[n].count - k), [Took(n, k)])
  }

  ghost function Step(c: Cache, op: FuseOp): Outcome
    requires Wf(c)
  {
    match op
    case Init => if 1 !in c.files then Aborted else Claimed(c, 1)
    case Lookup(fh, a) =>
      (match FhGet(c, fh, a)
       case NoInode => Failed(c)
       case Endless => Stuck
       case Got(d, n) => FhGetKeeps(c, fh, a); Done(Increased(d, n), [Gave(n)]))
    case Create(fh, a) =>
      (match FhGet(c, fh, a)
       case NoInode => Failed(c)
       case Endless => Stuck
       case Got(d, n) => FhGetKeeps(c, fh, a); Claimed(d, n))
    case ReaddirPlus(entries, delivered) =>
      (match FhGetAll(c, entries)
       case BatchFailed(d) => Failed(d)
       case BatchEndless => Stuck
       case Batch(d, ns) =>
         var out := ns[..if delivered < |ns| then delivered else |ns|];
         Done(IncreasedAll(d, out), GaveAll(out)))
    case Forget(n, k) => Forgotten(c, n, k)
  }

  // ---- conservation ----

  /** Entries handed out for a number minus the counts taken back. */
  function Outstanding(log: seq<Note>, n: nat): int {
    if log == [] then 0
    else Outstanding(log[..|log| - 1], n) + Change(log[|log| - 1], n)
  }

  function Change(note: Note, n: nat): int {
    if note.number != n then 0 else if note.Gave? then 1 else 0 - note.nlookup
  }

  /**
   Every count is what is outstanding, in 64 bits; never is more taken back than was handed out, and
   nothing is outstanding for unknown numbers.
   */
  ghost predicate Balanced(c: Cache, log: seq<Note>) {
    && (forall n :: n in c.files ==> 0 <= Outstanding(log, n) && c.files[n].count == Outstanding(log, n) % TWO64)
    && (forall n: nat :: n !in c.files ==> Outstanding(log, n) == 0)
  }

  lemma {:induction false} OneMoreNote(log: seq<Note>, note: Note)
    ensures forall n: nat :: Outstanding(log + [note], n) == Outstanding(log, n) + Change(note, n)
  {
    var l := log + [note];
    assert l[..|l| - 1] == log;
  }

  /** Giving one more in 64 bits, and taking back no more than is there. */
  lemma {:induction false} WordCounts(o: int, k: nat)
    ensures (o % TWO64 + 1) % TWO64 == (o + 1) % TWO64
    ensures k <= o % TWO64 ==> o % TWO64 - k == (o - k) % TWO64
    ensures 0 <= o && k <= o % TWO64 ==> k <= o
  {
    ModSum(o, 1, TWO64);
    if k <= o % TWO64 {
      IntRemainder(o - k, TWO64, o / TWO64, o % TWO64 - k);
    }
  }

  /** From one cache to another, the balance and every file's identity survive. */
  ghost predicate Carries(c: Cache, d: Cache, log: seq<Note>) {
    Wf(d) && Preserves(c, d) && Balanced(d, log)
  }

  lemma {:induction false} CountIsOutstanding(c: Cache, log: seq<Note>, n: nat)
    requires Balanced(c, log) && n in c.files
    ensures var o := Outstanding(log, n);
            && 0 <= o && c.files[n].count == o % TWO64
            && (o < TWO64 ==> c.files[n].count == o)
  {
  }

  lemma {:induction false} NewFilesBalanced(c: Cache, d: Cache, log: seq<Note>)
    requires Balanced(c, log) && Preserves(c, d) && CountsFrom(c, d)
    ensures Balanced(d, log)
  {
  }

  lemma {:induction false} CountBalanced(c: Cache, log: seq<Note>, n: nat, count: nat, note: Note, o: int)
    requires Wf(c) && Balanced(c, log) && n in c.files && note.number == n
    requires 0 <= o == Outstanding(log, n) + Change(note, n) && count == o % TWO64
    ensures Carries(c, SetCount(c, n, count), log + [note])
  {
    OneMoreNote(log, note);
    UpdateKeeps(c, n, c.files[n].(count := count));
  }

  lemma {:induction false} IncreasedCount(c: Cache, log: seq<Note>, n: nat)
    requires Balanced(c, log) && n in c.files
    ensures 0 <= Outstanding(log, n) && Increased(c, n) == SetCount(c, n, (Outstanding(log, n) + 1) % TWO64)
  {
    WordCounts(Outstanding(log, n), 0);
  }

  lemma {:induction false} IncreasedBalanced(c: Cache, log: seq<Note>, n: nat)
    requires Wf(c) && Balanced(c, log) && n in c.files
    ensures Carries(c, Increased(c, n), log + [Gave(n)])
  {
    var left := (Outstanding(log, n) + 1) % TWO64;
    assert Increased(c, n) == SetCount(c, n, left) by {
      IncreasedCount(c, log, n);
    }
    assert Carries(c, SetCount(c, n, left), log + [Gave(n)]) by {
      assert Change(Gave(n), n) == 1;
      CountBalanced(c, log, n, left, Gave(n), Outstanding(log, n) + 1);
    }
  }

  lemma {:induction false} ClaimedBalanced(c: Cache, log: seq<Note>, n: nat)
    requires Wf(c) && Balanced(c, log) && n in c.files && c.files[n].count == 0
    ensures Carries(c, SetCount(c, n, 1), log + [Gave(n)])
  {
    WordCounts(Outstanding(log, n), 0);
    CountBalanced(c, log, n, 1, Gave(n), Outstanding(log, n) + 1);
  }

  lemma {:induction false} PreservesTransitive(c: Cache, d: Cache, e: Cache)
    requires Preserves(c, d) && Preserves(d, e)
    ensures Preserves(c, e)
  {
  }

  lemma {:induction false} GaveFirst(log: seq<Note>, ns: seq<nat>)
    requires ns != []
    ensures log + [Gave(ns[0])] + GaveAll(ns[1..]) == log + GaveAll(ns)
  {
    assert [Gave(ns[0])] + GaveAll(ns[1..]) == GaveAll(ns);
  }

  lemma {:induction false} IncreasedAllBalanced(c: Cache, log: seq<Note>, ns: seq<nat>)
    requires Wf(c) && Balanced(c, log) && forall i :: 0 <= i < |ns| ==> ns[i] in c.files
    ensures Carries(c, IncreasedAll(c, ns), log + GaveAll(ns))
    decreases |ns|
  {
    if ns == [] {
      assert log + GaveAll(ns) == log;
    } else {
      var d := Increased(c, ns[0]);
      IncreasedBalanced(c, log, ns[0]);
      IncreasedAllBalanced(d, log + [Gave(ns[0])], ns[1..]);
      GaveFirst(log, ns);
      PreservesTransitive(c, d, IncreasedAll(c, ns));
    }
  }

  /** The balance and every file's identity survive an outcome. */
  ghost predicate Sound(c: Cache, log: seq<Note>, o: Outcome) {
    match o
    case Done(d, notes) => Carries(c, d, log + notes)
    case Failed(d) => Carries(c, d, log)
    case Aborted => true
    case Stuck => true
  }

  lemma {:induction false} LookupSound(c: Cache, log: seq<Note>, fh: Handle, a: Fattr)
    requires Wf(c) && Balanced(c, log)
    ensures Sound(c, log, Step(c, Lookup(fh, a)))
  {
    var r := FhGet(c, fh, a);
    if r.Got? {
      FhGetKeeps(c, fh, a);
      NewFilesBalanced(c, r.cache, log);
      IncreasedBalanced(r.cache, log, r.number);
      PreservesTransitive(c, r.cache, Increased(r.cache, r.number));
    }
  }

  lemma {:induction false} CreateSound(c: Cache, log: seq<Note>, fh: Handle, a: Fattr)
    requires Wf(c) && Balanced(c, log)
    ensures Sound(c, log, Step(c, Create(fh, a)))
  {
    var r := FhGet(c, fh, a);
    if r.Got? {
      FhGetKeeps(c, fh, a);
      NewFilesBalanced(c, r.cache, log);
      if r.cache.files[r.number].count == 0 {
        ClaimedBalanced(r.cache, log, r.number);
        PreservesTransitive(c, r.cache, SetCount(r.cache, r.number, 1));
      }
    }
  }

  lemma {:induction false} DeliverSound(c: Cache, d: Cache, log: seq<Note>, out: seq<nat>)
    requires Wf(d) && Balanced(d, log) && Preserves(c, d) && forall i :: 0 <= i < |out| ==> out[i] in d.files
    ensures Sound(c, log, Done(IncreasedAll(d, out), GaveAll(out)))
  {
    IncreasedAllBalanced(d, log, out);
    PreservesTransitive(c, d, IncreasedAll(d, out));
  }

  lemma {:induction false} ReaddirPlusSound(c: Cache, log: seq<Note>, entries: seq<(Handle, Fattr)>, delivered: nat)
    requires Wf(c) && Balanced(c, log)
    ensures Sound(c, log, Step(c, ReaddirPlus(entries, delivered)))
  {
    var b := FhGetAll(c, entries);
    if !b.BatchEndless? {
      NewFilesBalanced(c, b.cache, log);
    }
    if b.Batch? {
      DeliverSound(c, b.cache, log, b.numbers[..if delivered < |b.numbers| then delivered else |b.numbers|]);
    }
  }

  lemma {:induction false} InitSound(c: Cache, log: seq<Note>)
    requires Wf(c) && Balanced(c, log)
    ensures Sound(c, log, Step(c, Init))
  {
    if 1 in c.files && c.files[1].count == 0 {
      ClaimedBalanced(c, log, 1);
    }
  }

  lemma {:induction false} ForgetCount(c: Cache, log: seq<Note>, n: nat, k: nat)
    requires Balanced(c, log) && n in c.files && k <= c.files[n].count
    ensures 0 <= Outstanding(log, n) - k && c.files[n].count - k == (Outstanding(log, n) - k) % TWO64
  {
    WordCounts(Outstanding(log, n), k);
  }

  lemma {:induction false} ForgetBalanced(c: Cache, log: seq<Note>, n: nat, k: nat, left: nat)
    requires Wf(c) && Balanced(c, log) && n in c.files
    requires 0 <= Outstanding(log, n) - k && left == (Outstanding(log, n) - k) % TWO64
    ensures Sound(c, log, Done(SetCount(c, n, left), [Took(n, k)]))
  {
    assert Change(Took(n, k), n) == 0 - k as int;
    CountBalanced(c, log, n, left, Took(n, k), Outstanding(log, n) - k);
  }

  lemma {:induction false} ForgetSound(c: Cache, log: seq<Note>, n: nat, k: nat)
    requires Wf(c) && Balanced(c, log)
    ensures Sound(c, log, Forgotten(c, n, k))
  {
    var o := Forgotten(c, n, k);
    if o.Done? {
      var left := c.files[n].count - k;
      assert o == Done(SetCount(c, n, left), [Took(n, k)]);
      assert Sound(c, log, o) by {
        ForgetCount(c, log, n, k);
        ForgetBalanced(c, log, n, k, left);
      }
    }
  }

  /** Every handler that does not abort keeps the balance and every file's identity. */
  lemma {:induction false} StepSound(c: Cache, log: seq<Note>, op: FuseOp)
    requires Wf(c) && Balanced(c, log)
    ensures Sound(c, log, Step(c, op))
  {
    match op
    case Init => InitSound(c, log);
    case Lookup(fh, a) => LookupSound(c, log, fh, a);
    case Create(fh, a) => CreateSound(c, log, fh, a);
    case ReaddirPlus(entries, delivered) => ReaddirPlusSound(c, log, entries, delivered);
    case Forget(n, k) => ForgetSound(c, log, n, k);
  }

  // ---- runs ----

  datatype Trace = Trace(cache: Cache, log: seq<Note>) | Ended

  ghost function Run(c: Cache, log: seq<Note>, ops: seq<FuseOp>): Trace
    requires Wf(c) && Balanced(c, log)
    decreases |ops|
  {
    if ops == [] then Trace(c, log)
    else
      StepSound(c, log, ops[0]);
      match Step(c, ops[0])
      case Done(d, notes) => Run(d, log + notes, ops[1..])
      case Failed(d) => Run(d, log, ops[1..])
      case Aborted => Ended
      case Stuck => Ended
  }

  /** No handler of the run searches for a number in vain. */
  ghost predicate NeverStuck(c: Cache, log: seq<Note>, ops: seq<FuseOp>)
    requires Wf(c) && Balanced(c, log)
    decreases |ops|
  {
    if ops == [] then true
    else
      StepSound(c, log, ops[0]);
      match Step(c, ops[0])
      case Done(d, notes) => NeverStuck(d, log + notes, ops[1..])
      case Failed(d) => NeverStuck(d, log, ops[1..])
      case Aborted => true
      case Stuck => false
  }

  /**
   Over every run of handlers each file's lookup count is what has been handed out and not
   taken back, and a number keeps the identity and type of its file.
   */
  lemma {:induction false} CountsBalance(c: Cache, log: seq<Note>, ops: seq<FuseOp>)
    requires Wf(c) && Balanced(c, log)
    ensures var t := Run(c, log, ops);
            t.Trace? ==> Wf(t.cache) && Balanced(t.cache, t.log) && Preserves(c, t.cache)
    decreases |ops|
  {
    if ops != [] {
      StepSound(c, log, ops[0]);
      var o := Step(c, ops[0]);
      if o.Done? {
        CountsBalance(o.cache, log + o.notes, ops[1..]);
      } else if o.Failed? {
        CountsBalance(o.cache, log, ops[1..]);
      }
      var t := Run(c, log, ops);
      if t.Trace? {
        PreservesTransitive(c, o.cache, t.cache);
      }
    }
  }

  /**
   A forget goes through exactly when its inode is known and no more is taken than is outstanding, in
   64 bits; otherwise an assertion fails.
   */
  lemma {:induction false} ForgetWithinBounds(c: Cache, log: seq<Note>, n: nat, k: nat)
    requires Wf(c) && Balanced(c, log)
    ensures Step(c, Forget(n, k)).Done? <==> n in c.files && k <= Outstanding(log, n) % TWO64
    ensures k >= 1 && Outstanding(log, n) < TWO64 ==> (Step(c, Forget(n, k)).Done? <==> k <= Outstanding(log, n))
    ensures !Step(c, Forget(n, k)).Done? ==> Step(c, Forget(n, k)).Aborted?
  {
  }

  /** A create goes through exactly when nothing is outstanding, in 64 bits, for the file it returns. */
  lemma {:induction false} CreateIsFresh(c: Cache, log: seq<Note>, fh: Handle, a: Fattr)
    requires Wf(c) && Balanced(c, log) && FhGet(c, fh, a).Got?
    ensures var o := Outstanding(log, FhGet(c, fh, a).number);
            && (Step(c, Create(fh, a)).Done? <==> o % TWO64 == 0)
            && (o < TWO64 ==> (Step(c, Create(fh, a)).Done? <==> o == 0))
  {
    var r := FhGet(c, fh, a);
    FhGetKeeps(c, fh, a);
    NewFilesBalanced(c, r.cache, log);
    CountIsOutstanding(r.cache, log, r.number);
  }
}
