/**
 The direct-mapped page cache of an open file: partial updates, a time to live, and slots
 shared by colliding pages.  The main result is that over every run a hit is never stale.
 */
module PageCache {
  import opened Bits
  import opened Bytes
  import opened Options

  /** `blkBits` is the logarithm of the page size; a `ttl` of zero means no expiry. */
  datatype Config = Config(blkBits: nat, num: nat, ttl: nat) {
    predicate Valid() {
      num > 0 && Pow2(blkBits) <= TWO64
    }

    function Blk(): (b: nat)
      ensures b >= 1
    {
      Pow2(blkBits)
    }
  }

  datatype Entry = Entry(buf: seq<Byte>, offset: nat, ts: nat)

  const HASH_PRIME: nat := 2654435761

  /** The slot of a page: a 32-bit truncation, a 64-bit product, and a mask. */
  function Slot(c: Config, offset: nat): (i: nat)
    requires c.Valid()
    ensures i < c.num
  {
    And((HASH_PRIME * (1 + (offset % TWO32) / c.Blk())) % TWO64, c.num - 1)
  }

  /** offset & ~(NFS_BLKSIZE - 1) */
  function PageOf(c: Config, offset: nat): nat
    requires c.Valid() && offset < TWO64
  {
    And(offset, TWO64 - c.Blk())
  }

  lemma {:induction false} PageRoundsDown(c: Config, offset: nat)
    requires c.Valid() && offset < TWO64
    ensures PageOf(c, offset) == offset - offset % c.Blk()
  {
    var w := 64;
    Pow2Word(w);
    if c.blkBits > w {
      Pow2Grows(w, c.blkBits);
    }
    MaskRoundsDown(offset, c.blkBits, w);
  }

  predicate Unexpired(c: Config, e: Entry, now: nat) {
    c.ttl == 0 || now - e.ts <= c.ttl
  }

  ghost predicate Shaped(c: Config, es: seq<Entry>)
  {
    c.Valid() && |es| == c.num && forall i :: 0 <= i < |es| ==> |es[i].buf| == c.Blk()
  }

  /** One turn of the loop: `chunk` lies within one page. */
  function PutPage(c: Config, es: seq<Entry>, ts: nat, offset: nat, chunk: seq<Byte>): (r: seq<Entry>)
    requires Shaped(c, es) && offset < TWO64
    requires offset % c.Blk() + |chunk| <= c.Blk()
    ensures Shaped(c, r)
  {
    var page := PageOf(c, offset);
    var i := Slot(c, page);
    var e := es[i];
    if |chunk| == c.Blk() || (e.ts != 0 && e.offset == page && Unexpired(c, e, ts)) then
      es[i := Entry(Overwrite(e.buf, offset % c.Blk(), chunk), page, ts)]
    else
      es
  }

  function ChunkLength(c: Config, offset: nat, len: nat): (n: nat)
    requires c.Valid()
    ensures n <= len && offset % c.Blk() + n <= c.Blk() && (len > 0 ==> n > 0)
  {
    var room := c.Blk() - offset % c.Blk();
    if room < len then room else len
  }

  function PutAll(c: Config, es: seq<Entry>, ts: nat, offset: nat, data: seq<Byte>): (r: seq<Entry>)
    requires Shaped(c, es) && offset + |data| <= TWO64
    ensures Shaped(c, r)
    decreases |data|
  {
    if data == [] then es
    else
      var n := ChunkLength(c, offset, |data|);
      PutAll(c, PutPage(c, es, ts, offset, data[..n]), ts, offset + n, data[n..])
  }

  lemma {:induction false} PutAllStep(c: Config, es: seq<Entry>, ts: nat, offset: nat, data: seq<Byte>)
    requires Shaped(c, es) && offset + |data| <= TWO64 && data != []
    ensures var n := ChunkLength(c, offset, |data|);
            PutAll(c, es, ts, offset, data) ==
            PutAll(c, PutPage(c, es, ts, offset, data[..n]), ts, offset + n, data[n..])
  {
  }

  /** The buffer returned for a page, if any. */
  function Lookup(c: Config, es: seq<Entry>, now: nat, offset: nat): Option<seq<Byte>>
    requires Shaped(c, es)
  {
    var e := es[Slot(c, offset)];
    if offset == e.offset && e.ts != 0 && Unexpired(c, e, now) then Some(e.buf) else None
  }

  function Cleared(c: Config): (es: seq<Entry>)
    requires c.Valid()
    ensures Shaped(c, es)
  {
    seq(c.num, _ => Entry(seq(c.Blk(), _ => 0), 0, 0))
  }

  // ---- runs ----

  datatype Event =
    | Put(ms: nat, offset: nat, data: seq<Byte>)
    | Invalidate(ms: nat)

  predicate InRange(e: Event) {
    match e
    case Put(_, offset, data) => offset + |data| <= TWO64
    case Invalidate(_) => true
  }

  /** Events the clock can produce: their times never decrease. */
  predicate Timely(evs: seq<Event>) {
    (forall i :: 0 <= i < |evs| ==> InRange(evs[i])) &&
    forall i, j :: 0 <= i <= j < |evs| ==> evs[i].ms <= evs[j].ms
  }

  function Seconds(ms: nat): nat {
    ms / 1000
  }

  function Stamp(c: Config, ms: nat): nat {
    if c.ttl != 0 then Seconds(ms) else 1
  }

  function Run(c: Config, evs: seq<Event>): (es: seq<Entry>)
    requires c.Valid() && forall i :: 0 <= i < |evs| ==> InRange(evs[i])
    ensures Shaped(c, es)
  {
    if evs == [] then Cleared(c)
    else
      var es, e := Run(c, evs[..|evs| - 1]), evs[|evs| - 1];
      assert InRange(e);
      match e
      case Put(ms, offset, data) => PutAll(c, es, Stamp(c, ms), offset, data)
      case Invalidate(_) => Cleared(c)
  }

  /** The most recently put value of byte `b` since the last invalidation. */
  function LastByte(evs: seq<Event>, b: nat): Option<Byte> {
    if evs == [] then None
    else
      match evs[|evs| - 1]
      case Invalidate(_) => None
      case Put(_, offset, data) =>
        if offset <= b < offset + |data| then Some(data[b - offset]) else LastByte(evs[..|evs| - 1], b)
  }

  // ---- a hit is never stale ----

  type Truth = nat -> Option<Byte>

  /** The truth after `data` is put at `offset`. */
  function Over(g: Truth, offset: nat, data: seq<Byte>): Truth {
    (b: nat) => if offset <= b < offset + |data| then Some(data[b - offset]) else g(b)
  }

  ghost predicate Agrees(g: Truth, e: Entry) {
    forall b: nat :: e.offset <= b < e.offset + |e.buf| ==> g(b) == Some(e.buf[b - e.offset])
  }

  /** A live entry sits in its slot and is either exact or, at time `now`, expired. */
  ghost predicate Good(c: Config, e: Entry, i: nat, g: Truth, now: nat)
    requires c.Valid()
  {
    e.ts != 0 ==>
      && i == Slot(c, e.offset) && e.offset % c.Blk() == 0
      && (Agrees(g, e) || !Unexpired(c, e, now))
  }

  ghost predicate Fresh(c: Config, es: seq<Entry>, g: Truth, now: nat) {
    Shaped(c, es) && forall i :: 0 <= i < |es| ==> Good(c, es[i], i, g, now)
  }

  lemma {:induction false} AlignedPage(blk: nat, page: nat, b: nat)
    requires blk >= 1 && page % blk == 0 && page <= b < page + blk
    ensures b - b % blk == page
  {
    var p := page / blk;
    RemainderIs(b, blk, p, b - page);
  }

  lemma {:induction false} RoundedIsAligned(blk: nat, b: nat)
    requires blk >= 1
    ensures (b - b % blk) % blk == 0
  {
    var q := b / blk;
    assert b - b % blk == blk * q + 0;
    RemainderIs(b - b % blk, blk, q, 0);
  }

  lemma {:induction false} NotInChunk(blk: nat, other: nat, offset: nat, n: nat, b: nat)
    requires blk >= 1 && other % blk == 0 && other <= b < other + blk
    requires offset % blk + n <= blk && other != offset - offset % blk
    ensures !(offset <= b < offset + n)
  {
    AlignedPage(blk, other, b);
    if offset <= b < offset + n {
      RoundedIsAligned(blk, offset);
      AlignedPage(blk, offset - offset % blk, b);
    }
  }

  /** A chunk within the page of `offset` leaves the truth of other pages alone. */
  lemma {:induction false} OtherPageAgrees(blk: nat, g: Truth, e: Entry, offset: nat, chunk: seq<Byte>)
    requires blk >= 1 && Agrees(g, e) && |e.buf| == blk && e.offset % blk == 0
    requires offset % blk + |chunk| <= blk && e.offset != offset - offset % blk
    ensures Agrees(Over(g, offset, chunk), e)
  {
    forall b: nat | e.offset <= b < e.offset + |e.buf|
      ensures Over(g, offset, chunk)(b) == Some(e.buf[b - e.offset])
    {
      NotInChunk(blk, e.offset, offset, |chunk|, b);
    }
  }

  lemma {:induction false} UpdatedAgrees(g: Truth, e: Entry, page: nat, at: nat, chunk: seq<Byte>, ts: nat)
    requires at + |chunk| <= |e.buf|
    requires |chunk| == |e.buf| || (e.offset == page && Agrees(g, e))
    ensures Agrees(Over(g, page + at, chunk), Entry(Overwrite(e.buf, at, chunk), page, ts))
  {
  }

  lemma {:induction false} PutPageFresh(c: Config, es: seq<Entry>, g: Truth, now: nat, offset: nat, chunk: seq<Byte>)
    requires Fresh(c, es, g, now) && offset < TWO64 && offset % c.Blk() + |chunk| <= c.Blk()
    ensures Fresh(c, PutPage(c, es, if c.ttl != 0 then now else 1, offset, chunk), Over(g, offset, chunk), now)
  {
    var ts := if c.ttl != 0 then now else 1;
    var r, g' := PutPage(c, es, ts, offset, chunk), Over(g, offset, chunk);
    var page, at := PageOf(c, offset), offset % c.Blk();
    PageRoundsDown(c, offset);
    RoundedIsAligned(c.Blk(), offset);
    var k := Slot(c, page);
    var e := es[k];
    forall i | 0 <= i < |r|
      ensures Good(c, r[i], i, g', now)
    {
      assert Good(c, es[i], i, g, now);
      if i == k && (|chunk| == c.Blk() || (e.ts != 0 && e.offset == page && Unexpired(c, e, ts))) {
        UpdatedAgrees(g, e, page, at, chunk, ts);
      } else if es[i].ts != 0 && es[i].offset != page && Agrees(g, es[i]) {
        OtherPageAgrees(c.Blk(), g, es[i], offset, chunk);
      }
    }
  }

  lemma {:induction false} FreshCongruent(c: Config, es: seq<Entry>, g: Truth, g': Truth, now: nat, later: nat)
    requires Fresh(c, es, g, now) && now <= later && forall b: nat :: g(b) == g'(b)
    ensures Fresh(c, es, g', later)
  {
    forall i | 0 <= i < |es|
      ensures Good(c, es[i], i, g', later)
    {
      assert Good(c, es[i], i, g, now);
    }
  }

  lemma {:induction false} PutAllFresh(c: Config, es: seq<Entry>, g: Truth, now: nat, offset: nat, data: seq<Byte>)
    requires Fresh(c, es, g, now) && offset + |data| <= TWO64
    ensures Fresh(c, PutAll(c, es, if c.ttl != 0 then now else 1, offset, data), Over(g, offset, data), now)
    decreases |data|
  {
    var ts := if c.ttl != 0 then now else 1;
    if data == [] {
      FreshCongruent(c, es, g, Over(g, offset, data), now, now);
    } else {
      var n := ChunkLength(c, offset, |data|);
      var g1 := Over(g, offset, data[..n]);
      PutPageFresh(c, es, g, now, offset, data[..n]);
      var es1 := PutPage(c, es, ts, offset, data[..n]);
      PutAllFresh(c, es1, g1, now, offset + n, data[n..]);
      FreshCongruent(c, PutAll(c, es1, ts, offset + n, data[n..]), Over(g1, offset + n, data[n..]),
                     Over(g, offset, data), now, now);
    }
  }

  function TruthAfter(evs: seq<Event>): Truth {
    (b: nat) => LastByte(evs, b)
  }

  lemma {:induction false} RunFresh(c: Config, evs: seq<Event>, now: nat)
    requires c.Valid() && Timely(evs) && (evs != [] ==> evs[|evs| - 1].ms <= now)
    ensures Fresh(c, Run(c, evs), TruthAfter(evs), Seconds(now))
  {
    if evs != [] {
      var front, e := evs[..|evs| - 1], evs[|evs| - 1];
      RunFresh(c, front, e.ms);
      if e.Put? {
        var t := Seconds(e.ms);
        PutAllFresh(c, Run(c, front), TruthAfter(front), t, e.offset, e.data);
        FreshCongruent(c, Run(c, evs), Over(TruthAfter(front), e.offset, e.data), TruthAfter(evs), t, Seconds(now));
      }
    }
  }

  /**
   After every run of puts and invalidations with a non-decreasing clock, a lookup that hits
   returns the most recently put value of every byte of the page.
   */
  lemma {:induction false} HitIsNeverStale(c: Config, evs: seq<Event>, now: nat, offset: nat)
    requires c.Valid() && Timely(evs) && (evs != [] ==> evs[|evs| - 1].ms <= now)
    requires Lookup(c, Run(c, evs), Seconds(now), offset).Some?
    ensures var buf := Lookup(c, Run(c, evs), Seconds(now), offset).value;
            && |buf| == c.Blk()
            && forall b: nat :: offset <= b < offset + c.Blk() ==> LastByte(evs, b) == Some(buf[b - offset])
  {
    RunFresh(c, evs, now);
    var e := Run(c, evs)[Slot(c, offset)];
    assert Good(c, e, Slot(c, offset), TruthAfter(evs), Seconds(now));
    assert forall b: nat :: LastByte(evs, b) == TruthAfter(evs)(b);
  }

  /** A whole page just put is found until it expires, whatever the slot held before. */
  lemma {:induction false} WholePageHits(c: Config, es: seq<Entry>, ms: nat, offset: nat, data: seq<Byte>, now: nat)
    requires Shaped(c, es) && offset % c.Blk() == 0 && |data| == c.Blk() && offset + |data| <= TWO64
    ensures var ts := Stamp(c, ms);
            Lookup(c, PutAll(c, es, ts, offset, data), now, offset) ==
            if ts != 0 && (c.ttl == 0 || now - ts <= c.ttl) then Some(data) else None
  {
    PageRoundsDown(c, offset);
    assert data[..|data|] == data && data[|data|..] == [];
    var r := PutPage(c, es, Stamp(c, ms), offset, data);
    assert PutAll(c, r, Stamp(c, ms), offset + |data|, []) == r;
    assert r[Slot(c, offset)].buf == data;
  }

  // ---- when a page is found ----

  function Down(blk: nat, n: nat): nat
    requires blk >= 1
  {
    n - n % blk
  }

  /**
   When a page was last put, or 0 if it is not there, after one part of a put.  A whole page is there from
   then on, and takes the place of the page that shares its slot; a part of it counts while it has not expired.
   */
  function NextStamp(ttl: nat, stamp: nat, ts: nat, same: bool, shares: bool, whole: bool): nat {
    if same then (if whole || (stamp != 0 && (ttl == 0 || ts - stamp <= ttl)) then ts else stamp)
    else if whole && shares then 0
    else stamp
  }

  function StampAfter(c: Config, stamp: nat, page: nat, ts: nat, put: nat, whole: bool): nat
    requires c.Valid()
  {
    NextStamp(c.ttl, stamp, ts, put == page, Slot(c, put) == Slot(c, page), whole)
  }

  /** The same after a put of `len` bytes, which goes page by page. */
  function StampAfterPut(c: Config, stamp: nat, page: nat, ts: nat, offset: nat, len: nat): nat
    requires c.Valid()
    decreases len
  {
    if len == 0 then stamp
    else
      var n := ChunkLength(c, offset, len);
      var after := StampAfter(c, stamp, page, ts, Down(c.Blk(), offset), n == c.Blk());
      StampAfterPut(c, after, page, ts, offset + n, len - n)
  }

  /** The same after a run. */
  function StampOf(c: Config, evs: seq<Event>, page: nat): nat
    requires c.Valid()
  {
    if evs == [] then 0
    else
      match evs[|evs| - 1]
      case Invalidate(_) => 0
      case Put(ms, offset, data) =>
        StampAfterPut(c, StampOf(c, evs[..|evs| - 1], page), page, Stamp(c, ms), offset, |data|)
  }

  /** The stamp that the slots have for a page. */
  function StampIn(c: Config, es: seq<Entry>, page: nat): nat
    requires Shaped(c, es)
  {
    var e := es[Slot(c, page)];
    if e.offset == page then e.ts else 0
  }

  lemma {:induction false} PutPageStamps(c: Config, es: seq<Entry>, ts: nat, offset: nat, chunk: seq<Byte>, page: nat)
    requires Shaped(c, es) && offset < TWO64 && offset % c.Blk() + |chunk| <= c.Blk()
    ensures StampIn(c, PutPage(c, es, ts, offset, chunk), page) ==
            StampAfter(c, StampIn(c, es, page), page, ts, Down(c.Blk(), offset), |chunk| == c.Blk())
  {
    PageRoundsDown(c, offset);
    var put := PageOf(c, offset);
    SlotsStamp(c.ttl, es, PutPage(c, es, ts, offset, chunk), Slot(c, put), Slot(c, page), put, page, ts,
               |chunk| == c.Blk());
  }

  lemma {:induction false} SlotsStamp(ttl: nat, es: seq<Entry>, r: seq<Entry>, i: nat, j: nat,
                                      put: nat, page: nat, ts: nat, whole: bool)
    requires i < |es| && j < |es| && (put == page ==> i == j)
    requires var e := es[i];
             if whole || (e.ts != 0 && e.offset == put && (ttl == 0 || ts - e.ts <= ttl)) then
               |r| == |es| && r == es[i := r[i]] && r[i].offset == put && r[i].ts == ts
             else r == es
    ensures var stamp := if es[j].offset == page then es[j].ts else 0;
            (if r[j].offset == page then r[j].ts else 0) == NextStamp(ttl, stamp, ts, put == page, i == j, whole)
  {
  }

  lemma {:induction false} PutAllStamps(c: Config, es: seq<Entry>, ts: nat, offset: nat, data: seq<Byte>, page: nat)
    requires Shaped(c, es) && offset + |data| <= TWO64
    ensures StampIn(c, PutAll(c, es, ts, offset, data), page) ==
            StampAfterPut(c, StampIn(c, es, page), page, ts, offset, |data|)
    decreases |data|
  {
    if data != [] {
      var n := ChunkLength(c, offset, |data|);
      PutAllStep(c, es, ts, offset, data);
      PutPageStamps(c, es, ts, offset, data[..n], page);
      PutAllStamps(c, PutPage(c, es, ts, offset, data[..n]), ts, offset + n, data[n..], page);
    }
  }

  lemma {:induction false} RunStamps(c: Config, evs: seq<Event>, page: nat)
    requires c.Valid() && forall i :: 0 <= i < |evs| ==> InRange(evs[i])
    ensures StampIn(c, Run(c, evs), page) == StampOf(c, evs, page)
  {
    if evs != [] {
      var front, e := evs[..|evs| - 1], evs[|evs| - 1];
      assert InRange(e);
      RunStamps(c, front, page);
      if e.Put? {
        PutAllStamps(c, Run(c, front), Stamp(c, e.ms), e.offset, e.data, page);
      }
    }
  }

  /** After every run a page is found exactly when it is there by its events and has not expired. */
  lemma {:induction false} HitsExactly(c: Config, evs: seq<Event>, now: nat, page: nat)
    requires c.Valid() && forall i :: 0 <= i < |evs| ==> InRange(evs[i])
    ensures Lookup(c, Run(c, evs), Seconds(now), page).Some? <==>
            var ts := StampOf(c, evs, page); ts != 0 && (c.ttl == 0 || Seconds(now) - ts <= c.ttl)
  {
    RunStamps(c, evs, page);
  }

  /** A part of a page put while the page is there keeps it there, and puts off its end. */
  lemma {:induction false} PartialPutKeeps(c: Config, evs: seq<Event>, e: Event, page: nat)
    requires c.Valid() && (forall i :: 0 <= i < |evs| ==> InRange(evs[i])) && InRange(e)
    requires e.Put? && e.data != [] && page % c.Blk() == 0 && page <= e.offset && e.offset + |e.data| <= page + c.Blk()
    requires var ts := StampOf(c, evs, page); ts != 0 && (c.ttl == 0 || Stamp(c, e.ms) - ts <= c.ttl)
    ensures StampOf(c, evs + [e], page) == Stamp(c, e.ms)
  {
    var all := evs + [e];
    assert all[..|all| - 1] == evs;
    AlignedPage(c.Blk(), page, e.offset);
    OneChunk(c, StampOf(c, evs, page), page, Stamp(c, e.ms), e.offset, |e.data|);
  }

  lemma {:induction false} OneChunk(c: Config, stamp: nat, page: nat, ts: nat, offset: nat, len: nat)
    requires c.Valid() && len > 0 && offset % c.Blk() + len <= c.Blk()
    ensures StampAfterPut(c, stamp, page, ts, offset, len) ==
            StampAfter(c, stamp, page, ts, Down(c.Blk(), offset), len == c.Blk())
  {
    var after := StampAfter(c, stamp, page, ts, Down(c.Blk(), offset), len == c.Blk());
    assert ChunkLength(c, offset, len) == len;
    assert StampAfterPut(c, after, page, ts, offset + len, 0) == after;
  }

  // ---- the cache itself ----

  class PageCache {
    const c: Config
    var entries: array<Entry>

    ghost predicate Valid()
      reads this, entries
    {
      Pow2(c.blkBits) <= TWO64 && entries.Length == c.num && (c.num > 0 ==> Shaped(c, entries[..]))
    }

    constructor (blkBits: nat, num: nat, ttl: nat)
      requires Pow2(blkBits) <= TWO64
      ensures Valid() && fresh(entries) && c == Config(blkBits, num, ttl)
      ensures num > 0 ==> entries[..] == Cleared(c)
    {
      c := Config(blkBits, num, ttl);
      var blank := Entry(seq(Pow2(blkBits), _ => 0), 0, 0);
      entries := new Entry[num](_ => blank);
    }

    method Invalidate()
      requires Valid()
      modifies entries
      ensures Valid() && (c.num > 0 ==> entries[..] == Cleared(c))
    {
      var blank := Entry(seq(c.Blk(), _ => 0), 0, 0);
      for i := 0 to entries.Length
        invariant forall j :: 0 <= j < i ==> entries[j] == blank
        invariant forall j :: 0 <= j < entries.Length ==> |entries[j].buf| == c.Blk()
      {
        entries[i] := blank;
      }
    }

    /** One turn of the loop of Put: `chunk` lies within one page. */
    method PutChunk(ts: nat, offset: nat, chunk: seq<Byte>)
      requires Valid() && c.num > 0 && offset < TWO64 && offset % c.Blk() + |chunk| <= c.Blk()
      modifies entries
      ensures Valid() && entries[..] == PutPage(c, old(entries[..]), ts, offset, chunk)
    {
      var page := PageOf(c, offset);
      var k := Slot(c, page);
      var e := entries[k];
      if |chunk| == c.Blk() || (e.ts != 0 && e.offset == page && (c.ttl == 0 || ts - e.ts <= c.ttl)) {
        entries[k] := Entry(Overwrite(e.buf, offset % c.Blk(), chunk), page, ts);
      }
    }

    method Put(ms: nat, offset: nat, buf: seq<Byte>)
      requires Valid() && offset + |buf| <= TWO64
      modifies entries
      ensures Valid()
      ensures c.num == 0 ==> entries[..] == old(entries[..])
      ensures c.num > 0 ==> entries[..] == PutAll(c, old(entries[..]), Stamp(c, ms), offset, buf)
    {
      var ts := if c.ttl != 0 then ms / 1000 else 1;
      if c.num == 0 {
        return;
      }
      ghost var goal, now := PutAll(c, entries[..], ts, offset, buf), entries[..];
      var off: nat, data := offset, buf;
      while |data| > 0
        invariant Valid() && now == entries[..] && off + |data| <= TWO64
        invariant PutAll(c, now, ts, off, data) == goal
        decreases |data|
      {
        var n := ChunkLength(c, off, |data|);
        PutAllStep(c, now, ts, off, data);
        PutChunk(ts, off, data[..n]);
        now := entries[..];
        off, data := off + n, data[n..];
      }
    }

    method Get(ms: nat, offset: nat) returns (r: Option<seq<Byte>>)
      requires Valid() && c.num > 0
      ensures r == Lookup(c, entries[..], Seconds(ms), offset)
    {
      var e := entries[Slot(c, offset)];
      if offset != e.offset {
        return None;
      }
      if e.ts == 0 {
        return None;
      }
      if c.ttl != 0 && ms / 1000 - e.ts > c.ttl {
        return None;
      }
      return Some(e.buf);
    }

    /** Events, one after the other, lead from an empty cache where the run model leads. */
    method Replay(evs: seq<Event>)
      requires Valid() && c.num > 0 && entries[..] == Cleared(c)
      requires forall i :: 0 <= i < |evs| ==> InRange(evs[i])
      modifies entries
      ensures Valid() && entries[..] == Run(c, evs)
    {
      for k := 0 to |evs|
        invariant Valid() && entries[..] == Run(c, evs[..k])
      {
        assert evs[..k + 1][..k] == evs[..k] && evs[..k + 1][k] == evs[k];
        match evs[k]
        case Put(ms, offset, data) => Put(ms, offset, data);
        case Invalidate(_) => Invalidate();
      }
      assert evs[..|evs|] == evs;
    }

    /** What is got after any events is the last value put of every byte of the page. */
    method GetAfter(evs: seq<Event>, ms: nat, offset: nat) returns (r: Option<seq<Byte>>)
      requires Valid() && c.num > 0 && entries[..] == Cleared(c)
      requires Timely(evs) && (evs != [] ==> evs[|evs| - 1].ms <= ms)
      modifies entries
      ensures Valid() && (r.Some? ==> |r.value| == c.Blk())
      ensures r.Some? <==> var ts := StampOf(c, evs, offset); ts != 0 && (c.ttl == 0 || Seconds(ms) - ts <= c.ttl)
      ensures r.Some? ==>
                forall b: nat :: offset <= b < offset + c.Blk() ==> LastByte(evs, b) == Some(r.value[b - offset])
    {
      Replay(evs);
      r := Get(ms, offset);
      HitsExactly(c, evs, ms, offset);
      if r.Some? {
        HitIsNeverStale(c, evs, ms, offset);
      }
    }
  }
}
