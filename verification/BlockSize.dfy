/** Transfer sizes: rounding to a power of two, and what the mount makes of the server's limits. */
module BlockSize {
  import opened Bits

  const MAX_FILE_IO_SIZE: nat := 1048576
  const DEF_FILE_IO_SIZE: nat := 4096
  const MIN_FILE_IO_SIZE: nat := 1024
  const MAX_READDIR_PAGES: nat := 8

  /** The greatest power of two that is not above n. */
  function Floor2(n: nat): (p: nat)
    requires n >= 1
    ensures 1 <= p <= n < 2 * p
  {
    if n == 1 then 1 else 2 * Floor2(n / 2)
  }

  ghost predicate IsPower(n: nat) {
    exists k: nat :: n == Pow2(k)
  }

  lemma {:induction false} FloorIsPower(n: nat)
    requires n >= 1
    ensures IsPower(Floor2(n))
  {
    if n == 1 {
      assert 1 == Pow2(0);
    } else {
      FloorIsPower(n / 2);
      var k: nat :| Floor2(n / 2) == Pow2(k);
      assert Floor2(n) == Pow2(k + 1);
    }
  }

  /** Only one power of two is in reach of n. */
  lemma {:induction false} FloorUnique(n: nat, k: nat)
    requires Pow2(k) <= n < 2 * Pow2(k)
    ensures Floor2(n) == Pow2(k)
    decreases k
  {
    if k > 0 {
      FloorUnique(n / 2, k - 1);
    }
  }

  lemma {:induction false} AndSelf(a: nat)
    ensures And(a, a) == a
  {
    if a != 0 {
      AndSelf(a / 2);
    }
  }

  /** n & (n - 1) is zero exactly for powers of two. */
  lemma {:induction false} AndPredecessor(n: nat)
    requires n >= 1
    ensures And(n, n - 1) == 0 <==> Floor2(n) == n
    decreases n
  {
    var h := n / 2;
    if n % 2 == 1 {
      assert (n - 1) / 2 == h;
      AndSelf(h);
    } else {
      assert (n - 1) / 2 == h - 1;
      AndPredecessor(h);
    }
  }

  /** n & (1 << k) tests one bit. */
  lemma {:induction false} AndBit(n: nat, k: nat)
    ensures And(n, Pow2(k)) != 0 <==> n / Pow2(k) % 2 == 1
    decreases k
  {
    if k == 0 {
      assert Pow2(0) == 1;
      assert And(n, 1) == if n % 2 == 1 then 1 else 0;
    } else {
      var p := Pow2(k - 1);
      assert Pow2(k) == 2 * p;
      AndBit(n / 2, k - 1);
      HalfQuotient(n, p);
    }
  }

  lemma {:induction false} HalfQuotient(n: nat, p: nat)
    requires p >= 1
    ensures n / (2 * p) == n / 2 / p
  {
    var q, r := n / 2 / p, n / 2 % p;
    assert n / 2 == q * p + r;
    IntRemainder(n, 2 * p, q, 2 * r + n % 2);
  }

  const TWO31: nat := 0x8000_0000

  lemma {:induction false} Pow2Of31(k: nat)
    requires k == 31
    ensures Pow2(k) == TWO31
  {
    var a, b := 16, 15;
    assert Pow2(a) == 0x1_0000 && Pow2(b) == 0x8000;
    Pow2Sum(a, b);
  }

  /** 1 << k in an int, widened to 64 bits: bit 31 is the sign and fills the upper half. */
  function Shifted(k: nat): nat {
    if k == 31 then TWO64 - TWO31 else Pow2(k)
  }

  lemma {:induction false} TopBits(n: nat, k: nat)
    requires n < TWO64 && k == 31
    ensures And(n, Shifted(k)) != 0 <==> n >= TWO31
  {
    var w := 64;
    Pow2Word(w);
    Pow2Of31(k);
    MaskRoundsDown(n, k, w);
    RoundsToZero(n, TWO31);
  }

  lemma {:induction false} RoundsToZero(n: nat, p: nat)
    requires p >= 1
    ensures n - n % p != 0 <==> n >= p
  {
    if n < p {
      IntRemainder(n, p, 0, n);
    }
  }

  /** The filled word is no power of two that is in reach. */
  lemma {:induction false} FilledIsNoFloor(n: nat)
    requires 1 <= n < TWO64
    ensures Floor2(n) != TWO64 - TWO31
  {
    var w, v := 64, 63;
    Pow2Word(w);
    assert Pow2(w) == 2 * Pow2(v);
    if n >= Pow2(v) {
      FloorUnique(n, v);
    }
  }

  /** hsfs_block_bits: rounds down for every size an int can hold, and only for those when it has to round. */
  method BlockBits(bsize: nat, wantBits: bool) returns (size: nat, nrbits: nat)
    requires bsize < TWO64
    ensures bsize >= 1 ==> (size == Floor2(bsize) <==> bsize < TWO31 || (Floor2(bsize) == bsize && !wantBits))
    ensures bsize >= 1 && wantBits && bsize < TWO31 ==> size == Pow2(nrbits)
    ensures bsize == 0 ==> size == if wantBits then 1 else 0
  {
    size, nrbits := bsize, 0;
    if bsize >= 1 {
      AndPredecessor(bsize);
      FilledIsNoFloor(bsize);
    }
    if And(bsize, if bsize == 0 then TWO64 - 1 else bsize - 1) != 0 || wantBits {
      nrbits := HighestBit(bsize);
      size := Shifted(nrbits);
    }
  }

  /** The countdown loop. */
  method HighestBit(bsize: nat) returns (nrbits: nat)
    requires bsize < TWO64
    ensures nrbits <= 31 && (nrbits == 31 <==> bsize >= TWO31)
    ensures 1 <= bsize < TWO31 ==> Floor2(bsize) == Pow2(nrbits)
    ensures bsize == 0 ==> nrbits == 0
  {
    nrbits := 31;
    TopBits(bsize, nrbits);
    Pow2Of31(nrbits);
    while nrbits != 0 && And(bsize, Shifted(nrbits)) == 0
      invariant nrbits <= 31
      invariant nrbits < 31 ==> bsize < TWO31 && bsize < 2 * Pow2(nrbits)
      decreases nrbits
    {
      if nrbits < 31 {
        AndBit(bsize, nrbits);
        BitClear(bsize, Pow2(nrbits));
      }
      nrbits := nrbits - 1;
    }
    if nrbits < 31 && bsize >= 1 {
      AndBit(bsize, nrbits);
      BitClear(bsize, Pow2(nrbits));
      FloorUnique(bsize, nrbits);
    }
  }

  lemma {:induction false} BitClear(n: nat, p: nat)
    requires p >= 1 && n < 2 * p
    ensures n / p % 2 == 1 <==> n >= p
  {
    if n >= p {
      IntRemainder(n, p, 1, n - p);
    }
  }

  lemma {:induction false} FloorAbove(n: nat, k: nat)
    requires n >= Pow2(k)
    ensures Floor2(n) >= Pow2(k)
    decreases k
  {
    if k > 0 {
      FloorAbove(n / 2, k - 1);
    }
  }

  /** What hsfs_block_size makes of a size: within the limits, and not above a size that is. */
  function Clamped(bsize: nat): (r: nat)
    ensures MIN_FILE_IO_SIZE <= r <= MAX_FILE_IO_SIZE
    ensures bsize >= MIN_FILE_IO_SIZE ==> r <= bsize
  {
    if bsize < MIN_FILE_IO_SIZE then DEF_FILE_IO_SIZE
    else if bsize >= MAX_FILE_IO_SIZE then MAX_FILE_IO_SIZE
    else FloorAbove(bsize, 10); Floor2(bsize)
  }

  lemma {:induction false} PowersOfTwo(k: nat, m: nat)
    requires k == 12 && m == 20
    ensures Pow2(k) == DEF_FILE_IO_SIZE && Pow2(m) == MAX_FILE_IO_SIZE
  {
    var h, e := 10, 2;
    assert Pow2(h) == 1024 && Pow2(e) == 4;
    Pow2Sum(h, h);
    Pow2Sum(h, e);
  }

  lemma {:induction false} ClampedIsPower(bsize: nat)
    ensures IsPower(Clamped(bsize)) && Floor2(Clamped(bsize)) == Clamped(bsize)
  {
    var k, m := 12, 20;
    PowersOfTwo(k, m);
    if MIN_FILE_IO_SIZE <= bsize < MAX_FILE_IO_SIZE {
      FloorIsPower(bsize);
    }
    var j: nat :| Clamped(bsize) == Pow2(j);
    FloorUnique(Clamped(bsize), j);
  }

  /** A size from 1024 to 1048576 is rounded down to a power of two; others become 4096 or 1048576. */
  lemma {:induction false} ClampedIsGreatest(bsize: nat)
    ensures bsize < 1024 ==> Clamped(bsize) == 4096
    ensures bsize > 1048576 ==> Clamped(bsize) == 1048576
    ensures 1024 <= bsize <= 1048576 ==>
              && IsPower(Clamped(bsize)) && Clamped(bsize) <= bsize
              && forall k: nat :: Pow2(k) <= bsize ==> Pow2(k) <= Clamped(bsize)
  {
    ClampedIsPower(bsize);
    if 1024 <= bsize < 1048576 {
      forall k: nat | Pow2(k) <= bsize
        ensures Pow2(k) <= Clamped(bsize)
      {
        FloorAbove(bsize, k);
      }
    }
  }

  /** hsfs_block_size: a power of two between 1024 and 1048576 for every input. */
  method Compute(bsize: nat, wantBits: bool) returns (size: nat, nrbits: nat)
    requires bsize < TWO64
    ensures size == Clamped(bsize) && IsPower(size) && (wantBits ==> size == Pow2(nrbits))
  {
    var b := bsize;
    if b < MIN_FILE_IO_SIZE {
      b := DEF_FILE_IO_SIZE;
    } else if b >= MAX_FILE_IO_SIZE {
      b := MAX_FILE_IO_SIZE;
    }
    ClampedIsPower(bsize);
    size, nrbits := BlockBits(b, wantBits);
  }

  // ---- the superblock ----

  datatype Proto = Tcp | Udp | OtherProto

  /** The transfer limits of an FSINFO reply; all are 32-bit. */
  datatype Fsinfo = Fsinfo(rtmax: U64, rtpref: U64, wtmax: U64, wtpref: U64, dtpref: U64)

  function Smaller(a: nat, b: nat): nat {
    if a < b then a else b
  }

  /** The size before the server's maximum is looked at. */
  function Wanted(size: nat, pref: nat): nat {
    if size == 0 then Clamped(pref) else size
  }

  /** The size that comes out for a direction. */
  function Negotiated(size: nat, pref: nat, max: nat): nat {
    var s := if max >= 512 && Wanted(size, pref) > max then Clamped(max) else Wanted(size, pref);
    if s > MAX_FILE_IO_SIZE then MAX_FILE_IO_SIZE else s
  }

  /**
   Sizes are positive and at most a megabyte.  They respect the server's maximum exactly when
   that is at least 1024 or the wanted size already does.
   */
  lemma {:induction false} NegotiatedWithin(size: nat, pref: nat, max: nat)
    ensures 1 <= Negotiated(size, pref, max) <= MAX_FILE_IO_SIZE
    ensures Negotiated(size, pref, max) <= max <==> max >= MIN_FILE_IO_SIZE || Wanted(size, pref) <= max
  {
  }

  /** A size that was asked for is kept where the server and the client allow it; else it is one of the limits. */
  lemma {:induction false} NegotiatedIs(size: nat, pref: nat, max: nat)
    ensures 1 <= size <= 1048576 && (max < 512 || size <= max) ==> Negotiated(size, pref, max) == size
    ensures size == 0 && (max < 512 || Clamped(pref) <= max) ==> Negotiated(size, pref, max) == Clamped(pref)
    ensures max >= 512 && Wanted(size, pref) > max ==> Negotiated(size, pref, max) == Clamped(max)
    ensures max < 512 && size > 1048576 ==> Negotiated(size, pref, max) == 1048576
  {
  }

  /** A server that allows 512 bytes is sent 4096. */
  lemma {:induction false} SmallMaximum()
    ensures Negotiated(0x1_0000, 512, 512) == 4096
  {
  }

  class Super {
    var rsize: nat
    var wsize: nat
    var dtsize: nat
    var bsize: nat
    var bsizeBits: nat
    const pageSize: nat

    constructor (pageSize: nat, bsize: nat)
      ensures this.pageSize == pageSize && rsize == wsize == dtsize == 0 && this.bsize == bsize
    {
      this.pageSize, rsize, wsize, dtsize := pageSize, 0, 0, 0;
      this.bsize, bsizeBits := bsize, 0;
    }

    /** The size part of hsi_validate_mount_data; the datagram and fallback sizes are the RPC library's. */
    method ValidateSizes(proto: Proto, udpSize: nat, rpcSize: nat)
      requires bsize < TWO64
      modifies this
      ensures bsize == Pow2(bsizeBits) == Clamped(old(bsize)) && MIN_FILE_IO_SIZE <= bsize <= MAX_FILE_IO_SIZE
      ensures rsize == wsize && dtsize == old(dtsize)
      ensures rsize == if proto.Tcp? then 0x1_0000 else if proto.Udp? then udpSize else rpcSize
    {
      bsize, bsizeBits := Compute(bsize, true);
      match proto
      case Tcp => rsize, wsize := 64 * 1024, 64 * 1024;
      case Udp => rsize, wsize := udpSize, udpSize;
      case OtherProto => rsize, wsize := rpcSize, rpcSize;
    }

    /** The steps of hsi_fsinfo_to_super for one direction. */
    method FileSize(asked: nat, pref: U64, max: U64) returns (size: nat)
      ensures size == Negotiated(asked, pref, max)
    {
      var bits;
      size := asked;
      if size == 0 {
        size, bits := Compute(pref, false);
      }
      if max >= 512 && size > max {
        size, bits := Compute(max, false);
      }
      if size > MAX_FILE_IO_SIZE {
        size := MAX_FILE_IO_SIZE;
      }
    }

    /** hsi_fsinfo_to_super */
    method FsinfoToSuper(f: Fsinfo)
      modifies this
      ensures rsize == Negotiated(old(rsize), f.rtpref, f.rtmax)
      ensures wsize == Negotiated(old(wsize), f.wtpref, f.wtmax)
      ensures dtsize <= rsize && dtsize <= pageSize * MAX_READDIR_PAGES
      ensures dtsize == Smaller(Smaller(Clamped(f.dtpref), pageSize * MAX_READDIR_PAGES), rsize)
      ensures dtsize <= Clamped(f.dtpref) && dtsize in {Clamped(f.dtpref), pageSize * MAX_READDIR_PAGES, rsize}
      ensures bsize == old(bsize) && bsizeBits == old(bsizeBits)
    {
      rsize := FileSize(rsize, f.rtpref, f.rtmax);
      wsize := FileSize(wsize, f.wtpref, f.wtmax);
      var bits;
      dtsize, bits := Compute(f.dtpref, false);
      if dtsize > pageSize * MAX_READDIR_PAGES {
        dtsize := pageSize * MAX_READDIR_PAGES;
      }
      if dtsize > rsize {
        dtsize := rsize;
      }
    }
  }
}
