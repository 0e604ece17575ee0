/**
 The attribute codec: parsing the fattr4 list of the standard bitmap, owner strings as decimal
 numbers, and the chown buffer that sends them.
 */
module Fattr {
  import Bits
  import opened Bytes
  import opened Options

  type U64 = Bits.U64

  const INT_MAX: int := 0x7fff_ffff
  const NOBODY: int := 65534

  // ---- XDR ----

  function Be32(n: U32): (b: seq<Byte>)
    ensures |b| == 4
  {
    [n / 0x100_0000, n / 0x1_0000 % 0x100, n / 0x100 % 0x100, n % 0x100]
  }

  function Word32(b: seq<Byte>, at: nat): U32
    requires at + 4 <= |b|
  {
    b[at] as int * 0x100_0000 + b[at + 1] as int * 0x1_0000 + b[at + 2] as int * 0x100 + b[at + 3]
  }

  lemma {:induction false} WordOfBe(n: U32)
    ensures Word32(Be32(n), 0) == n
  {
    var a, b := n / 0x1_0000, n % 0x1_0000;
    assert n / 0x100_0000 == a / 0x100;
    assert n / 0x100 % 0x100 == b / 0x100;
    assert n % 0x100 == b % 0x100;
  }

  function Be64(n: U64): (b: seq<Byte>)
    ensures |b| == 8
  {
    Be32(n / 0x1_0000_0000) + Be32(n % 0x1_0000_0000)
  }

  /** nfs_pntoh64 */
  function Word64(b: seq<Byte>, at: nat): U64
    requires at + 8 <= |b|
  {
    Word32(b, at) * 0x1_0000_0000 + Word32(b, at + 4)
  }

  function Pad(n: nat): nat {
    (4 - n % 4) % 4
  }

  /** A string with its length in front and zeros behind, up to a multiple of four. */
  function XdrString(s: seq<Byte>): seq<Byte>
    requires |s| < 0x1_0000_0000
  {
    Be32(|s|) + s + Zeros(Pad(|s|))
  }

  // ---- owner strings ----

  predicate IsDigit(c: Byte) {
    48 <= c <= 57
  }

  predicate AllDigits(s: seq<Byte>) {
    forall i :: 0 <= i < |s| ==> IsDigit(s[i])
  }

  function Value(s: seq<Byte>): int {
    if s == [] then 0 else Value(s[..|s| - 1]) * 10 + (s[|s| - 1] as int - 48)
  }

  /** No leading run of digits is more than an int holds. */
  predicate InRange(s: seq<Byte>) {
    forall k :: 0 <= k <= |s| && AllDigits(s[..k]) ==> Value(s[..k]) <= INT_MAX
  }

  /** What an owner string stands for; `known` is the id that the user database has for it. */
  function Ugid(s: seq<Byte>, known: Option<int>): int {
    if AllDigits(s) then Value(s) else if known.Some? then known.value else NOBODY
  }

  /** nfs_get_ugid on the bytes from `at` on */
  method GetUgid(buf: seq<Byte>, at: nat, slen: nat, known: Option<int>) returns (ugid: int)
    requires at + slen <= |buf| && InRange(buf[at..at + slen])
    ensures ugid == Ugid(buf[at..at + slen], known)
  {
    ghost var s := buf[at..at + slen];
    ugid := 0;
    for k := 0 to slen
      invariant AllDigits(s[..k]) && ugid == Value(s[..k])
    {
      var c := buf[at + k];
      assert c == s[k] && s[..k + 1][..k] == s[..k];
      if IsDigit(c) {
        ugid := ugid * 10 + (c as int - 48);
        assert ugid == Value(s[..k + 1]);
      } else {
        return if known.Some? then known.value else NOBODY;
      }
    }
    assert s[..slen] == s;
  }

  function Decimal(n: nat): seq<Byte> {
    if n < 10 then [48 + n] else Decimal(n / 10) + [48 + n % 10]
  }

  /** What "%d" prints. */
  function Printed(n: int): seq<Byte> {
    if n < 0 then [45] + Decimal(-n) else Decimal(n)
  }

  lemma {:induction false} DecimalValue(n: nat)
    ensures AllDigits(Decimal(n)) && Value(Decimal(n)) == n && |Decimal(n)| >= 1
  {
    var d := Decimal(n);
    if n < 10 {
      assert d[..0] == [];
    } else {
      DecimalValue(n / 10);
      assert d[..|d| - 1] == Decimal(n / 10);
    }
  }

  lemma {:induction false} DecimalLength(n: nat, k: nat, bound: nat)
    requires n < bound && Tens(k, bound) && k >= 1
    ensures |Decimal(n)| <= k
    decreases k
  {
    if n >= 10 {
      DecimalLength(n / 10, k - 1, bound / 10);
    }
  }

  /** bound is ten to the power of k */
  predicate Tens(k: nat, bound: nat) {
    if k == 0 then bound == 1 else bound % 10 == 0 && Tens(k - 1, bound / 10)
  }

  lemma {:induction false} PrintedLength(n: int)
    requires -INT_MAX - 1 <= n <= INT_MAX
    ensures 1 <= |Printed(n)| <= 11
  {
    assert Tens(5, 100000);
    assert Tens(10, 10000000000) by {
      assert Tens(9, 1000000000) by {
        assert Tens(8, 100000000) by {
          assert Tens(7, 10000000) by {
            assert Tens(6, 1000000);
          }
        }
      }
    }
    DecimalLength(if n < 0 then -n else n, 10, 10000000000);
    DecimalValue(if n < 0 then -n else n);
  }

  /** An id survives being printed and parsed exactly when it is not negative. */
  lemma {:induction false} IdRoundTrip(n: int, known: Option<int>)
    requires known.Some? ==> known.value >= 0
    ensures Ugid(Printed(n), known) == n <==> n >= 0
  {
    if n >= 0 {
      DecimalValue(n);
    } else {
      assert !IsDigit(Printed(n)[0]);
    }
  }

  // ---- the chown buffer ----

  const CHOWN_BLOB_SIZE: nat := 64

  /** memcpy */
  method Place(str: array<Byte>, at: nat, s: seq<Byte>)
    requires at + |s| <= str.Length
    modifies str
    ensures str[..] == Overwrite(old(str[..]), at, s)
  {
    forall i | 0 <= i < |s| {
      str[at + i] := s[i];
    }
  }

  lemma {:induction false} RoundUp(at: nat, l: nat, next: nat)
    requires at % 4 == 0 && 1 <= l <= 11 && next == (at + 4 + l + 3) / 4 * 4
    ensures next == at + 4 + l + Pad(l) && next % 4 == 0 && at + 8 <= next <= at + 16
  {
    var q, r := l / 4, l % 4;
    assert l == 4 * q + r;
  }

  lemma {:induction false} OverwriteMiddle(x: seq<Byte>, was: seq<Byte>, y: seq<Byte>, b: seq<Byte>)
    requires |was| == |b|
    ensures Overwrite(x + was + y, |x|, b) == x + b + y
  {
  }

  lemma {:induction false} ZerosSum(m: nat, n: nat)
    ensures Zeros(m) + Zeros(n) == Zeros(m + n)
  {
  }

  lemma {:induction false} PutTerminated(b: seq<Byte>, done: seq<Byte>, text: seq<Byte>, k: nat)
    requires b == done + Zeros(4 + (|text| + 1) + k)
    ensures Overwrite(b, |done| + 4, text + [0]) == done + Zeros(4) + (text + [0] + Zeros(k))
  {
    var l, z := |text|, Zeros(k);
    ZerosSum(4, l + 1);
    ZerosSum(4 + (l + 1), k);
    assert b == done + Zeros(4) + Zeros(l + 1) + z;
    OverwriteMiddle(done + Zeros(4), Zeros(l + 1), z, text + [0]);
    assert done + Zeros(4) + (text + [0]) + z == done + Zeros(4) + (text + [0] + z);
  }

  /** A text with its terminator, then its length in front, leave the text in XDR form among zeros. */
  lemma {:induction false} PutText(b: seq<Byte>, done: seq<Byte>, at: nat, text: seq<Byte>, next: nat)
    requires |text| < 0x1_0000_0000 && at == |done| && next == at + 4 + |text| + Pad(|text|)
    requires at + 4 + |text| + 1 <= |b| && next <= |b| && b == done + Zeros(|b| - at)
    ensures Overwrite(Overwrite(b, at + 4, text + [0]), at, Be32(|text|)) == done + XdrString(text) + Zeros(|b| - next)
  {
    var l := |text|;
    var k := |b| - at - 4 - l - 1;
    var rest := text + [0] + Zeros(k);
    PutTerminated(b, done, text, k);
    OverwriteMiddle(done, Zeros(4), rest, Be32(l));
    assert [0] == Zeros(1);
    ZerosSum(1, k);
    ZerosSum(Pad(l), |b| - next);
    assert done + Be32(l) + rest == done + (Be32(l) + text) + ([0] + Zeros(k));
  }

  /** One id: snprintf behind its length prefix, then up to the next multiple of four. */
  method PutId(str: array<Byte>, at: nat, n: int, ghost done: seq<Byte>) returns (next: nat)
    requires -INT_MAX - 1 <= n <= INT_MAX && at % 4 == 0 && at + 16 <= str.Length
    requires at == |done| && str[..] == done + Zeros(str.Length - at)
    modifies str
    ensures at + 8 <= next <= at + 16 && next % 4 == 0 && |Printed(n)| <= 11
    ensures next == |done + XdrString(Printed(n))|
    ensures str[..] == done + XdrString(Printed(n)) + Zeros(str.Length - next)
  {
    PrintedLength(n);
    var text := Printed(n);
    var l := |text|;
    next := (at + 4 + l + 3) / 4 * 4;
    RoundUp(at, l, next);
    PutText(str[..], done, at, text, next);
    Place(str, at + 4, text + [0]);
    Place(str, at, Be32(l));
  }

  /** nfs4_create_chown_buffer: the two ids as strings, a multiple of four bytes and at most half the buffer. */
  method CreateChownBuffer(uid: int, gid: int) returns (str: array<Byte>, len: nat)
    requires -INT_MAX - 1 <= uid <= INT_MAX && -INT_MAX - 1 <= gid <= INT_MAX
    ensures str.Length == CHOWN_BLOB_SIZE && len % 4 == 0 && len <= 32
    ensures |Printed(uid)| <= 11 && |Printed(gid)| <= 11
    ensures str[..len] == XdrString(Printed(uid)) + XdrString(Printed(gid))
  {
    str := new Byte[CHOWN_BLOB_SIZE](_ => 0);
    assert str[..] == [] + Zeros(CHOWN_BLOB_SIZE);
    len := PutId(str, 0, uid, []);
    ghost var first := XdrString(Printed(uid));
    assert [] + first == first;
    len := PutId(str, len, gid, first);
  }

  // ---- attribute lists ----

  /** The attributes of the standard bitmap, in the order of section 5 of RFC 7530. */
  datatype Attrs = Attrs(
    ftype: U32, size: U64, fileid: U64, mode: U32, nlink: U32, owner: seq<Byte>, group: seq<Byte>,
    used: U64, atime: U64, atimeNsec: U32, ctime: U64, ctimeNsec: U32, mtime: U64, mtimeNsec: U32)

  /** A list as servers send it: mode bits only in the mode, and names that an int can hold. */
  predicate WellFormed(a: Attrs) {
    && a.mode < 0x1000
    && |a.owner| < 0x8000_0000 && |a.group| < 0x8000_0000 && InRange(a.owner) && InRange(a.group)
  }

  datatype Stat = Stat(
    size: U64, ino: U64, mode: int, nlink: U32, uid: int, gid: int, used: U64,
    atime: U64, atimeNsec: U32, ctime: U64, ctimeNsec: U32, mtime: U64, mtimeNsec: U32, blksize: nat, blocks: nat)

  /** S_IFREG and the like for NF4REG and the like. */
  function TypeBits(ftype: U32): int {
    if ftype == 1 then 0x8000
    else if ftype == 2 then 0x4000
    else if ftype == 3 then 0x6000
    else if ftype == 4 then 0x2000
    else if ftype == 5 then 0xA000
    else if ftype == 6 then 0xC000
    else if ftype == 7 then 0x1000
    else 0
  }

  function Blocks(used: U64, blksize: nat): nat
    requires blksize > 0
  {
    (used + blksize - 1) % 0x1_0000_0000_0000_0000 / blksize
  }

  function StatOf(a: Attrs, user: Option<int>, group: Option<int>, blksize: nat): Stat
    requires blksize > 0
  {
    Stat(a.size, a.fileid, a.mode + TypeBits(a.ftype), a.nlink, Ugid(a.owner, user), Ugid(a.group, group), a.used,
         a.atime, a.atimeNsec, a.ctime, a.ctimeNsec, a.mtime, a.mtimeNsec, blksize, Blocks(a.used, blksize))
  }

  const S_IFREG: nat := 0x8000
  const S_IFDIR: nat := 0x4000
  const S_IFBLK: nat := 0x6000
  const S_IFCHR: nat := 0x2000
  const S_IFLNK: nat := 0xa000
  const S_IFSOCK: nat := 0xc000
  const S_IFIFO: nat := 0x1000

  const NF4REG: U32 := 1
  const NF4DIR: U32 := 2
  const NF4BLK: U32 := 3
  const NF4CHR: U32 := 4
  const NF4LNK: U32 := 5
  const NF4SOCK: U32 := 6
  const NF4FIFO: U32 := 7

  /** The type field of a mode tells what the type in an attribute list does; it is zero for an unknown type. */
  predicate FieldTells(field: nat, ftype: U32) {
    && (field == S_IFREG <==> ftype == NF4REG)
    && (field == S_IFDIR <==> ftype == NF4DIR)
    && (field == S_IFBLK <==> ftype == NF4BLK)
    && (field == S_IFCHR <==> ftype == NF4CHR)
    && (field == S_IFLNK <==> ftype == NF4LNK)
    && (field == S_IFSOCK <==> ftype == NF4SOCK)
    && (field == S_IFIFO <==> ftype == NF4FIFO)
    && (field == 0 <==> ftype == 0 || ftype > NF4FIFO)
  }

  predicate SameType(mode: nat, ftype: U32) {
    FieldTells(Bits.And(mode, Bits.S_IFMT), ftype)
  }

  /** Digits stand for their value; another string for the id that the user database has, or nobody. */
  predicate IsOwner(id: int, s: seq<Byte>, known: Option<int>) {
    if forall i :: 0 <= i < |s| ==> 48 <= s[i] <= 57 then id == Value(s)
    else id == if known.Some? then known.value else 65534
  }

  /** What the application learns of a file whose attributes the server gave as `a`. */
  predicate Describes(st: Stat, a: Attrs, user: Option<int>, group: Option<int>, blksize: nat) {
    && st.size == a.size && st.ino == a.fileid && st.nlink == a.nlink && st.used == a.used
    && st.mode >= 0 && st.mode % 0x1000 == a.mode && SameType(st.mode, a.ftype)
    && IsOwner(st.uid, a.owner, user) && IsOwner(st.gid, a.group, group)
    && st.atime == a.atime && st.atimeNsec == a.atimeNsec && st.mtime == a.mtime && st.mtimeNsec == a.mtimeNsec
    && st.ctime == a.ctime && st.ctimeNsec == a.ctimeNsec && st.blksize == blksize
    && (a.used + blksize <= 0x1_0000_0000_0000_0000 ==> Covers(st.blocks, blksize, a.used))
  }

  /** So many blocks hold so many bytes, and one less does not. */
  predicate Covers(blocks: nat, blksize: nat, used: nat) {
    blksize * blocks - blksize < used <= blksize * blocks
  }

  lemma {:induction false} TypeBitsTell(mode: nat, ftype: U32)
    requires mode < 0x1000
    ensures var m := mode + TypeBits(ftype); m >= 0 && m % 0x1000 == mode && SameType(m, ftype)
  {
    var t := BitsTell(ftype);
    TypeFieldIs(mode, t);
  }

  lemma {:induction false} BitsTell(ftype: U32) returns (t: nat)
    ensures t < 0x10 && TypeBits(ftype) == 0x1000 * t && FieldTells(0x1000 * t, ftype)
  {
    t := TypeBits(ftype) / 0x1000;
  }

  lemma {:induction false} TypeFieldIs(mode: nat, t: nat)
    requires mode < 0x1000 && t < 0x10
    ensures var m := mode + 0x1000 * t; m % 0x1000 == mode && Bits.And(m, Bits.S_IFMT) == 0x1000 * t
  {
    var m := mode + 0x1000 * t;
    Bits.TypeField(m);
    Bits.RemainderIs(m, 0x1000, t, mode);
  }

  lemma {:induction false} BlocksCover(used: U64, blksize: nat)
    requires blksize > 0 && used + blksize <= 0x1_0000_0000_0000_0000
    ensures Covers(Blocks(used, blksize), blksize, used)
  {
    var n := used + blksize - 1;
    var q, r := n / blksize, n % blksize;
    assert n == blksize * q + r;
  }

  lemma {:induction false} StatDescribes(a: Attrs, user: Option<int>, group: Option<int>, blksize: nat)
    requires WellFormed(a) && blksize > 0
    ensures Describes(StatOf(a, user, group, blksize), a, user, group, blksize)
  {
    TypeBitsTell(a.mode, a.ftype);
    if a.used + blksize <= 0x1_0000_0000_0000_0000 {
      BlocksCover(a.used, blksize);
    }
  }

  /** The switch of nfs4_parse_readdir; a type it does not know is not set. */
  function EntryType(mode: nat): Option<U32> {
    var field := Bits.And(mode, Bits.S_IFMT);
    if field == S_IFREG then Some(NF4REG)
    else if field == S_IFDIR then Some(NF4DIR)
    else if field == S_IFBLK then Some(NF4BLK)
    else if field == S_IFCHR then Some(NF4CHR)
    else if field == S_IFLNK then Some(NF4LNK)
    else if field == S_IFSOCK then Some(NF4SOCK)
    else if field == S_IFIFO then Some(NF4FIFO)
    else None
  }

  /** A directory entry has the type of its attribute list, if that is one of the seven known ones. */
  lemma {:induction false} EntryTypeIsType(st: Stat, a: Attrs, user: Option<int>, group: Option<int>, blksize: nat)
    requires Describes(st, a, user, group, blksize)
    ensures EntryType(st.mode) == if 1 <= a.ftype <= 7 then Some(a.ftype) else None
  {
  }

  function Flatten(fields: seq<seq<Byte>>): seq<Byte> {
    if fields == [] then [] else fields[0] + Flatten(fields[1..])
  }

  function NameFields(s: seq<Byte>): seq<seq<Byte>>
    requires |s| < 0x8000_0000
  {
    [Be32(|s|), s, Zeros(Pad(|s|))]
  }

  function HeadFields(a: Attrs): seq<seq<Byte>> {
    [Be32(a.ftype), Be64(a.size), Be64(a.fileid), Be32(a.mode), Be32(a.nlink)]
  }

  function TailFields(a: Attrs): seq<seq<Byte>> {
    [Be64(a.used), Be64(a.atime), Be32(a.atimeNsec), Be64(a.ctime), Be32(a.ctimeNsec), Be64(a.mtime), Be32(a.mtimeNsec)]
  }

  function Encode(a: Attrs): seq<Byte>
    requires WellFormed(a)
  {
    Flatten(HeadFields(a) + NameFields(a.owner) + NameFields(a.group) + TailFields(a))
  }

  /** From `pos` on the buffer holds these fields and then whatever follows. */
  ghost predicate Ahead(buf: seq<Byte>, pos: nat, fields: seq<seq<Byte>>) {
    pos <= |buf| && Flatten(fields) <= buf[pos..]
  }

  /** The next field is where it should be, and the rest behind it. */
  lemma {:induction false} NextField(buf: seq<Byte>, pos: nat, fields: seq<seq<Byte>>)
    requires Ahead(buf, pos, fields) && fields != []
    ensures pos + |fields[0]| <= |buf| && buf[pos..pos + |fields[0]|] == fields[0]
    ensures Ahead(buf, pos + |fields[0]|, fields[1..])
  {
    var f, more := fields[0], Flatten(fields[1..]);
    assert Flatten(fields) == f + more;
    assert buf[pos..][..|f|] == f;
    assert buf[pos..][|f|..] == buf[pos + |f|..];
    assert (f + more)[|f|..] == more;
  }

  lemma {:induction false} Next32(buf: seq<Byte>, pos: nat, fields: seq<seq<Byte>>, n: U32)
    requires Ahead(buf, pos, fields) && fields != [] && fields[0] == Be32(n)
    ensures pos + 4 <= |buf| && Word32(buf, pos) == n && Ahead(buf, pos + 4, fields[1..])
  {
    NextField(buf, pos, fields);
    WordOfBe(n);
    var b := buf[pos..pos + 4];
    assert b[0] == buf[pos] && b[1] == buf[pos + 1] && b[2] == buf[pos + 2] && b[3] == buf[pos + 3];
  }

  lemma {:induction false} Next64(buf: seq<Byte>, pos: nat, fields: seq<seq<Byte>>, n: U64)
    requires Ahead(buf, pos, fields) && fields != [] && fields[0] == Be64(n)
    ensures pos + 8 <= |buf| && Word64(buf, pos) == n && Ahead(buf, pos + 8, fields[1..])
  {
    NextField(buf, pos, fields);
    var hi: U32, lo: U32 := n / 0x1_0000_0000, n % 0x1_0000_0000;
    var b := buf[pos..pos + 8];
    assert b == Be32(hi) + Be32(lo);
    WordOfBe(hi);
    WordOfBe(lo);
    assert b[0] == buf[pos] && b[1] == buf[pos + 1] && b[2] == buf[pos + 2] && b[3] == buf[pos + 3];
    assert b[4] == buf[pos + 4] && b[5] == buf[pos + 5] && b[6] == buf[pos + 6] && b[7] == buf[pos + 7];
  }

  lemma {:induction false} HeadWords(buf: seq<Byte>, a: Attrs, more: seq<seq<Byte>>)
    requires Ahead(buf, 0, HeadFields(a) + more)
    ensures |buf| >= 28 && Ahead(buf, 28, more) && Word32(buf, 0) == a.ftype && Word64(buf, 4) == a.size
    ensures Word64(buf, 12) == a.fileid && Word32(buf, 20) == a.mode && Word32(buf, 24) == a.nlink
  {
    var f0 := HeadFields(a) + more;
    var f1, f2, f3, f4, f5 := f0[1..], f0[2..], f0[3..], f0[4..], f0[5..];
    assert f1[1..] == f2 && f2[1..] == f3 && f3[1..] == f4 && f4[1..] == f5 && f5 == more;
    Next32(buf, 0, f0, a.ftype);
    Next64(buf, 4, f1, a.size);
    Next64(buf, 12, f2, a.fileid);
    Next32(buf, 20, f3, a.mode);
    Next32(buf, 24, f4, a.nlink);
  }

  /** The fixed part in front of the names. */
  method ParseHead(buf: seq<Byte>, ghost a: Attrs, ghost more: seq<seq<Byte>>)
    returns (ok: bool, ftype: U32, size: U64, ino: U64, mode: int, nlink: U32)
    requires a.mode < 0x1000 && Ahead(buf, 0, HeadFields(a) + more)
    ensures ok && size == a.size && ino == a.fileid && mode == a.mode + TypeBits(a.ftype) && nlink == a.nlink
    ensures |buf| >= 28 && Ahead(buf, 28, more)
  {
    ok, ftype, size, ino, mode, nlink := false, 0, 0, 0, 0, 0;
    HeadWords(buf, a, more);
    var len := |buf|;
    if len < 4 {
      return;
    }
    ftype, len := Word32(buf, 0), len - 4;
    if len < 8 {
      return;
    }
    size, len := Word64(buf, 4), len - 8;
    if len < 8 {
      return;
    }
    ino, len := Word64(buf, 12), len - 8;
    if len < 4 {
      return;
    }
    mode, len := Word32(buf, 20), len - 4;
    mode := mode + TypeBits(ftype);
    if len < 4 {
      return;
    }
    nlink, len := Word32(buf, 24), len - 4;
    ok := true;
  }

  lemma {:induction false} NameBytes(buf: seq<Byte>, pos: nat, s: seq<Byte>, more: seq<seq<Byte>>)
    requires |s| < 0x8000_0000 && Ahead(buf, pos, NameFields(s) + more)
    ensures var next := pos + 4 + |s| + Pad(|s|);
            && next <= |buf| && Word32(buf, pos) == |s| && buf[pos + 4..pos + 4 + |s|] == s && Ahead(buf, next, more)
  {
    var f0 := NameFields(s) + more;
    var f1, f2, f3 := f0[1..], f0[2..], f0[3..];
    assert f1[1..] == f2 && f2[1..] == f3 && f3 == more;
    Next32(buf, pos, f0, |s|);
    NextField(buf, pos + 4, f1);
    NextField(buf, pos + 4 + |s|, f2);
  }

  /** One name and its padding; the length is not taken off `len`, so the checks behind it are laxer. */
  method ParseName(buf: seq<Byte>, pos: nat, len: int, known: Option<int>,
                   ghost s: seq<Byte>, ghost more: seq<seq<Byte>>)
    returns (ok: bool, id: int, next: nat, left: int)
    requires |s| < 0x8000_0000 && InRange(s) && Ahead(buf, pos, NameFields(s) + more) && len >= |buf| - pos
    ensures ok && id == Ugid(s, known) && next <= |buf| && left >= |buf| - next && Ahead(buf, next, more)
  {
    ok, id, next, left := false, 0, pos, len;
    NameBytes(buf, pos, s, more);
    if left < 4 {
      return;
    }
    var slen := Word32(buf, pos);
    next, left := next + 4, left - 4;
    var pad := Pad(slen);
    if left < slen {
      return;
    }
    id := GetUgid(buf, next, slen, known);
    next := next + slen;
    if left < pad {
      return;
    }
    next, left := next + pad, left - pad;
    ok := true;
  }

  lemma {:induction false} TailWords(buf: seq<Byte>, pos: nat, a: Attrs)
    requires Ahead(buf, pos, TailFields(a))
    ensures pos + 44 <= |buf| && Word64(buf, pos) == a.used
    ensures Word64(buf, pos + 8) == a.atime && Word32(buf, pos + 16) == a.atimeNsec
    ensures Word64(buf, pos + 20) == a.ctime && Word32(buf, pos + 28) == a.ctimeNsec
    ensures Word64(buf, pos + 32) == a.mtime && Word32(buf, pos + 40) == a.mtimeNsec
  {
    var f := TailFields(a);
    assert f[1..][1..] == f[2..] && f[2..][1..] == f[3..] && f[3..][1..] == f[4..];
    assert f[4..][1..] == f[5..] && f[5..][1..] == f[6..];
    Next64(buf, pos, f, a.used);
    Next64(buf, pos + 8, f[1..], a.atime);
    Next32(buf, pos + 16, f[2..], a.atimeNsec);
    Next64(buf, pos + 20, f[3..], a.ctime);
    Next32(buf, pos + 28, f[4..], a.ctimeNsec);
    Next64(buf, pos + 32, f[5..], a.mtime);
    Next32(buf, pos + 40, f[6..], a.mtimeNsec);
  }

  /** The space and the times behind the names. */
  method ParseTail(buf: seq<Byte>, pos: nat, len: int, ghost a: Attrs)
    returns (ok: bool, used: U64, atime: U64, atimeNsec: U32, ctime: U64, ctimeNsec: U32, mtime: U64, mtimeNsec: U32)
    requires Ahead(buf, pos, TailFields(a)) && len >= |buf| - pos
    ensures ok && used == a.used && atime == a.atime && atimeNsec == a.atimeNsec
    ensures ctime == a.ctime && ctimeNsec == a.ctimeNsec && mtime == a.mtime && mtimeNsec == a.mtimeNsec
  {
    ok, used, atime, atimeNsec, ctime, ctimeNsec, mtime, mtimeNsec := false, 0, 0, 0, 0, 0, 0, 0;
    TailWords(buf, pos, a);
    var left := len;
    if left < 8 {
      return;
    }
    used, left := Word64(buf, pos), left - 8;
    if left < 12 {
      return;
    }
    atime, atimeNsec, left := Word64(buf, pos + 8), Word32(buf, pos + 16), left - 12;
    if left < 12 {
      return;
    }
    ctime, ctimeNsec, left := Word64(buf, pos + 20), Word32(buf, pos + 28), left - 12;
    if left < 12 {
      return;
    }
    mtime, mtimeNsec := Word64(buf, pos + 32), Word32(buf, pos + 40);
    ok := true;
  }

  // ---- the layout of the list ----

  /** The number that bytes are, highest first. */
  function Number(b: seq<Byte>): nat {
    if b == [] then 0 else 0x100 * Number(b[..|b| - 1]) + b[|b| - 1]
  }

  lemma {:induction false} NumberIsWord32(b: seq<Byte>, at: nat)
    requires at + 4 <= |b|
    ensures Number(b[at..at + 4]) == Word32(b, at)
  {
    var c := b[at..at + 4];
    assert c[..3][..2] == c[..2] && c[..2][..1] == c[..1] && c[..1][..0] == [];
    assert Number(c[..1]) == c[0];
    assert Number(c[..2]) == 0x100 * c[0] as int + c[1];
    assert Number(c[..3]) == 0x100 * (0x100 * c[0] as int + c[1]) + c[2];
  }

  lemma {:induction false} NumberSnoc(b: seq<Byte>, x: Byte)
    ensures Number(b + [x]) == 0x100 * Number(b) + x
  {
    assert (b + [x])[..|b|] == b;
  }

  lemma {:induction false} NumberOfFour(b: seq<Byte>, w: Byte, x: Byte, y: Byte, z: Byte)
    ensures Number(b + [w] + [x] + [y] + [z]) ==
            Number(b) * 0x1_0000_0000 + w as int * 0x100_0000 + x as int * 0x1_0000 + y as int * 0x100 + z
  {
    NumberSnoc(b, w);
    NumberSnoc(b + [w], x);
    NumberSnoc(b + [w] + [x], y);
    NumberSnoc(b + [w] + [x] + [y], z);
  }

  lemma {:induction false} NumberSplits(b: seq<Byte>, c: seq<Byte>)
    requires |c| == 4
    ensures Number(b + c) == Number(b) * 0x1_0000_0000 + Number(c)
  {
    NumberOfFour(b, c[0], c[1], c[2], c[3]);
    NumberOfFour([], c[0], c[1], c[2], c[3]);
    assert b + c == b + [c[0]] + [c[1]] + [c[2]] + [c[3]];
    assert c == [] + [c[0]] + [c[1]] + [c[2]] + [c[3]];
  }

  lemma {:induction false} NumberIsWord64(b: seq<Byte>, at: nat)
    requires at + 8 <= |b|
    ensures Number(b[at..at + 8]) == Word64(b, at)
  {
    assert b[at..at + 8] == b[at..at + 4] + b[at + 4..at + 8];
    NumberSplits(b[at..at + 4], b[at + 4..at + 8]);
    NumberIsWord32(b, at);
    NumberIsWord32(b, at + 4);
  }

  /** From `at` on there are so many bytes, and they are this number. */
  predicate Holds(b: seq<Byte>, at: nat, len: nat, n: nat) {
    at + len <= |b| && Number(b[at..at + len]) == n
  }

  /** From `at` on there is a string, which ends with zeros at a multiple of four bytes, at `next`. */
  predicate HoldsString(b: seq<Byte>, at: nat, s: seq<Byte>, next: nat) {
    && Holds(b, at, 4, |s|) && at + 4 + |s| <= next <= |b| && b[at + 4..at + 4 + |s|] == s
    && next < at + 4 + |s| + 4 && (next - at) % 4 == 0
  }

  predicate TailAt(b: seq<Byte>, t: nat, a: Attrs) {
    && Holds(b, t, 8, a.used) && Holds(b, t + 8, 8, a.atime) && Holds(b, t + 16, 4, a.atimeNsec)
    && Holds(b, t + 20, 8, a.ctime) && Holds(b, t + 28, 4, a.ctimeNsec)
    && Holds(b, t + 32, 8, a.mtime) && Holds(b, t + 40, 4, a.mtimeNsec)
  }

  lemma {:induction false} TailLayout(b: seq<Byte>, t: nat, a: Attrs)
    requires Ahead(b, t, TailFields(a))
    ensures TailAt(b, t, a)
  {
    TailWords(b, t, a);
    NumberIsWord64(b, t);
    NumberIsWord64(b, t + 8);
    NumberIsWord32(b, t + 16);
    NumberIsWord64(b, t + 20);
    NumberIsWord32(b, t + 28);
    NumberIsWord64(b, t + 32);
    NumberIsWord32(b, t + 40);
  }

  predicate HeadAt(b: seq<Byte>, a: Attrs) {
    && Holds(b, 0, 4, a.ftype) && Holds(b, 4, 8, a.size) && Holds(b, 12, 8, a.fileid)
    && Holds(b, 20, 4, a.mode) && Holds(b, 24, 4, a.nlink)
  }

  lemma {:induction false} HeadLayout(b: seq<Byte>, a: Attrs, more: seq<seq<Byte>>)
    requires Ahead(b, 0, HeadFields(a) + more)
    ensures HeadAt(b, a)
  {
    HeadWords(b, a, more);
    NumberIsWord32(b, 0);
    NumberIsWord64(b, 4);
    NumberIsWord64(b, 12);
    NumberIsWord32(b, 20);
    NumberIsWord32(b, 24);
  }

  lemma {:induction false} NameLayout(b: seq<Byte>, at: nat, s: seq<Byte>, more: seq<seq<Byte>>) returns (next: nat)
    requires |s| < 0x8000_0000 && Ahead(b, at, NameFields(s) + more)
    ensures HoldsString(b, at, s, next) && Ahead(b, next, more)
  {
    NameBytes(b, at, s, more);
    NumberIsWord32(b, at);
    next := at + 4 + |s| + Pad(|s|);
  }

  /** Type, size, number, mode and link count, then the owner and the group, then the space and the three times. */
  lemma {:induction false} Layout(a: Attrs, b: seq<Byte>) returns (g: nat, t: nat)
    requires WellFormed(a) && Encode(a) <= b
    ensures HeadAt(b, a) && HoldsString(b, 28, a.owner, g) && HoldsString(b, g, a.group, t) && TailAt(b, t, a)
  {
    var tail := TailFields(a);
    var names := NameFields(a.group) + tail;
    var more := NameFields(a.owner) + names;
    assert HeadFields(a) + NameFields(a.owner) + NameFields(a.group) + tail == HeadFields(a) + more;
    assert b[0..] == b;
    HeadWords(b, a, more);
    HeadLayout(b, a, more);
    g := NameLayout(b, 28, a.owner, names);
    t := NameLayout(b, g, a.group, tail);
    TailLayout(b, t, a);
  }

  /** nfs_parse_attributes: an attribute list, with anything behind it, gives back every attribute. */
  method ParseAttributes(buf: seq<Byte>, user: Option<int>, group: Option<int>, blksize: nat, ghost a: Attrs)
    returns (r: int, st: Stat)
    requires WellFormed(a) && Encode(a) <= buf && blksize > 0
    ensures r == 0 && st == StatOf(a, user, group, blksize) && Describes(st, a, user, group, blksize)
  {
    StatDescribes(a, user, group, blksize);
    st := Stat(0, 0, 0, 0, 0, 0, 0, 0, 0, 0, 0, 0, 0, 0, 0);
    ghost var tail := TailFields(a);
    ghost var names := NameFields(a.group) + tail;
    ghost var more := NameFields(a.owner) + names;
    assert HeadFields(a) + NameFields(a.owner) + NameFields(a.group) + TailFields(a) == HeadFields(a) + more;
    var ok, ftype, size, ino, mode, nlink := ParseHead(buf, a, more);
    if !ok {
      return -1, st;
    }
    var uid, gid, pos, len;
    ok, uid, pos, len := ParseName(buf, 28, |buf| - 28, user, a.owner, names);
    if !ok {
      return -1, st;
    }
    ok, gid, pos, len := ParseName(buf, pos, len, group, a.group, tail);
    if !ok {
      return -1, st;
    }
    var used, atime, atimeNsec, ctime, ctimeNsec, mtime, mtimeNsec;
    ok, used, atime, atimeNsec, ctime, ctimeNsec, mtime, mtimeNsec := ParseTail(buf, pos, len, a);
    if !ok {
      return -1, st;
    }
    r := 0;
    st := Stat(size, ino, mode, nlink, uid, gid, used, atime, atimeNsec, ctime, ctimeNsec, mtime, mtimeNsec,
               blksize, Blocks(used, blksize));
  }

  // ---- chown through the owner parser ----

  lemma {:induction false} DecimalInRange(n: nat, k: nat)
    requires k <= |Decimal(n)|
    ensures Value(Decimal(n)[..k]) <= n
    decreases n
  {
    var d := Decimal(n);
    DecimalValue(n);
    if k == |d| {
      assert d[..k] == d;
    } else if n >= 10 {
      DecimalInRange(n / 10, k);
      assert d[..k] == Decimal(n / 10)[..k];
    }
  }

  lemma {:induction false} PrintedInRange(n: int)
    requires n <= INT_MAX
    ensures InRange(Printed(n))
  {
    var s := Printed(n);
    forall k | 0 <= k <= |s| && AllDigits(s[..k])
      ensures Value(s[..k]) <= INT_MAX
    {
      assert k > 0 ==> s[..k][0] == s[0];
      if n >= 0 {
        DecimalInRange(n, k);
      }
    }
  }

  lemma {:induction false} FlattenName(s: seq<Byte>, more: seq<seq<Byte>>)
    requires |s| < 0x8000_0000
    ensures Flatten(NameFields(s) + more) == XdrString(s) + Flatten(more)
  {
    var f := NameFields(s) + more;
    assert f[1..][1..] == f[2..] && f[2..][1..] == more;
    assert Flatten(f[2..]) == Zeros(Pad(|s|)) + Flatten(more);
    assert Flatten(f[1..]) == s + Flatten(f[2..]);
  }

  lemma {:induction false} NamesAhead(s: seq<Byte>, t: seq<Byte>)
    requires |s| < 0x8000_0000 && |t| < 0x8000_0000
    ensures Ahead(XdrString(s) + XdrString(t), 0, NameFields(s) + NameFields(t))
  {
    FlattenName(s, NameFields(t));
    FlattenName(t, []);
    assert NameFields(t) + [] == NameFields(t);
  }

  /** The chown buffer, read as an owner and a group, gives each id back exactly when it is not negative. */
  method ChownIds(uid: int, gid: int) returns (u: int, g: int)
    requires -INT_MAX - 1 <= uid <= INT_MAX && -INT_MAX - 1 <= gid <= INT_MAX
    ensures (u == uid <==> uid >= 0) && (g == gid <==> gid >= 0)
  {
    var str, len := CreateChownBuffer(uid, gid);
    ghost var s, t := Printed(uid), Printed(gid);
    NamesAhead(s, t);
    PrintedInRange(uid);
    PrintedInRange(gid);
    IdRoundTrip(uid, None);
    IdRoundTrip(gid, None);
    var ok, pos, left;
    assert NameFields(t) + [] == NameFields(t);
    ok, u, pos, left := ParseName(str[..len], 0, len, None, s, NameFields(t));
    ok, g, pos, left := ParseName(str[..len], pos, left, None, t, []);
  }
}
