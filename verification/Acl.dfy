/** POSIX ACLs and their extended-attribute form, with the little-endian layout of the host. */
module Acl {
  import opened Bytes
  import opened Options

  const VERSION: U32 := 2
  const UNDEFINED_ID: U32 := 0xffff_ffff
  const ERANGE: nat := 34

  datatype Entry = Entry(tag: U16, perm: U16, id: U32)

  /** ACL_USER and ACL_GROUP carry an id. */
  predicate Named(tag: U16) {
    tag == 0x02 || tag == 0x08
  }

  predicate Legal(tag: U16) {
    tag == 0x01 || tag == 0x04 || tag == 0x10 || tag == 0x20 || Named(tag)
  }

  predicate AllLegal(es: seq<Entry>) {
    forall i :: 0 <= i < |es| ==> Legal(es[i].tag)
  }

  /** What reading an entry makes of it: only named entries keep their id. */
  function Canon(e: Entry): Entry {
    if Named(e.tag) then e else e.(id := UNDEFINED_ID)
  }

  function CanonAll(es: seq<Entry>): seq<Entry> {
    seq(|es|, i requires 0 <= i < |es| => Canon(es[i]))
  }

  function Le16(n: U16): (b: seq<Byte>)
    ensures |b| == 2
  {
    [n % 0x100, n / 0x100]
  }

  function Le32(n: U32): (b: seq<Byte>)
    ensures |b| == 4
  {
    [n % 0x100, n / 0x100 % 0x100, n / 0x1_0000 % 0x100, n / 0x100_0000]
  }

  function Word16(b: seq<Byte>, at: nat): U16
    requires at + 2 <= |b|
  {
    b[at + 1] as int * 0x100 + b[at]
  }

  function Word32(b: seq<Byte>, at: nat): U32
    requires at + 4 <= |b|
  {
    b[at + 3] as int * 0x100_0000 + b[at + 2] as int * 0x1_0000 + b[at + 1] as int * 0x100 + b[at]
  }

  function EntryBytes(e: Entry): (b: seq<Byte>)
    ensures |b| == 8
  {
    Le16(e.tag) + Le16(e.perm) + Le32(e.id)
  }

  function EntryAt(b: seq<Byte>, at: nat): Entry
    requires at + 8 <= |b|
  {
    Entry(Word16(b, at), Word16(b, at + 2), Word32(b, at + 4))
  }

  lemma {:induction false} Word32OfLe(n: U32)
    ensures Word32(Le32(n), 0) == n
  {
    var a, b := n / 0x1_0000, n % 0x1_0000;
    assert n / 0x100_0000 == a / 0x100;
    assert n / 0x100 % 0x100 == b / 0x100;
    assert n % 0x100 == b % 0x100;
  }

  lemma {:induction false} LeOfWord32(w: Byte, x: Byte, y: Byte, z: Byte)
    ensures Le32(Word32([w, x, y, z], 0)) == [w, x, y, z]
  {
    var n := Word32([w, x, y, z], 0);
    var lo, hi := x as int * 0x100 + w, z as int * 0x100 + y;
    Halves(n, hi, lo);
    Quarters(hi, z, y);
    Quarters(lo, x, w);
  }

  lemma {:induction false} Halves(n: int, hi: int, lo: int)
    requires n == hi * 0x1_0000 + lo && 0 <= lo < 0x1_0000 && hi >= 0
    ensures n / 0x1_0000 == hi && n / 0x100_0000 == hi / 0x100
    ensures n / 0x100 % 0x100 == lo / 0x100 && n % 0x100 == lo % 0x100
  {
    HighHalf(n, hi, lo);
    LowHalf(n, hi, lo);
  }

  lemma {:induction false} HighHalf(n: int, hi: int, lo: int)
    requires n == hi * 0x1_0000 + lo && 0 <= lo < 0x1_0000 && hi >= 0
    ensures n / 0x1_0000 == hi && n / 0x100_0000 == hi / 0x100
  {
  }

  lemma {:induction false} LowHalf(n: int, hi: int, lo: int)
    requires n == hi * 0x1_0000 + lo && 0 <= lo < 0x1_0000 && hi >= 0
    ensures n / 0x100 % 0x100 == lo / 0x100 && n % 0x100 == lo % 0x100
  {
    var a, b := lo / 0x100, lo % 0x100;
    assert n == (hi * 0x100 + a) * 0x100 + b;
    assert n / 0x100 == hi * 0x100 + a;
  }

  lemma {:induction false} Quarters(n: int, hi: int, lo: int)
    requires n == hi * 0x100 + lo && 0 <= lo < 0x100 && 0 <= hi < 0x100
    ensures n / 0x100 == hi && n % 0x100 == lo
  {
  }

  /** Bytes that hold an entry are exactly the bytes of that entry. */
  lemma {:induction false} EntryIsBytes(b: seq<Byte>, at: nat, e: Entry)
    requires at + 8 <= |b|
    ensures EntryAt(b, at) == e <==> b[at..at + 8] == EntryBytes(e)
  {
    var c := b[at..at + 8];
    assert c == [b[at], b[at + 1], b[at + 2], b[at + 3], b[at + 4], b[at + 5], b[at + 6], b[at + 7]];
    LeOfWord32(b[at + 4], b[at + 5], b[at + 6], b[at + 7]);
    Word32OfLe(e.id);
  }

  // ---- whole ACLs ----

  function Flat(es: seq<Entry>): (b: seq<Byte>)
    ensures |b| == 8 * |es|
  {
    if es == [] then [] else Flat(es[..|es| - 1]) + EntryBytes(es[|es| - 1])
  }

  /** The extended-attribute form. */
  function Encode(es: seq<Entry>): seq<Byte> {
    Le32(VERSION) + Flat(es)
  }

  /** The entries that the bytes behind the header hold, as they are. */
  function Raw(b: seq<Byte>): seq<Entry>
    requires |b| >= 4
  {
    seq((|b| - 4) / 8, i requires 0 <= i < (|b| - 4) / 8 => EntryAt(b, 4 + 8 * i))
  }

  /** What is accepted: the version, whole entries, at least one, and only known tags. */
  predicate Accepted(b: seq<Byte>) {
    |b| >= 12 && Word32(b, 0) == VERSION && (|b| - 4) % 8 == 0 && AllLegal(Raw(b))
  }

  lemma {:induction false} FlatAt(es: seq<Entry>, k: nat)
    requires k < |es|
    ensures Flat(es)[8 * k..8 * k + 8] == EntryBytes(es[k])
  {
    var n := |es| - 1;
    if k < n {
      FlatAt(es[..n], k);
      assert Flat(es)[8 * k..8 * k + 8] == Flat(es[..n])[8 * k..8 * k + 8];
    }
  }

  lemma {:induction false} RawOfEncode(es: seq<Entry>)
    ensures Raw(Encode(es)) == es
  {
    var b := Encode(es);
    forall k | 0 <= k < |es|
      ensures EntryAt(b, 4 + 8 * k) == es[k]
    {
      FlatAt(es, k);
      assert b[4 + 8 * k..4 + 8 * k + 8] == Flat(es)[8 * k..8 * k + 8];
      EntryIsBytes(b, 4 + 8 * k, es[k]);
    }
  }

  lemma {:induction false} FlatOfRaw(b: seq<Byte>, n: nat)
    requires 4 + 8 * n <= |b|
    ensures Flat(Raw(b)[..n]) == b[4..4 + 8 * n]
  {
    var r := Raw(b);
    if n > 0 {
      FlatOfRaw(b, n - 1);
      assert r[..n][..n - 1] == r[..n - 1];
      EntryIsBytes(b, 4 + 8 * (n - 1), r[n - 1]);
      assert b[4..4 + 8 * n] == b[4..4 + 8 * (n - 1)] + b[4 + 8 * (n - 1)..4 + 8 * n];
    }
  }

  lemma {:induction false} EncodeOfRaw(b: seq<Byte>)
    requires |b| >= 4 && (|b| - 4) % 8 == 0 && Word32(b, 0) == VERSION
    ensures Encode(Raw(b)) == b
  {
    var n := (|b| - 4) / 8;
    FlatOfRaw(b, n);
    assert Raw(b)[..n] == Raw(b);
    LeOfWord32(b[0], b[1], b[2], b[3]);
    assert b[..4] == [b[0], b[1], b[2], b[3]];
    assert b == b[..4] + b[4..];
  }

  /** Two bytes hold a number, and four bytes do, lowest byte first. */
  predicate Holds16(b: seq<Byte>, at: nat, n: nat) {
    at + 2 <= |b| && n == b[at] as nat + 256 * b[at + 1] as nat
  }

  predicate Holds32(b: seq<Byte>, at: nat, n: nat) {
    at + 4 <= |b| && n == b[at] as nat + 256 * (b[at + 1] as nat + 256 * (b[at + 2] as nat + 256 * b[at + 3] as nat))
  }

  /** The layout: tag, permissions and id. */
  predicate HoldsEntry(b: seq<Byte>, at: nat, e: Entry) {
    Holds16(b, at, e.tag) && Holds16(b, at + 2, e.perm) && Holds32(b, at + 4, e.id)
  }

  /** The entries that are read from bytes are those that the layout says. */
  lemma {:induction false} RawLayout(b: seq<Byte>, k: nat)
    requires |b| >= 4 && k < |Raw(b)|
    ensures HoldsEntry(b, 4 + 8 * k, Raw(b)[k])
  {
  }

  /** What is read from an entry: its tag is one of six, and the id counts only for a named user or group. */
  predicate ReadsEntry(b: seq<Byte>, at: nat, e: Entry) {
    && Holds16(b, at, e.tag) && Holds16(b, at + 2, e.perm) && e.tag in {1, 2, 4, 8, 16, 32}
    && if e.tag == 2 || e.tag == 8 then Holds32(b, at + 4, e.id) else e.id == 0xffff_ffff
  }

  predicate KnownTag(b: seq<Byte>, k: nat) {
    var at := 4 + 8 * k;
    || Holds16(b, at, 1) || Holds16(b, at, 2) || Holds16(b, at, 4)
    || Holds16(b, at, 8) || Holds16(b, at, 16) || Holds16(b, at, 32)
  }

  /** The bytes are a version 2, and then one or more whole entries with known tags. */
  predicate WellFormed(b: seq<Byte>) {
    && |b| >= 12 && |b| % 8 == 4 && Holds32(b, 0, 2)
    && forall k :: 0 <= k < |b| / 8 ==> KnownTag(b, k)
  }

  lemma {:induction false} AcceptedIsWellFormed(b: seq<Byte>)
    ensures Accepted(b) <==> WellFormed(b)
  {
    if |b| >= 12 {
      assert (|b| - 4) % 8 == 0 <==> |b| % 8 == 4;
      assert Word32(b, 0) == VERSION <==> Holds32(b, 0, 2);
    }
    if |b| >= 12 && |b| % 8 == 4 {
      assert |Raw(b)| == |b| / 8;
      forall k | 0 <= k < |Raw(b)|
        ensures Legal(Raw(b)[k].tag) <==> KnownTag(b, k)
      {
        RawLayout(b, k);
      }
    }
  }

  lemma {:induction false} CanonReads(b: seq<Byte>, k: nat)
    requires Accepted(b) && k < |Raw(b)|
    ensures ReadsEntry(b, 4 + 8 * k, CanonAll(Raw(b))[k])
  {
    RawLayout(b, k);
    assert Legal(Raw(b)[k].tag);
  }

  /** The bytes of an ACL: the version 2, and then every entry in order, in that layout. */
  lemma {:induction false} EncodeLayout(es: seq<Entry>)
    ensures |Encode(es)| == 4 + 8 * |es| && Holds32(Encode(es), 0, 2)
    ensures forall k :: 0 <= k < |es| ==> HoldsEntry(Encode(es), 4 + 8 * k, es[k])
  {
    var b := Encode(es);
    assert b[0] == 2 && b[1] == 0 && b[2] == 0 && b[3] == 0;
    RawOfEncode(es);
    forall k | 0 <= k < |es|
      ensures HoldsEntry(b, 4 + 8 * k, es[k])
    {
      RawLayout(b, k);
    }
  }

  /** posix_acl_to_xattr; without a buffer only the size is told, and ERANGE is never a size. */
  method ToXattr(acl: seq<Entry>, buffer: array?<Byte>, size: nat) returns (r: nat)
    requires |acl| < 0x1000_0000 && (buffer != null ==> size <= buffer.Length)
    modifies if buffer == null then {} else {buffer}
    ensures buffer == null || 4 + 8 * |acl| <= size ==> r == |Encode(acl)|
    ensures r == ERANGE <==> buffer != null && 4 + 8 * |acl| > size
    ensures buffer != null && r != ERANGE ==> buffer[..r] == Encode(acl) && buffer[r..] == old(buffer[r..])
    ensures buffer != null && r == ERANGE ==> buffer[..] == old(buffer[..])
  {
    var realSize := 4 + 8 * |acl|;
    if buffer == null {
      return realSize;
    }
    if realSize > size {
      return ERANGE;
    }
    PutBytes(buffer, 0, Le32(VERSION), []);
    for n := 0 to |acl|
      invariant buffer[..4 + 8 * n] == Encode(acl[..n])
      invariant buffer[realSize..] == old(buffer[realSize..])
    {
      PutBytes(buffer, 4 + 8 * n, EntryBytes(acl[n]), Encode(acl[..n]));
      assert acl[..n + 1][..n] == acl[..n];
      assert Encode(acl[..n + 1]) == Encode(acl[..n]) + EntryBytes(acl[n]);
    }
    assert acl[..|acl|] == acl;
    return realSize;
  }

  method PutBytes(buffer: array<Byte>, at: nat, b: seq<Byte>, ghost before: seq<Byte>)
    requires at + |b| <= buffer.Length && buffer[..at] == before
    modifies buffer
    ensures buffer[..at + |b|] == before + b
    ensures forall i :: at + |b| <= i < buffer.Length ==> buffer[i] == old(buffer[i])
  {
    forall i | 0 <= i < |b| {
      buffer[at + i] := b[i];
    }
  }

  /** posix_acl_from_xattr: accepted or not, and what comes out. */
  method FromXattr(value: Option<seq<Byte>>) returns (r: Option<seq<Entry>>)
    requires value.Some? ==> |value.value| < 0x4_0000_0000
    ensures r.Some? <==> value.Some? && Accepted(value.value)
    ensures r.Some? ==> r.value == CanonAll(Raw(value.value))
    ensures r.Some? <==> value.Some? && WellFormed(value.value)
    ensures r.Some? ==> |r.value| == |value.value| / 8
    ensures r.Some? ==> forall k :: 0 <= k < |r.value| ==> ReadsEntry(value.value, 4 + 8 * k, r.value[k])
  {
    if value.Some? {
      AcceptedIsWellFormed(value.value);
      if Accepted(value.value) {
        forall k | 0 <= k < |Raw(value.value)|
          ensures ReadsEntry(value.value, 4 + 8 * k, CanonAll(Raw(value.value))[k])
        {
          CanonReads(value.value, k);
        }
      }
    }
    if value.None? || |value.value| < 4 {
      return None;
    }
    var b := value.value;
    if Word32(b, 0) != VERSION || (|b| - 4) % 8 != 0 {
      return None;
    }
    var count := (|b| - 4) / 8;
    if count == 0 {
      return None;
    }
    ghost var raw := Raw(b);
    var acl: seq<Entry> := [];
    for k := 0 to count
      invariant |acl| == k && forall i :: 0 <= i < k ==> Legal(raw[i].tag) && acl[i] == Canon(raw[i])
    {
      var e := EntryAt(b, 4 + 8 * k);
      assert e == raw[k];
      if Named(e.tag) {
        acl := acl + [e];
      } else if Legal(e.tag) {
        acl := acl + [e.(id := UNDEFINED_ID)];
      } else {
        return None;
      }
    }
    return Some(acl);
  }

  /** An ACL comes back from its encoding exactly when its unnamed entries have the undefined id. */
  lemma {:induction false} DecodeEncoded(acl: seq<Entry>)
    requires acl != [] && AllLegal(acl)
    ensures Accepted(Encode(acl))
    ensures CanonAll(Raw(Encode(acl))) == acl <==>
            forall i :: 0 <= i < |acl| && !Named(acl[i].tag) ==> acl[i].id == UNDEFINED_ID
  {
    RawOfEncode(acl);
    var b := Encode(acl);
    Word32OfLe(VERSION);
    assert b[0] == Le32(VERSION)[0] && b[1] == Le32(VERSION)[1] && b[2] == Le32(VERSION)[2] && b[3] == Le32(VERSION)[3];
    var c := CanonAll(acl);
    assert forall i :: 0 <= i < |acl| ==> (c[i] == acl[i] <==> (!Named(acl[i].tag) ==> acl[i].id == UNDEFINED_ID));
  }

  /** Accepted bytes encode to themselves, but for the ids of unnamed entries. */
  lemma {:induction false} EncodeDecoded(b: seq<Byte>)
    requires Accepted(b)
    ensures var c := Encode(CanonAll(Raw(b)));
            && |c| == |b| && (forall k :: 0 <= k < |Raw(b)| ==> EntryAt(c, 4 + 8 * k) == Canon(Raw(b)[k]))
            && (c == b <==> CanonAll(Raw(b)) == Raw(b))
  {
    var raw := Raw(b);
    var c := Encode(CanonAll(raw));
    EncodeOfRaw(b);
    RawOfEncode(raw);
    RawOfEncode(CanonAll(raw));
    assert |c| == |b|;
    forall k | 0 <= k < |raw|
      ensures EntryAt(c, 4 + 8 * k) == Canon(raw[k])
    {
      assert Raw(c)[k] == CanonAll(raw)[k];
    }
  }
}
