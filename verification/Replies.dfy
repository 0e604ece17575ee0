/**
 Replies to NFSv4 COMPOUND requests, as far as they steer the client, and what a server answers
 when a path leads through a symbolic link (sections 14.2.13 and 14.2.7 of RFC 3530).
 */
module Replies {
  const NFS4_OK: int := 0
  const NFS4ERR_SYMLINK: int := 10029

  /** One result of a COMPOUND reply. */
  datatype ResOp =
    | LookupRes(status: int)
    | GetattrRes(parses: bool, link: bool)
    | OpenRes(status: int, confirm: bool)
    | AccessRes(supported: nat, access: nat)
    | GetfhRes
    | ReadlinkRes(text: string)
    | OpenConfirmRes
    | ReaddirRes(entries: seq<bool>, eof: bool)  // per entry: do its attributes parse
    | OtherRes

  datatype Res = Res(status: int, ops: seq<ResOp>)

  datatype Kind = KLookup | KGetattr | KOpen | KAccess | KGetfh | KReadlink | KOpenConfirm | KReaddir | KOther

  function KindOf(op: ResOp): Kind {
    match op
    case LookupRes(_) => KLookup
    case GetattrRes(_, _) => KGetattr
    case OpenRes(_, _) => KOpen
    case AccessRes(_, _) => KAccess
    case GetfhRes => KGetfh
    case ReadlinkRes(_) => KReadlink
    case OpenConfirmRes => KOpenConfirm
    case ReaddirRes(_, _) => KReaddir
    case OtherRes => KOther
  }

  /** The first result of a kind, or -1. */
  function Find(ops: seq<ResOp>, kind: Kind): (i: int)
    ensures -1 <= i < |ops| && (i >= 0 ==> KindOf(ops[i]) == kind)
    ensures i < 0 <==> forall j :: 0 <= j < |ops| ==> KindOf(ops[j]) != kind
    ensures forall j :: 0 <= j < i ==> KindOf(ops[j]) != kind
  {
    if ops == [] then -1
    else if KindOf(ops[0]) == kind then 0
    else var r := Find(ops[1..], kind); if r < 0 then -1 else 1 + r
  }

  predicate OpenFailedOnLink(op: ResOp) {
    op.OpenRes? && op.status == NFS4ERR_SYMLINK
  }

  /** The final component of an open is a symbolic link. */
  predicate OpenOnLink(ops: seq<ResOp>) {
    exists i :: 0 <= i < |ops| && OpenFailedOnLink(ops[i])
  }

  predicate HasLinkAttr(ops: seq<ResOp>) {
    exists i :: 0 <= i < |ops| && ops[i].GetattrRes? && ops[i].link
  }

  predicate AttrsParse(ops: seq<ResOp>) {
    forall i :: 0 <= i < |ops| && ops[i].GetattrRes? ==> ops[i].parses
  }

  predicate FailedLookup(op: ResOp) {
    op.LookupRes? && op.status == NFS4ERR_SYMLINK
  }

  predicate HasFailedLookup(ops: seq<ResOp>) {
    exists i :: 0 <= i < |ops| && FailedLookup(ops[i])
  }

  /** The LOOKUP results before the one that failed on a link, or all of them. */
  function LinkIndex(ops: seq<ResOp>): nat {
    if ops == [] || FailedLookup(ops[0]) then 0
    else (if ops[0].LookupRes? then 1 else 0) + LinkIndex(ops[1..])
  }

  function LookupCount(ops: seq<ResOp>): nat {
    if ops == [] then 0 else (if ops[0].LookupRes? then 1 else 0) + LookupCount(ops[1..])
  }

  /** The names before the link are no more than the LOOKUPs answered, and fewer when one of them failed on it. */
  lemma {:induction false} LinkIndexBound(ops: seq<ResOp>)
    ensures LinkIndex(ops) <= LookupCount(ops)
    ensures HasFailedLookup(ops) ==> LinkIndex(ops) < LookupCount(ops)
  {
    if ops != [] && !FailedLookup(ops[0]) {
      LinkIndexBound(ops[1..]);
      if HasFailedLookup(ops) {
        var i :| 0 <= i < |ops| && FailedLookup(ops[i]);
        assert ops[1..][i - 1] == ops[i];
      }
    }
  }

  /** The scan for the first LOOKUP that failed on a link, which counts the LOOKUPs before it. */
  method FindFailedLookup(ops: seq<ResOp>) returns (i: nat, idx: nat)
    ensures i <= |ops| && (i < |ops| <==> HasFailedLookup(ops)) && idx == LinkIndex(ops)
  {
    i, idx := 0, 0;
    assert ops[0..] == ops;
    while i < |ops| && !FailedLookup(ops[i])
      invariant 0 <= i <= |ops| && forall j :: 0 <= j < i ==> !FailedLookup(ops[j])
      invariant LinkIndex(ops) == idx + LinkIndex(ops[i..])
    {
      assert ops[i..][1..] == ops[i + 1..];
      idx := idx + if ops[i].LookupRes? then 1 else 0;
      i := i + 1;
    }
  }

  // ---- what the server answers ----

  /**
   `isLink[k]` says whether the object reached by the first `k` names is a symbolic link.
   A LOOKUP in a link fails with NFS4ERR_SYMLINK and ends the compound.
   */
  function LookupReplies(isLink: seq<bool>, k: nat): (rs: seq<ResOp>)
    requires k < |isLink|
    decreases |isLink| - k
  {
    if k == |isLink| - 1 then []
    else if isLink[k] then [LookupRes(NFS4ERR_SYMLINK)]
    else [LookupRes(NFS4_OK)] + LookupReplies(isLink, k + 1)
  }

  /** The first link on the way, or the number of objects when there is none. */
  function FirstLink(isLink: seq<bool>, k: nat): (m: nat)
    requires k <= |isLink|
    ensures k <= m <= |isLink| && (m < |isLink| ==> isLink[m])
    ensures forall j :: k <= j < m ==> !isLink[j]
    decreases |isLink| - k
  {
    if k == |isLink| || isLink[k] then k else FirstLink(isLink, k + 1)
  }

  /** What the filler's operations may answer once the last object is known to be a link. */
  predicate FillerOnLink(fs: seq<ResOp>) {
    forall j :: 0 <= j < |fs| ==>
      !fs[j].GetattrRes? && (fs[j].LookupRes? ==> j == 0 && FailedLookup(fs[j]))
  }

  /** The results of a lookup compound that meets a link. */
  function LinkReply(isLink: seq<bool>, fs: seq<ResOp>): (rs: seq<ResOp>)
    requires isLink != []
  {
    [OtherRes] + LookupReplies(isLink, 0) +
    if FirstLink(isLink, 0) == |isLink| - 1 then [GetattrRes(true, true)] + fs else []
  }

  lemma {:induction false} IndexOfLookups(isLink: seq<bool>, k: nat, tail: seq<ResOp>)
    requires k < |isLink|
    ensures var m := FirstLink(isLink, k);
            LinkIndex(LookupReplies(isLink, k) + tail) ==
            if m < |isLink| - 1 then m - k else |isLink| - 1 - k + LinkIndex(tail)
    decreases |isLink| - k
  {
    var rs := LookupReplies(isLink, k) + tail;
    if k == |isLink| - 1 {
      assert rs == tail;
    } else if isLink[k] {
      assert rs[0] == LookupRes(NFS4ERR_SYMLINK);
    } else {
      IndexOfLookups(isLink, k + 1, tail);
      assert rs[0] == LookupRes(NFS4_OK);
      assert rs[1..] == LookupReplies(isLink, k + 1) + tail;
    }
  }

  lemma {:induction false} NoLookupCounted(fs: seq<ResOp>)
    requires forall j :: 0 <= j < |fs| ==> !fs[j].LookupRes?
    ensures LinkIndex(fs) == 0
  {
    if fs != [] {
      NoLookupCounted(fs[1..]);
    }
  }

  lemma {:induction false} FailsAtLink(isLink: seq<bool>, k: nat)
    requires k < |isLink| && FirstLink(isLink, k) < |isLink| - 1
    ensures LookupReplies(isLink, k) != []
    ensures var rs := LookupReplies(isLink, k); rs[|rs| - 1] == LookupRes(NFS4ERR_SYMLINK)
    decreases |isLink| - k
  {
    if !isLink[k] {
      FailsAtLink(isLink, k + 1);
    }
  }

  lemma {:induction false} OnlyLookups(isLink: seq<bool>, k: nat)
    requires k < |isLink|
    ensures forall j :: 0 <= j < |LookupReplies(isLink, k)| ==> LookupReplies(isLink, k)[j].LookupRes?
    decreases |isLink| - k
  {
    if k < |isLink| - 1 && !isLink[k] {
      OnlyLookups(isLink, k + 1);
    }
  }

  /**
   Whatever is a link and whatever the filler is, a reply that meets a link makes the client
   follow, and the count it takes from the results is the number of names that lead to the
   first link.  The cut after the link is made exactly when the link is not the last object.
   */
  lemma {:induction false} CountSelectsLink(isLink: seq<bool>, fs: seq<ResOp>)
    requires isLink != [] && !isLink[0] && FirstLink(isLink, 0) < |isLink| && FillerOnLink(fs)
    ensures var m := FirstLink(isLink, 0);
            var rs := LinkReply(isLink, fs);
            && LinkIndex(rs) == m >= 1
            && (m < |isLink| - 1 ==> HasFailedLookup(rs))
            && (m == |isLink| - 1 <==> HasLinkAttr(rs))
  {
    var m := FirstLink(isLink, 0);
    var tail := if m == |isLink| - 1 then [GetattrRes(true, true)] + fs else [];
    var rs := LinkReply(isLink, fs);
    var head := LookupReplies(isLink, 0);
    assert rs == [OtherRes] + (head + tail);
    assert rs[1..] == head + tail;
    IndexOfLookups(isLink, 0, tail);
    if m == |isLink| - 1 {
      assert rs[1 + |head|] == tail[0];
      assert tail[1..] == fs;
      if fs != [] && fs[0].LookupRes? {
        assert LinkIndex(fs) == 0;
      } else {
        NoLookupCounted(fs);
      }
    } else {
      FailsAtLink(isLink, 0);
      assert rs[|head|] == head[|head| - 1];
      OnlyLookups(isLink, 0);
      assert forall j :: 1 <= j < |rs| ==> rs[j] == head[j - 1];
    }
  }

  /** Its attributes can be read, and when the link is not the last object no OPEN is answered. */
  lemma {:induction false} LinkReplyPlain(isLink: seq<bool>, fs: seq<ResOp>)
    requires isLink != [] && FillerOnLink(fs)
    ensures AttrsParse(LinkReply(isLink, fs))
    ensures FirstLink(isLink, 0) != |isLink| - 1 ==> !OpenOnLink(LinkReply(isLink, fs))
  {
    var head, rs := LookupReplies(isLink, 0), LinkReply(isLink, fs);
    OnlyLookups(isLink, 0);
    assert forall j :: 1 <= j <= |head| ==> rs[j] == head[j - 1];
    if FirstLink(isLink, 0) == |isLink| - 1 {
      assert rs == ([OtherRes] + head + [GetattrRes(true, true)]) + fs;
    }
  }

  lemma {:induction false} CountOfLookups(isLink: seq<bool>, k: nat)
    requires k < |isLink|
    ensures LookupCount(LookupReplies(isLink, k)) <= |isLink| - 1 - k
    decreases |isLink| - k
  {
    if k < |isLink| - 1 && !isLink[k] {
      CountOfLookups(isLink, k + 1);
      assert LookupReplies(isLink, k)[1..] == LookupReplies(isLink, k + 1);
    }
  }

  /** When the link is not the last object, no more LOOKUPs are answered than there are names. */
  lemma {:induction false} LookupsAnswered(isLink: seq<bool>, fs: seq<ResOp>)
    requires isLink != [] && FirstLink(isLink, 0) != |isLink| - 1
    ensures LookupCount(LinkReply(isLink, fs)) <= |isLink| - 1
  {
    CountOfLookups(isLink, 0);
    assert LinkReply(isLink, fs)[1..] == LookupReplies(isLink, 0);
  }
}
