/**
 Listing a directory: the server hands out entries from a cookie on, the client copies them into
 a linked list and packs what fits into the reply, and the kernel asks again from the last cookie
 it got until a reply is empty.
 */
module Readdir {
  const NAME_MAX: nat := 255

  /** An entry of the directory as the server has it. */
  datatype Entry = Entry(name: string, fileid: nat, cookie: nat)

  /** What the kernel may be told of an entry: its number and cookie, and its name or the first 255 characters of it. */
  predicate CopyOf(c: Entry, e: Entry) {
    && c.fileid == e.fileid && c.cookie == e.cookie
    && |c.name| <= 255 && c.name <= e.name && (|c.name| < |e.name| ==> |c.name| == 255)
  }

  predicate CopiesOf(cs: seq<Entry>, es: seq<Entry>) {
    |cs| <= |es| && forall i :: 0 <= i < |cs| ==> CopyOf(cs[i], es[i])
  }

  /** strnlen and strncpy: names are cut after 255 characters. */
  function Cut(name: string): string {
    if |name| <= NAME_MAX then name else name[..NAME_MAX]
  }

  function Copied(e: Entry): (c: Entry)
    ensures CopyOf(c, e)
  {
    e.(name := Cut(e.name))
  }

  function CopiedAll(es: seq<Entry>): seq<Entry> {
    seq(|es|, i requires 0 <= i < |es| => Copied(es[i]))
  }

  /** What fuse_add_direntry needs: a 24-byte header and the name, rounded up to eight bytes. */
  function Need(e: Entry): (n: nat)
    ensures n % 8 == 0 && n - 8 < 24 + |e.name| <= n
  {
    (24 + |e.name| + 7) / 8 * 8
  }

  /** What the packing loop puts in a reply with this much room. */
  function Packed(es: seq<Entry>, room: nat): seq<Entry> {
    if es == [] || Need(es[0]) >= room then [] else [es[0]] + Packed(es[1..], room - Need(es[0]))
  }

  /** The entries before the first that is too big even for an empty reply. */
  function Fitting(es: seq<Entry>, size: nat): seq<Entry> {
    if es == [] || Need(es[0]) >= size then [] else [es[0]] + Fitting(es[1..], size)
  }

  class Ctx {
    var name: string
    var ino: nat
    var off: nat
    var next: Ctx?

    /** __alloc_copy_name without the linking, and the two fields set after it. */
    constructor (e: Entry)
      ensures CopyOf(Value(), e) && Value() == Copied(e) && next == null
    {
      name := if |e.name| <= NAME_MAX then e.name else e.name[..NAME_MAX];
      ino, off, next := e.fileid, e.cookie, null;
    }

    function Value(): Entry
      reads this
    {
      Entry(name, ino, off)
    }
  }

  ghost function At(nodes: seq<Ctx>, k: nat): Ctx? {
    if k < |nodes| then nodes[k] else null
  }

  /** The nodes are linked in this order, without repeats. */
  ghost predicate Linked(nodes: seq<Ctx>)
    reads nodes
  {
    && (forall i, j :: 0 <= i < j < |nodes| ==> nodes[i] != nodes[j])
    && (forall i {:trigger nodes[i].next} :: 0 <= i < |nodes| ==> nodes[i].next == At(nodes, i + 1))
  }

  ghost predicate Holds(nodes: seq<Ctx>, es: seq<Entry>)
    reads nodes
  {
    && |nodes| == |es|
    && forall i :: 0 <= i < |nodes| ==> CopyOf(nodes[i].Value(), es[i]) && nodes[i].Value() == Copied(es[i])
  }

  /** A list under construction: `head` and `last` are its ends. */
  ghost predicate Built(nodes: seq<Ctx>, es: seq<Entry>, head: Ctx?, last: Ctx?)
    reads nodes
  {
    && Linked(nodes) && Holds(nodes, es) && head == At(nodes, 0)
    && last == (if nodes == [] then null else nodes[|nodes| - 1])
  }

  /** A node goes behind the last one; the first one is the head. */
  method Append(head: Ctx?, last: Ctx?, e: Entry, ghost nodes: seq<Ctx>, ghost es: seq<Entry>)
    returns (first: Ctx, ctx: Ctx)
    requires Built(nodes, es, head, last)
    modifies nodes
    ensures fresh(ctx) && Built(nodes + [ctx], es + [e], first, ctx)
  {
    ctx := new Ctx(e);
    if last != null {
      last.next := ctx;
    }
    first := if head == null then ctx else head;
    ghost var more := nodes + [ctx];
    forall i | 0 <= i < |more|
      ensures more[i].next == At(more, i + 1) && more[i].Value() == Copied((es + [e])[i])
    {
      if i < |nodes| {
        assert nodes[i].Value() == Copied(es[i]);
        if i + 1 < |nodes| {
          assert nodes[i] != last;
        }
      }
    }
  }

  /** The loop of hsi_nfs3_readdir: the entries of the reply become a list, in order. */
  method BuildList(es: seq<Entry>) returns (head: Ctx?, ghost nodes: seq<Ctx>)
    ensures fresh(nodes) && Linked(nodes) && Holds(nodes, es) && head == At(nodes, 0)
  {
    head, nodes := null, [];
    var last: Ctx? := null;
    ghost var done: seq<Entry> := [];
    for k := 0 to |es|
      invariant fresh(nodes) && Built(nodes, done, head, last)
      invariant |done| == k && forall i :: 0 <= i < k ==> done[i] == es[i]
    {
      var first, ctx := Append(head, last, es[k], nodes, done);
      head, last := first, ctx;
      nodes, done := nodes + [ctx], done + [es[k]];
    }
    assert done == es;
  }

  lemma {:induction false} PackedStep(es: seq<Entry>, k: nat, room: nat)
    requires k < |es|
    ensures Packed(es[k..], room) ==
            if Need(es[k]) >= room then [] else [es[k]] + Packed(es[k + 1..], room - Need(es[k]))
  {
    assert es[k..][1..] == es[k + 1..];
  }

  /** The room that entries take in a reply. */
  function Total(es: seq<Entry>): nat {
    if es == [] then 0 else Need(es[0]) + Total(es[1..])
  }

  /** A reply holds as many entries as leave room, and the next one would not. */
  lemma {:induction false} PackedFills(es: seq<Entry>, room: nat)
    ensures var p := Packed(es, room);
            && p <= es && (p != [] ==> Total(p) < room)
            && (|p| < |es| ==> Total(p) + Need(es[|p|]) >= room)
  {
    if es != [] && Need(es[0]) < room {
      PackedFills(es[1..], room - Need(es[0]));
      assert es == [es[0]] + es[1..];
      var p := Packed(es, room);
      assert p[1..] == Packed(es[1..], room - Need(es[0]));
    }
  }

  /** The packing loop of hsx_fuse_readdir, over the list. */
  method Pack(head: Ctx?, size: nat, ghost nodes: seq<Ctx>, ghost es: seq<Entry>) returns (reply: seq<Entry>)
    requires Linked(nodes) && Holds(nodes, es) && head == At(nodes, 0)
    ensures reply == Packed(CopiedAll(es), size)
  {
    ghost var all := CopiedAll(es);
    var ctx, len := head, 0;
    ghost var k := 0;
    reply := [];
    assert all[0..] == all;
    while ctx != null
      invariant 0 <= k <= |nodes| && ctx == At(nodes, k) && len <= size
      invariant Packed(all, size) == reply + Packed(all[k..], size - len)
      decreases |nodes| - k
    {
      PackedStep(all, k, size - len);
      var e := ctx.Value();
      assert e == all[k];
      var res := Need(e);
      if res >= size - len {
        break;
      }
      reply := reply + [e];
      len := len + res;
      ctx := ctx.next;
      k := k + 1;
    }
  }

  // ---- the server and the kernel ----

  function After(dir: seq<Entry>, cookie: nat): seq<Entry> {
    if dir == [] then [] else if dir[0].cookie == cookie then dir[1..] else After(dir[1..], cookie)
  }

  /** The entries a READDIR from this cookie can return. */
  function From(dir: seq<Entry>, cookie: nat): seq<Entry> {
    if cookie == 0 then dir else After(dir, cookie)
  }

  /** The server returns as many of them as it likes, but one at least. */
  function Chunk(rest: seq<Entry>, n: nat): (c: seq<Entry>)
    ensures c <= rest && (rest != [] ==> c != [])
  {
    rest[..if n >= |rest| then |rest| else if n == 0 then 1 else n]
  }

  /** Cookies tell entries apart, and none is the one that means the start. */
  predicate Cookies(dir: seq<Entry>) {
    && (forall i :: 0 <= i < |dir| ==> dir[i].cookie != 0)
    && (forall i, j :: 0 <= i < j < |dir| ==> dir[i].cookie != dir[j].cookie)
  }

  lemma {:induction false} FromLast(dir: seq<Entry>, k: nat)
    requires Cookies(dir) && k < |dir|
    ensures After(dir, dir[k].cookie) == dir[k + 1..]
    decreases |dir|
  {
    if k > 0 {
      FromLast(dir[1..], k - 1);
    }
  }

  /** hsx_fuse_readdir from `off`, when the server's answer has up to n entries. */
  method FuseReaddir(dir: seq<Entry>, off: nat, n: nat, size: nat) returns (reply: seq<Entry>)
    ensures reply == Packed(CopiedAll(Chunk(From(dir, off), n)), size) && CopiesOf(reply, From(dir, off))
  {
    var es := Chunk(From(dir, off), n);
    var head, nodes := BuildList(es);
    reply := Pack(head, size, nodes, es);
    PackedPrefix(CopiedAll(es), size);
  }

  // ---- the whole listing ----

  /** A reply is a prefix of what was there, and each entry of it fits an empty reply. */
  lemma {:induction false} PackedPrefix(es: seq<Entry>, room: nat)
    ensures var p := Packed(es, room);
            && p <= es && (forall i :: 0 <= i < |p| ==> Need(p[i]) < room)
            && (p == [] <==> es == [] || Need(es[0]) >= room)
  {
    if es != [] && Need(es[0]) < room {
      PackedPrefix(es[1..], room - Need(es[0]));
      assert es == [es[0]] + es[1..];
    }
  }

  lemma {:induction false} FittingAppend(p: seq<Entry>, q: seq<Entry>, size: nat)
    requires forall i :: 0 <= i < |p| ==> Need(p[i]) < size
    ensures Fitting(p + q, size) == p + Fitting(q, size)
  {
    if p == [] {
      assert p + q == q;
    } else {
      FittingAppend(p[1..], q, size);
      assert (p + q)[1..] == p[1..] + q;
      assert p == [p[0]] + p[1..];
    }
  }

  /** One reply further: it continues the listing, and it is empty only at the end. */
  lemma {:induction false} OneReply(dir: seq<Entry>, k: nat, n: nat, size: nat)
    requires k <= |dir|
    ensures var all, reply := CopiedAll(dir), Packed(CopiedAll(Chunk(dir[k..], n)), size);
            && k + |reply| <= |dir| && reply == all[k..k + |reply|]
            && Fitting(all[k..], size) == reply + Fitting(all[k + |reply|..], size)
            && (reply == [] ==> Fitting(all[k..], size) == [])
  {
    var all, chunk := CopiedAll(dir), CopiedAll(Chunk(dir[k..], n));
    var reply := Packed(chunk, size);
    PackedPrefix(chunk, size);
    assert chunk <= all[k..];
    var m := |reply|;
    assert reply == all[k..k + m];
    FittingAppend(reply, all[k + m..], size);
    assert reply + all[k + m..] == all[k..];
  }

  /** The state of a listing: `out` was delivered, and the next reply starts at entry k. */
  ghost predicate Listed(dir: seq<Entry>, size: nat, k: nat, off: nat, out: seq<Entry>) {
    && k <= |dir| && From(dir, off) == dir[k..]
    && Fitting(CopiedAll(dir), size) == out + Fitting(CopiedAll(dir)[k..], size)
  }

  lemma {:induction false} ListedOneMore(dir: seq<Entry>, size: nat, k: nat, off: nat,
                                         out: seq<Entry>, n: nat, reply: seq<Entry>)
    requires Cookies(dir) && Listed(dir, size, k, off, out)
    requires reply == Packed(CopiedAll(Chunk(From(dir, off), n)), size)
    ensures reply == [] ==> out == Fitting(CopiedAll(dir), size)
    ensures reply != [] ==> Listed(dir, size, k + |reply|, reply[|reply| - 1].cookie, out + reply)
  {
    OneReply(dir, k, n, size);
    if reply == [] {
      assert out + [] == out;
    } else {
      ListedFurther(dir, size, k, off, out, reply);
    }
  }

  lemma {:induction false} ListedFurther(dir: seq<Entry>, size: nat, k: nat, off: nat, out: seq<Entry>,
                                         reply: seq<Entry>)
    requires Cookies(dir) && Listed(dir, size, k, off, out) && reply != [] && k + |reply| <= |dir|
    requires var all, m := CopiedAll(dir), k + |reply|;
             reply == all[k..m] && Fitting(all[k..], size) == reply + Fitting(all[m..], size)
    ensures Listed(dir, size, k + |reply|, reply[|reply| - 1].cookie, out + reply)
  {
    var m := k + |reply|;
    assert reply[|reply| - 1].cookie == dir[m - 1].cookie by {
      assert reply[|reply| - 1] == CopiedAll(dir)[m - 1] == Copied(dir[m - 1]);
    }
    FromLast(dir, m - 1);
    AppendTwice(out, reply, Fitting(CopiedAll(dir)[m..], size));
  }

  lemma {:induction false} AppendTwice(a: seq<Entry>, b: seq<Entry>, c: seq<Entry>)
    ensures a + (b + c) == a + b + c
  {
  }

  lemma {:induction false} ListedStart(dir: seq<Entry>, size: nat)
    requires Cookies(dir)
    ensures Listed(dir, size, 0, 0, [])
  {
    assert dir[0..] == dir && CopiedAll(dir)[0..] == CopiedAll(dir);
    assert [] + Fitting(CopiedAll(dir), size) == Fitting(CopiedAll(dir), size);
  }

  /**
   What a listing is: the entries of the directory from the first on, in order and once each, up to
   one whose copy is too big for a reply.
   */
  ghost predicate Listing(out: seq<Entry>, dir: seq<Entry>, size: nat) {
    && CopiesOf(out, dir) && (forall i :: 0 <= i < |out| ==> Need(out[i]) < size)
    && (|out| < |dir| ==> exists c :: CopyOf(c, dir[|out|]) && Need(c) >= size)
  }

  lemma {:induction false} FittingStops(es: seq<Entry>, size: nat)
    ensures var f := Fitting(es, size);
            && f <= es && (forall i :: 0 <= i < |f| ==> Need(f[i]) < size)
            && (|f| < |es| ==> Need(es[|f|]) >= size)
  {
    if es != [] && Need(es[0]) < size {
      FittingStops(es[1..], size);
      assert es == [es[0]] + es[1..];
    }
  }

  lemma {:induction false} FittingIsListing(dir: seq<Entry>, size: nat)
    ensures Listing(Fitting(CopiedAll(dir), size), dir, size)
  {
    var all := CopiedAll(dir);
    var out := Fitting(all, size);
    FittingStops(all, size);
    if |out| < |dir| {
      assert CopyOf(all[|out|], dir[|out|]);
    }
  }

  /** Replies over 280 bytes hold every entry, and entries with names that need no cut are as the server has them. */
  lemma {:induction false} ListingIsDirectory(out: seq<Entry>, dir: seq<Entry>, size: nat)
    requires Listing(out, dir, size) && size > 280
    ensures |out| == |dir| && forall i :: 0 <= i < |dir| ==> CopyOf(out[i], dir[i])
    ensures (forall i :: 0 <= i < |dir| ==> |dir[i].name| <= 255) ==> out == dir
  {
    if forall i :: 0 <= i < |dir| ==> |dir[i].name| <= 255 {
      forall i | 0 <= i < |dir|
        ensures out[i] == dir[i]
      {
        assert CopyOf(out[i], dir[i]);
      }
    }
  }

  /**
   The kernel's listing: it gets, in order and once each, the entries before the first that is
   too big for a reply, however the server cuts its answers.
   */
  method List(dir: seq<Entry>, answers: seq<nat>, size: nat) returns (out: seq<Entry>)
    requires Cookies(dir)
    ensures out == Fitting(CopiedAll(dir), size) && Listing(out, dir, size)
    ensures size > 280 ==> |out| == |dir|
    ensures size > 280 && (forall i :: 0 <= i < |dir| ==> |dir[i].name| <= 255) ==> out == dir
  {
    ghost var k := 0;
    var off, round := 0, 0;
    out := [];
    ListedStart(dir, size);
    while true
      invariant 0 <= k && Listed(dir, size, k, off, out)
      decreases |dir| - k
    {
      var n := if round < |answers| then answers[round] else |dir|;
      var reply := FuseReaddir(dir, off, n, size);
      ListedOneMore(dir, size, k, off, out, n, reply);
      if reply == [] {
        break;
      }
      k := k + |reply|;
      out := out + reply;
      off, round := reply[|reply| - 1].cookie, round + 1;
    }
    FittingIsListing(dir, size);
    if size > 280 {
      ListingIsDirectory(out, dir, size);
    }
  }

  lemma {:induction false} FittingAll(es: seq<Entry>, size: nat)
    ensures Fitting(es, size) == es <==> forall i :: 0 <= i < |es| ==> Need(es[i]) < size
  {
    if es != [] {
      FittingAll(es[1..], size);
      assert es == [es[0]] + es[1..];
    }
  }

  /** The listing is complete exactly when every entry fits; replies over 280 bytes always do. */
  lemma {:induction false} Complete(dir: seq<Entry>, size: nat)
    ensures Fitting(CopiedAll(dir), size) == CopiedAll(dir) <==>
            forall i :: 0 <= i < |dir| ==> Need(Copied(dir[i])) < size
    ensures size > 280 ==> Fitting(CopiedAll(dir), size) == CopiedAll(dir)
  {
    var all := CopiedAll(dir);
    FittingAll(all, size);
    forall i | 0 <= i < |dir|
      ensures all[i] == Copied(dir[i]) && Need(all[i]) <= 280
    {
    }
  }
}
