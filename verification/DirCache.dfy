/**
 The cache of directory listings: a singly linked list on the heap, newest first, kept short
 by evicting its oldest entry.  `dirs` is the list it stands for.
 */
module DirCache {
  import opened Options

  type Handle = seq<int>

  const MAX_DIR_CACHE: nat := 128

  class NfsDir {
    const fh: Handle
    var next: NfsDir?

    constructor (fh: Handle)
      ensures this.fh == fh && next == null
    {
      this.fh := fh;
      next := null;
    }
  }

  // ---- the list as a value ----

  function Added<T>(s: seq<T>, d: T): seq<T> {
    var all := [d] + s;
    if |all| > MAX_DIR_CACHE + 1 then all[..MAX_DIR_CACHE + 1] else all
  }

  function Without<T>(s: seq<T>, k: nat): (r: seq<T>)
    requires k < |s|
    ensures |r| == |s| - 1
    ensures forall i :: 0 <= i < |r| ==> r[i] == if i < k then s[i] else s[i + 1]
  {
    s[..k] + s[k + 1..]
  }

  /** The newest entry with the handle, or the length of the list when there is none. */
  ghost function Newest(s: seq<NfsDir>, fh: Handle): (k: nat)
    ensures k <= |s| && (k < |s| ==> s[k].fh == fh)
    ensures forall i :: 0 <= i < k ==> s[i].fh != fh
  {
    if s == [] || s[0].fh == fh then 0 else 1 + Newest(s[1..], fh)
  }

  ghost predicate Distinct<T>(s: seq<T>) {
    forall i, j :: 0 <= i < j < |s| ==> s[i] != s[j]
  }

  /** The nodes are chained in order and all different. */
  ghost predicate Chained(h: NfsDir?, s: seq<NfsDir>)
    reads s
  {
    && (if s == [] then h == null else h == s[0] && s[|s| - 1].next == null)
    && (forall i {:trigger s[i].next} :: 0 <= i < |s| - 1 ==> s[i].next == s[i + 1])
    && Distinct(s)
  }

  // ---- where every directory is, over whole runs ----

  /** `held` are the directories the application has open; `freed` those that are gone. */
  datatype Places = Places(cached: seq<NfsDir>, held: set<NfsDir>, freed: set<NfsDir>)

  datatype Op =
    | Opened(dir: NfsDir)  // a listing was read from the server
    | Close(dir: NfsDir)   // closing adds it to the cache
    | Reopen(fh: Handle)   // opening again takes it from the cache
    | Drop(fh: Handle)     // a change to the directory drops it

  /** New directories are new; only directories the application holds are closed. */
  ghost predicate Enabled(p: Places, op: Op) {
    match op
    case Opened(d) => d !in p.cached && d !in p.held && d !in p.freed
    case Close(d) => d in p.held
    case Reopen(_) => true
    case Drop(_) => true
  }

  /** The effect of one operation: Add, Find and Drop of the cache with their owner's view. */
  ghost function Moved(p: Places, op: Op): Places {
    match op
    case Opened(d) => p.(held := p.held + {d})
    case Close(d) =>
      var evicted := if |p.cached| > MAX_DIR_CACHE then {p.cached[|p.cached| - 1]} else {};
      Places(Added(p.cached, d), p.held - {d}, p.freed + evicted)
    case Reopen(fh) =>
      var k := Newest(p.cached, fh);
      if k == |p.cached| then p else p.(cached := Without(p.cached, k), held := p.held + {p.cached[k]})
    case Drop(fh) =>
      var k := Newest(p.cached, fh);
      if k == |p.cached| then p else p.(cached := Without(p.cached, k), freed := p.freed + {p.cached[k]})
  }

  ghost function AllOf(p: Places): set<NfsDir> {
    (set d | d in p.cached) + p.held + p.freed
  }

  /** Every directory is in exactly one place, and the cache is bounded. */
  ghost predicate Separate(p: Places) {
    && Distinct(p.cached) && |p.cached| <= MAX_DIR_CACHE + 1
    && (forall d :: d in p.cached ==> d !in p.held && d !in p.freed)
    && p.held !! p.freed
  }

  lemma {:induction false} MoveKeepsSeparate(p: Places, op: Op)
    requires Separate(p) && Enabled(p, op)
    ensures Separate(Moved(p, op))
    ensures AllOf(Moved(p, op)) == AllOf(p) + if op.Opened? then {op.dir} else {}
  {
    match op
    case Opened(_) =>
    case Close(d) => CloseKeepsSeparate(p, d);
    case Reopen(fh) => ReopenKeepsSeparate(p, fh);
    case Drop(fh) => DropKeepsSeparate(p, fh);
  }

  lemma {:induction false} CloseKeepsSeparate(p: Places, d: NfsDir)
    requires Separate(p) && d in p.held
    ensures Separate(Moved(p, Close(d))) && AllOf(Moved(p, Close(d))) == AllOf(p)
  {
    AddedMembers(p.cached, d);
  }

  lemma {:induction false} ReopenKeepsSeparate(p: Places, fh: Handle)
    requires Separate(p)
    ensures Separate(Moved(p, Reopen(fh))) && AllOf(Moved(p, Reopen(fh))) == AllOf(p)
  {
    WithoutMembers(p.cached, Newest(p.cached, fh));
  }

  lemma {:induction false} DropKeepsSeparate(p: Places, fh: Handle)
    requires Separate(p)
    ensures Separate(Moved(p, Drop(fh))) && AllOf(Moved(p, Drop(fh))) == AllOf(p)
  {
    WithoutMembers(p.cached, Newest(p.cached, fh));
  }

  /** Adding loses no directory but the one it evicts. */
  lemma {:induction false} AddedMembers(s: seq<NfsDir>, d: NfsDir)
    requires Distinct(s) && d !in s && |s| <= MAX_DIR_CACHE + 1
    ensures Distinct(Added(s, d)) && |Added(s, d)| <= MAX_DIR_CACHE + 1
    ensures |s| <= MAX_DIR_CACHE ==> forall e :: e in Added(s, d) <==> e == d || e in s
    ensures |s| > MAX_DIR_CACHE ==> forall e :: e in Added(s, d) <==> e == d || (e in s && e != s[|s| - 1])
  {
    var all, r := [d] + s, Added(s, d);
    assert forall i :: 0 <= i < |r| ==> r[i] == all[i];
    assert forall i :: 1 <= i < |all| ==> all[i] == s[i - 1];
    assert r[0] == d;
    forall e | e in r && e != d
      ensures e in s && (|s| > MAX_DIR_CACHE ==> e != s[|s| - 1])
    {
      var i :| 0 <= i < |r| && r[i] == e;
      assert e == s[i - 1];
    }
    forall e | e in s && (|s| <= MAX_DIR_CACHE || e != s[|s| - 1])
      ensures e in r
    {
      var i :| 0 <= i < |s| && s[i] == e;
      assert r[i + 1] == e;
    }
  }

  lemma {:induction false} WithoutMembers(s: seq<NfsDir>, k: nat)
    requires Distinct(s)
    ensures k < |s| ==> Distinct(Without(s, k)) && s[k] !in Without(s, k)
    ensures k < |s| ==> forall d :: d in s <==> d in Without(s, k) || d == s[k]
  {
    if k < |s| {
      var r := Without(s, k);
      forall d | d in s && d != s[k]
        ensures d in r
      {
        var i :| 0 <= i < |s| && s[i] == d;
        assert d == if i < k then r[i] else r[i - 1];
      }
    }
  }

  ghost predicate Possible(p: Places, ops: seq<Op>)
    decreases |ops|
  {
    ops == [] || (Enabled(p, ops[0]) && Possible(Moved(p, ops[0]), ops[1..]))
  }

  ghost function Final(p: Places, ops: seq<Op>): Places
    decreases |ops|
  {
    if ops == [] then p else Final(Moved(p, ops[0]), ops[1..])
  }

  /**
   Over every run of opening, closing, reopening and dropping, each directory ever opened is in
   exactly one place: cached, held by the application, or freed.
   */
  lemma {:induction false} NeverInTwoPlaces(p: Places, ops: seq<Op>)
    requires Separate(p) && Possible(p, ops)
    ensures Separate(Final(p, ops))
    ensures forall d :: d in AllOf(Final(p, ops)) <==> d in AllOf(p) || Opened(d) in ops
    decreases |ops|
  {
    if ops != [] {
      MoveKeepsSeparate(p, ops[0]);
      NeverInTwoPlaces(Moved(p, ops[0]), ops[1..]);
      assert ops == [ops[0]] + ops[1..];
    }
  }

  // ---- the order of the list ----

  /** When a directory was last closed: how many operations there were up to then, or 0. */
  ghost function ClosedAt(ops: seq<Op>, d: NfsDir): nat {
    if ops == [] then 0
    else if ops[|ops| - 1] == Close(d) then |ops|
    else ClosedAt(ops[..|ops| - 1], d)
  }

  lemma {:induction false} ClosedBefore(ops: seq<Op>, d: NfsDir)
    ensures ClosedAt(ops, d) <= |ops|
  {
    if ops != [] && ops[|ops| - 1] != Close(d) {
      ClosedBefore(ops[..|ops| - 1], d);
    }
  }

  /** The list is in the order of closing, the last one first. */
  ghost predicate InOrder(s: seq<NfsDir>, ops: seq<Op>) {
    && (forall i :: 0 <= i < |s| ==> ClosedAt(ops, s[i]) > 0)
    && (forall i, j :: 0 <= i < j < |s| ==> ClosedAt(ops, s[i]) > ClosedAt(ops, s[j]))
  }

  lemma {:induction false} OneMoreOp(ops: seq<Op>, op: Op, d: NfsDir)
    ensures ClosedAt(ops + [op], d) == if op == Close(d) then |ops| + 1 else ClosedAt(ops, d)
  {
    assert (ops + [op])[..|ops|] == ops;
  }

  /** Operations that do not close what is in the list leave its order alone. */
  lemma {:induction false} OrderStays(s: seq<NfsDir>, ops: seq<Op>, op: Op)
    requires InOrder(s, ops) && (op.Close? ==> op.dir !in s)
    ensures InOrder(s, ops + [op])
  {
    forall i | 0 <= i < |s|
      ensures ClosedAt(ops + [op], s[i]) == ClosedAt(ops, s[i])
    {
      OneMoreOp(ops, op, s[i]);
    }
  }

  lemma {:induction false} PrefixInOrder(s: seq<NfsDir>, r: seq<NfsDir>, ops: seq<Op>)
    requires InOrder(s, ops) && r <= s
    ensures InOrder(r, ops)
  {
  }

  lemma {:induction false} WithoutInOrder(s: seq<NfsDir>, k: nat, ops: seq<Op>)
    requires InOrder(s, ops) && k < |s|
    ensures InOrder(Without(s, k), ops)
  {
  }

  lemma {:induction false} InFrontInOrder(s: seq<NfsDir>, d: NfsDir, ops: seq<Op>)
    requires InOrder(s, ops) && d !in s
    ensures InOrder([d] + s, ops + [Close(d)])
  {
    var r, all := [d] + s, ops + [Close(d)];
    OrderStays(s, ops, Close(d));
    OneMoreOp(ops, Close(d), d);
    forall i | 0 <= i < |s|
      ensures ClosedAt(all, s[i]) < ClosedAt(all, d)
    {
      OneMoreOp(ops, Close(d), s[i]);
      ClosedBefore(ops, s[i]);
    }
    assert forall i :: 1 <= i < |r| ==> r[i] == s[i - 1];
  }

  lemma {:induction false} CloseKeepsOrder(p: Places, ops: seq<Op>, d: NfsDir)
    requires Separate(p) && d in p.held && InOrder(p.cached, ops)
    ensures InOrder(Added(p.cached, d), ops + [Close(d)])
  {
    InFrontInOrder(p.cached, d, ops);
    PrefixInOrder([d] + p.cached, Added(p.cached, d), ops + [Close(d)]);
  }

  lemma {:induction false} MoveKeepsOrder(p: Places, ops: seq<Op>, op: Op)
    requires Separate(p) && Enabled(p, op) && InOrder(p.cached, ops)
    ensures InOrder(Moved(p, op).cached, ops + [op])
  {
    if op.Close? {
      CloseKeepsOrder(p, ops, op.dir);
    } else {
      var r := Moved(p, op).cached;
      if op.Reopen? || op.Drop? {
        var k := Newest(p.cached, op.fh);
        if k < |p.cached| {
          WithoutInOrder(p.cached, k, ops);
        }
      }
      OrderStays(r, ops, op);
    }
  }

  lemma {:induction false} RunKeepsOrder(p: Places, before: seq<Op>, ops: seq<Op>)
    requires Separate(p) && Possible(p, ops) && InOrder(p.cached, before)
    ensures InOrder(Final(p, ops).cached, before + ops)
    decreases |ops|
  {
    if ops == [] {
      assert before + ops == before;
    } else {
      MoveKeepsSeparate(p, ops[0]);
      MoveKeepsOrder(p, before, ops[0]);
      RunKeepsOrder(Moved(p, ops[0]), before + [ops[0]], ops[1..]);
      assert before + [ops[0]] + ops[1..] == before + ops;
    }
  }

  /** Of all that are in the list under a handle, the first one was closed last. */
  lemma {:induction false} NewestClosedLast(s: seq<NfsDir>, ops: seq<Op>, fh: Handle)
    requires InOrder(s, ops)
    ensures var k := Newest(s, fh);
            forall d :: d in s && d.fh == fh ==> k < |s| && ClosedAt(ops, d) <= ClosedAt(ops, s[k])
  {
    var k := Newest(s, fh);
    forall d | d in s && d.fh == fh
      ensures k < |s| && ClosedAt(ops, d) <= ClosedAt(ops, s[k])
    {
      var i :| 0 <= i < |s| && s[i] == d;
    }
  }

  /** Opening hands out the directory with that handle that was closed last, of those in the cache, if there is one. */
  ghost predicate TakesLastClosed(q: Places, ops: seq<Op>, fh: Handle) {
    var r := Moved(q, Reopen(fh));
    if forall d :: d in q.cached ==> d.fh != fh then r == q
    else exists d :: d in q.cached && IsLastClosed(q.cached, ops, fh, d) && r.held == q.held + {d} && d !in r.cached
  }

  ghost predicate IsLastClosed(s: seq<NfsDir>, ops: seq<Op>, fh: Handle, d: NfsDir) {
    d.fh == fh && forall e :: e in s && e.fh == fh ==> ClosedAt(ops, e) <= ClosedAt(ops, d)
  }

  lemma {:induction false} OrderTakesLast(q: Places, ops: seq<Op>, fh: Handle)
    requires Separate(q) && InOrder(q.cached, ops)
    ensures TakesLastClosed(q, ops, fh)
  {
    var k := Newest(q.cached, fh);
    NewestClosedLast(q.cached, ops, fh);
    if k < |q.cached| {
      WithoutMembers(q.cached, k);
      var d := q.cached[k];
      assert d in q.cached && IsLastClosed(q.cached, ops, fh, d);
    }
  }

  /** So it is after every run that starts with an empty cache. */
  lemma {:induction false} ReopenTakesLastClosed(p: Places, ops: seq<Op>, fh: Handle)
    requires Separate(p) && p.cached == [] && Possible(p, ops)
    ensures TakesLastClosed(Final(p, ops), ops, fh)
  {
    RunKeepsOrder(p, [], ops);
    assert [] + ops == ops;
    NeverInTwoPlaces(p, ops);
    OrderTakesLast(Final(p, ops), ops, fh);
  }

  /** When a close evicts a directory, it is the one that was closed first of those in the cache. */
  lemma {:induction false} CloseEvictsFirstClosed(p: Places, ops: seq<Op>, d: NfsDir)
    requires Separate(p) && p.cached == [] && Possible(p, ops) && d in Final(p, ops).held
    ensures var q := Final(p, ops);
            var r := Moved(q, Close(d));
            if |q.cached| <= 128 then r.freed == q.freed
            else var e := q.cached[|q.cached| - 1];
                 && r.freed == q.freed + {e} && e !in r.cached
                 && forall o :: o in q.cached ==> ClosedAt(ops, e) <= ClosedAt(ops, o)
  {
    RunKeepsOrder(p, [], ops);
    assert [] + ops == ops;
    NeverInTwoPlaces(p, ops);
    var q := Final(p, ops);
    AddedMembers(q.cached, d);
  }

  // ---- the cache itself ----

  class DirCache {
    var head: NfsDir?
    ghost var dirs: seq<NfsDir>
    ghost var freed: set<NfsDir>

    ghost predicate Valid()
      reads this, dirs
    {
      && Chained(head, dirs)
      && |dirs| <= MAX_DIR_CACHE + 1
      && forall d :: d in dirs ==> d !in freed
    }

    constructor ()
      ensures Valid() && dirs == [] && freed == {}
    {
      head, dirs, freed := null, [], {};
    }

    /** The head pointer is walked along the list to the node before `item`. */
    method WalkTo(item: NfsDir, ghost k: nat)
      requires Chained(head, dirs) && 0 < k < |dirs| && dirs[k] == item
      modifies this`head
      ensures head == dirs[k - 1]
    {
      ghost var at := 0;
      while head.next != null && head.next != item
        invariant 0 <= at < k && head == dirs[at] && Chained(dirs[0], dirs)
        decreases k - at
      {
        head := head.next;
        at := at + 1;
      }
      assert dirs[at].next == dirs[at + 1];
    }

    /** The node behind `prev` is bypassed. */
    method Unlink(prev: NfsDir, ghost k: nat)
      requires 0 < k < |dirs| && Chained(dirs[0], dirs) && prev == dirs[k - 1]
      modifies prev
      ensures prev.next == if k + 1 < |dirs| then dirs[k + 1] else null
    {
      assert prev.next == dirs[k];
      if prev.next != null {
        prev.next := prev.next.next;
      }
    }

    /** LIBNFS_LIST_REMOVE: walks the head pointer itself along the list and puts it back. */
    method ListRemove(item: NfsDir, ghost k: nat)
      requires Chained(head, dirs) && k < |dirs| && dirs[k] == item
      modifies this`head, this`dirs, dirs
      ensures Chained(head, dirs) && dirs == Without(old(dirs), k)
      ensures item.next == old(item.next)
    {
      if head == item {
        assert k == 0;
        head := item.next;
      } else {
        var saved := head;
        WalkTo(item, k);
        Unlink(head, k);
        head := saved;
      }
      dirs := Without(dirs, k);
    }

    /** nfs_free_nfsdir: a directory is freed at most once, and never while it is cached. */
    ghost method Free(d: NfsDir)
      requires d !in freed && d !in dirs
      modifies this`freed
      ensures freed == old(freed) + {d}
    {
      freed := freed + {d};
    }

    /** Adds the directory in front and evicts the oldest one when the cache is full. */
    method Add(d: NfsDir)
      requires Valid() && d !in dirs && d !in freed
      modifies this, d, dirs
      ensures Valid() && dirs == Added(old(dirs), d)
      ensures freed == old(freed) + if |old(dirs)| == MAX_DIR_CACHE + 1 then {old(dirs)[MAX_DIR_CACHE]} else {}
    {
      d.next := head;
      head := d;
      dirs := [d] + dirs;
      ghost var all := dirs;
      assert forall j :: 1 <= j < |all| ==> all[j] == old(dirs)[j - 1];
      var i, node := 0, head;
      while node != null
        invariant 0 <= i <= |all| <= MAX_DIR_CACHE + 2
        invariant node == if i < |all| then all[i] else null
        invariant dirs == all && Chained(head, dirs) && i <= MAX_DIR_CACHE + 1
        invariant freed == old(freed)
        decreases |all| - i
      {
        if i > MAX_DIR_CACHE {
          ListRemove(node, i);
          Free(node);
          break;
        }
        node := node.next;
        i := i + 1;
      }
    }

    /** Unlinks and hands out the newest directory with the handle, or returns null. */
    method Find(fh: Handle) returns (d: NfsDir?)
      requires Valid()
      modifies this, dirs
      ensures Valid() && freed == old(freed)
      ensures var k := Newest(old(dirs), fh);
              if k == |old(dirs)| then d == null && dirs == old(dirs)
              else d == old(dirs)[k] && dirs == Without(old(dirs), k)
      ensures d != null ==> d !in dirs && d !in freed
    {
      d := head;
      ghost var k := 0;
      while d != null
        invariant 0 <= k <= |dirs| && Valid() && dirs == old(dirs) && freed == old(freed)
        invariant d == if k < |dirs| then dirs[k] else null
        invariant forall i :: 0 <= i < k ==> dirs[i].fh != fh
        decreases |dirs| - k
      {
        if d.fh == fh {
          assert k == Newest(dirs, fh);
          ListRemove(d, k);
          break;
        }
        d := d.next;
        k := k + 1;
      }
    }

    /** Frees the newest directory with the handle, if there is one. */
    method Drop(fh: Handle)
      requires Valid()
      modifies this, dirs
      ensures Valid()
      ensures var k := Newest(old(dirs), fh);
              if k == |old(dirs)| then dirs == old(dirs) && freed == old(freed)
              else dirs == Without(old(dirs), k) && freed == old(freed) + {old(dirs)[k]}
    {
      var cached := Find(fh);
      if cached != null {
        Free(cached);
      }
    }

    /** One operation of the application, which holds the directories it has open. */
    method Do(op: Op, held: set<NfsDir>) returns (after: set<NfsDir>)
      requires Valid() && Separate(Places(dirs, held, freed)) && Enabled(Places(dirs, held, freed), op)
      modifies this, dirs, held
      ensures Valid() && Places(dirs, after, freed) == Moved(old(Places(dirs, held, freed)), op)
    {
      after := held;
      match op
      case Opened(d) => after := held + {d};
      case Close(d) =>
        Add(d);
        after := held - {d};
      case Reopen(fh) =>
        var d := Find(fh);
        if d != null {
          after := held + {d};
        }
      case Drop(fh) => Drop(fh);
    }

    /** Any operations, one after the other, lead where the run of their effects leads. */
    method Serve(ops: seq<Op>, held: set<NfsDir>, ghost universe: set<NfsDir>) returns (after: set<NfsDir>)
      requires Valid() && Separate(Places(dirs, held, freed)) && Possible(Places(dirs, held, freed), ops)
      requires AllOf(Places(dirs, held, freed)) <= universe
      requires forall op :: op in ops && op.Opened? ==> op.dir in universe
      modifies this, universe
      ensures Valid() && Places(dirs, after, freed) == Final(old(Places(dirs, held, freed)), ops)
      ensures Separate(Places(dirs, after, freed))
    {
      after := held;
      assert ops[0..] == ops;
      for k := 0 to |ops|
        invariant Valid() && Separate(Places(dirs, after, freed)) && Possible(Places(dirs, after, freed), ops[k..])
        invariant Final(Places(dirs, after, freed), ops[k..]) == Final(old(Places(dirs, held, freed)), ops)
        invariant AllOf(Places(dirs, after, freed)) <= universe
      {
        MoveKeepsSeparate(Places(dirs, after, freed), ops[k]);
        assert ops[k..][0] == ops[k] && ops[k..][1..] == ops[k + 1..];
        after := Do(ops[k], after);
      }
    }
  }
}
