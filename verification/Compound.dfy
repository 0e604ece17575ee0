/**
 From a normalised path to the COMPOUND that looks it up: one put-handle operation, one
 LOOKUP per component, GETATTR, then the operations of the call's filler.
 */
module Compound {
  import opened Options
  import opened Paths
  import opened Resolution
  import opened CStrings
  import opened Normalize

  /** A file handle stands for one object on the server. */
  type Fh = nat

  /** An operation of a COMPOUND with its arguments. */
  datatype Call =
    | PutRootFh
    | PutFh(fh: Fh)
    | Lookup(name: string)
    | GetAttr
    | GetFh
    | Access
    | Open(name: string, create: bool)
    | ReadDir
    | ReadLink
    | MakeDir(name: string)               // CREATE with the type NF4DIR
    | Remove(name: string)
    | SaveFh
    | Link(name: string)
    | Rename(name: string, to: string)

  /** How it is laid out: a LOOKUP of the path points into the path buffer and carries the length of the name. */
  datatype ArgOp =
    | Unset
    | LookupAt(at: nat, len: nat)
    | Arg(call: Call)

  /** What a call does behind the path: the names and handles it has stored for that. */
  datatype Filler =
    | FillGetFh
    | FillMkdir(name: string)
    | FillRemove(name: string)
    | FillOpen(name: string, create: bool)
    | FillLookupReadlink(name: string)
    | FillLink(fh: Fh, name: string)
    | FillRename(fh: Fh, name: string, to: string)
    | FillReaddir
    | FillReadlink

  /** The `max_op` the call declares for its filler. */
  function MaxOp(f: Filler): nat {
    match f
    case FillGetFh => 1
    case FillMkdir(_) => 1
    case FillRemove(_) => 1
    case FillOpen(_, _) => 3
    case FillLookupReadlink(_) => 2
    case FillLink(_, _) => 3
    case FillRename(_, _, _) => 3
    case FillReaddir => 2
    case FillReadlink => 1
  }

  /** The operations the filler appends. */
  function FillerCalls(f: Filler): (calls: seq<Call>)
    ensures |calls| <= MaxOp(f)
  {
    match f
    case FillGetFh => [GetFh]
    case FillMkdir(name) => [MakeDir(name)]
    case FillRemove(name) => [Remove(name)]
    case FillOpen(name, create) => [Access, Open(name, create), GetFh]
    case FillLookupReadlink(name) => [Lookup(name), ReadLink]
    case FillLink(fh, name) => [SaveFh, PutFh(fh), Link(name)]
    case FillRename(fh, name, to) => [SaveFh, PutFh(fh), Rename(name, to)]
    case FillReaddir => [GetFh, ReadDir]
    case FillReadlink => [ReadLink]
  }

  function PutCall(rootFh: Option<Fh>): Call {
    if rootFh.Some? then PutFh(rootFh.value) else PutRootFh
  }

  function LookupCalls(chain: seq<string>): (calls: seq<Call>)
    ensures |calls| == |chain|
  {
    seq(|chain|, i requires 0 <= i < |chain| => Lookup(chain[i]))
  }

  /** A handle is put, the names are looked up, and the attributes of what they lead to are asked for. */
  function PathCalls(rootFh: Option<Fh>, chain: seq<string>): (calls: seq<Call>)
    ensures |calls| == |chain| + 2
  {
    [PutCall(rootFh)] + LookupCalls(chain) + [GetAttr]
  }

  function CompoundCalls(rootFh: Option<Fh>, chain: seq<string>, f: Filler): seq<Call> {
    PathCalls(rootFh, chain) + FillerCalls(f)
  }

  /** The slashes of `s` from position `i` on. */
  function CountSlashes(s: string, i: nat): nat
    requires i <= |s|
    decreases |s| - i
  {
    if i == |s| then 0 else (if s[i] == '/' then 1 else 0) + CountSlashes(s, i + 1)
  }

  lemma {:induction false} SkipToSlash(s: string, i: nat, k: nat)
    requires i <= k <= |s| && forall j :: i <= j < k ==> s[j] != '/'
    ensures CountSlashes(s, i) == CountSlashes(s, k)
    decreases k - i
  {
    if i < k {
      SkipToSlash(s, i + 1, k);
    }
  }

  /** Counting slashes counts components. */
  lemma {:induction false} SlashesAreComponents(s: string, i: nat)
    requires i <= |s| && Rooted(s[i..])
    ensures CountSlashes(s, i) == |Components(s[i..])|
    decreases |s| - i
  {
    if i < |s| {
      var k := i + NextSlash(s[i..], 1);
      assert s[i..][k - i..] == s[k..];
      assert forall j :: i <= j < |s| ==> s[j] == s[i..][j - i];
      SkipToSlash(s, i + 1, k);
      SlashesAreComponents(s, k);
    }
  }

  method NumPathComponents(path: array<char>, ghost s: string) returns (i: nat)
    requires CString(path, s) && Rooted(s)
    ensures i == |Components(s)|
  {
    assert s[0..] == s;
    SlashesAreComponents(s, 0);
    i := 0;
    var at := 0;
    var next := FindChar(path, s, 0, '/');
    while next >= 0
      invariant 0 <= at <= |s| && -1 <= next < |s|
      invariant i + CountSlashes(s, at) == CountSlashes(s, 0)
      invariant next >= 0 ==> at <= next && s[next] == '/' && forall m :: at <= m < next ==> s[m] != '/'
      invariant next < 0 ==> forall m :: at <= m < |s| ==> s[m] != '/'
      decreases |s| - at, next
    {
      SkipToSlash(s, at, next);
      at, i := next + 1, i + 1;
      next := FindChar(path, s, at, '/');
    }
    SkipToSlash(s, at, |s|);
  }

  /** The operation looks up `name`, which lies in `s` between `op.at` and a slash or the end. */
  predicate Names(op: ArgOp, s: string, name: string) {
    && op.LookupAt?
    && op.at + op.len <= |s|
    && s[op.at..op.at + op.len] == name
    && (op.at + op.len == |s| || s[op.at + op.len] == '/')
    && SlashFree(name) && op.at > 0
  }

  /** The operation looks up `name`, which the buffer holds as a C string. */
  ghost predicate LooksUp(op: ArgOp, path: array<char>, name: string)
    reads path
  {
    && op.LookupAt?
    && op.at + op.len < path.Length
    && path[op.at..op.at + op.len] == name
    && path[op.at + op.len] == '\0'
  }

  /** The buffer with its slashes, except the first character, overwritten up to `to`. */
  ghost predicate CutUpTo(path: array<char>, s: string, to: nat)
    reads path
  {
    && to <= |s| < path.Length && path[|s|] == '\0'
    && (forall j :: 0 <= j < to ==> path[j] == if j > 0 && s[j] == '/' then '\0' else s[j])
    && (forall j :: to <= j < |s| ==> path[j] == s[j])
  }

  lemma {:induction false} CutNames(path: array<char>, s: string, op: ArgOp, name: string)
    requires CutUpTo(path, s, |s|) && Names(op, s, name)
    ensures LooksUp(op, path, name)
  {
    var a, b := op.at, op.at + op.len;
    forall j | a <= j < b
      ensures path[j] == s[j]
    {
      assert name[j - a] == s[j];
    }
    assert path[a..b] == s[a..b];
  }

  /** The names still to come once the text before slash `i` of `s` is dealt with. */
  lemma {:induction false} NamesFrom(s: string, i: nat, k: nat)
    requires Rooted(s) && i < k <= |s| && s[i] == '/' && (k < |s| ==> s[k] == '/')
    requires SlashFree(s[i + 1..k]) && i + 1 < |s|
    ensures Rooted(s[i..]) && Rooted(s[k..])
    ensures LookupNames(s[i..]) == [s[i + 1..k]] + LookupNames(s[k..])
  {
    ComponentAt(s, i, k);
    if k == |s| {
      assert s[k..] == "";
      assert s[i + 1..k] != "";
    } else {
      DropLast(s[i + 1..k], Components(s[k..]));
    }
  }

  lemma {:induction false} DropLast(c: string, ds: seq<string>)
    requires ds != []
    ensures ([c] + ds)[|ds|] == ds[|ds| - 1]
    ensures ([c] + ds)[..|ds|] == [c] + ds[..|ds| - 1]
  {
  }

  /** The LOOKUP operations for the text of `s` from `ptr` on. */
  function Lookups(s: string, ptr: nat): seq<ArgOp>
    requires ptr <= |s|
    decreases |s| - ptr
  {
    if ptr == |s| then []
    else
      var k := NextSlash(s, ptr);
      var op := LookupAt(ptr, k - ptr);
      if k == |s| then [op] else [op] + Lookups(s, k + 1)
  }

  /** From index `at` on, `all` is `rest`. */
  predicate Continues(all: seq<ArgOp>, at: nat, rest: seq<ArgOp>) {
    |all| == at + |rest| && forall j :: at <= j < |all| ==> all[j] == rest[j - at]
  }

  lemma {:induction false} ContinuesNext(all: seq<ArgOp>, at: nat, op: ArgOp, more: seq<ArgOp>)
    requires Continues(all, at, [op] + more)
    ensures at < |all| && all[at] == op && Continues(all, at + 1, more)
  {
  }

  lemma {:induction false} LookupsStep(s: string, ptr: nat, k: nat)
    requires ptr < |s| && k == NextSlash(s, ptr)
    ensures k == |s| ==> Lookups(s, ptr) == [LookupAt(ptr, k - ptr)]
    ensures k < |s| ==> Lookups(s, ptr) == [LookupAt(ptr, k - ptr)] + Lookups(s, k + 1)
  {
  }

  /** They name the components in order. */
  lemma {:induction false} LookupsName(s: string, i: nat)
    requires Rooted(s) && i < |s| && s[i] == '/'
    ensures AllNamed(Lookups(s, i + 1), s, LookupNames(s[i..]))
    decreases |s| - i
  {
    if i + 1 == |s| {
      OneComponent("");
      assert s[i..] == "/" + "";
      assert LookupNames(s[i..]) == [];
    } else {
      var ptr := i + 1;
      var k := NextSlash(s, ptr);
      var op, name := LookupAt(ptr, k - ptr), s[ptr..k];
      assert Names(op, s, name);
      NamesFrom(s, i, k);
      LookupsStep(s, ptr, k);
      if k == |s| {
        assert s[k..] == "" && [op] == [op] + [];
        AllNamedCons(op, [], s, name, []);
      } else {
        LookupsName(s, k);
        AllNamedCons(op, Lookups(s, k + 1), s, name, LookupNames(s[k..]));
      }
    }
  }

  predicate AllNamed(ops: seq<ArgOp>, s: string, names: seq<string>) {
    |ops| == |names| && forall k :: 0 <= k < |names| ==> Names(ops[k], s, names[k])
  }

  lemma {:induction false} AllNamedCons(op: ArgOp, ops: seq<ArgOp>, s: string, name: string, names: seq<string>)
    requires Names(op, s, name) && AllNamed(ops, s, names)
    ensures AllNamed([op] + ops, s, [name] + names)
  {
  }

  /** Terminates the component at `ptr` in place; `next` is where the following one starts, or -1. */
  method CutOne(path: array<char>, ghost s: string, ptr: nat) returns (next: int, len: nat)
    requires CutUpTo(path, s, ptr) && 0 < ptr < |s| && '\0' !in s
    modifies path
    ensures -1 <= next <= |s| && ptr + len == NextSlash(s, ptr)
    ensures next == if ptr + len == |s| then -1 else ptr + len + 1
    ensures CutUpTo(path, s, Edge(s, next))
  {
    next := FindChar(path, s, ptr, '/');
    ghost var k := NextSlash(s, ptr);
    if next >= 0 {
      path[next] := '\0';
      next := next + 1;
    }
    len := LengthFrom(path, s[..k], ptr);
  }

  /** How far the text is cut when the search is at `ptr`. */
  function Edge(s: string, ptr: int): nat {
    if 0 <= ptr <= |s| then ptr else |s|
  }

  /** The LOOKUP operations still to come; a negative position is past the last one. */
  function ToCome(s: string, next: int): seq<ArgOp> {
    if 0 <= next <= |s| then Lookups(s, next) else []
  }

  lemma {:induction false} NextLookup(all: seq<ArgOp>, at: nat, s: string, ptr: nat, k: nat, next: int)
    requires ptr < |s| && k == NextSlash(s, ptr) && next == if k == |s| then -1 else k + 1
    requires Continues(all, at, ToCome(s, ptr))
    ensures at < |all| && all[at] == LookupAt(ptr, k - ptr) && Continues(all, at + 1, ToCome(s, next))
  {
    LookupsStep(s, ptr, k);
    assert ToCome(s, ptr) == [LookupAt(ptr, k - ptr)] + ToCome(s, next);
    ContinuesNext(all, at, LookupAt(ptr, k - ptr), ToCome(s, next));
  }

  /** The operations before `i`, after the first, are those of `all`. */
  ghost predicate Filled(op: array<ArgOp>, all: seq<ArgOp>, i: nat)
    reads op
  {
    1 <= i <= op.Length && i <= |all| + 1 && forall k :: 1 <= k < i ==> op[k] == all[k - 1]
  }

  /** The loop below is at `ptr` and has written the operations before `i`, of `all`. */
  ghost predicate Walking(path: array<char>, s: string, op: array<ArgOp>, all: seq<ArgOp>, i: nat, ptr: int)
    reads path, op
  {
    && '\0' !in s && |all| < op.Length && Filled(op, all, i)
    && -1 <= ptr <= |s| && ptr != 0 && CutUpTo(path, s, Edge(s, ptr))
    && Continues(all, i - 1, ToCome(s, ptr))
  }

  /** Before the first LOOKUP. */
  lemma {:induction false} WalkStarts(path: array<char>, s: string, op: array<ArgOp>)
    requires CString(path, s) && Rooted(s) && s != "" && |Lookups(s, 1)| < op.Length
    ensures Walking(path, s, op, Lookups(s, 1), 1, 1)
  {
  }

  /** There is another name exactly when the text at `ptr` does not end. */
  lemma {:induction false} WalkGoesOn(path: array<char>, s: string, op: array<ArgOp>, all: seq<ArgOp>, i: nat, ptr: int)
    requires Walking(path, s, op, all, i, ptr)
    ensures ptr >= 0 && path[ptr] != '\0' <==> 0 <= ptr < |s|
  {
    assert ptr >= 0 ==> Edge(s, ptr) == ptr;
  }

  lemma {:induction false} WalkEnds(path: array<char>, s: string, op: array<ArgOp>, all: seq<ArgOp>, i: nat, ptr: int)
    requires Walking(path, s, op, all, i, ptr) && !(0 <= ptr < |s|)
    ensures i == 1 + |all| && CutUpTo(path, s, |s|)
  {
    assert Edge(s, ptr) == |s| && ToCome(s, ptr) == [];
  }

  method PutOp(op: array<ArgOp>, i: nat, a: ArgOp, ghost all: seq<ArgOp>)
    requires Filled(op, all, i) && i <= |all| < op.Length && a == all[i - 1]
    modifies op
    ensures Filled(op, all, i + 1) && op[0] == old(op[0])
  {
    op[i] := a;
  }

  /** One component becomes a LOOKUP, and the slash behind it the end of its name. */
  method AppendOne(path: array<char>, ghost s: string, op: array<ArgOp>, ghost all: seq<ArgOp>, i: nat, ptr: nat)
    returns (next: int)
    requires Walking(path, s, op, all, i, ptr) && ptr < |s|
    modifies path, op
    ensures Walking(path, s, op, all, i + 1, next) && op[0] == old(op[0])
    ensures Edge(s, next) > ptr
  {
    var len;
    next, len := CutOne(path, s, ptr);
    NextLookup(all, i - 1, s, ptr, ptr + len, next);
    PutOp(op, i, LookupAt(ptr, len), all);
  }

  /** Cuts the buffer into one C string per component and appends a LOOKUP for each. */
  method AppendLookups(path: array<char>, ghost s: string, op: array<ArgOp>) returns (i: nat)
    requires CString(path, s) && s != "" && s[0] == '/'
    requires op.Length >= 1 + |Lookups(s, 1)|
    modifies path, op
    ensures op[0] == old(op[0]) && i == 1 + |Lookups(s, 1)| && Filled(op, Lookups(s, 1), i)
    ensures CutUpTo(path, s, |s|)
  {
    i := 1;
    var ptr: int := 1;
    WalkStarts(path, s, op);
    ghost var all := Lookups(s, 1);
    WalkGoesOn(path, s, op, all, i, ptr);
    while ptr >= 0 && path[ptr] != '\0'
      invariant Walking(path, s, op, all, i, ptr) && op[0] == old(op[0])
      invariant ptr >= 0 && path[ptr] != '\0' <==> 0 <= ptr < |s|
      decreases |s| - Edge(s, ptr)
    {
      ptr := AppendOne(path, s, op, all, i, ptr);
      i := i + 1;
      WalkGoesOn(path, s, op, all, i, ptr);
    }
    WalkEnds(path, s, op, all, i, ptr);
  }

  /** The same, in terms of the names. */
  method AppendNames(path: array<char>, ghost s: string, op: array<ArgOp>) returns (i: nat)
    requires CString(path, s) && s != "" && s[0] == '/' && op.Length > |LookupNames(s)|
    modifies path, op
    ensures op[0] == old(op[0]) && i == 1 + |LookupNames(s)|
    ensures forall k :: 1 <= k < i ==> LooksUp(op[k], path, LookupNames(s)[k - 1])
  {
    LookupsNameAll(s);
    i := AppendLookups(path, s, op);
    AllCut(path, s, op, i, Lookups(s, 1), LookupNames(s));
  }

  lemma {:induction false} LookupsNameAll(s: string)
    requires s != "" && s[0] == '/'
    ensures AllNamed(Lookups(s, 1), s, LookupNames(s))
  {
    assert s[0..] == s;
    LookupsName(s, 0);
  }

  lemma {:induction false} AllCut(path: array<char>, s: string, op: array<ArgOp>, i: nat,
                                  all: seq<ArgOp>, names: seq<string>)
    requires CutUpTo(path, s, |s|) && Filled(op, all, i) && AllNamed(all, s, names) && i == 1 + |names|
    ensures forall k :: 1 <= k < i ==> LooksUp(op[k], path, names[k - 1])
  {
    forall k | 1 <= k < i
      ensures LooksUp(op[k], path, names[k - 1])
    {
      CutNames(path, s, all[k - 1], names[k - 1]);
    }
  }

  /**
   Allocates the operations and fills in the path part; `i` is the next free index, with at
   least `extra` places left.
   */
  method AllocateOp(path: array<char>, ghost s: string, rootFh: Option<Fh>, extra: nat)
    returns (op: array<ArgOp>, i: nat)
    requires CString(path, s) && s != "" && s[0] == '/'
    modifies path
    ensures fresh(op) && i + extra <= op.Length
    ensures i == |LookupNames(s)| + 2
    ensures op[0] == Arg(PutCall(rootFh))
    ensures forall k :: 1 <= k < i - 1 ==> LooksUp(op[k], path, LookupNames(s)[k - 1])
    ensures op[i - 1] == Arg(GetAttr)
  {
    var count := NumPathComponents(path, s);
    assert |LookupNames(s)| <= count;
    op := new ArgOp[2 + 2 * count + extra](_ => Unset);
    op[0] := Arg(if rootFh.Some? then PutFh(rootFh.value) else PutRootFh);
    i := AppendNames(path, s, op);
    op[i] := Arg(GetAttr);
    i := i + 1;
  }

  /** Runs the filler at index `i`. */
  method AppendFiller(op: array<ArgOp>, i: nat, f: Filler) returns (n: nat)
    requires i + MaxOp(f) <= op.Length
    modifies op
    ensures n == i + |FillerCalls(f)| <= op.Length
    ensures forall k :: 0 <= k < i ==> op[k] == old(op[k])
    ensures forall k :: i <= k < n ==> op[k] == Arg(FillerCalls(f)[k - i])
  {
    var calls := FillerCalls(f);
    n := i;
    while n < i + |calls|
      invariant i <= n <= i + |calls| <= op.Length
      invariant forall k :: 0 <= k < i ==> op[k] == old(op[k])
      invariant forall k :: i <= k < n ==> op[k] == Arg(calls[k - i])
    {
      op[n] := Arg(calls[n - i]);
      n := n + 1;
    }
  }

  /** What the operation says to the server: a name in the buffer is read from there. */
  ghost predicate Says(op: ArgOp, names: array<char>, call: Call)
    reads names
  {
    op == Arg(call) || (call.Lookup? && LooksUp(op, names, call.name))
  }

  /** The first `n` operations are these calls. */
  ghost predicate Sends(op: array<ArgOp>, n: nat, names: array<char>, calls: seq<Call>)
    reads op, names
  {
    n == |calls| <= op.Length && forall k :: 0 <= k < n ==> Says(op[k], names, calls[k])
  }

  /** `op[..n]` puts a handle, looks up `chain`, gets attributes, and runs the filler. */
  ghost predicate IsCompound(op: array<ArgOp>, n: nat, names: array<char>, rootFh: Option<Fh>,
                             chain: seq<string>, f: Filler)
    reads op, names
  {
    Sends(op, n, names, CompoundCalls(rootFh, chain, f))
  }

  /** The parts of a compound, one behind the other. */
  lemma {:induction false} PartsAreCompound(op: array<ArgOp>, n: nat, names: array<char>, rootFh: Option<Fh>,
                                            chain: seq<string>, f: Filler)
    requires n == 2 + |chain| + |FillerCalls(f)| <= op.Length && op[0] == Arg(PutCall(rootFh))
    requires forall k :: 1 <= k < 1 + |chain| ==> LooksUp(op[k], names, chain[k - 1])
    requires op[1 + |chain|] == Arg(GetAttr)
    requires forall k :: 2 + |chain| <= k < n ==> op[k] == Arg(FillerCalls(f)[k - 2 - |chain|])
    ensures IsCompound(op, n, names, rootFh, chain, f)
  {
    var calls, m := CompoundCalls(rootFh, chain, f), |chain|;
    forall k | 0 <= k < n
      ensures Says(op[k], names, calls[k])
    {
      if 1 <= k <= m {
        assert calls[k] == Lookup(chain[k - 1]);
      } else if k > m + 1 {
        assert calls[k] == FillerCalls(f)[k - 2 - m];
      }
    }
  }

  /** The compound for a path, which is cut into the names it looks up. */
  method PathOps(path: array<char>, ghost t: string, rootFh: Option<Fh>, f: Filler) returns (op: array<ArgOp>, n: nat)
    requires CString(path, t) && t != "" && t[0] == '/'
    modifies path
    ensures fresh(op) && IsCompound(op, n, path, rootFh, LookupNames(t), f)
  {
    op, n := AllocateOp(path, t, rootFh, MaxOp(f));
    n := AppendFiller(op, n, f);
    PartsAreCompound(op, n, path, rootFh, LookupNames(t), f);
  }

  method LookupOps(path: array<char>, ghost t: string, rootFh: Option<Fh>, f: Filler)
    returns (op: array<ArgOp>, n: nat, names: array<char>)
    requires CString(path, t) && t != "" && t[0] == '/'
    ensures fresh(op) && fresh(names) && IsCompound(op, n, names, rootFh, LookupNames(t), f)
  {
    names := Duplicate(path, t, 0);
    assert t[0..] == t;
    op, n := PathOps(names, t, rootFh, f);
  }

  /** How a lookup starts: the path was refused, the source strays on the empty text, or the compound is ready. */
  datatype Built = Refused | Strays | Ready

  /** The part of a call's record that path lookup works on. */
  class CallData {
    var path: array<char>
    var name: array?<char>

    constructor (p: array<char>)
      ensures path == p && name == null
    {
      path, name := p, null;
    }

    /**
     data_split_path: a directory and the name of the object in it.  Without a slash the source
     writes through a null pointer; that is what `!ok` stands for.
     */
    method SplitPath(ghost s: string) returns (ok: bool)
      requires CString(path, s)
      modifies this, path
      ensures ok <==> !SlashFree(s)
      ensures ok ==> CString(path, DirOf(s)) && name != null && CString(name, NameOf(s)) && name != path
    {
      var slash := FindLastChar(path, s, '/');
      ghost var q := LastSlash(s);
      if slash < 0 {
        return false;
      }
      assert slash == q;
      if slash == 0 {
        ShiftByOne(path, s, 0);
        assert s[..0] + s[0 + 1..] == s[q + 1..];
        name := path;
        path := new char[2] ['/', '\0'];
      } else {
        var copy := Duplicate(path, s, slash + 1);
        path[slash] := '\0';
        name := copy;
      }
      ok := true;
    }

    /**
     nfs4_lookup_path_async: resolves the path and builds the compound that looks it up and then
     runs the filler's operations.  It strays, reading behind the terminator, exactly when the
     path evaluates to the root and does not end in a slash.
     */
    method BuildLookup(cwd: array<char>, ghost c: string, ghost s: string, rootFh: Option<Fh>, f: Filler)
      returns (r: Built, op: array<ArgOp>, n: nat, names: array<char>)
      requires CString(cwd, c) && CString(path, s)
      modifies this`path
      ensures fresh(op) && fresh(names)
      ensures r.Refused? <==> Resolve(c, s).None?
      ensures r.Strays? <==> EmptyText(AbsoluteText(c, s))
      ensures if r.Refused? then path == old(path) else fresh(path) && CString(path, Resolve(c, s).value)
      ensures r.Ready? ==> IsCompound(op, n, names, rootFh, Evaluate(AbsoluteText(c, s)).value, f)
    {
      op, names, n := new ArgOp[0], new char[0], 0;
      var p := ResolvePath(cwd, path, c, s);
      if p == null {
        return Refused, op, n, names;
      }
      path := p;
      NormalFormEmpty(AbsoluteText(c, s));
      if path[0] == '\0' {
        return Strays, op, n, names;
      }
      ghost var t := Resolve(c, s).value;
      ChainIsEvaluation(AbsoluteText(c, s), t);
      r := Ready;
      op, n, names := LookupOps(path, t, rootFh, f);
    }

    /**
     A call that looks up its whole path resolves it twice, when it starts and when it looks it
     up.  The second time an empty text means the working directory.
     */
    method FullPathLookup(cwd: array<char>, ghost c: string, ghost s: string, rootFh: Option<Fh>, f: Filler)
      returns (r: Built, op: array<ArgOp>, n: nat, names: array<char>)
      requires CString(cwd, c) && Canonical(c) && CString(path, s)
      modifies this`path
      ensures r.Refused? <==> Resolve(c, s).None?
      ensures !r.Strays?
      ensures r.Ready? ==>
                TwiceResolved(c, s).Some? && IsCompound(op, n, names, rootFh, TwiceResolved(c, s).value, f)
    {
      op, names, n := new ArgOp[0], new char[0], 0;
      var p := ResolvePath(cwd, path, c, s);
      if p == null {
        return Refused, op, n, names;
      }
      path := p;
      ghost var t := Resolve(c, s).value;
      ResolveAgain(c, s);
      NormalFormEmpty(AbsoluteText(c, t));
      ChainIsEvaluation(AbsoluteText(c, t), Resolve(c, t).value);
      r, op, n, names := BuildLookup(cwd, c, t, rootFh, f);
    }
  }
}
