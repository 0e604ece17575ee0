/**
 What a server makes of a COMPOUND: its objects are a tree, and the operations work on a current and
 a saved handle (sections 15 and 16 of RFC 7530).  The server refuses what the tree does not allow;
 reasons the tree does not show, such as permissions, are left out.
 */
module Server {
  import opened Compound
  import opened Options
  import opened Replies

  const NFS4ERR_NOENT: int := 2
  const NFS4ERR_EXIST: int := 17
  const NFS4ERR_NOTDIR: int := 20
  const NFS4ERR_ISDIR: int := 21
  const NFS4ERR_INVAL: int := 22
  const NFS4ERR_NOTEMPTY: int := 66
  const NFS4ERR_NOFILEHANDLE: int := 10020

  datatype Node = Dir(entries: map<string, Fh>) | Plain | Symlink(text: string)

  /** `next` is the handle that the next object gets. */
  datatype Tree = Tree(root: Fh, nodes: map<Fh, Node>, next: Fh)

  function NodeAt(t: Tree, o: Fh): Node {
    if o in t.nodes then t.nodes[o] else Plain
  }

  function WithEntries(t: Tree, d: Fh, es: map<string, Fh>): Tree {
    t.(nodes := t.nodes[d := Dir(es)])
  }

  /** A new object, entered in directory `d`. */
  function WithNew(t: Tree, d: Fh, es: map<string, Fh>, name: string, node: Node): Tree {
    Tree(t.root, t.nodes[d := Dir(es[name := t.next])][t.next := node], t.next + 1)
  }

  /** A compound under way: the handle that was asked for last, the directory that was listed, and the results. */
  datatype State = State(
    tree: Tree, cur: Option<Fh>, saved: Option<Fh>, got: Option<Fh>, listed: Option<map<string, Fh>>,
    results: seq<ResOp>, status: int)

  function Start(t: Tree): State {
    State(t, None, None, None, None, [], NFS4_OK)
  }

  function Answered(s: State, r: ResOp): State {
    s.(results := s.results + [r])
  }

  /** An operation that fails ends the compound. */
  function Stopped(s: State, r: ResOp, status: int): State {
    s.(results := s.results + [r], status := status)
  }

  // ---- the operations ----

  function DoLookup(s: State, o: Fh, name: string): State {
    match NodeAt(s.tree, o)
    case Dir(es) =>
      if name in es then Answered(s, LookupRes(NFS4_OK)).(cur := Some(es[name]))
      else Stopped(s, LookupRes(NFS4ERR_NOENT), NFS4ERR_NOENT)
    case Symlink(_) => Stopped(s, LookupRes(NFS4ERR_SYMLINK), NFS4ERR_SYMLINK)
    case Plain => Stopped(s, LookupRes(NFS4ERR_NOTDIR), NFS4ERR_NOTDIR)
  }

  function DoOpen(s: State, o: Fh, name: string, create: bool): State {
    match NodeAt(s.tree, o)
    case Dir(es) =>
      if name in es then
        (match NodeAt(s.tree, es[name])
         case Plain => Answered(s, OpenRes(NFS4_OK, false)).(cur := Some(es[name]))
         case Dir(_) => Stopped(s, OpenRes(NFS4ERR_ISDIR, false), NFS4ERR_ISDIR)
         case Symlink(_) => Stopped(s, OpenRes(NFS4ERR_SYMLINK, false), NFS4ERR_SYMLINK))
      else if create && name != "" then
        Answered(s, OpenRes(NFS4_OK, false)).(tree := WithNew(s.tree, o, es, name, Plain), cur := Some(s.tree.next))
      else Stopped(s, OpenRes(NFS4ERR_NOENT, false), NFS4ERR_NOENT)
    case _ => Stopped(s, OpenRes(NFS4ERR_NOTDIR, false), NFS4ERR_NOTDIR)
  }

  function DoMakeDir(s: State, o: Fh, name: string): State {
    match NodeAt(s.tree, o)
    case Dir(es) =>
      if name == "" then Stopped(s, OtherRes, NFS4ERR_INVAL)
      else if name in es then Stopped(s, OtherRes, NFS4ERR_EXIST)
      else Answered(s, OtherRes).(tree := WithNew(s.tree, o, es, name, Dir(map[])), cur := Some(s.tree.next))
    case _ => Stopped(s, OtherRes, NFS4ERR_NOTDIR)
  }

  /** A directory that is not empty cannot be removed or replaced. */
  predicate Full(t: Tree, o: Fh) {
    NodeAt(t, o).Dir? && NodeAt(t, o).entries != map[]
  }

  function DoRemove(s: State, o: Fh, name: string): State {
    match NodeAt(s.tree, o)
    case Dir(es) =>
      if name !in es then Stopped(s, OtherRes, NFS4ERR_NOENT)
      else if Full(s.tree, es[name]) then Stopped(s, OtherRes, NFS4ERR_NOTEMPTY)
      else Answered(s, OtherRes).(tree := WithEntries(s.tree, o, es - {name}))
    case _ => Stopped(s, OtherRes, NFS4ERR_NOTDIR)
  }

  /** The saved object gets another name, in the current directory. */
  function DoLink(s: State, o: Fh, saved: Fh, name: string): State {
    match NodeAt(s.tree, o)
    case Dir(es) =>
      if name == "" then Stopped(s, OtherRes, NFS4ERR_INVAL)
      else if NodeAt(s.tree, saved).Dir? then Stopped(s, OtherRes, NFS4ERR_ISDIR)
      else if name in es then Stopped(s, OtherRes, NFS4ERR_EXIST)
      else Answered(s, OtherRes).(tree := WithEntries(s.tree, o, es[name := saved]))
    case _ => Stopped(s, OtherRes, NFS4ERR_NOTDIR)
  }

  /** An entry goes from one directory to another, which may be the same. */
  function Moved(t: Tree, from: Fh, es: map<string, Fh>, name: string,
                 to: Fh, fs: map<string, Fh>, newName: string): Tree
    requires name in es
  {
    if from == to then WithEntries(t, from, (es - {name})[newName := es[name]])
    else WithEntries(WithEntries(t, from, es - {name}), to, fs[newName := es[name]])
  }

  /** What has the new name may be replaced by something of its kind, unless it is a directory in use. */
  predicate Replaceable(t: Tree, there: Fh, o: Fh) {
    (NodeAt(t, there).Dir? <==> NodeAt(t, o).Dir?) && !Full(t, there)
  }

  /** From the saved directory to the current one. */
  function DoRename(s: State, o: Fh, saved: Fh, name: string, to: string): State {
    var from, into := NodeAt(s.tree, saved), NodeAt(s.tree, o);
    if !from.Dir? || !into.Dir? then Stopped(s, OtherRes, NFS4ERR_NOTDIR)
    else if to == "" then Stopped(s, OtherRes, NFS4ERR_INVAL)
    else if name !in from.entries then Stopped(s, OtherRes, NFS4ERR_NOENT)
    else if to in into.entries && into.entries[to] == from.entries[name] then Answered(s, OtherRes)
    else if to in into.entries && !Replaceable(s.tree, into.entries[to], from.entries[name]) then
      Stopped(s, OtherRes, NFS4ERR_EXIST)
    else Answered(s, OtherRes).(tree := Moved(s.tree, saved, from.entries, name, o, into.entries, to))
  }

  /** An operation on the current object. */
  function DoAt(s: State, o: Fh, c: Call): State {
    match c
    case PutRootFh => Answered(s, OtherRes).(cur := Some(s.tree.root))
    case PutFh(fh) => Answered(s, OtherRes).(cur := Some(fh))
    case Lookup(name) => DoLookup(s, o, name)
    case GetAttr => Answered(s, GetattrRes(true, NodeAt(s.tree, o).Symlink?))
    case GetFh => Answered(s, GetfhRes).(got := Some(o))
    case Access => Answered(s, AccessRes(0, 0))
    case Open(name, create) => DoOpen(s, o, name, create)
    case ReadDir =>
      (match NodeAt(s.tree, o)
       case Dir(es) => Answered(s, ReaddirRes([], true)).(listed := Some(es))
       case _ => Stopped(s, OtherRes, NFS4ERR_NOTDIR))
    case ReadLink =>
      (match NodeAt(s.tree, o)
       case Symlink(text) => Answered(s, ReadlinkRes(text))
       case _ => Stopped(s, OtherRes, NFS4ERR_INVAL))
    case MakeDir(name) => DoMakeDir(s, o, name)
    case Remove(name) => DoRemove(s, o, name)
    case SaveFh => Answered(s, OtherRes).(saved := Some(o))
    case Link(name) =>
      if s.saved.None? then Stopped(s, OtherRes, NFS4ERR_NOFILEHANDLE) else DoLink(s, o, s.saved.value, name)
    case Rename(name, to) =>
      if s.saved.None? then Stopped(s, OtherRes, NFS4ERR_NOFILEHANDLE) else DoRename(s, o, s.saved.value, name, to)
  }

  function Do(s: State, c: Call): State {
    if s.cur.Some? then DoAt(s, s.cur.value, c)
    else if c.PutRootFh? || c.PutFh? then DoAt(s, s.tree.root, c)
    else Stopped(s, OtherRes, NFS4ERR_NOFILEHANDLE)
  }

  /** The operations in turn, until one fails. */
  function Exec(s: State, calls: seq<Call>): State
    decreases |calls|
  {
    if calls == [] || s.status != NFS4_OK then s else Exec(Do(s, calls[0]), calls[1..])
  }

  lemma {:induction false} ExecConcat(s: State, a: seq<Call>, b: seq<Call>)
    ensures Exec(s, a + b) == Exec(Exec(s, a), b)
    decreases |a|
  {
    if a == [] {
      assert a + b == b;
    } else if s.status == NFS4_OK {
      assert (a + b)[1..] == a[1..] + b;
      ExecConcat(Do(s, a[0]), a[1..], b);
    }
  }

  lemma {:induction false} ExecOne(s: State, c: Call)
    ensures Exec(s, [c]) == if s.status == NFS4_OK then Do(s, c) else s
  {
    assert [c][1..] == [];
  }

  lemma {:induction false} ExecTwo(s: State, b: Call, c: Call)
    ensures Exec(s, [b, c]) == Exec(Exec(s, [b]), [c])
  {
    assert [b, c] == [b] + [c];
    ExecConcat(s, [b], [c]);
  }

  lemma {:induction false} ExecThree(s: State, a: Call, b: Call, c: Call)
    ensures Exec(s, [a, b, c]) == Exec(Exec(Exec(s, [a]), [b]), [c])
  {
    assert [a, b, c] == [a, b] + [c];
    ExecConcat(s, [a, b], [c]);
    ExecTwo(s, a, b);
  }

  // ---- walking ----

  /** Where names lead from an object. */
  function Walk(t: Tree, o: Fh, names: seq<string>): Option<Fh>
    decreases |names|
  {
    if names == [] then Some(o)
    else
      match NodeAt(t, o)
      case Dir(es) => if names[0] in es then Walk(t, es[names[0]], names[1..]) else None
      case _ => None
  }

  /** The first LOOKUP that fails says why. */
  function WhyNot(t: Tree, o: Fh, names: seq<string>): int
    decreases |names|
  {
    if names == [] then NFS4_OK
    else
      match NodeAt(t, o)
      case Dir(es) => if names[0] in es then WhyNot(t, es[names[0]], names[1..]) else NFS4ERR_NOENT
      case Symlink(_) => NFS4ERR_SYMLINK
      case Plain => NFS4ERR_NOTDIR
  }

  /** The results of the LOOKUPs. */
  function Answers(t: Tree, o: Fh, names: seq<string>): seq<ResOp>
    decreases |names|
  {
    if names == [] then []
    else
      match NodeAt(t, o)
      case Dir(es) =>
        if names[0] in es then [LookupRes(NFS4_OK)] + Answers(t, es[names[0]], names[1..])
        else [LookupRes(NFS4ERR_NOENT)]
      case Symlink(_) => [LookupRes(NFS4ERR_SYMLINK)]
      case Plain => [LookupRes(NFS4ERR_NOTDIR)]
  }

  lemma {:induction false} WalkOrWhyNot(t: Tree, o: Fh, names: seq<string>)
    ensures Walk(t, o, names).Some? <==> WhyNot(t, o, names) == NFS4_OK
    decreases |names|
  {
    if names != [] && NodeAt(t, o).Dir? && names[0] in NodeAt(t, o).entries {
      WalkOrWhyNot(t, NodeAt(t, o).entries[names[0]], names[1..]);
    }
  }

  /** Where the LOOKUPs of a chain lead: they change nothing but the current object. */
  ghost predicate Walked(s: State, u: State, o: Fh, names: seq<string>) {
    var w := Walk(s.tree, o, names);
    && u.status == WhyNot(s.tree, o, names) && u.results == s.results + Answers(s.tree, o, names)
    && u == s.(cur := u.cur, results := u.results, status := u.status) && (w.Some? ==> u.cur == w)
  }

  lemma {:induction false} LookupFirst(names: seq<string>)
    requires names != []
    ensures LookupCalls(names) == [Lookup(names[0])] + LookupCalls(names[1..])
  {
  }

  lemma {:induction false} ExecLookups(s: State, o: Fh, names: seq<string>)
    requires s.cur == Some(o) && s.status == NFS4_OK
    ensures Walked(s, Exec(s, LookupCalls(names)), o, names)
    decreases |names|
  {
    if names == [] {
      assert LookupCalls(names) == [] && s.results + [] == s.results;
    } else {
      LookupFirst(names);
      ExecConcat(s, [Lookup(names[0])], LookupCalls(names[1..]));
      ExecOne(s, Lookup(names[0]));
      var u := Do(s, Lookup(names[0]));
      if u.status == NFS4_OK {
        var next := NodeAt(s.tree, o).entries[names[0]];
        ExecLookups(u, next, names[1..]);
        WalkedFurther(s, u, Exec(u, LookupCalls(names[1..])), o, next, names);
      }
    }
  }

  lemma {:induction false} WalkedFurther(s: State, u: State, v: State, o: Fh, next: Fh, names: seq<string>)
    requires names != [] && NodeAt(s.tree, o).Dir? && names[0] in NodeAt(s.tree, o).entries
    requires next == NodeAt(s.tree, o).entries[names[0]] && u == Do(s, Lookup(names[0])) && s.cur == Some(o)
    requires Walked(u, v, next, names[1..])
    ensures Walked(s, v, o, names)
  {
    var more := Answers(s.tree, next, names[1..]);
    assert s.results + [LookupRes(NFS4_OK)] + more == s.results + ([LookupRes(NFS4_OK)] + more);
  }

  /** The object that a path starts from. */
  function Base(t: Tree, rootFh: Option<Fh>): Fh {
    if rootFh.Some? then rootFh.value else t.root
  }

  /** The state behind the path part of a compound. */
  function Arrived(t: Tree, o: Fh, names: seq<string>, w: Fh): State {
    Start(t).(cur := Some(w),
              results := [OtherRes] + Answers(t, o, names) + [GetattrRes(true, NodeAt(t, w).Symlink?)])
  }

  /** The path part leads where the names lead, or stops there. */
  lemma {:induction false} ExecPath(t: Tree, rootFh: Option<Fh>, names: seq<string>)
    ensures var o := Base(t, rootFh);
            var w, s := Walk(t, o, names), Exec(Start(t), PathCalls(rootFh, names));
            if w.Some? then s == Arrived(t, o, names, w.value)
            else && s.status == WhyNot(t, o, names) != NFS4_OK && s.tree == t && s.got.None? && s.listed.None?
                 && s.results == [OtherRes] + Answers(t, o, names)
  {
    var o := Base(t, rootFh);
    var put, s0 := PutCall(rootFh), Start(t);
    ExecConcat(s0, [put] + LookupCalls(names), [GetAttr]);
    ExecConcat(s0, [put], LookupCalls(names));
    ExecOne(s0, put);
    var s1 := Do(s0, put);
    assert s1.results == [OtherRes];
    ExecLookups(s1, o, names);
    WalkOrWhyNot(t, o, names);
    ExecOne(Exec(s1, LookupCalls(names)), GetAttr);
  }

  /** The compound goes on behind the path exactly when that leads somewhere. */
  lemma {:induction false} ExecCompound(t: Tree, rootFh: Option<Fh>, names: seq<string>, f: Filler)
    ensures var o := Base(t, rootFh);
            var w, s := Walk(t, o, names), Exec(Start(t), CompoundCalls(rootFh, names, f));
            if w.Some? then s == Exec(Arrived(t, o, names, w.value), FillerCalls(f))
            else && s.status == WhyNot(t, o, names) != NFS4_OK && s.tree == t && s.got.None? && s.listed.None?
                 && s.results == [OtherRes] + Answers(t, o, names)
  {
    ExecConcat(Start(t), PathCalls(rootFh, names), FillerCalls(f));
    ExecPath(t, rootFh, names);
  }

  // ---- what each compound does ----

  /** The state behind a compound. */
  function Ran(t: Tree, rootFh: Option<Fh>, names: seq<string>, f: Filler): State {
    Exec(Start(t), CompoundCalls(rootFh, names, f))
  }

  /** Nothing was done. */
  predicate Refuses(t: Tree, s: State) {
    s.status != NFS4_OK && s.tree == t
  }

  /** The names lead to a directory. */
  predicate LeadsToDir(t: Tree, o: Fh, names: seq<string>) {
    var w := Walk(t, o, names);
    w.Some? && NodeAt(t, w.value).Dir?
  }

  function DirAt(t: Tree, o: Fh, names: seq<string>): Fh
    requires LeadsToDir(t, o, names)
  {
    Walk(t, o, names).value
  }

  function EntriesAt(t: Tree, o: Fh, names: seq<string>): map<string, Fh>
    requires LeadsToDir(t, o, names)
  {
    NodeAt(t, DirAt(t, o, names)).entries
  }

  /** An empty directory is made under that name in the directory that the names lead to, and nothing else changes. */
  predicate MakesDir(t: Tree, s: State, o: Fh, names: seq<string>, name: string) {
    if LeadsToDir(t, o, names) && name != "" && name !in EntriesAt(t, o, names) then
      var d, es := DirAt(t, o, names), EntriesAt(t, o, names);
      && s.status == NFS4_OK && s.tree.root == t.root && s.tree.next == t.next + 1
      && s.tree.nodes == t.nodes[d := Dir(es[name := t.next])][t.next := Dir(map[])]
    else Refuses(t, s)
  }

  lemma {:induction false} MkdirMakes(t: Tree, rootFh: Option<Fh>, names: seq<string>, name: string)
    ensures MakesDir(t, Ran(t, rootFh, names, FillMkdir(name)), Base(t, rootFh), names, name)
  {
    ExecCompound(t, rootFh, names, FillMkdir(name));
    var w := Walk(t, Base(t, rootFh), names);
    if w.Some? {
      ExecOne(Arrived(t, Base(t, rootFh), names, w.value), MakeDir(name));
    }
  }

  /** That name goes from the directory that the names lead to, and nothing else changes. */
  predicate Removes(t: Tree, s: State, o: Fh, names: seq<string>, name: string) {
    if LeadsToDir(t, o, names) && name in EntriesAt(t, o, names) && !Full(t, EntriesAt(t, o, names)[name]) then
      && s.status == NFS4_OK
      && s.tree == t.(nodes := t.nodes[DirAt(t, o, names) := Dir(EntriesAt(t, o, names) - {name})])
    else Refuses(t, s)
  }

  lemma {:induction false} RemoveRemoves(t: Tree, rootFh: Option<Fh>, names: seq<string>, name: string)
    ensures Removes(t, Ran(t, rootFh, names, FillRemove(name)), Base(t, rootFh), names, name)
  {
    ExecCompound(t, rootFh, names, FillRemove(name));
    var w := Walk(t, Base(t, rootFh), names);
    if w.Some? {
      ExecOne(Arrived(t, Base(t, rootFh), names, w.value), Remove(name));
    }
  }

  /** The handle of what the names lead to, for every kind of object. */
  lemma {:induction false} GetFhGets(t: Tree, rootFh: Option<Fh>, names: seq<string>)
    ensures var w, s := Walk(t, Base(t, rootFh), names), Ran(t, rootFh, names, FillGetFh);
            s.tree == t && s.got == w && (s.status == NFS4_OK <==> w.Some?)
  {
    ExecCompound(t, rootFh, names, FillGetFh);
    var w := Walk(t, Base(t, rootFh), names);
    if w.Some? {
      ExecOne(Arrived(t, Base(t, rootFh), names, w.value), GetFh);
    }
  }

  /** The handle and the entries of the directory that the names lead to. */
  predicate Lists(t: Tree, s: State, o: Fh, names: seq<string>) {
    && s.tree == t && (s.status == NFS4_OK <==> LeadsToDir(t, o, names))
    && (s.status == NFS4_OK ==> s.got == Some(DirAt(t, o, names)) && s.listed == Some(EntriesAt(t, o, names)))
  }

  lemma {:induction false} ReaddirLists(t: Tree, rootFh: Option<Fh>, names: seq<string>)
    ensures Lists(t, Ran(t, rootFh, names, FillReaddir), Base(t, rootFh), names)
  {
    ExecCompound(t, rootFh, names, FillReaddir);
    var w := Walk(t, Base(t, rootFh), names);
    if w.Some? {
      var s := Arrived(t, Base(t, rootFh), names, w.value);
      ExecTwo(s, GetFh, ReadDir);
      ExecOne(s, GetFh);
      ExecOne(Do(s, GetFh), ReadDir);
    }
  }

  /** The object is a file that is there, or a new one in the directory that the names lead to. */
  predicate CanOpen(t: Tree, o: Fh, names: seq<string>, name: string, create: bool) {
    && LeadsToDir(t, o, names)
    && if name in EntriesAt(t, o, names) then NodeAt(t, EntriesAt(t, o, names)[name]).Plain?
       else create && name != ""
  }

  /** The handle of the file with that name, which is made if that was asked for and it is not there. */
  predicate Opens(t: Tree, s: State, o: Fh, names: seq<string>, name: string, create: bool) {
    if CanOpen(t, o, names, name, create) then
      var d, es := DirAt(t, o, names), EntriesAt(t, o, names);
      && s.status == NFS4_OK
      && if name in es then s.tree == t && s.got == Some(es[name])
         else && s.tree.root == t.root && s.tree.next == t.next + 1 && s.got == Some(t.next)
              && s.tree.nodes == t.nodes[d := Dir(es[name := t.next])][t.next := Plain]
    else Refuses(t, s)
  }

  lemma {:induction false} OpenOpens(t: Tree, rootFh: Option<Fh>, names: seq<string>, name: string, create: bool)
    ensures Opens(t, Ran(t, rootFh, names, FillOpen(name, create)), Base(t, rootFh), names, name, create)
  {
    ExecCompound(t, rootFh, names, FillOpen(name, create));
    var w := Walk(t, Base(t, rootFh), names);
    if w.Some? {
      var s := Arrived(t, Base(t, rootFh), names, w.value);
      ExecThree(s, Access, Open(name, create), GetFh);
      ExecOne(s, Access);
      var u := Do(s, Access);
      ExecOne(u, Open(name, create));
      var v := Do(u, Open(name, create));
      ExecOne(v, GetFh);
    }
  }

  /** The text of a link is the only thing that is read. */
  predicate ReadText(s: State, text: string) {
    var i := Find(s.results, KReadlink);
    s.status == NFS4_OK && i >= 0 && i == |s.results| - 1 && s.results[i].text == text
  }

  /** The object is a link, and its text is read; nothing changes. */
  predicate ReadsLink(t: Tree, s: State, w: Option<Fh>) {
    && s.tree == t
    && if w.Some? && NodeAt(t, w.value).Symlink? then ReadText(s, NodeAt(t, w.value).text) else s.status != NFS4_OK
  }

  lemma {:induction false} AnswersAreLookups(t: Tree, o: Fh, names: seq<string>)
    ensures forall i :: 0 <= i < |Answers(t, o, names)| ==> Answers(t, o, names)[i].LookupRes?
    decreases |names|
  {
    if names != [] && NodeAt(t, o).Dir? && names[0] in NodeAt(t, o).entries {
      AnswersAreLookups(t, NodeAt(t, o).entries[names[0]], names[1..]);
    }
  }

  lemma {:induction false} FoundLast(rs: seq<ResOp>, text: string)
    requires forall i :: 0 <= i < |rs| ==> !rs[i].ReadlinkRes?
    ensures Find(rs + [ReadlinkRes(text)], KReadlink) == |rs|
  {
    var all := rs + [ReadlinkRes(text)];
    assert KindOf(all[|rs|]) == KReadlink;
  }

  predicate NothingRead(rs: seq<ResOp>) {
    forall i :: 0 <= i < |rs| ==> !rs[i].ReadlinkRes?
  }

  lemma {:induction false} ReadsAt(s: State, o: Fh)
    requires s.status == NFS4_OK && s.cur == Some(o) && NothingRead(s.results)
    ensures ReadsLink(s.tree, Exec(s, [ReadLink]), Some(o))
  {
    ExecOne(s, ReadLink);
    if NodeAt(s.tree, o).Symlink? {
      FoundLast(s.results, NodeAt(s.tree, o).text);
    }
  }

  lemma {:induction false} ReadsNamed(s: State, o: Fh, name: string)
    requires s.status == NFS4_OK && s.cur == Some(o) && NothingRead(s.results)
    ensures ReadsLink(s.tree, Exec(s, [Lookup(name), ReadLink]), Walk(s.tree, o, [name]))
  {
    var u := DoLookup(s, o, name);
    ExecTwo(s, Lookup(name), ReadLink);
    ExecOne(s, Lookup(name));
    assert [name][1..] == [];
    if u.status == NFS4_OK {
      assert Walk(s.tree, o, [name]) == u.cur;
      ReadsAt(u, u.cur.value);
    } else {
      ExecOne(u, ReadLink);
    }
  }

  /** The text of the link that the names lead to is read. */
  lemma {:induction false} ReadlinkReads(t: Tree, rootFh: Option<Fh>, names: seq<string>)
    ensures ReadsLink(t, Ran(t, rootFh, names, FillReadlink), Walk(t, Base(t, rootFh), names))
  {
    ExecCompound(t, rootFh, names, FillReadlink);
    var w := Walk(t, Base(t, rootFh), names);
    if w.Some? {
      AnswersAreLookups(t, Base(t, rootFh), names);
      ReadsAt(Arrived(t, Base(t, rootFh), names, w.value), w.value);
    }
  }

  /** The same for the link with that name in the directory that the names lead to. */
  lemma {:induction false} LookupReadlinkReads(t: Tree, rootFh: Option<Fh>, names: seq<string>, name: string)
    ensures ReadsLink(t, Ran(t, rootFh, names, FillLookupReadlink(name)), Walk(t, Base(t, rootFh), names + [name]))
  {
    ExecCompound(t, rootFh, names, FillLookupReadlink(name));
    WalkConcat(t, Base(t, rootFh), names, [name]);
    var w := Walk(t, Base(t, rootFh), names);
    if w.Some? {
      var s := Arrived(t, Base(t, rootFh), names, w.value);
      AnswersAreLookups(t, Base(t, rootFh), names);
      ReadsNamed(s, w.value, name);
    }
  }

  lemma {:induction false} WalkConcat(t: Tree, o: Fh, a: seq<string>, b: seq<string>)
    ensures Walk(t, o, a + b) == if Walk(t, o, a).Some? then Walk(t, Walk(t, o, a).value, b) else None
    decreases |a|
  {
    if a == [] {
      assert a + b == b;
    } else {
      assert (a + b)[0] == a[0] && (a + b)[1..] == a[1..] + b;
      if NodeAt(t, o).Dir? && a[0] in NodeAt(t, o).entries {
        WalkConcat(t, NodeAt(t, o).entries[a[0]], a[1..], b);
      }
    }
  }

  /** The object gets that name in the directory `fh`, and nothing else changes. */
  predicate LinksTo(t: Tree, s: State, w: Option<Fh>, fh: Fh, name: string) {
    var d := NodeAt(t, fh);
    if w.Some? && !NodeAt(t, w.value).Dir? && d.Dir? && name != "" && name !in d.entries then
      s.status == NFS4_OK && s.tree == t.(nodes := t.nodes[fh := Dir(d.entries[name := w.value])])
    else Refuses(t, s)
  }

  lemma {:induction false} LinkLinks(t: Tree, rootFh: Option<Fh>, names: seq<string>, fh: Fh, name: string)
    ensures LinksTo(t, Ran(t, rootFh, names, FillLink(fh, name)), Walk(t, Base(t, rootFh), names), fh, name)
  {
    ExecCompound(t, rootFh, names, FillLink(fh, name));
    var w := Walk(t, Base(t, rootFh), names);
    if w.Some? {
      SaveThenPut(Arrived(t, Base(t, rootFh), names, w.value), w.value, fh, Link(name));
    }
  }

  lemma {:induction false} SaveThenPut(s: State, o: Fh, fh: Fh, c: Call)
    requires s.status == NFS4_OK && s.cur == Some(o)
    ensures var u := s.(saved := Some(o), cur := Some(fh), results := s.results + [OtherRes] + [OtherRes]);
            Exec(s, [SaveFh, PutFh(fh), c]) == Do(u, c)
  {
    ExecThree(s, SaveFh, PutFh(fh), c);
    ExecOne(s, SaveFh);
    var u := Do(s, SaveFh);
    ExecOne(u, PutFh(fh));
    ExecOne(Do(u, PutFh(fh)), c);
  }

  /** The rename from one directory to another may be done. */
  ghost predicate MayMove(t: Tree, d: Fh, name: string, fh: Fh, to: string) {
    && NodeAt(t, d).Dir? && NodeAt(t, fh).Dir? && to != "" && name in NodeAt(t, d).entries
    && var es, fs := NodeAt(t, d).entries, NodeAt(t, fh).entries;
       to in fs ==> fs[to] == es[name] || Replaceable(t, fs[to], es[name])
  }

  /** The entry is gone from the one directory and in the other, and all else is as it was. */
  ghost predicate Moves(t: Tree, u: Tree, d: Fh, name: string, fh: Fh, to: string)
    requires NodeAt(t, d).Dir? && NodeAt(t, fh).Dir? && name in NodeAt(t, d).entries
  {
    var o := NodeAt(t, d).entries[name];
    && u.root == t.root && u.next == t.next && NodeAt(u, d).Dir? && NodeAt(u, fh).Dir?
    && to in NodeAt(u, fh).entries && NodeAt(u, fh).entries[to] == o
    && (!(d == fh && name == to) ==> name !in NodeAt(u, d).entries)
    && (forall n :: n != name && !(d == fh && n == to) ==> SameEntry(t, u, d, n))
    && (forall n :: n != to && !(d == fh && n == name) ==> SameEntry(t, u, fh, n))
    && (forall x :: x != d && x != fh ==> NodeAt(u, x) == NodeAt(t, x))
  }

  predicate SameEntry(t: Tree, u: Tree, d: Fh, n: string) {
    && NodeAt(t, d).Dir? && NodeAt(u, d).Dir?
    && (n in NodeAt(t, d).entries <==> n in NodeAt(u, d).entries)
    && (n in NodeAt(t, d).entries ==> NodeAt(u, d).entries[n] == NodeAt(t, d).entries[n])
  }

  lemma {:induction false} MovedMoves(t: Tree, d: Fh, name: string, fh: Fh, to: string)
    requires NodeAt(t, d).Dir? && NodeAt(t, fh).Dir? && name in NodeAt(t, d).entries
    ensures Moves(t, Moved(t, d, NodeAt(t, d).entries, name, fh, NodeAt(t, fh).entries, to), d, name, fh, to)
  {
  }

  /** The entry of that name moves from one directory to the other; two names of one object are left alone. */
  ghost predicate Renames(t: Tree, s: State, w: Option<Fh>, name: string, fh: Fh, to: string) {
    if w.Some? && MayMove(t, w.value, name, fh, to) then
      var es, fs := NodeAt(t, w.value).entries, NodeAt(t, fh).entries;
      && s.status == NFS4_OK
      && if to in fs && fs[to] == es[name] then s.tree == t else Moves(t, s.tree, w.value, name, fh, to)
    else Refuses(t, s)
  }

  lemma {:induction false} RenameMoves(t: Tree, rootFh: Option<Fh>, names: seq<string>,
                                       name: string, fh: Fh, to: string)
    ensures Renames(t, Ran(t, rootFh, names, FillRename(fh, name, to)), Walk(t, Base(t, rootFh), names), name, fh, to)
  {
    ExecCompound(t, rootFh, names, FillRename(fh, name, to));
    var w := Walk(t, Base(t, rootFh), names);
    if w.Some? {
      SaveThenPut(Arrived(t, Base(t, rootFh), names, w.value), w.value, fh, Rename(name, to));
      if MayMove(t, w.value, name, fh, to) {
        MovedMoves(t, w.value, name, fh, to);
      }
    }
  }
}
