/**
 Requests and the server together: what the compounds that a request sends do to the tree of the
 server, in terms of the paths that the application gave, and what the application is told.
 */
module Effects {
  import C = Compound
  import opened Options
  import Paths
  import opened Replies
  import opened RequestLaws
  import opened Requests
  import opened Resolution
  import S = Server

  /** What the compound of a lookup does behind the path; `fh` is the handle the request holds. */
  function FillerOf(cb: Callback, x: Texts, fh: C.Fh, create: bool): C.Filler
    requires AfterLookup(cb)
  {
    match cb
    case Open => C.FillOpen(x.name, create)
    case OpenReadlink => C.FillLookupReadlink(x.name)
    case Mkdir => C.FillMkdir(x.name)
    case Remove => C.FillRemove(x.name)
    case Link2 => C.FillLink(fh, x.name)
    case Rename2 => C.FillRename(fh, x.name, x.newName)
    case Opendir => C.FillReaddir
    case Mount4 => C.FillGetFh
    case Link1 => C.FillGetFh
    case Rename1 => C.FillGetFh
    case Chdir => C.FillGetFh
  }

  /** What the server makes of it. */
  function Sent(t: S.Tree, rootFh: Option<C.Fh>, cb: Callback, x: Texts, fh: C.Fh, create: bool): S.State
    requires AfterLookup(cb) && Paths.Rooted(x.path)
  {
    S.Ran(t, rootFh, LookupNames(x.path), FillerOf(cb, x, fh, create))
  }

  function ReplyOf(s: S.State): Res {
    Res(s.status, s.results)
  }

  /** Where a path leads, as it is evaluated from the working directory. */
  function Means(cwd: string, path: string): Option<seq<string>> {
    var s := AbsoluteText(cwd, path);
    if Paths.Rooted(s) then Paths.Evaluate(s) else None
  }

  function Front(names: seq<string>): seq<string> {
    if names == [] then [] else names[..|names| - 1]
  }

  function Last(names: seq<string>): string {
    if names == [] then "" else names[|names| - 1]
  }

  /** The path is looked up as its directory, and its last name is the object; the root has no name. */
  predicate Placed(x: Texts, names: Option<seq<string>>) {
    && Paths.Rooted(x.path) && names.Some?
    && LookupNames(x.path) == Front(names.value) && x.name == Last(names.value)
  }

  lemma {:induction false} SplitPlaces(cwd: string, x: Texts, path: string)
    requires Resolve(cwd, path).Some? && Resolve(cwd, path).value != ""
    ensures Placed(Split(x, Resolve(cwd, path).value), Means(cwd, path))
  {
    SplitMeans(cwd, x, path);
    var y, e := Split(x, Resolve(cwd, path).value), Means(cwd, path);
    if e == Some([]) {
      Paths.OneComponent("");
      assert "/" + "" == "/";
    } else {
      var names := LookupNames(y.path);
      assert (names + [y.name])[..|names|] == names;
    }
  }

  /** The same for the calls that start with a split. */
  lemma {:induction false} StartPlaces(cwd: string, op: Op, path: string, oldPath: string, x: Texts)
    requires op.OpMkdir? || op.OpRemove? || Requests.Opens(op) || TwoPaths(op)
    requires StartGoes(cwd, op, path, oldPath) == Begins(x)
    ensures Placed(x, Means(cwd, path)) && (TwoPaths(op) ==> x.oldPath == oldPath)
  {
    SplitPlaces(cwd, NO_TEXTS.(oldPath := x.oldPath), path);
  }

  // ---- one path ----

  /** A mkdir makes the directory that its path names. */
  lemma {:induction false} MkdirEffect(cwd: string, path: string, x: Texts, t: S.Tree, rootFh: Option<C.Fh>)
    requires StartGoes(cwd, OpMkdir, path, "") == Begins(x)
    ensures Placed(x, Means(cwd, path))
    ensures var e, s := Means(cwd, path).value, Sent(t, rootFh, Mkdir, x, 0, false);
            S.MakesDir(t, s, S.Base(t, rootFh), Front(e), Last(e))
  {
    StartPlaces(cwd, OpMkdir, path, "", x);
    PlacedMakes(t, rootFh, x, Means(cwd, path));
  }

  lemma {:induction false} PlacedMakes(t: S.Tree, rootFh: Option<C.Fh>, x: Texts, e: Option<seq<string>>)
    requires Placed(x, e)
    ensures S.MakesDir(t, Sent(t, rootFh, Mkdir, x, 0, false), S.Base(t, rootFh), Front(e.value), Last(e.value))
  {
    S.MkdirMakes(t, rootFh, LookupNames(x.path), x.name);
  }

  /** A remove removes what its path names. */
  lemma {:induction false} RemoveEffect(cwd: string, path: string, x: Texts, t: S.Tree, rootFh: Option<C.Fh>)
    requires StartGoes(cwd, OpRemove, path, "") == Begins(x)
    ensures Placed(x, Means(cwd, path))
    ensures var e, s := Means(cwd, path).value, Sent(t, rootFh, Remove, x, 0, false);
            S.Removes(t, s, S.Base(t, rootFh), Front(e), Last(e))
  {
    StartPlaces(cwd, OpRemove, path, "", x);
    PlacedRemoves(t, rootFh, x, Means(cwd, path));
  }

  lemma {:induction false} PlacedRemoves(t: S.Tree, rootFh: Option<C.Fh>, x: Texts, e: Option<seq<string>>)
    requires Placed(x, e)
    ensures S.Removes(t, Sent(t, rootFh, Remove, x, 0, false), S.Base(t, rootFh), Front(e.value), Last(e.value))
  {
    S.RemoveRemoves(t, rootFh, LookupNames(x.path), x.name);
  }

  /** An open or a truncate opens what its path names. */
  lemma {:induction false} OpenEffect(cwd: string, op: Op, path: string, x: Texts,
                                      t: S.Tree, rootFh: Option<C.Fh>, create: bool)
    requires Requests.Opens(op) && StartGoes(cwd, op, path, "") == Begins(x)
    ensures Placed(x, Means(cwd, path))
    ensures var e, s := Means(cwd, path).value, Sent(t, rootFh, Open, x, 0, create);
            S.Opens(t, s, S.Base(t, rootFh), Front(e), Last(e), create)
  {
    StartPlaces(cwd, op, path, "", x);
    PlacedOpens(t, rootFh, x, Means(cwd, path), create);
  }

  lemma {:induction false} PlacedOpens(t: S.Tree, rootFh: Option<C.Fh>, x: Texts, e: Option<seq<string>>, create: bool)
    requires Placed(x, e)
    ensures S.Opens(t, Sent(t, rootFh, Open, x, 0, create), S.Base(t, rootFh), Front(e.value), Last(e.value), create)
  {
    S.OpenOpens(t, rootFh, LookupNames(x.path), x.name, create);
  }

  /** The path of an opendir or a chdir, which is resolved twice. */
  lemma {:induction false} FullIsChain(cwd: string, path: string, x: Texts)
    requires Paths.Canonical(cwd) && FullStart(cwd, path) == Begins(x)
    ensures Paths.Rooted(x.path) && TwiceResolved(cwd, path) == Some(LookupNames(x.path))
  {
    var t := Resolve(cwd, path).value;
    ChainIsEvaluation(AbsoluteText(cwd, t), Resolve(cwd, t).value);
  }

  /** An opendir lists the directory that its path leads to. */
  lemma {:induction false} OpendirEffect(cwd: string, path: string, x: Texts, t: S.Tree, rootFh: Option<C.Fh>)
    requires Paths.Canonical(cwd) && StartGoes(cwd, OpOpendir, path, "") == Begins(x)
    ensures Paths.Rooted(x.path) && TwiceResolved(cwd, path).Some?
    ensures var s := Sent(t, rootFh, Opendir, x, 0, false);
            S.Lists(t, s, S.Base(t, rootFh), TwiceResolved(cwd, path).value)
  {
    FullIsChain(cwd, path, x);
    PlacedLists(t, rootFh, x, TwiceResolved(cwd, path).value);
  }

  lemma {:induction false} PlacedLists(t: S.Tree, rootFh: Option<C.Fh>, x: Texts, names: seq<string>)
    requires Paths.Rooted(x.path) && LookupNames(x.path) == names
    ensures S.Lists(t, Sent(t, rootFh, Opendir, x, 0, false), S.Base(t, rootFh), names)
  {
    S.ReaddirLists(t, rootFh, names);
  }

  // ---- two paths ----

  /** The first compound of a link or rename gets the directory of the new path. */
  lemma {:induction false} NewDirEffect(cwd: string, op: Op, path: string, oldPath: string, x: Texts,
                                        t: S.Tree, rootFh: Option<C.Fh>)
    requires TwoPaths(op) && StartGoes(cwd, op, path, oldPath) == Begins(x)
    ensures Placed(x, Means(cwd, path))
    ensures GetsDir(t, Sent(t, rootFh, FirstStage(op), x, 0, false), S.Base(t, rootFh), Front(Means(cwd, path).value))
  {
    StartPlaces(cwd, op, path, oldPath, x);
    PlacedGets(t, rootFh, FirstStage(op), x, Means(cwd, path));
  }

  /** The handle of what the names lead to, if they lead somewhere; nothing changes. */
  predicate GetsDir(t: S.Tree, s: S.State, o: C.Fh, names: seq<string>) {
    s.tree == t && s.got == S.Walk(t, o, names) && (s.status == NFS4_OK <==> s.got.Some?)
  }

  lemma {:induction false} PlacedGets(t: S.Tree, rootFh: Option<C.Fh>, cb: Callback, x: Texts, e: Option<seq<string>>)
    requires Placed(x, e) && (cb.Link1? || cb.Rename1?)
    ensures GetsDir(t, Sent(t, rootFh, cb, x, 0, false), S.Base(t, rootFh), Front(e.value))
  {
    S.GetFhGets(t, rootFh, LookupNames(x.path));
  }

  lemma {:induction false} RenamePlaces(cwd: string, x: Texts, y: Texts)
    requires RenameNext(cwd, x) == Looks(Rename2, y)
    ensures Placed(y, Means(cwd, x.oldPath)) && y.newName == x.name
  {
    SplitPlaces(cwd, x.(newName := x.name), x.oldPath);
  }

  /**
   A rename: the second compound moves what the old path names to the last name of the new path, in
   the directory whose handle the first one got.
   */
  lemma {:induction false} RenameEffect(cwd: string, path: string, oldPath: string, x: Texts, y: Texts,
                                        t: S.Tree, rootFh: Option<C.Fh>, fh: C.Fh)
    requires StartGoes(cwd, OpRename, path, oldPath) == Begins(x) && RenameNext(cwd, x) == Looks(Rename2, y)
    ensures Placed(y, Means(cwd, oldPath)) && Means(cwd, path).Some?
    ensures var e, from, s := Means(cwd, path).value, Means(cwd, oldPath).value, Sent(t, rootFh, Rename2, y, fh, false);
            S.Renames(t, s, S.Walk(t, S.Base(t, rootFh), Front(from)), Last(from), fh, Last(e))
  {
    StartPlaces(cwd, OpRename, path, oldPath, x);
    RenamePlaces(cwd, x, y);
    PlacedRenames(t, rootFh, y, fh, Means(cwd, oldPath), Last(Means(cwd, path).value));
  }

  lemma {:induction false} PlacedRenames(t: S.Tree, rootFh: Option<C.Fh>, y: Texts, fh: C.Fh,
                                         from: Option<seq<string>>, to: string)
    requires Placed(y, from) && y.newName == to
    ensures S.Renames(t, Sent(t, rootFh, Rename2, y, fh, false), S.Walk(t, S.Base(t, rootFh), Front(from.value)),
                      Last(from.value), fh, to)
  {
    S.RenameMoves(t, rootFh, LookupNames(y.path), y.name, fh, to);
  }

  lemma {:induction false} LinkPlaces(cwd: string, x: Texts, y: Texts)
    requires LinkNext(cwd, x) == Looks(Link2, y)
    ensures Paths.Rooted(y.path) && Means(cwd, x.oldPath) == Some(LookupNames(y.path)) && y.name == x.name
  {
    LookForMeans(cwd, Link2, x.(path := x.oldPath), EFAULT);
  }

  /**
   A link: the second compound gives what the old path leads to the last name of the new path as well,
   in the directory whose handle the first one got.
   */
  lemma {:induction false} LinkEffect(cwd: string, path: string, oldPath: string, x: Texts, y: Texts,
                                      t: S.Tree, rootFh: Option<C.Fh>, fh: C.Fh)
    requires StartGoes(cwd, OpLink, path, oldPath) == Begins(x) && LinkNext(cwd, x) == Looks(Link2, y)
    ensures Paths.Rooted(y.path) && Means(cwd, oldPath).Some? && Means(cwd, path).Some?
    ensures var e, from, s := Means(cwd, path).value, Means(cwd, oldPath).value, Sent(t, rootFh, Link2, y, fh, false);
            S.LinksTo(t, s, S.Walk(t, S.Base(t, rootFh), from), fh, Last(e))
  {
    StartPlaces(cwd, OpLink, path, oldPath, x);
    LinkPlaces(cwd, x, y);
    PlacedLinks(t, rootFh, y, fh, Means(cwd, oldPath).value, Last(Means(cwd, path).value));
  }

  lemma {:induction false} PlacedLinks(t: S.Tree, rootFh: Option<C.Fh>, y: Texts, fh: C.Fh,
                                       from: seq<string>, to: string)
    requires Paths.Rooted(y.path) && LookupNames(y.path) == from && y.name == to
    ensures S.LinksTo(t, Sent(t, rootFh, Link2, y, fh, false), S.Walk(t, S.Base(t, rootFh), from), fh, to)
  {
    S.LinkLinks(t, rootFh, from, fh, to);
  }

  // ---- what the application is told ----

  predicate Unlinked(rs: seq<ResOp>) {
    AttrsParse(rs) && !HasLinkAttr(rs) && !OpenOnLink(rs)
  }

  lemma {:induction false} PathUnlinked(t: S.Tree, o: C.Fh, names: seq<string>)
    ensures Unlinked([OtherRes] + S.Answers(t, o, names))
    ensures Unlinked([OtherRes] + S.Answers(t, o, names) + [GetattrRes(true, false)] + [OtherRes])
  {
    S.AnswersAreLookups(t, o, names);
    var rs := [OtherRes] + S.Answers(t, o, names);
    assert forall i :: 0 <= i < |rs| ==> rs[i].OtherRes? || rs[i].LookupRes?;
    var all := rs + [GetattrRes(true, false)] + [OtherRes];
    assert forall i :: 0 <= i < |rs| ==> all[i] == rs[i];
    assert |all| == |rs| + 2 && all[|rs|] == GetattrRes(true, false) && all[|rs| + 1] == OtherRes;
  }

  lemma {:induction false} LastStep(s: S.State, o: C.Fh, c: C.Call)
    requires s.cur == Some(o) && s.status == NFS4_OK && (c.MakeDir? || c.Remove?)
    ensures var u := S.Do(s, c);
            u.status == NFS4_OK ==> u.results == s.results + [OtherRes] && S.NodeAt(s.tree, o).Dir?
  {
  }

  /** A compound that makes or removes a name has an effect exactly if it ends well, and then met no link. */
  lemma {:induction false} LastReply(t: S.Tree, rootFh: Option<C.Fh>, cb: Callback, x: Texts)
    requires Paths.Rooted(x.path) && (cb.Mkdir? || cb.Remove?)
    ensures var s := Sent(t, rootFh, cb, x, 0, false); s.status == NFS4_OK ==> Unlinked(s.results)
  {
    var names, o := LookupNames(x.path), S.Base(t, rootFh);
    var f := FillerOf(cb, x, 0, false);
    S.ExecCompound(t, rootFh, names, f);
    PathUnlinked(t, o, names);
    var w := S.Walk(t, o, names);
    if w.Some? {
      var c := if cb.Mkdir? then C.MakeDir(x.name) else C.Remove(x.name);
      S.ExecOne(S.Arrived(t, o, names, w.value), c);
      LastStep(S.Arrived(t, o, names, w.value), w.value, c);
    }
  }

  /** A mkdir or remove tells the application that all went well exactly when the server has done it. */
  lemma {:induction false} ToldWhenDone(t: S.Tree, rootFh: Option<C.Fh>, cwd: string, d: CbData, x: Texts, cb: Callback)
    requires Paths.Rooted(x.path) && (cb.Mkdir? || cb.Remove?) && d.continueCb == cb
    ensures var s := Sent(t, rootFh, cb, x, 0, false);
            var o := LookupGoes(cwd, d, x, Success, ReplyOf(s));
            && (o == Ends(Fine) <==> s.status == NFS4_OK)
            && (s.status != NFS4_OK && s.status != NFS4ERR_SYMLINK ==> o == Ends(Code.Server(s.status)))
  {
    LastReply(t, rootFh, cb, x);
  }

  // ---- links on the way ----

  /** Which objects along the names are links, up to the first. */
  function Links(t: S.Tree, o: C.Fh, names: seq<string>): (ls: seq<bool>)
    ensures |ls| == |names| + 1
    decreases |names|
  {
    [S.NodeAt(t, o).Symlink?] +
    if names == [] then []
    else
      match S.NodeAt(t, o)
      case Dir(es) => if names[0] in es then Links(t, es[names[0]], names[1..]) else seq(|names|, _ => false)
      case _ => seq(|names|, _ => false)
  }

  lemma {:induction false} ShiftLinks(b: bool, ls: seq<bool>, k: nat)
    requires k <= |ls|
    ensures FirstLink([b] + ls, k + 1) == 1 + FirstLink(ls, k)
    ensures k < |ls| ==> LookupReplies([b] + ls, k + 1) == LookupReplies(ls, k)
    decreases |ls| - k
  {
    if k < |ls| {
      assert ([b] + ls)[k + 1] == ls[k];
      ShiftLinks(b, ls, k + 1);
    }
  }

  /** A walk that stops at a link has the replies of one, and the names up to the first link lead to it. */
  lemma {:induction false} StopsAtLink(t: S.Tree, o: C.Fh, names: seq<string>)
    requires S.WhyNot(t, o, names) == NFS4ERR_SYMLINK
    ensures var ls := Links(t, o, names);
            var m := FirstLink(ls, 0);
            && m < |names| && S.Answers(t, o, names) == LookupReplies(ls, 0)
            && var w := S.Walk(t, o, names[..m]); w.Some? && S.NodeAt(t, w.value).Symlink?
    decreases |names|
  {
    var ls := Links(t, o, names);
    if S.NodeAt(t, o).Symlink? {
      assert names[..0] == [];
    } else {
      var next := S.NodeAt(t, o).entries[names[0]];
      StopsAtLink(t, next, names[1..]);
      var rest := Links(t, next, names[1..]);
      ShiftLinks(false, rest, 0);
      assert ls == [false] + rest;
      var m := 1 + FirstLink(rest, 0);
      assert names[..m][1..] == names[1..][..m - 1];
    }
  }

  /**
   A lookup that meets a link on the way, on any tree: the request asks for the text of the first one,
   gets it, and looks up the path with that link followed, or ends when that leads nowhere.
   */
  lemma {:induction false} LinkRound(t: S.Tree, rootFh: Option<C.Fh>, cwd: string, d: CbData, x: Texts, f: C.Filler)
    returns (m: nat, text: string)
    requires Paths.Canonical(x.path) && !S.NodeAt(t, S.Base(t, rootFh)).Symlink?
    requires S.WhyNot(t, S.Base(t, rootFh), LookupNames(x.path)) == NFS4ERR_SYMLINK
    ensures 1 <= m < |LookupNames(x.path)|
    ensures var names := LookupNames(x.path)[..m];
            && S.ReadText(S.Ran(t, rootFh, names, C.FillReadlink), text)
            && var w := S.Walk(t, S.Base(t, rootFh), names); w.Some? && S.NodeAt(t, w.value) == S.Symlink(text)
    ensures LookupGoes(cwd, d, x, Success, ReplyOf(S.Ran(t, rootFh, LookupNames(x.path), f))) == Reads(m)
    ensures var names := LookupNames(x.path);
            var read := S.Ran(t, rootFh, names[..m], C.FillReadlink);
            var o, to := ReadGoes(cwd, d.continueCb, x.(linkIdx := m), read.results), Followed(names, m, text);
            if to.None? then o == Ends(Errno(ENOMEM))
            else o.Looks? && o.cb == d.continueCb && Paths.Rooted(o.texts.path) && LookupNames(o.texts.path) == to.value
  {
    var names, o := LookupNames(x.path), S.Base(t, rootFh);
    var ls := Links(t, o, names);
    m := FirstLink(ls, 0);
    StopsAtLink(t, o, names);
    text := S.NodeAt(t, S.Walk(t, o, names[..m]).value).text;
    S.ReadlinkReads(t, rootFh, names[..m]);
    LinkIsMet(t, rootFh, cwd, d, x, f);
    var read := S.Ran(t, rootFh, names[..m], C.FillReadlink);
    FirstLinkFollowed(cwd, d.continueCb, x.(linkIdx := m), read.results, text);
  }

  lemma {:induction false} RootHasNoNames()
    ensures LookupNames("/") == []
  {
    Paths.OneComponent("");
    assert "/" + "" == "/";
  }

  lemma {:induction false} LinkIsMet(t: S.Tree, rootFh: Option<C.Fh>, cwd: string, d: CbData, x: Texts, f: C.Filler)
    requires Paths.Canonical(x.path) && !S.NodeAt(t, S.Base(t, rootFh)).Symlink?
    requires S.WhyNot(t, S.Base(t, rootFh), LookupNames(x.path)) == NFS4ERR_SYMLINK
    ensures var m := FirstLink(Links(t, S.Base(t, rootFh), LookupNames(x.path)), 0);
            LookupGoes(cwd, d, x, Success, ReplyOf(S.Ran(t, rootFh, LookupNames(x.path), f))) == Reads(m)
  {
    var names, o := LookupNames(x.path), S.Base(t, rootFh);
    var ls := Links(t, o, names);
    StopsAtLink(t, o, names);
    S.WalkOrWhyNot(t, o, names);
    S.ExecCompound(t, rootFh, names, f);
    var s := S.Ran(t, rootFh, names, f);
    assert s.results == LinkReply(ls, []);
    RootHasNoNames();
    FirstLinkRead(cwd, d, x, ls, [], NFS4ERR_SYMLINK);
  }
}
