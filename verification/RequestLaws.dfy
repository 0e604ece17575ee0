/**
 What holds of requests whatever the replies: what the texts that are looked up mean, on which
 replies the program strays or leaks a request, which link is followed, and how far the end is.
 */
module RequestLaws {
  import opened Options
  import Paths
  import opened Replies
  import opened Requests
  import opened Resolution

  // ---- what is looked up is what the texts mean ----

  /** The names looked up are the evaluation of the path. */
  lemma {:induction false} LookForMeans(cwd: string, cb: Callback, x: Texts, code: nat)
    requires LookFor(cwd, cb, x, code).Looks?
    ensures var y := LookFor(cwd, cb, x, code).texts;
            Paths.Rooted(y.path) && Some(LookupNames(y.path)) == Paths.Evaluate(AbsoluteText(cwd, x.path))
  {
    ChainIsEvaluation(AbsoluteText(cwd, x.path), Resolve(cwd, x.path).value);
  }

  /** After a split, the names looked up and then the name of the object are it, unless it is the root. */
  lemma {:induction false} SplitMeans(cwd: string, x: Texts, path: string)
    requires Resolve(cwd, path).Some? && Resolve(cwd, path).value != ""
    ensures var y, e := Split(x, Resolve(cwd, path).value), Paths.Evaluate(AbsoluteText(cwd, path));
            && Paths.Rooted(y.path)
            && (if e == Some([]) then y.path == "/" && y.name == "" else e == Some(LookupNames(y.path) + [y.name]))
  {
    var s, t := AbsoluteText(cwd, path), Resolve(cwd, path).value;
    ResolvedIsCanonical(cwd, path);
    ChainIsEvaluation(s, t);
    if t == "/" {
      Paths.OneComponent("");
      assert "/" + "" == "/";
      assert Paths.LastSlash("/") == 0;
    } else {
      SplitRejoins(t);
    }
  }

  // ---- where the program strays ----

  /** The stage meets a path that resolves to the empty text, or misses the only result of its reply. */
  predicate Trips(cwd: string, x: Texts, cb: Callback, ops: seq<ResOp>) {
    match cb
    case Mount2 => ops == []
    case OpenReadlink => var i := Find(ops, KReadlink); i >= 0 && EmptyText(FinalLink(x.path, ops[i].text))
    case Link1 => Find(ops, KGetfh) >= 0 && EmptyText(AbsoluteText(cwd, x.oldPath))
    case Rename1 => Find(ops, KGetfh) >= 0 && EmptyText(AbsoluteText(cwd, x.oldPath))
    case _ => false
  }

  /** A lookup went through, or ended on a link. */
  predicate Walked(status: RpcStatus, res: Res) {
    && status.Success? && (res.status == NFS4_OK || res.status == NFS4ERR_SYMLINK)
    && AttrsParse(res.ops) && !HasLinkAttr(res.ops)
  }

  /** There is no slash of the path to cut at behind the names that lead to the link, or no name before it. */
  predicate Outside(path: string, ops: seq<ResOp>) {
    LinkIndex(ops) >= |Slashes(path)| || (LinkIndex(ops) == 0 && path != "/")
  }

  /**
   When the program strays: on an empty text; on a reply to SETCLIENTID without results; on one that
   tells an opendir of a link it did not ask to open; and on one that puts the link outside of the path.
   */
  predicate StraysOn(cwd: string, d: CbData, x: Texts, status: RpcStatus, res: Res)
    requires d.pending.Some?
  {
    match d.pending.value
    case Lookup1 =>
      && Walked(status, res)
      && (if OpenOnLink(res.ops) then d.op.OpOpendir?
          else if res.status == NFS4_OK then Trips(cwd, x, d.continueCb, res.ops)
          else HasFailedLookup(res.ops) && Outside(x.path, res.ops))
    case Lookup2 => Verdict(status, Some(res)).None? && x.linkIdx > |Slashes(x.path)|
    case Mount2 => Verdict(status, Some(res)).None? && res.ops == []
    case _ => false
  }

  lemma {:induction false} MountFindsPath(cwd: string, x: Texts)
    requires Paths.Canonical(cwd) && WellPlaced(x.path, Mount3)
    ensures !LookFor(cwd, Mount4, x, ENOMEM).Strays?
  {
    if x.path == "" {
      CwdItself(cwd);
    } else {
      LooksAsIs(cwd, Mount4, x, ENOMEM);
    }
  }

  lemma {:induction false} LookForStrays(cwd: string, cb: Callback, x: Texts, code: nat)
    ensures LookFor(cwd, cb, x, code).Strays? <==> EmptyText(AbsoluteText(cwd, x.path))
  {
    Paths.NormalFormEmpty(AbsoluteText(cwd, x.path));
  }

  lemma {:induction false} SplitForStrays(cwd: string, cb: Callback, x: Texts, path: string)
    ensures SplitFor(cwd, cb, x, path).Strays? <==> EmptyText(AbsoluteText(cwd, path))
  {
    Paths.NormalFormEmpty(AbsoluteText(cwd, path));
  }

  lemma {:induction false} StageStrays(cwd: string, x: Texts, open: OpenCb, cb: Callback, ops: seq<ResOp>)
    requires Paths.Canonical(cwd) && WellPlaced(x.path, cb)
    ensures StageGoes(cwd, x, open, cb, ops).Strays? <==> Trips(cwd, x, cb, ops)
  {
    match cb
    case Mount3 => MountFindsPath(cwd, x);
    case Link1 => LookForStrays(cwd, Link2, x.(path := x.oldPath), EFAULT);
    case Rename1 => SplitForStrays(cwd, Rename2, x.(newName := x.name), x.oldPath);
    case OpenReadlink =>
      var i := Find(ops, KReadlink);
      if i >= 0 {
        var u := FinalLink(x.path, ops[i].text);
        assert u[0] == x.path[0] == '/';
        SplitForStrays(cwd, Open, x, u);
      }
    case _ =>
  }

  /** A path rebuilt around a link never resolves to the empty text. */
  lemma {:induction false} RebuiltNotEmpty(cwd: string, path: string, idx: nat, link: string)
    requires Paths.Canonical(path) && 1 <= idx <= |Slashes(path)|
    ensures !EmptyText(AbsoluteText(cwd, Spliced(Slashes(path), idx, link)))
  {
    var u := Spliced(Slashes(path), idx, link);
    if path == "/" {
      Paths.OneComponent("");
      assert "/" + "" == "/";
      assert u[|u| - 1] == '/';
    } else {
      SplicedNotEmpty(Slashes(path), idx, link);
      SplicedComponents(Slashes(path), idx, link);
    }
    assert u[0] == '/' by {
      assert u != "";
      if path == "/" {
        assert u == "" + ("/" + UpToNul(link)) + "/";
      }
    }
  }

  lemma {:induction false} LookupStrays(cwd: string, d: CbData, x: Texts, status: RpcStatus, res: Res)
    requires d.pending == Some(Lookup1) && (d.noFollow ==> d.op.OpOpen?)
    requires StageGoes(cwd, x, d.openCb, d.continueCb, res.ops).Strays? <==> Trips(cwd, x, d.continueCb, res.ops)
    ensures LookupGoes(cwd, d, x, status, res).Strays? <==> StraysOn(cwd, d, x, status, res)
  {
  }

  lemma {:induction false} ReadStrays(cwd: string, cb: Callback, x: Texts, ops: seq<ResOp>)
    requires Paths.Canonical(x.path)
    ensures ReadGoes(cwd, cb, x, ops).Strays? <==> x.linkIdx > |Slashes(x.path)|
  {
    var i, e, cs := Find(ops, KReadlink), At(x.linkIdx), Slashes(x.path);
    assert |cs| >= 1;
    if i >= 0 && e <= |cs| {
      RebuiltNotEmpty(cwd, x.path, e, ops[i].text);
      LookForStrays(cwd, cb, x.(path := Spliced(cs, e, ops[i].text)), ENOMEM);
    }
  }

  /** For every request and every reply to it, the program strays exactly on these. */
  lemma {:induction false} StraysExactly(cwd: string, d: CbData, x: Texts, status: RpcStatus, res: Res)
    requires Waiting(d) && WellPlaced(x.path, Target(d)) && Paths.Canonical(cwd)
    ensures Goes(cwd, d, x, d.pending.value, status, res).Strays? <==> StraysOn(cwd, d, x, status, res)
  {
    if d.pending.value.Lookup2? {
      ReadStrays(cwd, d.continueCb, x, res.ops);
    } else {
      StageStrays(cwd, x, d.openCb, Target(d), res.ops);
      if d.pending.value.Lookup1? {
        LookupStrays(cwd, d, x, status, res);
      }
    }
  }

  /** The calls that split their path. */
  predicate Splits(op: Op) {
    op.OpOpen? || op.OpTruncate? || Names(op)
  }

  lemma {:induction false} FullNeverStumbles(cwd: string, path: string)
    requires Paths.Canonical(cwd)
    ensures !FullStart(cwd, path).Stumbles?
  {
    if Resolve(cwd, path).Some? {
      ResolveAgain(cwd, path);
    }
  }

  /** A call that splits its path strays exactly when it resolves to the empty text; no other call does. */
  lemma {:induction false} StumblesExactly(cwd: string, op: Op, path: string, oldPath: string)
    requires Paths.Canonical(cwd)
    ensures StartGoes(cwd, op, path, oldPath).Stumbles? <==> Splits(op) && EmptyText(AbsoluteText(cwd, path))
  {
    if Splits(op) {
      Paths.NormalFormEmpty(AbsoluteText(cwd, path));
    } else {
      FullNeverStumbles(cwd, path);
    }
  }

  // ---- where a request leaks ----

  /** For every request and every reply to it, it is reported and never freed exactly on these. */
  lemma {:induction false} LeaksExactly(cwd: string, d: CbData, x: Texts, status: RpcStatus, res: Res)
    requires Waiting(d)
    ensures Goes(cwd, d, x, d.pending.value, status, res).Leaks? <==>
            d.pending == Some(Lookup1) && Walked(status, res) && OpenOnLink(res.ops) && d.noFollow
  {
    StageNeverLeaks(cwd, x, d.openCb, Target(d), res.ops);
  }

  // ---- the link that is followed ----

  /** The components of a canonical path with a name are the names looked up. */
  lemma {:induction false} SlashesAreNames(path: string)
    requires Paths.Canonical(path) && path != "/"
    ensures Slashes(path) == LookupNames(path)
    ensures forall i :: 0 <= i < |Slashes(path)| ==> Paths.Proper(Slashes(path)[i])
  {
    var cs := Paths.Components(path);
    assert Paths.Proper(cs[|cs| - 1]);
  }

  /** A server whose objects along `names` are links as `isLink` says, and what its reply says of the status. */
  predicate Meets(names: seq<string>, isLink: seq<bool>, fs: seq<ResOp>, status: int) {
    && |isLink| == |names| + 1 && !isLink[0] && FirstLink(isLink, 0) < |isLink| && FillerOnLink(fs)
    && (status == NFS4ERR_SYMLINK || (status == NFS4_OK && FirstLink(isLink, 0) == |names|))
  }

  /** Whatever is a link, the request goes and reads the first one. */
  lemma {:induction false} FirstLinkRead(cwd: string, d: CbData, x: Texts,
                                         isLink: seq<bool>, fs: seq<ResOp>, status: int)
    requires Paths.Canonical(x.path) && x.path != "/" && Meets(LookupNames(x.path), isLink, fs, status)
    ensures LookupGoes(cwd, d, x, Success, Res(status, LinkReply(isLink, fs))) == Reads(FirstLink(isLink, 0))
  {
    SlashesAreNames(x.path);
    CountSelectsLink(isLink, fs);
    LinkReplyPlain(isLink, fs);
  }

  /** Its text then takes its place: what is looked up next is the path with that link followed. */
  lemma {:induction false} FirstLinkFollowed(cwd: string, cb: Callback, x: Texts, ops: seq<ResOp>, link: string)
    requires Paths.Canonical(x.path) && x.path != "/" && 1 <= x.linkIdx <= |LookupNames(x.path)|
    requires Find(ops, KReadlink) >= 0 && ops[Find(ops, KReadlink)].text == link
    ensures var o, to := ReadGoes(cwd, cb, x, ops), Followed(LookupNames(x.path), x.linkIdx, link);
            if to.None? then o == Ends(Errno(ENOMEM))
            else o.Looks? && o.cb == cb && Paths.Rooted(o.texts.path) && LookupNames(o.texts.path) == to.value
  {
    SlashesAreNames(x.path);
    var names := LookupNames(x.path);
    var z := x.(path := Spliced(names, x.linkIdx, link));
    assert ReadGoes(cwd, cb, x, ops) == LookFor(cwd, cb, z, ENOMEM);
    RebuiltLeadsOn(cwd, cb, x, names, link);
  }

  lemma {:induction false} RebuiltLeadsOn(cwd: string, cb: Callback, x: Texts, names: seq<string>, link: string)
    requires 1 <= x.linkIdx <= |names| && forall i :: 0 <= i < |names| ==> Paths.Proper(names[i])
    ensures var o := LookFor(cwd, cb, x.(path := Spliced(names, x.linkIdx, link)), ENOMEM);
            var to := Followed(names, x.linkIdx, link);
            if to.None? then o == Ends(Errno(ENOMEM))
            else o.Looks? && o.cb == cb && Paths.Rooted(o.texts.path) && LookupNames(o.texts.path) == to.value
  {
    SplicedResolves(cwd, names, x.linkIdx, link);
    var z := x.(path := Spliced(names, x.linkIdx, link));
    LookForStrays(cwd, cb, z, ENOMEM);
    if Followed(names, x.linkIdx, link).Some? {
      LookForMeans(cwd, cb, z, ENOMEM);
    }
  }

  // ---- replies on which nothing goes wrong ----

  /** The LOOKUPs answered are of names of the path, and at least one led to the link. */
  predicate LinkAnswered(path: string, ops: seq<ResOp>) {
    && 1 <= LinkIndex(ops)
    && (if HasLinkAttr(ops) then LinkIndex(ops) else LookupCount(ops)) <= |Slashes(path)|
  }

  /** A server that answers what it was asked does that. */
  lemma {:induction false} LinkIsAnswered(path: string, isLink: seq<bool>, fs: seq<ResOp>, status: int)
    requires Paths.Canonical(path) && path != "/" && Meets(LookupNames(path), isLink, fs, status)
    ensures LinkAnswered(path, LinkReply(isLink, fs))
  {
    SlashesAreNames(path);
    CountSelectsLink(isLink, fs);
    if FirstLink(isLink, 0) < |isLink| - 1 {
      LookupsAnswered(isLink, fs);
    }
  }

  /**
   A reply that answers what was asked, to a request whose old path and links do not resolve to the
   empty text, and that does not fail a getacl.
   */
  predicate Tame(cwd: string, d: CbData, x: Texts, status: RpcStatus, res: Res)
    requires d.pending.Some?
  {
    match d.pending.value
    case Lookup1 =>
      && (HasLinkAttr(res.ops) || HasFailedLookup(res.ops) ==> LinkAnswered(x.path, res.ops))
      && (OpenOnLink(res.ops) ==> d.continueCb.Open?)
      && !Trips(cwd, x, d.continueCb, res.ops)
    case Mount2 => res.ops != []
    case Getacl => Verdict(status, Some(res)).None? && Find(res.ops, KGetattr) >= 0
    case _ => true
  }

  /** A link that is being read lies on the path, and the request is what it was started as. */
  predicate Plain(q: Request) {
    && (q.data.pending == Some(Lookup2) ==> q.texts.linkIdx <= |Slashes(q.texts.path)|)
    && !q.data.turned && !q.data.lost
  }

  lemma {:induction false} TameNeverStrays(cwd: string, d: CbData, x: Texts, status: RpcStatus, res: Res)
    requires Waiting(d) && WellPlaced(x.path, Target(d)) && Paths.Canonical(cwd)
    requires Plain(Request(d, x)) && Tame(cwd, d, x, status, res)
    ensures !Astray(Goes(cwd, d, x, d.pending.value, status, res))
  {
    StraysExactly(cwd, d, x, status, res);
    if d.pending.value.Lookup1? && HasFailedLookup(res.ops) {
      LinkIndexBound(res.ops);
    }
    OnlyGetaclDoubles(cwd, d, x, status, res);
  }

  lemma {:induction false} StageNeverDoubles(cwd: string, x: Texts, open: OpenCb, cb: Callback, ops: seq<ResOp>)
    ensures !StageGoes(cwd, x, open, cb, ops).Doubles?
  {
  }

  lemma {:induction false} OnlyGetaclDoubles(cwd: string, d: CbData, x: Texts, status: RpcStatus, res: Res)
    requires d.pending.Some?
    ensures Goes(cwd, d, x, d.pending.value, status, res).Doubles? <==>
            d.pending.value.Getacl? && (Verdict(status, Some(res)).Some? || Find(res.ops, KGetattr) < 0)
  {
    StageNeverDoubles(cwd, x, d.openCb, Target(d), res.ops);
  }

  lemma {:induction false} TameReadsInside(cwd: string, d: CbData, x: Texts, status: RpcStatus, res: Res)
    requires Waiting(d) && Tame(cwd, d, x, status, res)
    ensures var o := Goes(cwd, d, x, d.pending.value, status, res); o.Reads? ==> o.idx <= |Slashes(x.path)|
  {
    StageNeverReads(cwd, x, d.openCb, Target(d), res.ops);
    LinkIndexBound(res.ops);
  }

  lemma {:induction false} LookupNeverTurns(cwd: string, d: CbData, x: Texts, status: RpcStatus, res: Res)
    requires !d.turned && Belongs(d.op, d.continueCb) && (OpenOnLink(res.ops) ==> d.continueCb.Open?)
    requires !TurnedAfter(d, StageGoes(cwd, x, d.openCb, d.continueCb, res.ops))
    ensures !TurnedAfter(d, LookupGoes(cwd, d, x, status, res))
  {
  }

  lemma {:induction false} TameNeverTurns(cwd: string, d: CbData, x: Texts, status: RpcStatus, res: Res)
    requires Waiting(d) && !d.turned && Tame(cwd, d, x, status, res)
    ensures !TurnedAfter(d, Goes(cwd, d, x, d.pending.value, status, res))
  {
    if !d.pending.value.Lookup2? {
      StageNeverReads(cwd, x, d.openCb, Target(d), res.ops);
      if d.pending.value.Lookup1? {
        LookupNeverTurns(cwd, d, x, status, res);
      }
    }
  }

  lemma {:induction false} StaysPlain(c: CbData, d: CbData, x: Texts, y: Texts, o: Outcome, lucky: bool)
    requires Delivered(c, d, x, y, o, lucky) && !Astray(o) && !TurnedAfter(c, o)
    requires (o.Reads? ==> o.idx <= |Slashes(x.path)|) && (o.Waits? ==> !o.cb.Lookup2?)
    ensures Plain(Request(d, y))
  {
  }

  /** After such a reply a plain request is plain still. */
  lemma {:induction false} TameStaysPlain(cwd: string, c: CbData, d: CbData, x: Texts, y: Texts,
                                          status: RpcStatus, res: Res, lucky: bool)
    requires Waiting(c) && WellPlaced(x.path, Target(c)) && Paths.Canonical(cwd)
    requires Plain(Request(c, x)) && Tame(cwd, c, x, status, res)
    requires Delivered(c, d, x, y, Goes(cwd, c, x, c.pending.value, status, res), lucky)
    ensures Plain(Request(d, y))
  {
    TameNeverStrays(cwd, c, x, status, res);
    TameReadsInside(cwd, c, x, status, res);
    TameNeverTurns(cwd, c, x, status, res);
    GoesLeadsOn(cwd, c, x, status, res);
    StaysPlain(c, d, x, y, Goes(cwd, c, x, c.pending.value, status, res), lucky);
  }

  // ---- how far the end is ----

  /** How many more replies a stage takes at most, its own included. */
  function Rank(cb: Callback): nat {
    match cb
    case Mount1 => 4
    case OpenReadlink => 4
    case Open => 3
    case Mount2 => 3
    case OpenConfirm => 2
    case Mount3 => 2
    case Link1 => 2
    case Rename1 => 2
    case Opendir => 2
    case _ => 1
  }

  /** The reply is about a symbolic link on the path, or there is more of the directory to come. */
  predicate Detour(d: CbData, o: Outcome) {
    o.Reads? || (o.Looks? && o.cb == OpenReadlink) || d.pending == Some(Lookup2) || o == Waits(Opendir2)
  }

  /** The request ends with this reply. */
  predicate Final(o: Outcome) {
    o.Ends? || o.Leaks? || Astray(o)
  }

  /** The stage ends the request or brings its end nearer, or there is more of the directory. */
  predicate Nearer(o: Outcome, cb: Callback) {
    Final(o) || o == Waits(Opendir2) || ((o.Waits? || o.Looks?) && Rank(o.cb) < Rank(cb))
  }

  lemma {:induction false} LookupProgress(cwd: string, d: CbData, x: Texts, status: RpcStatus, res: Res)
    requires Nearer(StageGoes(cwd, x, d.openCb, d.continueCb, res.ops), d.continueCb)
    ensures var o := LookupGoes(cwd, d, x, status, res);
            o.Reads? || (o.Looks? && o.cb == OpenReadlink) || Nearer(o, d.continueCb)
  {
  }

  /** Apart from links and further parts of a directory, every reply brings the end nearer: four are enough. */
  lemma {:induction false} Progress(cwd: string, d: CbData, x: Texts, status: RpcStatus, res: Res)
    requires Waiting(d)
    ensures var o := Goes(cwd, d, x, d.pending.value, status, res);
            1 <= Rank(Target(d)) <= 4 && (Detour(d, o) || Nearer(o, Target(d)))
  {
    StageProgress(cwd, x, d.openCb, Target(d), res.ops);
    if d.pending.value.Lookup1? {
      LookupProgress(cwd, d, x, status, res);
    }
  }

  lemma {:induction false} OpenProgress(open: OpenCb, ops: seq<ResOp>)
    ensures Nearer(OpenedGoes(open), OpenConfirm) && Nearer(OpenGoes(open, ops), Open)
  {
  }

  lemma {:induction false} ReaddirProgress(ops: seq<ResOp>)
    ensures Nearer(ReaddirGoes(ops), Opendir) && Nearer(ReaddirGoes(ops), Opendir2)
  {
  }

  /** The stages that look something up next. */
  lemma {:induction false} LookProgress(cwd: string, x: Texts, open: OpenCb, cb: Callback, ops: seq<ResOp>)
    requires cb.Mount3? || cb.Link1?
    ensures Nearer(StageGoes(cwd, x, open, cb, ops), cb)
  {
  }

  lemma {:induction false} NextIsNearer(o: Outcome, next: Callback, cb: Callback)
    requires o == MISSING || o == Strays || (o.Looks? && o.cb == next && Rank(next) < Rank(cb))
    ensures Nearer(o, cb)
  {
  }

  lemma {:induction false} SplitIsNearer(cwd: string, next: Callback, x: Texts, path: string, cb: Callback)
    requires Rank(next) < Rank(cb)
    ensures Nearer(SplitFor(cwd, next, x, path), cb)
  {
    NextIsNearer(SplitFor(cwd, next, x, path), next, cb);
  }

  lemma {:induction false} RenameProgress(cwd: string, x: Texts, ops: seq<ResOp>)
    ensures Nearer(NeedsThen(ops, KGetfh, RenameNext(cwd, x)), Rename1)
  {
    SplitIsNearer(cwd, Rename2, x.(newName := x.name), x.oldPath, Rename1);
  }

  lemma {:induction false} ReadlinkProgress(cwd: string, x: Texts, ops: seq<ResOp>)
    ensures Nearer(FinalGoes(cwd, x, ops), OpenReadlink)
  {
    var i := Find(ops, KReadlink);
    if i >= 0 {
      SplitIsNearer(cwd, Open, x, FinalLink(x.path, ops[i].text), OpenReadlink);
    }
  }

  lemma {:induction false} OtherProgress(cwd: string, x: Texts, open: OpenCb, cb: Callback, ops: seq<ResOp>)
    requires !cb.Mount3? && !cb.Link1? && !cb.Rename1? && !cb.OpenReadlink?
    requires !cb.Open? && !cb.OpenConfirm? && !cb.Opendir? && !cb.Opendir2?
    ensures Nearer(StageGoes(cwd, x, open, cb, ops), cb)
  {
  }

  lemma {:induction false} StageProgress(cwd: string, x: Texts, open: OpenCb, cb: Callback, ops: seq<ResOp>)
    ensures Nearer(StageGoes(cwd, x, open, cb, ops), cb)
  {
    if cb.Mount3? || cb.Link1? {
      LookProgress(cwd, x, open, cb, ops);
    } else if cb.Rename1? {
      RenameProgress(cwd, x, ops);
    } else if cb.OpenReadlink? {
      ReadlinkProgress(cwd, x, ops);
    } else if cb.Open? || cb.OpenConfirm? {
      OpenProgress(open, ops);
    } else if cb.Opendir? || cb.Opendir2? {
      ReaddirProgress(ops);
    } else {
      OtherProgress(cwd, x, open, cb, ops);
    }
  }

  // ---- texts that go wrong ----

  /** A file in the root. */
  lemma {:induction false} RootFile(oldPath: string)
    ensures SplitStart("/", "/x", oldPath) == Begins(Texts("/", "x", oldPath, "", 0)) && Paths.Canonical("/")
  {
    Paths.OneComponent("x");
    assert "/" + "x" == "/x";
    assert Paths.Canonical("/x");
    Paths.CanonicalIsFixed("/x");
    assert Paths.LastSlash("/x") == 0;
  }

  /** A link in the root whose text is a dot. */
  lemma {:induction false} DotInRoot()
    ensures Resolve("/", FinalLink("/", ".")) == Some("")
  {
    var u := FinalLink("/", ".");
    assert u == "//." == "/" + "/.";
    DotIsRoot();
    Paths.OneComponent("");
    assert "/" + "" == "/";
    Paths.ComponentsConcat("/", "/.");
    assert Paths.Evaluate(u) == Some([]) by {
      assert Paths.Components(u) == ["", "."];
      assert Paths.Step(Some([]), "") == Some([]) == Paths.Step(Some([]), ".");
      assert ["", "."][1..] == ["."] && ["."][1..] == [];
    }
    Paths.NormalFormEmpty(u);
  }

  /** The stage behind the first lookup of a link or rename whose old path is "/.". */
  lemma {:induction false} OldDotGoes(d: CbData, x: Texts)
    requires (d.continueCb.Link1? || d.continueCb.Rename1?) && x.oldPath == "/."
    ensures LookupGoes("/", d, x, Success, Res(NFS4_OK, [GetfhRes])).Strays?
  {
    DotIsRoot();
    var ops := [GetfhRes];
    assert KindOf(ops[0]) == KGetfh;
    assert StageGoes("/", x, d.openCb, d.continueCb, ops).Strays?;
  }

  /** An open in the root meets a link. */
  lemma {:induction false} LinkInRootGoes(d: CbData, x: Texts)
    requires !d.op.OpOpendir?
    ensures var res := Res(NFS4ERR_SYMLINK, [OpenRes(NFS4ERR_SYMLINK, false)]);
            LookupGoes("/", d, x, Success, res) == if d.noFollow then Leaks else Looks(OpenReadlink, x)
  {
    assert OpenFailedOnLink([OpenRes(NFS4ERR_SYMLINK, false)][0]);
  }

  /** The link is a dot. */
  lemma {:induction false} DotLinkGoes(d: CbData, x: Texts)
    requires d.continueCb.OpenReadlink? && x.path == "/"
    ensures LookupGoes("/", d, x, Success, Res(NFS4_OK, [ReadlinkRes(".")])).Strays?
  {
    DotInRoot();
    var ops := [ReadlinkRes(".")];
    assert KindOf(ops[0]) == KReadlink;
    assert StageGoes("/", x, d.openCb, d.continueCb, ops).Strays?;
  }
}
