/**
 What a reply tells the application or makes a request send next, said by the reply alone: by its
 status, the kinds of its results, and what is in the first result of a kind.
 */
module ReplyLaws {
  import opened Options
  import Paths
  import opened Replies
  import opened RequestLaws
  import opened Requests
  import opened Resolution

  // ---- replies ----

  predicate Good(status: RpcStatus, res: Res) {
    status.Success? && res.status == NFS4_OK
  }

  predicate Has(ops: seq<ResOp>, kind: Kind) {
    Find(ops, kind) >= 0
  }

  function First(ops: seq<ResOp>, kind: Kind): ResOp
    requires Has(ops, kind)
  {
    ops[Find(ops, kind)]
  }

  /** All access that was asked about is granted, and there is a handle. */
  predicate Allows(ops: seq<ResOp>) {
    Has(ops, KGetfh) && Has(ops, KAccess) && First(ops, KAccess).supported == First(ops, KAccess).access
  }

  /** The OPEN has to be confirmed, or not. */
  predicate IsOpened(ops: seq<ResOp>, confirm: bool) {
    Has(ops, KOpen) && First(ops, KOpen).confirm == confirm
  }

  /** A part of a directory, the last one or not, all of whose entries can be read. */
  predicate Lists(ops: seq<ResOp>, eof: bool) {
    Has(ops, KReaddir) && First(ops, KReaddir).eof == eof &&
    var es := First(ops, KReaddir).entries; forall j :: 0 <= j < |es| ==> es[j]
  }

  predicate Parses(ops: seq<ResOp>) {
    Has(ops, KGetattr) && First(ops, KGetattr).parses
  }

  /** The reply is for the stage: no link is in the way. */
  predicate Passes(cb: Callback, status: RpcStatus, res: Res) {
    match cb
    case Lookup1 => Good(status, res) && AttrsParse(res.ops) && !HasLinkAttr(res.ops) && !OpenOnLink(res.ops)
    case Lookup2 => false
    case Mount1 => status.Success?
    case _ => Good(status, res)
  }

  /** The file is open, as the reply to the OPEN or to its confirmation says. */
  predicate FileIsOpen(cb: Callback, ops: seq<ResOp>) {
    (cb.Open? && Allows(ops) && IsOpened(ops, false)) || (cb.OpenConfirm? && Has(ops, KOpenConfirm))
  }

  // ---- the end of a request, and what it sends next ----

  /** The stage has nothing more to do. */
  predicate Finishes(cb: Callback, open: OpenCb, ops: seq<ResOp>) {
    match cb
    case Open => FileIsOpen(cb, ops) && open.NoOpenCb?
    case OpenConfirm => FileIsOpen(cb, ops) && open.NoOpenCb?
    case Mount4 => Has(ops, KGetfh)
    case Opendir => Has(ops, KGetfh) && Lists(ops, true)
    case Opendir2 => Lists(ops, true)
    case Getacl => Parses(ops)
    case _ =>
      || cb.OpenSetattr? || cb.TruncateClose? || cb.Close? || cb.Mkdir? || cb.Remove?
      || cb.Link2? || cb.Rename2? || cb.Chdir?
  }

  /** The application is told that all went well. */
  predicate Completes(c: CbData, status: RpcStatus, res: Res)
    requires c.pending.Some?
  {
    Passes(c.pending.value, status, res) && Finishes(Target(c), c.openCb, res.ops)
  }

  /** The stage sends another compound, and `next` waits for the reply. */
  predicate Continues(cb: Callback, open: OpenCb, ops: seq<ResOp>, next: Callback) {
    match next
    case Mount2 => cb.Mount1?
    case Mount3 => cb.Mount2? && ops != []
    case OpenConfirm => cb.Open? && Allows(ops) && IsOpened(ops, true)
    case OpenSetattr => FileIsOpen(cb, ops) && (open.OpenTruncate? || open.OpenChmod?)
    case TruncateClose => FileIsOpen(cb, ops) && open.TruncateOpen?
    case Opendir2 => ((cb.Opendir? && Has(ops, KGetfh)) || cb.Opendir2?) && Lists(ops, false)
    case _ => false
  }

  predicate Sends(c: CbData, status: RpcStatus, res: Res, next: Callback)
    requires c.pending.Some?
  {
    Passes(c.pending.value, status, res) && Continues(Target(c), c.openCb, res.ops, next)
  }

  // ---- paths that are looked up next ----

  /** The text resolves to a path. */
  predicate Leads(cwd: string, path: string) {
    Resolve(cwd, path).Some? && Resolve(cwd, path).value != ""
  }

  /** The stage looks up another path, for the stage `next`. */
  predicate Seeks(cwd: string, x: Texts, cb: Callback, ops: seq<ResOp>, next: Callback) {
    match next
    case Mount4 => cb.Mount3? && Leads(cwd, x.path)
    case Link2 => cb.Link1? && Has(ops, KGetfh) && Leads(cwd, x.oldPath)
    case Rename2 => cb.Rename1? && Has(ops, KGetfh) && Leads(cwd, x.oldPath)
    case Open => cb.OpenReadlink? && Has(ops, KReadlink) && Leads(cwd, FinalLink(x.path, First(ops, KReadlink).text))
    case _ => false
  }

  /** The object of the open is a link, or a link on the path was read, or the stage looks up another path. */
  predicate LooksUp(cwd: string, c: CbData, x: Texts, status: RpcStatus, res: Res, next: Callback)
    requires c.pending.Some?
  {
    match c.pending.value
    case Lookup1 =>
      if Walked(status, res) && OpenOnLink(res.ops) then next.OpenReadlink? && !c.noFollow && !c.op.OpOpendir?
      else Passes(Lookup1, status, res) && Seeks(cwd, x, c.continueCb, res.ops, next)
    case Lookup2 =>
      && Good(status, res) && next == c.continueCb && At(x.linkIdx) <= |Slashes(x.path)|
      && Has(res.ops, KReadlink)
      && Leads(cwd, Spliced(Slashes(x.path), At(x.linkIdx), First(res.ops, KReadlink).text))
    case cb => Passes(cb, status, res) && Seeks(cwd, x, cb, res.ops, next)
  }

  // ---- they are exact ----

  lemma {:induction false} ReaddirExactly(ops: seq<ResOp>)
    ensures ReaddirGoes(ops) == Ends(Fine) <==> Lists(ops, true)
    ensures ReaddirGoes(ops) == Waits(Opendir2) <==> Lists(ops, false)
    ensures var o := ReaddirGoes(ops); o == Ends(Fine) || o == Waits(Opendir2) || o == MISSING
  {
  }

  lemma {:induction false} OpenExactly(open: OpenCb, ops: seq<ResOp>)
    ensures var o := OpenGoes(open, ops);
            if Allows(ops) && IsOpened(ops, true) then o == Waits(OpenConfirm)
            else if Allows(ops) && IsOpened(ops, false) then o == OpenedGoes(open)
            else o == MISSING
    ensures !(IsOpened(ops, true) && IsOpened(ops, false))
  {
  }

  /** The stages that begin with another path. */
  predicate Seeker(cb: Callback) {
    cb.Mount3? || cb.Link1? || cb.Rename1? || cb.OpenReadlink?
  }

  /** The outcome of a stage is what the reply says. */
  ghost predicate Exact(cwd: string, x: Texts, cb: Callback, open: OpenCb, ops: seq<ResOp>, o: Outcome) {
    && (o == Ends(Fine) <==> Finishes(cb, open, ops))
    && (forall next :: o == Waits(next) <==> Continues(cb, open, ops, next))
    && (forall next :: (o.Looks? && o.cb == next) <==> Seeks(cwd, x, cb, ops, next))
  }

  /** A lookup for `next` is started exactly if this holds, and else the request does not end well. */
  predicate Aims(o: Outcome, next: Callback, leads: bool) {
    if leads then o.Looks? && o.cb == next else o.Strays? || (o.Ends? && o.code != Fine)
  }

  lemma {:induction false} LookForExactly(cwd: string, next: Callback, x: Texts, code: nat)
    ensures Aims(LookFor(cwd, next, x, code), next, Leads(cwd, x.path))
  {
  }

  lemma {:induction false} SplitForExactly(cwd: string, next: Callback, x: Texts, path: string)
    ensures Aims(SplitFor(cwd, next, x, path), next, Leads(cwd, path))
  {
  }

  lemma {:induction false} AimIsExact(cwd: string, x: Texts, cb: Callback, open: OpenCb, ops: seq<ResOp>,
                                         o: Outcome, next: Callback)
    requires Seeker(cb) && Aims(o, next, Seeks(cwd, x, cb, ops, next))
    requires next == match cb case Mount3 => Mount4 case Link1 => Link2 case Rename1 => Rename2 case _ => Open
    ensures Exact(cwd, x, cb, open, ops, o)
  {
  }

  lemma {:induction false} SeekerExactly(cwd: string, x: Texts, open: OpenCb, cb: Callback, ops: seq<ResOp>)
    requires Seeker(cb)
    ensures Exact(cwd, x, cb, open, ops, StageGoes(cwd, x, open, cb, ops))
  {
    var o := StageGoes(cwd, x, open, cb, ops);
    match cb
    case Mount3 =>
      LookForExactly(cwd, Mount4, x, ENOMEM);
      AimIsExact(cwd, x, cb, open, ops, o, Mount4);
    case Link1 =>
      LookForExactly(cwd, Link2, x.(path := x.oldPath), EFAULT);
      AimIsExact(cwd, x, cb, open, ops, o, Link2);
    case Rename1 =>
      SplitForExactly(cwd, Rename2, x.(newName := x.name), x.oldPath);
      AimIsExact(cwd, x, cb, open, ops, o, Rename2);
    case OpenReadlink =>
      ReadlinkExactly(cwd, x, ops);
      AimIsExact(cwd, x, cb, open, ops, o, Open);
  }

  lemma {:induction false} ReadlinkExactly(cwd: string, x: Texts, ops: seq<ResOp>)
    ensures Aims(FinalGoes(cwd, x, ops), Open, Seeks(cwd, x, OpenReadlink, ops, Open))
  {
    if Has(ops, KReadlink) {
      SplitForExactly(cwd, Open, x, FinalLink(x.path, First(ops, KReadlink).text));
    }
  }

  lemma {:induction false} OpenStageExactly(cwd: string, x: Texts, open: OpenCb, cb: Callback, ops: seq<ResOp>)
    requires cb.Open? || cb.OpenConfirm?
    ensures Exact(cwd, x, cb, open, ops, StageGoes(cwd, x, open, cb, ops))
  {
    OpenExactly(open, ops);
  }

  lemma {:induction false} DirStageExactly(cwd: string, x: Texts, open: OpenCb, cb: Callback, ops: seq<ResOp>)
    requires cb.Opendir? || cb.Opendir2?
    ensures Exact(cwd, x, cb, open, ops, StageGoes(cwd, x, open, cb, ops))
  {
    ReaddirExactly(ops);
  }

  lemma {:induction false} LastStageExactly(cwd: string, x: Texts, open: OpenCb, cb: Callback, ops: seq<ResOp>)
    requires !cb.Lookup1? && !cb.Lookup2? && !cb.Getacl? && !Seeker(cb)
    requires !cb.Open? && !cb.OpenConfirm? && !cb.Opendir? && !cb.Opendir2?
    ensures Exact(cwd, x, cb, open, ops, StageGoes(cwd, x, open, cb, ops))
  {
  }

  lemma {:induction false} StageExactly(cwd: string, x: Texts, open: OpenCb, cb: Callback, ops: seq<ResOp>)
    requires !cb.Lookup1? && !cb.Lookup2? && !cb.Getacl?
    ensures Exact(cwd, x, cb, open, ops, StageGoes(cwd, x, open, cb, ops))
  {
    if cb.Open? || cb.OpenConfirm? {
      OpenStageExactly(cwd, x, open, cb, ops);
    } else if cb.Opendir? || cb.Opendir2? {
      DirStageExactly(cwd, x, open, cb, ops);
    } else if Seeker(cb) {
      SeekerExactly(cwd, x, open, cb, ops);
    } else {
      LastStageExactly(cwd, x, open, cb, ops);
    }
  }

  lemma {:induction false} GetaclExactly(status: RpcStatus, res: Res)
    ensures var o := GetaclGoes(status, res);
            && (o == Ends(Fine) <==> Good(status, res) && Parses(res.ops)) && (o.Ends? || o.Doubles?)
            && (o.Doubles? ==> o.code != Fine)
  {
  }

  /** The request goes another way than its stage: a link is in the way, or the reply is bad. */
  predicate Sidesteps(o: Outcome) {
    o != Ends(Fine) && !o.Waits?
  }

  lemma {:induction false} LookupPasses(cwd: string, d: CbData, x: Texts, status: RpcStatus, res: Res)
    ensures var o := LookupGoes(cwd, d, x, status, res);
            if Passes(Lookup1, status, res) then o == StageGoes(cwd, x, d.openCb, d.continueCb, res.ops)
            else Sidesteps(o)
  {
  }

  lemma {:induction false} ReadSidesteps(cwd: string, cb: Callback, x: Texts, status: RpcStatus, res: Res)
    ensures Sidesteps(Checked(status, Some(res), ReadGoes(cwd, cb, x, res.ops)))
  {
  }

  /** A reply that passes leads where its stage does. */
  lemma {:induction false} GoesThrough(cwd: string, d: CbData, x: Texts, status: RpcStatus, res: Res)
    requires Waiting(d) && !d.pending.value.Getacl?
    ensures var o := Goes(cwd, d, x, d.pending.value, status, res);
            if Passes(d.pending.value, status, res) then o == StageGoes(cwd, x, d.openCb, Target(d), res.ops)
            else Sidesteps(o)
  {
    if d.pending.value.Lookup1? {
      LookupPasses(cwd, d, x, status, res);
    } else if d.pending.value.Lookup2? {
      ReadSidesteps(cwd, d.continueCb, x, status, res);
    }
  }

  /** Where the outcome is told well, and where it waits, is what the reply says. */
  ghost predicate ToldExactly(d: CbData, status: RpcStatus, res: Res, o: Outcome)
    requires d.pending.Some?
  {
    && (o == Ends(Fine) <==> Completes(d, status, res))
    && forall next :: o == Waits(next) <==> Sends(d, status, res, next)
  }

  lemma {:induction false} StageTold(cwd: string, d: CbData, x: Texts, status: RpcStatus, res: Res, o: Outcome)
    requires d.pending.Some?
    requires if Passes(d.pending.value, status, res) then Exact(cwd, x, Target(d), d.openCb, res.ops, o)
             else Sidesteps(o)
    ensures ToldExactly(d, status, res, o)
  {
  }

  lemma {:induction false} GoesTold(cwd: string, d: CbData, x: Texts, status: RpcStatus, res: Res)
    requires Waiting(d)
    ensures ToldExactly(d, status, res, Goes(cwd, d, x, d.pending.value, status, res))
  {
    if d.pending.value.Getacl? {
      GetaclExactly(status, res);
    } else {
      GoesThrough(cwd, d, x, status, res);
      if Passes(d.pending.value, status, res) {
        StageExactly(cwd, x, d.openCb, Target(d), res.ops);
      }
      StageTold(cwd, d, x, status, res, Goes(cwd, d, x, d.pending.value, status, res));
    }
  }

  /** The application is told that all went well exactly on these replies. */
  lemma {:induction false} FineExactly(cwd: string, d: CbData, x: Texts, status: RpcStatus, res: Res)
    requires Waiting(d)
    ensures Goes(cwd, d, x, d.pending.value, status, res) == Ends(Fine) <==> Completes(d, status, res)
  {
    GoesTold(cwd, d, x, status, res);
  }

  /** The next compound without a path is sent, and waited for, exactly on these. */
  lemma {:induction false} WaitsExactly(cwd: string, d: CbData, x: Texts, status: RpcStatus, res: Res)
    requires Waiting(d)
    ensures forall next :: Goes(cwd, d, x, d.pending.value, status, res) == Waits(next) <==> Sends(d, status, res, next)
  {
    GoesTold(cwd, d, x, status, res);
  }

  /** A path is looked up next exactly on these. */
  lemma {:induction false} LooksExactly(cwd: string, d: CbData, x: Texts, status: RpcStatus, res: Res)
    requires Waiting(d) && WellPlaced(x.path, Target(d)) && Paths.Canonical(cwd)
    ensures var o := Goes(cwd, d, x, d.pending.value, status, res);
            forall next :: (o.Looks? && o.cb == next) <==> LooksUp(cwd, d, x, status, res, next)
  {
    var cb := d.pending.value;
    if cb.Getacl? {
      GetaclExactly(status, res);
    } else if !cb.Lookup2? {
      StageExactly(cwd, x, d.openCb, Target(d), res.ops);
    }
  }

  /** A link on the path is met: it is the last object, or a LOOKUP failed on it and it lies on the path. */
  predicate MeetsLink(c: CbData, x: Texts, status: RpcStatus, res: Res) {
    && c.pending == Some(Lookup1) && status.Success? && (res.status == NFS4_OK || res.status == NFS4ERR_SYMLINK)
    && AttrsParse(res.ops)
    && (HasLinkAttr(res.ops) ||
        (res.status == NFS4ERR_SYMLINK && !OpenOnLink(res.ops) &&
         HasFailedLookup(res.ops) && !Outside(x.path, res.ops)))
  }

  /** A link is read exactly on these. */
  lemma {:induction false} ReadsExactly(cwd: string, d: CbData, x: Texts, status: RpcStatus, res: Res)
    requires Waiting(d)
    ensures var o := Goes(cwd, d, x, d.pending.value, status, res);
            (o.Reads? <==> MeetsLink(d, x, status, res)) && (o.Reads? ==> o.idx == LinkIndex(res.ops))
  {
    StageNeverReads(cwd, x, d.openCb, Target(d), res.ops);
  }

  // ---- errors ----

  /** The code that a reply carries by itself: lost, cancelled or late, or an error of the server. */
  predicate Blames(c: CbData, status: RpcStatus, res: Res, code: Code)
    requires c.pending.Some?
  {
    match status
    case Failed => code == Errno(14)
    case Cancelled => code == Errno(4)
    case TimedOut => code == Errno(4)
    case Success =>
      && res.status != 0 && code == Server(res.status) && !c.pending.value.Mount1?
      && !(c.pending.value.Lookup1? && res.status == NFS4ERR_SYMLINK)
  }

  lemma {:induction false} BlamesExactly(cwd: string, d: CbData, x: Texts, status: RpcStatus, res: Res, code: Code)
    requires Waiting(d) && Blames(d, status, res, code)
    ensures Goes(cwd, d, x, d.pending.value, status, res) ==
            if d.pending.value.Getacl? then Doubles(code) else Ends(code)
  {
  }

  /** A good reply that a stage can make nothing of, for want of a path; `n` is the error. */
  predicate Despairs(cwd: string, x: Texts, cb: Callback, ops: seq<ResOp>, n: nat) {
    match cb
    case Mount3 => n == 12 && Resolve(cwd, x.path).None?
    case Link1 => n == 14 && Has(ops, KGetfh) && Resolve(cwd, x.oldPath).None?
    case _ => false
  }

  /** The same for a reply, where other errors than EINVAL have their reasons. */
  predicate GivesUp(cwd: string, c: CbData, x: Texts, status: RpcStatus, res: Res, n: nat)
    requires c.pending.Some?
  {
    match c.pending.value
    case Getacl => n == 5 && Good(status, res) && Has(res.ops, KGetattr) && !First(res.ops, KGetattr).parses
    case Lookup1 =>
      || (n == 14 && status.Success? && res.status == NFS4ERR_SYMLINK && AttrsParse(res.ops) &&
          !HasLinkAttr(res.ops) && !OpenOnLink(res.ops) && !HasFailedLookup(res.ops))
      || (Passes(Lookup1, status, res) && Despairs(cwd, x, c.continueCb, res.ops, n))
    case Lookup2 =>
      && n == 12 && Good(status, res) && At(x.linkIdx) <= |Slashes(x.path)| && Has(res.ops, KReadlink)
      && Resolve(cwd, Spliced(Slashes(x.path), At(x.linkIdx), First(res.ops, KReadlink).text)).None?
    case cb => Passes(cb, status, res) && Despairs(cwd, x, cb, res.ops, n)
  }

  predicate Failure(o: Outcome, n: nat) {
    o == Ends(Errno(n)) && n != EINVAL
  }

  lemma {:induction false} StageDespairs(cwd: string, x: Texts, open: OpenCb, cb: Callback, ops: seq<ResOp>)
    requires !cb.Getacl?
    ensures var o := StageGoes(cwd, x, open, cb, ops);
            && (forall n: nat :: Failure(o, n) <==> Despairs(cwd, x, cb, ops, n)) && (o.Ends? ==> !o.code.Server?)
  {
  }

  /** A good reply ends a request with an error other than EINVAL exactly on these. */
  lemma {:induction false} FailsExactly(cwd: string, d: CbData, x: Texts, status: RpcStatus, res: Res)
    requires Waiting(d) && status.Success?
    ensures var o := Goes(cwd, d, x, d.pending.value, status, res);
            forall n: nat :: Failure(o, n) <==> GivesUp(cwd, d, x, status, res, n)
  {
    var cb := d.pending.value;
    if !cb.Getacl? && !cb.Lookup2? {
      StageDespairs(cwd, x, d.openCb, Target(d), res.ops);
    }
  }

  // ---- what a reply did ----

  /** What the application is told, and what is sent, is what the reply says, as far as nothing runs out. */
  ghost predicate Tells(c: CbData, d: CbData, status: RpcStatus, res: Res, lucky: bool)
    requires c.pending.Some?
  {
    && (d.reports == [Fine] ==> Completes(c, status, res))
    && (lucky && Completes(c, status, res) ==> Settled(d) && d.reports == [Fine])
    && (d.pending.Some? && !d.pending.value.Lookup1? && !d.pending.value.Lookup2? ==>
          Sends(c, status, res, d.pending.value))
    && (lucky ==> forall next :: Sends(c, status, res, next) ==> d.pending == Some(next))
    && (lucky ==> forall code :: Blames(c, status, res, code) ==> d.reports == [code])
  }

  lemma {:induction false} ItTells(cwd: string, c: CbData, d: CbData, x: Texts, y: Texts,
                                   status: RpcStatus, res: Res, lucky: bool)
    requires Waiting(c)
    requires Delivered(c, d, x, y, Goes(cwd, c, x, c.pending.value, status, res), lucky)
    ensures Tells(c, d, status, res, lucky)
  {
    FineExactly(cwd, c, x, status, res);
    WaitsExactly(cwd, c, x, status, res);
    if lucky {
      forall code | Blames(c, status, res, code)
        ensures d.reports == [code]
      {
        BlamesExactly(cwd, c, x, status, res, code);
      }
    }
  }

  /** What a reply did to its request, with the exact conditions for all it may lead to. */
  ghost predicate Delivery(cwd: string, c: CbData, d: CbData, x: Texts, y: Texts,
                           status: RpcStatus, res: Res, lucky: bool)
    requires c.pending.Some?
  {
    var o := Goes(cwd, c, x, c.pending.value, status, res);
    && Delivered(c, d, x, y, o, lucky)
    && (o.Strays? <==> StraysOn(cwd, c, x, status, res))
    && (Leaked(d) <==> c.pending == Some(Lookup1) && Walked(status, res) && OpenOnLink(res.ops) && c.noFollow)
    && Tells(c, d, status, res, lucky)
  }

  /** What is looked up or read next is what the reply says, as far as nothing runs out. */
  ghost predicate Turning(cwd: string, c: CbData, d: CbData, x: Texts, y: Texts,
                          status: RpcStatus, res: Res, lucky: bool)
    requires c.pending.Some?
  {
    && (d.pending == Some(Lookup1) ==> LooksUp(cwd, c, x, status, res, d.continueCb))
    && (lucky ==> forall next :: LooksUp(cwd, c, x, status, res, next) ==>
                                 d.pending == Some(Lookup1) && d.continueCb == next)
    && (d.pending == Some(Lookup2) ==> MeetsLink(c, x, status, res) && y.linkIdx == LinkIndex(res.ops))
    && (lucky && MeetsLink(c, x, status, res) ==> d.pending == Some(Lookup2))
    && (lucky && status.Success? ==>
          forall n: nat :: GivesUp(cwd, c, x, status, res, n) ==> d.reports == [Errno(n)])
  }

  /** What a request that went somewhere has pending or reported. */
  predicate WentTo(c: CbData, d: CbData, y: Texts, o: Outcome, lucky: bool) {
    && (d.pending == Some(Lookup1) ==> o.Looks? && o.cb == d.continueCb)
    && (lucky && o.Looks? ==> d.pending == Some(Lookup1) && d.continueCb == o.cb)
    && (d.pending == Some(Lookup2) ==> o.Reads? && y.linkIdx == o.idx)
    && (lucky && o.Reads? ==> d.pending == Some(Lookup2))
    && (lucky && o.Ends? ==> d.reports == [o.code])
  }

  lemma {:induction false} OutcomeIsWent(c: CbData, d: CbData, x: Texts, y: Texts, o: Outcome, lucky: bool)
    requires Turns(c, d, x, y, o, lucky) && (o.Waits? ==> !o.cb.Lookup1? && !o.cb.Lookup2?)
    ensures WentTo(c, d, y, o, lucky)
  {
  }

  lemma {:induction false} DeliveryTurns(cwd: string, c: CbData, d: CbData, x: Texts, y: Texts,
                                   status: RpcStatus, res: Res, lucky: bool)
    requires Waiting(c) && WellPlaced(x.path, Target(c)) && Paths.Canonical(cwd)
    requires Delivery(cwd, c, d, x, y, status, res, lucky)
    ensures Turning(cwd, c, d, x, y, status, res, lucky)
  {
    var o := Goes(cwd, c, x, c.pending.value, status, res);
    assert WentTo(c, d, y, o, lucky) by {
      WaitsExactly(cwd, c, x, status, res);
      OutcomeIsWent(c, d, x, y, o, lucky);
    }
    LooksExactly(cwd, c, x, status, res);
    ReadsExactly(cwd, c, x, status, res);
    if status.Success? {
      FailsExactly(cwd, c, x, status, res);
    }
    WentIsTurning(cwd, c, d, x, y, status, res, lucky, o);
  }

  lemma {:induction false} WentIsTurning(cwd: string, c: CbData, d: CbData, x: Texts, y: Texts,
                                         status: RpcStatus, res: Res, lucky: bool, o: Outcome)
    requires c.pending.Some? && WentTo(c, d, y, o, lucky)
    requires forall next :: (o.Looks? && o.cb == next) <==> LooksUp(cwd, c, x, status, res, next)
    requires (o.Reads? <==> MeetsLink(c, x, status, res)) && (o.Reads? ==> o.idx == LinkIndex(res.ops))
    requires status.Success? ==> forall n: nat :: Failure(o, n) <==> GivesUp(cwd, c, x, status, res, n)
    ensures Turning(cwd, c, d, x, y, status, res, lucky)
  {
  }

  /** The working directory after a reply: a chdir that all went well for has moved to its path, nothing else moves. */
  ghost predicate Moves(cwd: string, cwd': string, c: CbData, d: CbData, x: Texts, status: RpcStatus, res: Res)
    requires c.pending.Some?
  {
    cwd' == if c.pending == Some(Lookup1) && c.continueCb.Chdir? && Completes(c, status, res) && d.reports == [Fine]
            then x.path else cwd
  }

  lemma {:induction false} DeliveryIs(cwd: string, c: CbData, d: CbData, x: Texts, y: Texts,
                                      status: RpcStatus, res: Res, lucky: bool)
    requires Waiting(c) && WellPlaced(x.path, Target(c)) && Paths.Canonical(cwd)
    requires Delivered(c, d, x, y, Goes(cwd, c, x, c.pending.value, status, res), lucky)
    ensures Delivery(cwd, c, d, x, y, status, res, lucky)
  {
    StraysExactly(cwd, c, x, status, res);
    LeaksExactly(cwd, c, x, status, res);
    ItTells(cwd, c, d, x, y, status, res, lucky);
  }

  lemma {:induction false} ItMoves(cwd: string, c: CbData, d: CbData, x: Texts, y: Texts,
                                   status: RpcStatus, res: Res, lucky: bool)
    requires Waiting(c) && Delivery(cwd, c, d, x, y, status, res, lucky)
    ensures Moves(cwd, Moved(d, x.path, cwd), c, d, x, status, res)
  {
    FineExactly(cwd, c, x, status, res);
  }

  /** What a reply did, to its request and to the working directory. */
  ghost predicate Landed(cwd: string, cwd': string, c: CbData, d: CbData, x: Texts, y: Texts,
                         status: RpcStatus, res: Res, lucky: bool)
    requires c.pending.Some?
  {
    && Delivery(cwd, c, d, x, y, status, res, lucky) && Sound(Request(d, y))
    && Moves(cwd, cwd', c, d, x, status, res) && Paths.Canonical(cwd')
  }

  /** Where a callback left a request. */
  predicate LeftBy(cwd: string, c: CbData, d: CbData, x: Texts, y: Texts, status: RpcStatus, res: Res, lucky: bool)
    requires c.pending.Some?
  {
    var b := c.(pending := None);
    var o := Goes(cwd, b, x, c.pending.value, status, res);
    Same(c, d) && Turns(b, d, x, y, o, lucky) && Requests.Alters(b, d, o) && (o.Leaks? ==> Leaked(d))
  }

  /** From where a callback left a request to what the reply did to it. */
  lemma {:induction false} Arrives(cwd: string, c: CbData, d: CbData, x: Texts, y: Texts,
                                   status: RpcStatus, res: Res, lucky: bool)
    requires Waiting(c) && WellPlaced(x.path, Target(c)) && Paths.Canonical(cwd)
    requires LeftBy(cwd, c, d, x, y, status, res, lucky)
    ensures Landed(cwd, Moved(d, x.path, cwd), c, d, x, y, status, res, lucky)
  {
    TurnDelivers(cwd, c, d, x, y, status, res, lucky);
    DeliveryIs(cwd, c, d, x, y, status, res, lucky);
    ItMoves(cwd, c, d, x, y, status, res, lucky);
  }
}
