/**
 The life of an NFSv4 request: the chain of callbacks that each must either queue the next one
 or report to the application and free the request data, and the mutex that open, truncate and
 close hold from start to end.
 */
module Callbacks {
  import opened Options
  import Paths
  import opened Replies
  import opened ReplyLaws
  import opened RequestLaws
  import opened Requests
  import opened Resolution

  class Nfs {
    const threads: bool           // multithreading is enabled
    var all: seq<Request>         // every request, in the order they were started
    var data: CbData              // the request at hand
    var texts: Texts              // and its texts
    var cwd: string
    var mutex: bool               // nfs4_open_call_mutex is locked
    var env: seq<bool>            // which of the next allocations and sends succeed
    var crashed: bool             // the program strayed
    ghost var owner: Option<Ptr>

    ghost predicate Inv()
      reads this
    {
      MutexFits(all, mutex, owner) && Paths.Canonical(cwd) && AllSound(all, crashed)
    }

    /** A callback can run: the mutex is locked if the request at hand holds it. */
    predicate Fit()
      reads this
    {
      !crashed && (data.held ==> mutex)
    }

    /** The request at hand is still what it is; the mutex went with it, and the program strayed if it is lost. */
    twostate predicate Kept()
      reads this
    {
      Stays(old(data), data, old(mutex), mutex, crashed)
    }

    /** The request at hand went where `o` says. */
    twostate predicate Follows(o: Outcome)
      reads this
    {
      Kept() && Turns(old(data), data, old(texts), texts, o, old(env) == []) && (old(env) == [] ==> env == [])
    }

    /** The same for one that may have been turned to an open, or have spilled a handle. */
    twostate predicate Alters(o: Outcome)
      reads this
    {
      && Stays(Marked(old(data), data), data, old(mutex), mutex, crashed)
      && Turns(old(data), data, old(texts), texts, o, old(env) == []) && (old(env) == [] ==> env == [])
      && Requests.Alters(old(data), data, o)
    }

    constructor (threads: bool, env: seq<bool>)
      ensures Inv() && all == [] && !mutex && !crashed && cwd == "/" && this.threads == threads && this.env == env
    {
      this.threads, this.env := threads, env;
      all, data, texts, cwd, mutex, crashed, owner := [], Blank(OpClose), NO_TEXTS, "/", false, false, None;
    }

    /** Does the next thing that can fail succeed? */
    method Lucky() returns (ok: bool)
      modifies this`env
      ensures old(env) == [] ==> ok && env == []
      ensures ok == Luck(old(env), 0) && env == Left(old(env), 1)
    {
      if env == [] {
        return true;
      }
      ok, env := env[0], env[1..];
    }

    /** data->cb(...) */
    method Report(code: Code)
      requires Fit() && Idle(data)
      modifies this`data
      ensures Kept() && data == old(data).(reports := [code])
    {
      data := data.(reports := data.reports + [code]);
    }

    /** free_nfs4_cb_data: only of live data that no callback will see again. */
    method Free()
      requires Fit() && data.live && data.pending.None? && !data.lost
      modifies this`data, this`mutex
      ensures Kept() && data == Freed(old(data))
    {
      if data.held {
        mutex := false;
      }
      data := Freed(data);
    }

    /** An error is reported and the data freed. */
    method Fail(code: Code)
      requires Fit() && Busy(data) && code != Fine
      modifies this`data, this`mutex
      ensures Kept() && Settled(data) && data.reports == [code]
    {
      Report(code);
      Free();
    }

    /** Success is reported, with nothing handed over, and the data freed. */
    method Succeed()
      requires Fit() && Busy(data) && !data.op.OpOpen? && !data.op.OpOpendir? && !data.turned
      modifies this`data, this`mutex
      ensures Kept() && Settled(data) && data.reports == [Fine]
    {
      Report(Fine);
      Free();
    }

    /** rpc_nfs4_compound_async: 0 when the callback will be called, else -1. */
    method Send(cb: Callback) returns (r: int)
      requires Fit() && Idle(data)
      modifies this`data, this`env
      ensures Kept() && data == old(data).(pending := if r == 0 then Some(cb) else None)
      ensures r in {0, -1} && (old(env) == [] ==> r == 0 && env == [])
    {
      var ok := Lucky();
      if !ok {
        return -1;
      }
      data := data.(pending := Some(cb));
      return 0;
    }

    /** One more request is sent; when that fails the request ends. */
    method SendOrFail(cb: Callback)
      requires Fit() && Busy(data)
      modifies this`data, this`mutex, this`env
      ensures Kept() && (old(env) == [] ==> env == [] && data.pending.Some?)
      ensures if data.pending.Some? then data == old(data).(pending := Some(cb))
              else Settled(data) && data.reports == [Errno(ENOMEM)]
    {
      var r := Send(cb);
      if r != 0 {
        Fail(Errno(ENOMEM));
      }
    }

    /** check_nfs4_error */
    method CheckError(status: RpcStatus, res: Option<Res>) returns (bad: bool)
      requires Fit() && Busy(data)
      modifies this`data, this`mutex
      ensures Kept() && bad == Verdict(status, res).Some?
      ensures bad ==> Settled(data) && data.reports == [Verdict(status, res).value]
      ensures !bad ==> data == old(data)
    {
      match status
      case Failed => Fail(Errno(EFAULT)); return true;
      case Cancelled => Fail(Errno(EINTR)); return true;
      case TimedOut => Fail(Errno(EINTR)); return true;
      case Success =>
        if res.Some? && res.value.status != NFS4_OK {
          Fail(Server(res.value.status));
          return true;
        }
        return false;
    }

    /** The program strays. */
    method Crash()
      requires Fit() && Strayed(data.(lost := true))
      modifies this`data, this`crashed
      ensures Kept() && data == old(data).(lost := true) && Strayed(data)
    {
      data := data.(lost := true);
      crashed := true;
    }

    /** The path is copied and the operations are allocated. */
    method Prepare() returns (ok: bool)
      modifies this`env
      ensures old(env) == [] ==> ok && env == []
    {
      ok := Lucky();
      if ok {
        ok := Lucky();
      }
    }

    /** nfs4_resolve_path on the path of the request. */
    method ResolvePath() returns (ok: bool)
      modifies this`texts, this`env
      ensures var t := Resolve(cwd, old(texts).path);
              && (ok <==> Luck(old(env), 0) && t.Some?) && (ok ==> texts == old(texts).(path := t.value))
      ensures env == Left(old(env), 1)
    {
      var t := Resolve(cwd, texts.path);
      ok := Lucky();
      ok := ok && t.Some?;
      if ok {
        texts := texts.(path := t.value);
      }
    }

    /** The operations are sent, to be continued at `cb`. */
    method SendLookup(cb: Callback) returns (r: Queue)
      requires Fit() && Idle(data)
      modifies this`data, this`env
      ensures Kept() && Sought(old(data), data, cb, r) && !r.Tripped?
      ensures old(env) == [] ==> env == [] && r.Queued?
    {
      data := data.(continueCb := cb);
      var sent := Send(Lookup1);
      r := if sent == 0 then Queued else Unqueued;
    }

    /** The names on the resolved path are sent; of an empty text the second byte is read. */
    method SendPath(cb: Callback) returns (r: Queue)
      requires Fit() && Idle(data)
      modifies this`data, this`env, this`crashed
      ensures Kept() && Sought(old(data), data, cb, r) && Queues(Some(texts.path), r, old(env) == [])
      ensures old(env) == [] ==> env == []
    {
      var ok := Prepare();
      if !ok {
        return Unqueued;
      }
      if texts.path == "" {
        Crash();
        return Tripped;
      }
      r := SendLookup(cb);
    }

    /** nfs4_lookup_path_async: the path is resolved, once more, and looked up. */
    method LookupPath(cb: Callback) returns (r: Queue)
      requires Fit() && Idle(data)
      modifies this`data, this`texts, this`env, this`crashed
      ensures Kept() && Sought(old(data), data, cb, r) && (old(env) == [] ==> env == [])
      ensures Queues(Resolve(cwd, old(texts).path), r, old(env) == [])
      ensures r.Queued? ==> texts == old(texts).(path := Resolve(cwd, old(texts).path).value)
    {
      var ok := ResolvePath();
      if !ok {
        return Unqueued;
      }
      r := SendPath(cb);
    }

    /** nfs4_find_op: the first result of a kind; without one the request ends. */
    method FindOp(res: Res, kind: Kind) returns (i: int)
      requires Fit() && Busy(data)
      modifies this`data, this`mutex
      ensures Kept() && i == Find(res.ops, kind)
      ensures i >= 0 ==> data == old(data)
      ensures i < 0 ==> Settled(data) && data.reports == [Errno(EINVAL)]
    {
      i := 0;
      while i < |res.ops|
        invariant 0 <= i <= |res.ops| && forall j :: 0 <= j < i ==> KindOf(res.ops[j]) != kind
      {
        if KindOf(res.ops[i]) == kind {
          return;
        }
        i := i + 1;
      }
      Fail(Errno(EINVAL));
      i := -1;
    }

    /** A callback that only reports: mkdir, remove, link_2, rename_2, close and truncate_close. */
    method LastCb(status: RpcStatus, res: Res)
      requires Fit() && Busy(data) && !data.op.OpOpen? && !data.op.OpOpendir? && !data.turned
      modifies this`data, this`mutex, this`env, this`crashed
      ensures Kept() && env == old(env) && Went(old(data), data, Checked(status, Some(res), Ends(Fine)))
    {
      var bad := CheckError(status, Some(res));
      if bad {
        return;
      }
      Succeed();
    }

    /** nfs4_chdir_1_cb: the path becomes the working directory. */
    method ChdirCb(status: RpcStatus, res: Res)
      requires Fit() && Running(data, Chdir)
      modifies this`data, this`mutex, this`env, this`crashed, this`cwd
      ensures Kept() && env == old(env) && Went(old(data), data, Checked(status, Some(res), Ends(Fine)))
      ensures cwd == Moved(data, texts.path, old(cwd))
    {
      var bad := CheckError(status, Some(res));
      if bad {
        return;
      }
      cwd := texts.path;
      Succeed();
    }

    /** The attribute could be parsed, or not. */
    method Parsed(ok: bool)
      requires Fit() && Busy(data) && data.op.OpGetacl? && !data.turned
      modifies this`data, this`mutex
      ensures Kept() && Settled(data) && data.reports == [if ok then Fine else Errno(EIO)]
    {
      if ok {
        Succeed();
      } else {
        Fail(Errno(EIO));
      }
    }

    /** The attribute of a good reply is parsed. */
    method GotAcl(res: Res)
      requires Fit() && Busy(data) && data.op.OpGetacl? && !data.turned
      modifies this`data, this`mutex, this`env, this`crashed
      ensures Kept() && env == old(env) && Went(old(data), data, AclGoes(res.ops))
    {
      var i := FindOp(res, KGetattr);
      if i < 0 {
        Crash();
        return;
      }
      Parsed(res.ops[i].parses);
    }

    /** nfs4_getacl_cb: after a failure, which has been reported and freed, it reports and frees once more. */
    method GetaclCb(status: RpcStatus, res: Res)
      requires Fit() && Running(data, Getacl)
      modifies this`data, this`mutex, this`env, this`crashed
      ensures Kept() && env == old(env) && Went(old(data), data, GetaclGoes(status, res))
    {
      OnlyGetacl(data);
      var bad := CheckError(status, Some(res));
      if bad {
        Crash();
        return;
      }
      GotAcl(res);
    }

    /** A callback of an open hands the handle over and ends. */
    method GiveHandle()
      requires Fit() && Busy(data) && (data.op.OpOpen? || data.turned) && !data.op.OpOpendir? && data.handle.Held?
      modifies this`data, this`mutex, this`env, this`crashed
      ensures Kept() && env == old(env) && Settled(data) && data.reports == [Fine] && data.handle == Given
    {
      data := data.(handle := Given);
      Report(Fine);
      Free();
    }

    /** nfs4_open_setattr_cb */
    method OpenSetattrCb(status: RpcStatus, res: Res)
      requires Fit() && Running(data, OpenSetattr)
      modifies this`data, this`mutex, this`env, this`crashed
      ensures Follows(Checked(status, Some(res), Ends(Fine)))
    {
      var bad := CheckError(status, Some(res));
      if bad {
        return;
      }
      GiveHandle();
    }

    /** nfs4_open_truncate_cb, nfs4_open_chmod_cb and nfs4_truncate_open_cb: one more request, then `next`. */
    method OpenContinuation(status: RpcStatus, res: Res, next: Callback)
      requires Fit() && Running(data, OpenConfirm)
      requires next == if data.op.OpOpen? then OpenSetattr else TruncateClose
      modifies this`data, this`mutex, this`env, this`crashed
      ensures Follows(Checked(status, Some(res), Waits(next)))
    {
      var bad := CheckError(status, Some(res));
      if bad {
        return;
      }
      SendOrFail(next);
    }

    /** The end of nfs4_open_cb and nfs4_open_confirm_cb. */
    method OpenDone(status: RpcStatus, res: Res)
      requires Fit() && Running(data, OpenConfirm) && Verdict(status, Some(res)).None?
      modifies this`data, this`mutex, this`env, this`crashed
      ensures Follows(OpenedGoes(old(data).openCb))
    {
      match data.openCb
      case NoOpenCb => GiveHandle();
      case OpenTruncate => OpenContinuation(status, res, OpenSetattr);
      case OpenChmod => OpenContinuation(status, res, OpenSetattr);
      case TruncateOpen => OpenContinuation(status, res, TruncateClose);
    }

    /** nfs4_open_confirm_cb */
    method OpenConfirmCb(status: RpcStatus, res: Res)
      requires Fit() && Running(data, OpenConfirm)
      modifies this`data, this`mutex, this`env, this`crashed
      ensures Follows(Checked(status, Some(res), StageGoes(cwd, old(texts), old(data).openCb, OpenConfirm, res.ops)))
    {
      var bad := CheckError(status, Some(res));
      if bad {
        return;
      }
      var i := FindOp(res, KOpenConfirm);
      if i < 0 {
        return;
      }
      OpenDone(status, res);
    }

    /** A file handle is allocated from a GETFH result, in two steps, whether or not there is one already. */
    method TakeHandle() returns (ok: bool)
      requires Fit() && Busy(data)
      modifies this`data, this`mutex, this`env, this`crashed
      ensures Stays(Marked(old(data), data), data, old(mutex), mutex, crashed) && (old(env) == [] ==> ok && env == [])
      ensures data.turned == old(data).turned && (old(data).spilled ==> data.spilled)
      ensures data.spilled ==> old(data).spilled || old(data).handle.Held?
      ensures if ok then data == Took(old(data)) else Broke(data)
    {
      ok := Lucky();
      if !ok {
        Fail(Errno(ENOMEM));
        return;
      }
      data := Took(data);
      ok := Lucky();
      if !ok {
        Fail(Errno(ENOMEM));
      }
    }

    /** nfs4_open_cb after its GETFH part. */
    method Opened(status: RpcStatus, res: Res)
      requires Fit() && Running(data, OpenConfirm) && Verdict(status, Some(res)).None?
      modifies this`data, this`mutex, this`env, this`crashed
      ensures Follows(GrantedGoes(old(data).openCb, res.ops))
    {
      var i := FindOp(res, KOpen);
      if i < 0 {
        return;
      }
      if res.ops[i].confirm {
        SendOrFail(OpenConfirm);
        return;
      }
      OpenDone(status, res);
    }

    /** The ACCESS and GETFH parts of nfs4_open_cb. */
    method Granted(res: Res) returns (ok: bool)
      requires Fit() && Busy(data)
      modifies this`data, this`mutex
      ensures Kept() && ok == Grants(res.ops)
      ensures ok ==> data == old(data)
      ensures !ok ==> Settled(data) && data.reports == [Errno(EINVAL)]
    {
      var i := FindOp(res, KAccess);
      if i < 0 {
        return false;
      }
      if res.ops[i].supported != res.ops[i].access {
        Fail(Errno(EINVAL));
        return false;
      }
      i := FindOp(res, KGetfh);
      ok := i >= 0;
    }

    /** nfs4_open_cb once access is granted. */
    method GoOn(status: RpcStatus, res: Res)
      requires Fit() && Running(data, Open) && Verdict(status, Some(res)).None?
      modifies this`data, this`mutex, this`env, this`crashed
      ensures Alters(GrantedGoes(old(data).openCb, res.ops))
    {
      var ok := TakeHandle();
      if !ok {
        return;
      }
      Opened(status, res);
      TookTurns(old(data), data, texts, GrantedGoes(old(data).openCb, res.ops), old(env) == []);
    }

    /** nfs4_open_cb */
    method OpenCb(status: RpcStatus, res: Res)
      requires Fit() && Running(data, Open)
      modifies this`data, this`mutex, this`env, this`crashed
      ensures Alters(Checked(status, Some(res), OpenGoes(old(data).openCb, res.ops)))
    {
      var bad := CheckError(status, Some(res));
      if bad {
        return;
      }
      var ok := Granted(res);
      if !ok {
        return;
      }
      GoOn(status, res);
    }

    /** A lookup is started; when that fails the request ends with `code`. */
    method LookupOrFail(cb: Callback, code: nat)
      requires Fit() && Busy(data) && (Geared(data, cb) || cb == data.continueCb)
      requires code == ENOMEM || code == EFAULT
      modifies this`data, this`texts, this`mutex, this`env, this`crashed
      ensures Follows(LookFor(cwd, cb, old(texts), code))
    {
      var r := LookupPath(cb);
      if r.Unqueued? {
        Fail(Errno(code));
      }
      LookTurns(cwd, old(data), data, old(texts), texts, cb, code, r, old(env) == []);
    }

    /** data_split_path: with no slash to split at the program strays. */
    method SplitPath() returns (ok: bool)
      requires Fit() && Idle(data)
      modifies this`data, this`texts, this`crashed
      ensures Kept() && (ok <==> old(texts).path != "") && data == old(data).(lost := !ok)
      ensures ok ==> texts == Split(old(texts), old(texts).path)
    {
      ok := texts.path != "";
      if ok {
        texts := Split(texts, texts.path);
      } else {
        Crash();
      }
    }

    /** nfs4_resolve_path and data_split_path. */
    method ResolveSplit(path: string) returns (r: Queue)
      requires Fit() && Idle(data)
      modifies this`data, this`texts, this`env, this`crashed
      ensures Kept() && (old(env) == [] ==> env == [])
      ensures Halved(old(data), data, old(texts), texts, Resolve(cwd, path), r, old(env) == [])
    {
      texts := texts.(path := path);
      var ok := ResolvePath();
      if !ok {
        return Unqueued;
      }
      ghost var t := texts.path;
      ok := SplitPath();
      SplitHalves(old(data), data, old(texts), texts, path, t, ok, old(env) == []);
      r := if ok then Queued else Tripped;
    }

    /** A path is resolved, split and its directory looked up: nfs4_open_readlink_cb and nfs4_rename_1_cb. */
    method SplitAndLook(cb: Callback, path: string)
      requires Fit() && Busy(data) && Geared(data, cb)
      modifies this`data, this`texts, this`mutex, this`env, this`crashed
      ensures Follows(SplitFor(cwd, cb, old(texts), path))
    {
      var r := ResolveSplit(path);
      if r.Queued? {
        LookupOrFail(cb, ENOMEM);
        SplitTurns(cwd, old(data), data, old(texts), texts, cb, path, old(env) == []);
      } else {
        if r.Unqueued? {
          Fail(Errno(EINVAL));
        }
        UnsplitTurns(cwd, old(data), data, old(texts), texts, cb, path, r, old(env) == []);
      }
    }

    /** The text of the link is put behind the directory, resolved, split and looked up. */
    method OpenText(text: string)
      requires Fit() && Running(data, OpenReadlink)
      modifies this`data, this`texts, this`mutex, this`env, this`crashed
      ensures Follows(SplitFor(cwd, Open, old(texts), FinalLink(old(texts).path, text)))
    {
      var ok := Lucky();
      if !ok {
        Fail(Errno(ENOMEM));
        return;
      }
      SplitAndLook(Open, FinalLink(texts.path, text));
    }

    /** The text of the link is taken from the reply. */
    method OpenLink(res: Res)
      requires Fit() && Running(data, OpenReadlink)
      modifies this`data, this`texts, this`mutex, this`env, this`crashed
      ensures Follows(FinalGoes(cwd, old(texts), res.ops))
    {
      var i := FindOp(res, KReadlink);
      if i < 0 {
        return;
      }
      OpenText(res.ops[i].text);
    }

    /** nfs4_open_readlink_cb */
    method OpenReadlinkCb(status: RpcStatus, res: Res)
      requires Fit() && Running(data, OpenReadlink)
      modifies this`data, this`texts, this`mutex, this`env, this`crashed
      ensures Follows(Checked(status, Some(res), FinalGoes(cwd, old(texts), res.ops)))
    {
      var bad := CheckError(status, Some(res));
      if bad {
        return;
      }
      OpenLink(res);
    }

    /**
     nfs4_open_readlink: an open that ran into a symbolic link goes after it, unless O_NOFOLLOW
     is set.  Then ELOOP is reported and the data is left as it is.  An opendir, which has no name
     to read, measures a string that is not there.  Any other request is an open from now on.
     */
    method FollowOpen(res: Res) returns (r: int)
      requires Fit() && Walking(data) && Paths.Canonical(texts.path)
      modifies this`data, this`texts, this`mutex, this`env, this`crashed
      ensures r == if OpenOnLink(res.ops) then -1 else 0
      ensures r == 0 ==> unchanged(this)
      ensures r != 0 ==> Alters(OnLinkGoes(old(data), old(texts)))
      ensures r != 0 && OnLinkGoes(old(data), old(texts)).Leaks? ==> Leaked(data)
    {
      for i := 0 to |res.ops|
        invariant forall j :: 0 <= j < i ==> !OpenFailedOnLink(res.ops[j])
        invariant unchanged(this)
      {
        if OpenFailedOnLink(res.ops[i]) {
          FollowLast();
          return -1;
        }
      }
      return 0;
    }

    /** The name is looked up and read as a link, from now on for an open. */
    method ReadLast()
      requires Fit() && Walking(data) && !data.op.OpOpendir? && Paths.Canonical(texts.path)
      modifies this`data, this`texts, this`mutex, this`env, this`crashed
      ensures Alters(Looks(OpenReadlink, old(texts)))
    {
      TurnGears(data);
      data := Turned(data);
      LooksAsIs(cwd, OpenReadlink, texts, ENOMEM);
      LookupOrFail(OpenReadlink, ENOMEM);
      TurnedTurns(old(data), data, old(texts), texts, old(env) == []);
    }

    method FollowLast()
      requires Fit() && Walking(data) && Paths.Canonical(texts.path)
      modifies this`data, this`texts, this`mutex, this`env, this`crashed
      ensures Alters(OnLinkGoes(old(data), old(texts)))
      ensures OnLinkGoes(old(data), old(texts)).Leaks? ==> Leaked(data)
    {
      if data.noFollow {
        Report(Errno(ELOOP));
      } else if data.op.OpOpendir? {
        var ok := Lucky();
        if ok {
          ok := Prepare();
        }
        if ok {
          Crash();
        } else {
          Fail(Errno(ENOMEM));
        }
      } else {
        ReadLast();
      }
    }

    /** The handle in a good reply is taken, or the request ends; `o` is where it would go next. */
    method TakeFh(status: RpcStatus, res: Res, ghost o: Outcome) returns (ok: bool)
      requires Fit() && Busy(data) && data.handle.Absent?
      modifies this`data, this`mutex, this`env, this`crashed
      ensures Kept() && (old(env) == [] ==> env == [])
      ensures ok ==> data == old(data).(handle := Held)
      ensures ok ==> Verdict(status, Some(res)).None? && Find(res.ops, KGetfh) >= 0
      ensures !ok ==> Follows(Checked(status, Some(res), NeedsThen(res.ops, KGetfh, o)))
    {
      var bad := CheckError(status, Some(res));
      if bad {
        return false;
      }
      var i := FindOp(res, KGetfh);
      if i < 0 {
        return false;
      }
      ok := TakeHandle();
    }

    /** nfs4_link_1_cb */
    method Link1Cb(status: RpcStatus, res: Res)
      requires Fit() && Running(data, Link1)
      modifies this`data, this`texts, this`mutex, this`env, this`crashed
      ensures Follows(Checked(status, Some(res), NeedsThen(res.ops, KGetfh, LinkNext(cwd, old(texts)))))
    {
      var ok := TakeFh(status, res, LinkNext(cwd, texts));
      if !ok {
        return;
      }
      texts := texts.(path := texts.oldPath);
      LookupOrFail(Link2, EFAULT);
      LinkTurns(cwd, old(data), data, old(texts), texts, old(env) == []);
    }

    /** nfs4_rename_1_cb */
    method Rename1Cb(status: RpcStatus, res: Res)
      requires Fit() && Running(data, Rename1)
      modifies this`data, this`texts, this`mutex, this`env, this`crashed
      ensures Follows(Checked(status, Some(res), NeedsThen(res.ops, KGetfh, RenameNext(cwd, old(texts)))))
    {
      var ok := TakeFh(status, res, RenameNext(cwd, texts));
      if !ok {
        return;
      }
      texts := texts.(newName := texts.name);
      SplitAndLook(Rename2, texts.oldPath);
      RenameTurns(cwd, old(data), data, old(texts), texts, old(env) == []);
    }

    /** The entries of a directory reply are added to the directory. */
    method ParseEntries(entries: seq<bool>) returns (ok: bool)
      requires Fit() && Busy(data)
      modifies this`data, this`mutex, this`env, this`crashed
      ensures Kept() && (old(env) == [] ==> env == [])
      ensures ok ==> data == old(data) && false !in entries
      ensures !ok ==> if false in entries then Result(old(data), data, MISSING, old(env) == [])
                      else Broke(data) && old(env) != []
    {
      for i := 0 to |entries|
        invariant data == old(data) && mutex == old(mutex) && (old(env) == [] ==> env == [])
        invariant !crashed
        invariant forall j :: 0 <= j < i ==> entries[j]
      {
        ok := Lucky();
        if ok {
          ok := Lucky();
        }
        if !ok {
          Fail(Errno(ENOMEM));
          return;
        }
        if !entries[i] {
          Fail(Errno(EINVAL));
          return false;
        }
      }
      ok := true;
    }

    /** The READDIR part of both opendir callbacks, with nfs4_parse_readdir and nfs4_opendir_continue. */
    method ParseReaddir(res: Res)
      requires Fit() && Running(data, Opendir2)
      modifies this`data, this`mutex, this`env, this`crashed
      ensures Follows(ReaddirGoes(res.ops))
    {
      var i := FindOp(res, KReaddir);
      if i < 0 {
        return;
      }
      var ok := ParseEntries(res.ops[i].entries);
      if !ok {
        return;
      }
      FinishDir(res.ops[i].eof);
    }

    /** The directory is handed over at its end; before that the next part is asked for. */
    method FinishDir(eof: bool)
      requires Fit() && Running(data, Opendir2)
      modifies this`data, this`mutex, this`env, this`crashed
      ensures Follows(if eof then Ends(Fine) else Waits(Opendir2))
    {
      if !eof {
        SendOrFail(Opendir2);
        return;
      }
      data := data.(dir := Given);
      Report(Fine);
      Free();
    }

    /** nfs4_opendir_2_cb */
    method Opendir2Cb(status: RpcStatus, res: Res)
      requires Fit() && Running(data, Opendir2)
      modifies this`data, this`mutex, this`env, this`crashed
      ensures Follows(Checked(status, Some(res), ReaddirGoes(res.ops)))
    {
      var bad := CheckError(status, Some(res));
      if bad {
        return;
      }
      ParseReaddir(res);
    }

    /** nfs4_opendir_cb */
    method OpendirCb(status: RpcStatus, res: Res)
      requires Fit() && Running(data, Opendir)
      modifies this`data, this`mutex, this`env, this`crashed
      ensures Follows(Checked(status, Some(res), NeedsThen(res.ops, KGetfh, ReaddirGoes(res.ops))))
    {
      var bad := CheckError(status, Some(res));
      if bad {
        return;
      }
      var i := FindOp(res, KGetfh);
      if i < 0 {
        return;
      }
      var ok := TakeHandle();
      if !ok {
        return;
      }
      ParseReaddir(res);
    }

    /** nfs4_mount_1_cb: its reply carries no result. */
    method Mount1Cb(status: RpcStatus)
      requires Fit() && Running(data, Mount1)
      modifies this`data, this`mutex, this`env, this`crashed
      ensures Follows(Checked(status, None, Waits(Mount2)))
    {
      var bad := CheckError(status, None);
      if bad {
        return;
      }
      SendOrFail(Mount2);
    }

    /** nfs4_mount_2_cb: the client id is taken from the first result, which has to be there. */
    method Mount2Cb(status: RpcStatus, res: Res)
      requires Fit() && Running(data, Mount2)
      modifies this`data, this`mutex, this`env, this`crashed
      ensures Follows(Checked(status, Some(res), if res.ops == [] then Strays else Waits(Mount3)))
    {
      var bad := CheckError(status, Some(res));
      if bad {
        return;
      }
      if res.ops == [] {
        Crash();
        return;
      }
      SendOrFail(Mount3);
    }

    /** nfs4_mount_3_cb */
    method Mount3Cb(status: RpcStatus, res: Res)
      requires Fit() && Running(data, Mount3)
      modifies this`data, this`texts, this`mutex, this`env, this`crashed
      ensures Follows(Checked(status, Some(res), LookFor(cwd, Mount4, old(texts), ENOMEM)))
    {
      var bad := CheckError(status, Some(res));
      if bad {
        return;
      }
      var ok := Lucky();
      if !ok {
        Fail(Errno(ENOMEM));
        return;
      }
      LookupOrFail(Mount4, ENOMEM);
    }

    /** nfs4_mount_4_cb */
    method Mount4Cb(status: RpcStatus, res: Res)
      requires Fit() && Running(data, Mount4)
      modifies this`data, this`mutex, this`env, this`crashed
      ensures Follows(Checked(status, Some(res), NeedsThen(res.ops, KGetfh, Ends(Fine))))
    {
      var bad := CheckError(status, Some(res));
      if bad {
        return;
      }
      var i := FindOp(res, KGetfh);
      if i < 0 {
        return;
      }
      var ok := Lucky();
      if !ok {
        Fail(Errno(ENOMEM));
        return;
      }
      Succeed();
    }

    /** The stages behind a lookup that ask for nothing more. */
    method ContinueLast(res: Res)
      requires Fit() && Walking(data) && res.status == NFS4_OK && LastStage(data.continueCb)
      modifies this`data, this`texts, this`mutex, this`env, this`crashed
      ensures Follows(StageGoes(cwd, old(texts), old(data).openCb, old(data).continueCb, res.ops))
    {
      if data.continueCb.Mount4? {
        Mount4Cb(Success, res);
      } else {
        LastCb(Success, res);
      }
    }

    /** The stages behind a lookup but for those that open a file or move the working directory. */
    method ContinueOther(res: Res)
      requires Fit() && Walking(data) && res.status == NFS4_OK && !data.continueCb.Open? && !data.continueCb.Chdir?
      modifies this`data, this`texts, this`mutex, this`env, this`crashed
      ensures Follows(StageGoes(cwd, old(texts), old(data).openCb, old(data).continueCb, res.ops))
    {
      if LastStage(data.continueCb) {
        ContinueLast(res);
      } else if data.continueCb.OpenReadlink? {
        OpenReadlinkCb(Success, res);
      } else if data.continueCb.Link1? {
        Link1Cb(Success, res);
      } else if data.continueCb.Rename1? {
        Rename1Cb(Success, res);
      } else {
        OpendirCb(Success, res);
      }
    }

    /** data->continue_cb(...): the stage behind a finished lookup runs in line. */
    method Continue(res: Res)
      requires Fit() && Walking(data) && res.status == NFS4_OK
      modifies this`data, this`texts, this`mutex, this`env, this`crashed, this`cwd
      ensures Alters(StageGoes(old(cwd), old(texts), old(data).openCb, old(data).continueCb, res.ops))
      ensures cwd == Moved(data, old(texts).path, old(cwd))
    {
      if data.continueCb.Open? {
        OpenCb(Success, res);
      } else if data.continueCb.Chdir? {
        ChdirCb(Success, res);
      } else {
        StageNeverReads(cwd, texts, data.openCb, data.continueCb, res.ops);
        ContinueOther(res);
        NotTurned(old(data), data, StageGoes(cwd, old(texts), old(data).openCb, old(data).continueCb, res.ops));
      }
    }

    /** The text of the link takes the place of its name. */
    method Rebuild(res: Res)
      requires Fit() && Busy(data) && At(texts.linkIdx) <= |Slashes(texts.path)|
      modifies this`data, this`texts, this`mutex, this`env, this`crashed
      ensures Follows(ReadGoes(cwd, old(data).continueCb, old(texts), res.ops))
    {
      var i := FindOp(res, KReadlink);
      if i < 0 {
        return;
      }
      var ok := Lucky();
      if !ok {
        Fail(Errno(ENOMEM));
        return;
      }
      texts := texts.(path := Spliced(Slashes(texts.path), At(texts.linkIdx), res.ops[i].text));
      ghost var z := texts;
      LookupOrFail(data.continueCb, ENOMEM);
      ReadTurns(cwd, old(data), data, old(texts), texts, z, res.ops, old(env) == []);
    }

    /**
     nfs4_lookup_path_2_cb: the path is rebuilt around the link and looked up again.  A path with
     fewer names than lead to the link is searched beyond its end.
     */
    method Lookup2Cb(status: RpcStatus, res: Res)
      requires Fit() && Busy(data)
      modifies this`data, this`texts, this`mutex, this`env, this`crashed
      ensures Follows(Checked(status, Some(res), ReadGoes(cwd, old(data).continueCb, old(texts), res.ops)))
    {
      var bad := CheckError(status, Some(res));
      if bad {
        return;
      }
      var ok := Lucky();
      if !ok {
        Fail(Errno(ENOMEM));
        return;
      }
      if At(texts.linkIdx) > |Slashes(texts.path)| {
        Crash();
        return;
      }
      Rebuild(res);
    }

    /** The attributes in a lookup reply: is the final component a symbolic link? */
    method ScanAttrs(res: Res) returns (ok: bool, link: bool)
      requires Fit() && Busy(data)
      modifies this`data, this`mutex, this`env, this`crashed
      ensures Kept() && env == old(env) && ok == AttrsParse(res.ops)
      ensures ok ==> data == old(data) && link == HasLinkAttr(res.ops)
      ensures !ok ==> Settled(data) && data.reports == [Errno(EINVAL)]
    {
      link := false;
      for i := 0 to |res.ops|
        invariant data == old(data) && mutex == old(mutex)
        invariant !crashed && env == old(env)
        invariant forall j :: 0 <= j < i && res.ops[j].GetattrRes? ==> res.ops[j].parses
        invariant link <==> exists j :: 0 <= j < i && res.ops[j].GetattrRes? && res.ops[j].link
      {
        if res.ops[i].GetattrRes? {
          if !res.ops[i].parses {
            Fail(Errno(EINVAL));
            return false, link;
          }
          if res.ops[i].link {
            link := true;
          }
        }
      }
      ok := true;
    }

    /** The operations that read the link are allocated and sent; `cut` tells whether the path was cut. */
    method SendReadlink(cut: bool)
      requires Fit() && Busy(data)
      modifies this`data, this`mutex, this`env, this`crashed
      ensures Follows(if cut && Overruns(texts) then Strays else Reads(texts.linkIdx))
    {
      var ok := Lucky();
      if !ok {
        Fail(Errno(ENOMEM));
        return;
      }
      if cut && Overruns(texts) {
        Crash();
        return;
      }
      SendOrFail(Lookup2);
    }

    /**
     The end of nfs4_lookup_path_1_cb.  Unless the link is the last name the path is cut behind it;
     with too few names there is no slash to cut at, and with no name before the link the operations
     are more than were allocated.
     */
    method CutAndRead(last: bool)
      requires Fit() && Busy(data)
      modifies this`data, this`mutex, this`env, this`crashed
      ensures Follows(CutGoes(texts.path, texts.linkIdx, last))
    {
      var ok := Lucky();
      if !ok {
        Fail(Errno(ENOMEM));
        return;
      }
      if !last && texts.linkIdx >= |Slashes(texts.path)| {
        Crash();
        return;
      }
      SendReadlink(!last);
    }

    /** The link is found and read. */
    method ReadLink(res: Res, last: bool)
      requires Fit() && Busy(data)
      modifies this`data, this`texts, this`mutex, this`env, this`crashed
      ensures Follows(LinkGoes(old(texts).path, res, last))
    {
      var i, idx := FindFailedLookup(res.ops);
      texts := texts.(linkIdx := idx);
      if !last && i == |res.ops| {
        Fail(Errno(EFAULT));
        return;
      }
      CutAndRead(last);
    }

    /** nfs4_lookup_path_1_cb on a reply with status OK or SYMLINK whose attributes parse. */
    method PathWalked(res: Res, link: bool)
      requires Fit() && Walking(data) && Paths.Canonical(texts.path)
      requires AttrsParse(res.ops) && link == HasLinkAttr(res.ops)
      requires res.status == NFS4_OK || res.status == NFS4ERR_SYMLINK
      modifies this`data, this`texts, this`mutex, this`env, this`crashed, this`cwd
      ensures Alters(LookupGoes(old(cwd), old(data), old(texts), Success, res))
      ensures cwd == Moved(data, old(texts).path, old(cwd))
      ensures LookupGoes(old(cwd), old(data), old(texts), Success, res).Leaks? ==> Leaked(data)
    {
      if !link {
        var r := FollowOpen(res);
        if r < 0 {
          return;
        }
      }
      if res.status == NFS4_OK && !link {
        StageNeverLeaks(cwd, texts, data.openCb, data.continueCb, res.ops);
        Continue(res);
        return;
      }
      ReadLink(res, link);
    }

    /** nfs4_lookup_path_1_cb */
    method Lookup1Cb(status: RpcStatus, res: Res)
      requires Fit() && Walking(data) && Paths.Canonical(texts.path)
      modifies this`data, this`texts, this`mutex, this`env, this`crashed, this`cwd
      ensures Alters(LookupGoes(old(cwd), old(data), old(texts), status, res))
      ensures cwd == Moved(data, old(texts).path, old(cwd))
      ensures LookupGoes(old(cwd), old(data), old(texts), status, res).Leaks? ==> Leaked(data)
    {
      if !status.Success? || (res.status != NFS4_OK && res.status != NFS4ERR_SYMLINK) {
        var bad := CheckError(status, Some(res));
        return;
      }
      var ok, link := ScanAttrs(res);
      if !ok {
        return;
      }
      PathWalked(res, link);
    }

    // ---- the calls that start a request ----

    /** What a call left behind. */
    twostate predicate Started(b: Birth, op: Op, o: Opening)
      reads this
    {
      && Launched(b, data, texts, threads, crashed, old(env) == [], op, o)
      && MutexMoves(false, b.Made? && data.held, old(mutex), mutex) && (old(env) == [] ==> env == [])
    }

    /** malloc and memset of the data. */
    method NewData(d: CbData, x: Texts) returns (q: Alloc)
      modifies this`data, this`texts, this`env
      ensures Allocated(q, d, data, texts, Begins(x), old(env) == []) && !q.Dropped? && !q.Lost?
      ensures (q.Ready? <==> Luck(old(env), 0)) && env == Left(old(env), 1)
    {
      var ok := Lucky();
      if !ok {
        return NoData;
      }
      data, texts := d, x;
      q := Ready;
    }

    /** The data is made and the path resolved. */
    method NewResolved(d: CbData, x: Texts, path: string) returns (q: Alloc)
      requires !crashed && Idle(d) && !d.held
      modifies this`data, this`texts, this`env, this`mutex
      ensures Allocated(q, d, data, texts, FirstResolve(cwd, x, path), old(env) == []) && !q.Lost?
      ensures mutex == old(mutex) && (old(env) == [] ==> env == [])
      ensures (q.Ready? <==> FullReady(old(env), Resolve(cwd, path))) && (q.Ready? ==> env == Left(old(env), 2))
    {
      LeftTwice(env, 1, 0);
      LeftTwice(env, 1, 1);
      q := NewData(d, x);
      if q.NoData? {
        return;
      }
      texts := texts.(path := path);
      var ok := ResolvePath();
      if !ok {
        Free();
        return Dropped;
      }
    }

    /** init_cb_data_full_path */
    method NewFull(d: CbData, path: string) returns (q: Alloc)
      requires !crashed && Idle(d) && !d.held && Refused(Freed(d)) && Coherent(d) && !d.turned
      modifies this`data, this`texts, this`env, this`mutex, this`crashed
      ensures q.Ready? ==> data == d && FirstResolve(cwd, NO_TEXTS, path) == Begins(texts)
      ensures !q.Ready? ==> Started(Early(q), d.op, FullStart(cwd, path))
      ensures (q.Ready? <==> FullReady(old(env), Resolve(cwd, path))) && (q.Ready? ==> env == Left(old(env), 2))
      ensures !q.Ready? && !q.NoData? ==> data.reports == []
      ensures mutex == old(mutex) && crashed == q.Lost? && (old(env) == [] ==> env == [])
    {
      q := NewResolved(d, NO_TEXTS, path);
      if !q.Ready? {
        EarlyLaunches(q, d, data, texts, FirstResolve(cwd, NO_TEXTS, path), FullStart(cwd, path),
                      threads, old(env) == []);
      }
    }

    /** The data is made, the path resolved and split. */
    method NewDirAndName(d: CbData, path: string, oldPath: string) returns (q: Alloc)
      requires !crashed && Idle(d) && !d.held
      modifies this`data, this`texts, this`env, this`mutex, this`crashed
      ensures Allocated(q, d, data, texts, SplitStart(cwd, path, oldPath), old(env) == [])
      ensures mutex == old(mutex) && crashed == q.Lost? && (old(env) == [] ==> env == [])
    {
      q := NewResolved(d, NO_TEXTS.(oldPath := oldPath), path);
      if q.Ready? {
        var ok := SplitPath();
        SplitAllocated(cwd, path, oldPath, d, data, texts, ok, old(env) == []);
        q := if ok then Ready else Lost;
      } else {
        UnsplitAllocated(cwd, path, oldPath, q, d, data, texts, old(env) == []);
      }
    }

    /** init_cb_data_split_path: the program strays when there is no slash to split at. */
    method NewSplit(d: CbData, path: string, oldPath: string) returns (q: Alloc)
      requires !crashed && Idle(d) && !d.held && Refused(Freed(d)) && Coherent(d) && !d.turned
      modifies this`data, this`texts, this`env, this`mutex, this`crashed
      ensures q.Ready? ==> data == d && SplitStart(cwd, path, oldPath) == Begins(texts)
      ensures !q.Ready? ==> Started(Early(q), d.op, SplitStart(cwd, path, oldPath))
      ensures mutex == old(mutex) && crashed == q.Lost? && (old(env) == [] ==> env == [])
    {
      q := NewDirAndName(d, path, oldPath);
      if !q.Ready? {
        ghost var o := SplitStart(cwd, path, oldPath);
        EarlyLaunches(q, d, data, texts, o, o, threads, old(env) == []);
      }
    }

    /** A number of allocations in a row. */
    method Allocate(count: nat) returns (ok: bool)
      modifies this`env
      ensures old(env) == [] ==> ok && env == []
    {
      for i := 0 to count
        invariant old(env) == [] ==> env == []
      {
        ok := Lucky();
        if !ok {
          return;
        }
      }
      ok := true;
    }

    /** The rest of a call: blobs are allocated, the lookup is started; on failure the data is freed. */
    method Begin(cb: Callback, blobs: nat) returns (q: Queue)
      requires Fit() && Idle(data)
      modifies this`data, this`texts, this`mutex, this`env, this`crashed
      ensures Kept() && (old(env) == [] ==> env == [])
      ensures Began(old(data), data, old(texts), texts, cb, Resolve(cwd, old(texts).path), q, old(env) == [])
    {
      var ok := Allocate(blobs);
      if !ok {
        Free();
        return Unqueued;
      }
      q := LookupPath(cb);
      if q.Unqueued? {
        Free();
      }
    }

    /** mkdir, remove, link and rename. */
    method NameAsync(op: Op, path: string, oldPath: string) returns (b: Birth)
      requires !crashed && Names(op)
      modifies this`data, this`texts, this`mutex, this`env, this`crashed
      ensures Started(b, op, SplitStart(cwd, path, oldPath))
    {
      var q := NewSplit(Blank(op), path, oldPath);
      if !q.Ready? {
        return Early(q);
      }
      var blobs := match op case OpMkdir => 2 case OpRemove => 0 case _ => 1;
      var k := Begin(FirstStage(op), blobs);
      NameLaunches(cwd, op, path, oldPath, data, texts, k, threads, old(env) == []);
      b := Returned(k);
    }

    /** The cookie is allocated and the lookup is started. */
    method OpendirLook(path: string) returns (b: Birth)
      requires Fit() && data == Blank(OpOpendir).(dir := Held) && FirstResolve(cwd, NO_TEXTS, path) == Begins(texts)
      modifies this`data, this`texts, this`mutex, this`env, this`crashed
      ensures Started(b, OpOpendir, FullStart(cwd, path))
    {
      var k := Begin(Opendir, 1);
      FullLaunches(cwd, OpOpendir, path, Blank(OpOpendir).(dir := Held), data, texts, k, threads, old(env) == []);
      b := Returned(k);
    }

    /** The directory is allocated, then the rest. */
    method OpendirBegin(path: string) returns (b: Birth)
      requires Fit() && data == Blank(OpOpendir) && FirstResolve(cwd, NO_TEXTS, path) == Begins(texts)
      modifies this`data, this`texts, this`mutex, this`env, this`crashed
      ensures Started(b, OpOpendir, FullStart(cwd, path))
    {
      var ok := Lucky();
      if !ok {
        Free();
        return Made(-1);
      }
      data := data.(dir := Held);
      b := OpendirLook(path);
    }

    /** nfs4_opendir_async: the directory is owned from the first allocation on. */
    method OpendirAsync(path: string) returns (b: Birth)
      requires !crashed
      modifies this`data, this`texts, this`mutex, this`env, this`crashed
      ensures Started(b, OpOpendir, FullStart(cwd, path))
    {
      var q := NewFull(Blank(OpOpendir), path);
      if !q.Ready? {
        return Early(q);
      }
      b := OpendirBegin(path);
    }

    /** When the first allocation fails the request is reported, and the call returns -1. */
    method ChdirBegin(path: string) returns (b: Birth)
      requires Fit() && data == Blank(OpChdir) && FirstResolve(cwd, NO_TEXTS, path) == Begins(texts)
      modifies this`data, this`texts, this`mutex, this`env, this`crashed
      ensures Started(b, OpChdir, FullStart(cwd, path))
      ensures b.Made? && (data.reports != [] <==> !Luck(old(env), 0))
    {
      var ok := Lucky();
      if !ok {
        Fail(Errno(ENOMEM));
        return Made(-1);
      }
      var k := Begin(Chdir, 0);
      FullLaunches(cwd, OpChdir, path, Blank(OpChdir), data, texts, k, threads, old(env) == []);
      b := Returned(k);
    }

    /**
     nfs4_chdir_async: exactly when its first own allocation fails, behind that of the data and the
     resolved path, it reports and returns -1 as well.
     */
    method ChdirAsync(path: string) returns (b: Birth)
      requires !crashed
      modifies this`data, this`texts, this`mutex, this`env, this`crashed
      ensures Started(b, OpChdir, FullStart(cwd, path))
      ensures b.Made? && data.reports != [] <==> ToldTwice(old(env), Resolve(cwd, path))
    {
      LeftTwice(env, 2, 0);
      var q := NewFull(Blank(OpChdir), path);
      if !q.Ready? {
        return Early(q);
      }
      b := ChdirBegin(path);
    }

    /** A call that sends its first compound itself. */
    method NewSent(op: Op, x: Texts) returns (b: Birth)
      requires !crashed && (op.OpMount? || op.OpGetacl?)
      modifies this`data, this`texts, this`mutex, this`env, this`crashed
      ensures Started(b, op, Begins(x))
    {
      var q := NewData(Blank(op), x);
      if q.NoData? {
        return Unmade;
      }
      var r := Send(FirstStage(op));
      if r != 0 {
        Free();
      }
      b := Made(r);
    }

    /** nfs4_mount_async */
    method MountAsync(path: string) returns (b: Birth)
      requires !crashed
      modifies this`data, this`texts, this`mutex, this`env, this`crashed
      ensures Started(b, OpMount, MountStart(path))
    {
      var t := Paths.NormalForm(path);
      if t.None? {
        return Unmade;
      }
      b := NewSent(OpMount, NO_TEXTS.(path := t.value));
    }

    /** nfs4_getacl_async */
    method GetaclAsync() returns (b: Birth)
      requires !crashed
      modifies this`data, this`texts, this`mutex, this`env, this`crashed
      ensures Started(b, OpGetacl, Begins(NO_TEXTS))
    {
      b := NewSent(OpGetacl, NO_TEXTS);
    }

    /** nfs_mt_mutex_lock: returns when the mutex is free. */
    method Lock()
      requires Fit() && data.live && !data.held && !data.lost && !mutex
      modifies this`data, this`mutex
      ensures Kept() && mutex && data == old(data).(held := true)
    {
      mutex := true;
      data := data.(held := true);
    }

    /** nfs4_close_async */
    method CloseAsync() returns (b: Birth)
      requires !crashed && (threads ==> !mutex)
      modifies this`data, this`texts, this`mutex, this`env, this`crashed
      ensures Started(b, OpClose, Begins(NO_TEXTS))
    {
      var q := NewData(Blank(OpClose).(handle := Given), NO_TEXTS);
      if q.NoData? {
        return Unmade;
      }
      if threads {
        Lock();
      }
      data := data.(handle := Held);
      var r := Send(Close);
      if r != 0 {
        data := data.(handle := Given);
        Free();
      }
      b := Made(r);
    }

    /** The mutex is taken and the open started. */
    method BeginOpen(blobs: nat) returns (q: Queue)
      requires Fit() && Idle(data) && !data.held && (threads ==> !mutex)
      modifies this`data, this`texts, this`mutex, this`env, this`crashed
      ensures Kept() && (old(env) == [] ==> env == [])
      ensures Began(old(data).(held := threads), data, old(texts), texts, Open,
                    Resolve(cwd, old(texts).path), q, old(env) == [])
    {
      if threads {
        Lock();
      }
      q := Begin(Open, blobs);
    }

    /** What is to be done once the file is open is kept with the request. */
    method KeepMode(f: Flags) returns (ok: bool)
      requires Fit() && Idle(data) && !data.held && data.openCb == NoOpenCb
      modifies this`data, this`mutex, this`env
      ensures mutex == old(mutex) && (old(env) == [] ==> ok && env == [])
      ensures var d := old(data).(openCb := OpenCbFor(f)); data == if ok then d else Freed(d)
    {
      ok := true;
      if OpenCbFor(f) != NoOpenCb {
        data := data.(openCb := OpenCbFor(f));
        ok := Lucky();
        if !ok {
          Free();
        }
      }
    }

    /** A mode that is kept is one allocation more. */
    method BeginMode(f: Flags) returns (q: Queue)
      requires Fit() && data == OpenBlank(f).(openCb := NoOpenCb) && (threads ==> !mutex)
      modifies this`data, this`texts, this`mutex, this`env, this`crashed
      ensures MutexMoves(false, data.held, old(mutex), mutex) && crashed == data.lost && (old(env) == [] ==> env == [])
      ensures Began(OpenBlank(f).(held := threads), data, old(texts), texts, Open,
                    Resolve(cwd, old(texts).path), q, old(env) == [])
    {
      var ok := KeepMode(f);
      if !ok {
        return Unqueued;
      }
      q := BeginOpen(if f.create then 2 else 0);
    }

    /** nfs4_open_async_internal */
    method OpenInternal(path: string, f: Flags) returns (b: Birth)
      requires Fit() && data == OpenBlank(f).(openCb := NoOpenCb) && (threads ==> !mutex)
      requires SplitStart(cwd, path, "") == Begins(texts)
      modifies this`data, this`texts, this`mutex, this`env, this`crashed
      ensures Started(b, OpOpen, SplitStart(cwd, path, ""))
      ensures b == Made(0) ==> data.noFollow == f.noFollow && AsFlagged(f, data.openCb)
    {
      var k := BeginMode(f);
      OpenLaunches(cwd, path, f, data, texts, k, threads, old(env) == []);
      b := Returned(k);
    }

    /** nfs4_open_async; `writable` is O_RDWR or O_WRONLY. */
    method OpenAsync(path: string, f: Flags) returns (b: Birth)
      requires !crashed && (threads ==> !mutex)
      modifies this`data, this`texts, this`mutex, this`env, this`crashed
      ensures Started(b, OpOpen, SplitStart(cwd, path, ""))
      ensures b == Made(0) ==> data.noFollow == f.noFollow && AsFlagged(f, data.openCb)
    {
      var q := NewSplit(Blank(OpOpen).(noFollow := f.noFollow), path, "");
      if !q.Ready? {
        return Early(q);
      }
      b := OpenInternal(path, f);
    }

    /** The length to cut to is kept with the request. */
    method BeginTruncate() returns (q: Queue)
      requires Fit() && data == TruncateBlank() && (threads ==> !mutex)
      modifies this`data, this`texts, this`mutex, this`env, this`crashed
      ensures MutexMoves(false, data.held, old(mutex), mutex) && crashed == data.lost && (old(env) == [] ==> env == [])
      ensures Began(TruncateBlank().(held := threads), data, old(texts), texts, Open,
                    Resolve(cwd, old(texts).path), q, old(env) == [])
    {
      var ok := Lucky();
      if !ok {
        Free();
        return Unqueued;
      }
      q := BeginOpen(0);
    }

    /** nfs4_truncate_async */
    method TruncateAsync(path: string) returns (b: Birth)
      requires !crashed && (threads ==> !mutex)
      modifies this`data, this`texts, this`mutex, this`env, this`crashed
      ensures Started(b, OpTruncate, SplitStart(cwd, path, ""))
    {
      var q := NewSplit(TruncateBlank(), path, "");
      if !q.Ready? {
        return Early(q);
      }
      var k := BeginTruncate();
      TruncateLaunches(cwd, path, data, texts, k, threads, old(env) == []);
      b := Returned(k);
    }

    // ---- runs ----

    /** A callback of a mount. */
    method DispatchMount(cb: Callback, status: RpcStatus, res: Res)
      requires Fit() && Running(data, cb) && (cb.Mount1? || cb.Mount2? || cb.Mount3?)
      modifies this`data, this`texts, this`mutex, this`env, this`crashed
      ensures Follows(Goes(cwd, old(data), old(texts), cb, status, res))
    {
      match cb
      case Mount1 => Mount1Cb(status);
      case Mount2 => Mount2Cb(status, res);
      case Mount3 => Mount3Cb(status, res);
    }

    /** A callback that is not about a lookup. */
    method DispatchStage(cb: Callback, status: RpcStatus, res: Res)
      requires Fit() && Running(data, cb) && !AfterLookup(cb)
      modifies this`data, this`texts, this`mutex, this`env, this`crashed
      ensures Follows(Goes(cwd, old(data), old(texts), cb, status, res))
    {
      match cb
      case OpenConfirm => OpenConfirmCb(status, res);
      case OpenSetattr => OpenSetattrCb(status, res);
      case TruncateClose => LastCb(status, res);
      case Close => LastCb(status, res);
      case Mount1 => DispatchMount(cb, status, res);
      case Mount2 => DispatchMount(cb, status, res);
      case Mount3 => DispatchMount(cb, status, res);
      case Opendir2 => Opendir2Cb(status, res);
      case Getacl => GetaclCb(status, res);
    }

    /** The link has been read. */
    method DispatchRead(status: RpcStatus, res: Res)
      requires Fit() && Walking(data)
      modifies this`data, this`texts, this`mutex, this`env, this`crashed
      ensures Alters(Goes(cwd, old(data), old(texts), Lookup2, status, res))
    {
      if data.continueCb.OpenReadlink? {
        ReadsForOpens(data);
      }
      Lookup2Cb(status, res);
      ReadAlters(cwd, old(data), data, old(texts), status, res);
    }

    /** A reply to anything but the lookup of a path. */
    method DispatchLater(cb: Callback, status: RpcStatus, res: Res)
      requires Fit() && !cb.Lookup1?
      requires if cb.Lookup2? then Walking(data) else Running(data, cb) && !AfterLookup(cb)
      modifies this`data, this`texts, this`mutex, this`env, this`crashed
      ensures Alters(Goes(cwd, old(data), old(texts), cb, status, res))
    {
      if cb.Lookup2? {
        DispatchRead(status, res);
      } else {
        DispatchStage(cb, status, res);
        StageAlters(cwd, old(data), data, old(texts), cb, status, res);
      }
    }

    /** The RPC layer calls a pending callback with a reply. */
    method Dispatch(cb: Callback, status: RpcStatus, res: Res)
      requires Fit() && Idle(data)
      requires if cb.Lookup1? || cb.Lookup2? then Walking(data) else Suits(data, cb) && !AfterLookup(cb)
      requires cb.Lookup1? ==> Paths.Canonical(texts.path)
      modifies this`data, this`texts, this`mutex, this`env, this`crashed, this`cwd
      ensures Alters(Goes(old(cwd), old(data), old(texts), cb, status, res))
      ensures cwd == Moved(data, old(texts).path, old(cwd))
      ensures Goes(old(cwd), old(data), old(texts), cb, status, res).Leaks? ==> Leaked(data)
    {
      if cb.Lookup1? {
        Lookup1Cb(status, res);
      } else {
        OnlyLookupsLeak(cwd, data, texts, cb, status, res);
        DispatchLater(cb, status, res);
        assert data.op.OpChdir? && data.reports == [Fine] ==> data.turned;
      }
    }

    /** The callback of a request runs. */
    method CallBack(q: Request, status: RpcStatus, res: Res)
      requires !crashed && Waiting(q.data) && WellPlaced(q.texts.path, Target(q.data)) && (q.data.held ==> mutex)
      modifies this`data, this`texts, this`mutex, this`env, this`crashed, this`cwd
      ensures LeftBy(old(cwd), q.data, data, q.texts, texts, status, res, old(env) == [])
      ensures cwd == Moved(data, q.texts.path, old(cwd)) && crashed == data.lost && (old(env) == [] ==> env == [])
      ensures MutexMoves(q.data.held, data.held, old(mutex), mutex)
    {
      data, texts := q.data.(pending := None), q.texts;
      Dispatch(q.data.pending.value, status, res);
    }

    /** A request is taken to hand and its callback runs. */
    method Take(q: Request, status: RpcStatus, res: Res)
      requires !crashed && Waiting(q.data) && WellPlaced(q.texts.path, Target(q.data)) && (q.data.held ==> mutex)
      requires Paths.Canonical(cwd)
      modifies this`data, this`texts, this`mutex, this`env, this`crashed, this`cwd
      ensures Landed(old(cwd), cwd, q.data, data, q.texts, texts, status, res, old(env) == [])
      ensures crashed == data.lost && (old(env) == [] ==> env == [])
      ensures MutexMoves(q.data.held, data.held, old(mutex), mutex)
    {
      CallBack(q, status, res);
      Arrives(old(cwd), q.data, data, q.texts, texts, status, res, old(env) == []);
    }

    /** The request at hand is put back in its place; `before` is how the mutex was when it was taken. */
    method Store(p: Ptr, ghost before: bool)
      requires p < |all| && Sound(Request(data, texts)) && crashed == data.lost && Paths.Canonical(cwd)
      requires MutexFits(all, before, owner) && AllSound(all, false)
      requires MutexMoves(all[p].data.held, data.held, before, mutex)
      modifies this`all, this`owner
      ensures Inv() && all == old(all)[p := Request(data, texts)]
    {
      StoreSound(all, p, Request(data, texts), before, mutex, owner);
      all := all[p := Request(data, texts)];
      owner := NewOwner(owner, p, data.held, mutex);
    }

    /**
     One reply: the request it is for goes where the reply says or, if memory or the connection
     fails, ends with an error; and no other request changes.  It leaks exactly when an open with
     O_NOFOLLOW meets a symbolic link, and the program strays only where the reply says so.
     */
    method Deliver(p: Ptr, status: RpcStatus, res: Res)
      requires Inv() && !crashed && p < |all| && Waiting(all[p].data)
      modifies this
      ensures Inv() && all == old(all)[p := Request(data, texts)]
      ensures Delivery(old(cwd), old(all)[p].data, data, old(all)[p].texts, texts, status, res, old(env) == [])
      ensures crashed == data.lost && Moves(old(cwd), cwd, old(all)[p].data, data, old(all)[p].texts, status, res)
      ensures old(env) == [] ==> env == []
    {
      Take(all[p], status, res);
      Store(p, old(mutex));
    }

    /** A call that takes the mutex waits until it is free; a reply is for a waiting request. */
    predicate Enabled(s: Step)
      reads this
    {
      && !crashed
      && match s
         case Start(op, _, _, _) => threads && Locks(op) ==> !mutex
         case Arrive(p, status, res) => p < |all| && Waiting(all[p].data)
    }

    /** Every request of before is there still, at most further on. */
    twostate predicate Forward()
      reads this
    {
      |old(all)| <= |all| && forall p :: 0 <= p < |old(all)| ==> Later(old(all)[p].data, all[p].data)
    }

    method Call(op: Op, path: string, oldPath: string, f: Flags) returns (b: Birth)
      requires !crashed && (threads && Locks(op) ==> !mutex)
      modifies this`data, this`texts, this`mutex, this`env, this`crashed
      ensures Started(b, op, StartGoes(cwd, op, path, oldPath))
      ensures b == Made(0) && op.OpOpen? ==> data.noFollow == f.noFollow && AsFlagged(f, data.openCb)
      ensures op.OpChdir? ==> (b.Made? && data.reports != [] <==> ToldTwice(old(env), Resolve(cwd, path)))
    {
      match op
      case OpOpen => b := OpenAsync(path, f);
      case OpTruncate => b := TruncateAsync(path);
      case OpClose => b := CloseAsync();
      case OpMount => b := MountAsync(path);
      case OpMkdir => b := NameAsync(op, path, "");
      case OpRemove => b := NameAsync(op, path, "");
      case OpLink => b := NameAsync(op, path, oldPath);
      case OpRename => b := NameAsync(op, path, oldPath);
      case OpOpendir => b := OpendirAsync(path);
      case OpChdir => b := ChdirAsync(path);
      case OpGetacl => b := GetaclAsync();
    }

    /** The application starts a request: at most one is new, and the others are as they were. */
    method Launch(op: Op, path: string, oldPath: string, f: Flags) returns (b: Birth)
      requires Inv() && !crashed && (threads && Locks(op) ==> !mutex)
      modifies this
      ensures Inv() && Started(b, op, StartGoes(cwd, op, path, oldPath)) && cwd == old(cwd)
      ensures all == old(all) + if b.Made? then [Request(data, texts)] else []
      ensures b == Made(0) && op.OpOpen? ==> data.noFollow == f.noFollow && AsFlagged(f, data.openCb)
      ensures b == Made(0) ==> (data.held <==> threads && (op.OpOpen? || op.OpTruncate? || op.OpClose?))
      ensures op.OpChdir? ==> (b.Made? && data.reports != [] <==> ToldTwice(old(env), Resolve(cwd, path)))
    {
      b := Call(op, path, oldPath, f);
      StartsSoundly(cwd, op, path, oldPath);
      if b.Made? {
        AppendSound(all, Request(data, texts), old(mutex), mutex, owner);
        all := all + [Request(data, texts)];
        owner := if data.held then Some(|all| - 1) else owner;
      }
    }

    /** The step answers what was asked, and meets no empty text. */
    predicate Tame(s: Step)
      reads this
      requires Enabled(s)
    {
      match s
      case Start(op, path, oldPath, _) => !(Splits(op) && EmptyText(AbsoluteText(cwd, path)))
      case Arrive(p, status, res) => RequestLaws.Tame(cwd, all[p].data, all[p].texts, status, res)
    }

    /** Every link that is being read lies on its path, and every request is what it was started as. */
    predicate AllPlain()
      reads this
    {
      forall p :: 0 <= p < |all| ==> Plain(all[p])
    }

    /** A reply arrives. */
    method Answer(p: Ptr, status: RpcStatus, res: Res)
      requires Inv() && Enabled(Arrive(p, status, res))
      modifies this
      ensures Inv() && Forward()
      ensures old(AllPlain() && Tame(Arrive(p, status, res))) ==> AllPlain() && !crashed
    {
      ghost var q, dir, lucky := all[p], cwd, env == [];
      Deliver(p, status, res);
      if old(AllPlain() && Tame(Arrive(p, status, res))) {
        TameStaysPlain(dir, q.data, data, q.texts, texts, status, res, lucky);
      }
    }

    /** One step of a run. */
    method Do(s: Step)
      requires Inv() && Enabled(s)
      modifies this
      ensures Inv() && Forward()
      ensures old(AllPlain() && Tame(s)) ==> AllPlain() && !crashed
    {
      match s
      case Start(op, path, oldPath, f) =>
        StumblesExactly(cwd, op, path, oldPath);
        var b := Launch(op, path, oldPath, f);
        assert forall p :: 0 <= p < |old(all)| ==> all[p] == old(all)[p];
      case Arrive(p, status, res) => Answer(p, status, res);
    }

    /**
     Every run: whatever the application starts, the server answers and the environment refuses,
     each request is at every moment waiting for exactly one callback with nothing reported,
     or ended by one report and one free, or refused at the start; or it is an open with
     O_NOFOLLOW that met a link, or the one the program strayed on, which ends the run.  The mutex
     is locked exactly while a request holds it, and the working directory is always canonical.
     */
    method Run(steps: seq<Step>)
      requires Inv()
      modifies this
      ensures Inv() && Forward()
    {
      for k := 0 to |steps|
        invariant Inv() && Forward()
      {
        ghost var before := all;
        if Enabled(steps[k]) {
          Do(steps[k]);
          forall p | 0 <= p < |old(all)|
            ensures Later(old(all)[p].data, all[p].data)
          {
            LaterTransitive(old(all)[p].data, before[p].data, all[p].data);
          }
        }
      }
    }

    /**
     Over every run in which no call and no link comes to the empty text and every reply answers what
     was asked, with no getacl failing, the program never strays, no request is turned to another and
     every link that is read lies on its path.
     */
    method RunTame(steps: seq<Step>)
      requires Inv() && AllPlain() && !crashed
      modifies this
      ensures Inv() && Forward() && AllPlain() && !crashed
    {
      for k := 0 to |steps|
        invariant Inv() && Forward() && AllPlain() && !crashed
      {
        ghost var before := all;
        if Enabled(steps[k]) && Tame(steps[k]) {
          Do(steps[k]);
          forall p | 0 <= p < |old(all)|
            ensures Later(old(all)[p].data, all[p].data)
          {
            LaterTransitive(old(all)[p].data, before[p].data, all[p].data);
          }
        }
      }
    }

    /** When nothing is under way, all requests have ended and the mutex is free, but for opens that leaked. */
    lemma {:induction false} Quiet()
      requires Inv() && !crashed && forall p :: 0 <= p < |all| ==> all[p].data.pending.None?
      ensures forall p :: 0 <= p < |all| ==> Settled(all[p].data) || Refused(all[p].data) || Leaked(all[p].data)
      ensures mutex <==> exists p :: 0 <= p < |all| && Leaked(all[p].data) && all[p].data.held
    {
      if mutex {
        assert all[owner.value].data.held;
      }
    }
  }

  /** A call about "/x" that splits its path is started in the root. */
  method StartedInRoot(op: Op, oldPath: string, noFollow: bool, threads: bool) returns (n: Nfs)
    requires op.OpOpen? || op.OpMkdir? || op.OpLink? || op.OpRename?
    ensures fresh(n) && n.Inv() && !n.crashed && n.mutex == (threads && op.OpOpen?) && n.threads == threads
    ensures n.cwd == "/" && n.env == [] && |n.all| == 1
    ensures var q := n.all[0];
            && Waiting(q.data) && q.data.pending == Some(Lookup1) && q.data.continueCb == FirstStage(op)
            && q.data.op == op && q.data.noFollow == (noFollow && op.OpOpen?) && !q.data.turned
            && q.data.held == n.mutex && q.texts.path == "/"
            && (TwoPaths(op) ==> q.texts.oldPath == oldPath)
  {
    n := new Nfs(threads, []);
    RootFile(oldPath);
    RootFile("");
    var b := n.Launch(op, "/x", oldPath, Flags(noFollow, false, false, false, false));
  }

  /**
   The exception happens: an open with O_NOFOLLOW that meets a symbolic link reports, but is
   never freed, and with threads the mutex stays locked with nothing under way.
   */
  method NoFollowLeaks(threads: bool) returns (n: Nfs)
    ensures fresh(n) && n.Inv() && |n.all| == 1 && Leaked(n.all[0].data) && n.mutex == threads
    ensures threads ==> forall s: Step :: s.Start? && Locks(s.op) ==> !n.Enabled(s)
  {
    n := StartedInRoot(OpOpen, "", true, threads);
    LinkInRootGoes(n.all[0].data, n.all[0].texts);
    n.Deliver(0, Success, Res(NFS4ERR_SYMLINK, [OpenRes(NFS4ERR_SYMLINK, false)]));
  }

  /** rename("/.", "/x") and link("/.", "/x"): the program strays when the first reply arrives. */
  method OldDotStrays(op: Op, threads: bool) returns (n: Nfs)
    requires op.OpRename? || op.OpLink?
    ensures fresh(n) && n.Inv() && |n.all| == 1 && n.crashed && Strayed(n.all[0].data)
    ensures forall s: Step :: !n.Enabled(s)
  {
    n := StartedInRoot(op, "/.", false, threads);
    OldDotGoes(n.all[0].data, n.all[0].texts);
    n.Deliver(0, Success, Res(NFS4_OK, [GetfhRes]));
  }

  /** An open of "/x" meets a link, which is to be read. */
  method LinkMet(threads: bool) returns (n: Nfs)
    ensures fresh(n) && n.Inv() && !n.crashed && n.mutex == threads && n.cwd == "/" && n.env == []
    ensures |n.all| == 1 && n.all[0].texts.path == "/"
    ensures var d := n.all[0].data; Waiting(d) && d.pending == Some(Lookup1) && d.continueCb == OpenReadlink
  {
    n := StartedInRoot(OpOpen, "", false, threads);
    LinkInRootGoes(n.all[0].data, n.all[0].texts);
    n.Deliver(0, Success, Res(NFS4ERR_SYMLINK, [OpenRes(NFS4ERR_SYMLINK, false)]));
  }

  /** The link is ".": the program strays when it has been read. */
  method DotLinkStrays(threads: bool) returns (n: Nfs)
    ensures fresh(n) && n.Inv() && |n.all| == 1 && n.crashed && Strayed(n.all[0].data)
  {
    n := LinkMet(threads);
    DotLinkGoes(n.all[0].data, n.all[0].texts);
    n.Deliver(0, Success, Res(NFS4_OK, [ReadlinkRes(".")]));
  }

  /** A getacl that fails is reported and freed, and then the program strays. */
  method GetaclStrays() returns (n: Nfs)
    ensures fresh(n) && n.Inv() && |n.all| == 1 && n.crashed && !n.all[0].data.live && |n.all[0].data.reports| == 1
  {
    n := new Nfs(false, []);
    var b := n.Launch(OpGetacl, "", "", Flags(false, false, false, false, false));
    n.Deliver(0, Failed, Res(NFS4_OK, []));
  }

  /** A mount whose SETCLIENTID is answered without a result: the program strays, with nothing reported. */
  method EmptyReplyStrays() returns (n: Nfs)
    ensures fresh(n) && n.Inv() && |n.all| == 1 && n.crashed && Strayed(n.all[0].data) && n.all[0].data.reports == []
  {
    n := new Nfs(false, []);
    Paths.CanonicalIsFixed("/");
    var b := n.Launch(OpMount, "/", "", Flags(false, false, false, false, false));
    n.Deliver(0, Success, Res(NFS4_OK, []));
    n.Deliver(0, Success, Res(NFS4_OK, []));
  }

  /** A chdir to "/" whose third allocation fails: it is reported, and the call returns -1. */
  method ChdirToldTwice() returns (n: Nfs, b: Birth)
    ensures fresh(n) && n.Inv() && b == Made(-1) && |n.all| == 1 && n.all[0].data.reports == [Errno(ENOMEM)]
  {
    n := new Nfs(false, [true, true, false]);
    Paths.CanonicalIsFixed("/");
    b := n.Launch(OpChdir, "/", "", Flags(false, false, false, false, false));
  }

  /** A mkdir whose reply tells of a link it did not ask to open goes on as an open. */
  method MkdirTurned() returns (n: Nfs)
    ensures fresh(n) && n.Inv() && |n.all| == 1 && n.all[0].data.op.OpMkdir? && n.all[0].data.turned
    ensures Waiting(n.all[0].data) && Target(n.all[0].data) == OpenReadlink
  {
    n := StartedInRoot(OpMkdir, "", false, false);
    LinkInRootGoes(n.all[0].data, n.all[0].texts);
    n.Deliver(0, Success, Res(NFS4ERR_SYMLINK, [OpenRes(NFS4ERR_SYMLINK, false)]));
  }
}
