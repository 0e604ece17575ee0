/**
 NFSv4 requests as values: the states a request can be in, the replies it gets, and where each
 reply leads it when nothing runs out.  Replies are kept as far as they steer the chain.
 */
module Requests {
  import opened Options
  import Paths
  import opened Replies
  import opened Resolution

  const EINTR: nat := 4
  const EIO: nat := 5
  const ENOMEM: nat := 12
  const EFAULT: nat := 14
  const EINVAL: nat := 22
  const ELOOP: nat := 40

  /** What the application is told. */
  datatype Code = Fine | Errno(n: nat) | Server(status: int)

  datatype RpcStatus = Success | Failed | Cancelled | TimedOut

  datatype Callback =
    | Lookup1 | Lookup2
    | OpenReadlink | Open | OpenConfirm | OpenSetattr | TruncateClose | Close
    | Mount1 | Mount2 | Mount3 | Mount4
    | Mkdir | Remove | Link1 | Link2 | Rename1 | Rename2 | Opendir | Opendir2 | Chdir | Getacl

  /** The continuation of an open, called in line when the file is open. */
  datatype OpenCb = NoOpenCb | OpenTruncate | OpenChmod | TruncateOpen

  datatype Op =
    | OpOpen | OpTruncate | OpClose | OpMount | OpMkdir | OpRemove
    | OpLink | OpRename | OpOpendir | OpChdir | OpGetacl

  /** A resource of a request: not there, owned by the request, released, or with the application. */
  datatype Blob = Absent | Held | Released | Given

  type Ptr = nat

  /** The texts of a request. */
  datatype Texts = Texts(
    path: string,     // data->path: what is looked up
    name: string,     // filler.data: the object in that directory
    oldPath: string,  // of link and rename, as the application gave it
    newName: string,  // of rename, once the old path is looked up
    linkIdx: nat)     // link.idx: how many names lead to the link being read

  const NO_TEXTS: Texts := Texts("", "", "", "", 0)

  datatype CbData = CbData(
    op: Op,
    noFollow: bool,            // O_NOFOLLOW in filler.flags
    openCb: OpenCb,
    continueCb: Callback,
    handle: Blob,              // the nfsfh in filler.blob0
    dir: Blob,                 // the nfsdir in filler.blob1
    held: bool,                // MUTEX_HELD
    live: bool,                // not yet freed
    reports: seq<Code>,        // calls of the application callback
    pending: Option<Callback>, // the callback the RPC layer will call
    lost: bool,                // the program strayed while it handled this request
    turned: bool,              // an OPEN result it did not ask for has made an open of it
    spilled: bool)             // a handle was overwritten, and nothing will free it

  datatype Request = Request(data: CbData, texts: Texts)

  // ---- states of a request ----

  /** The stages of each operation. */
  predicate Belongs(op: Op, cb: Callback) {
    match op
    case OpOpen => cb.OpenReadlink? || cb.Open? || cb.OpenConfirm? || cb.OpenSetattr?
    case OpTruncate => cb.OpenReadlink? || cb.Open? || cb.OpenConfirm? || cb.TruncateClose?
    case OpClose => cb == Close
    case OpMount => cb.Mount1? || cb.Mount2? || cb.Mount3? || cb.Mount4?
    case OpMkdir => cb == Mkdir
    case OpRemove => cb == Remove
    case OpLink => cb.Link1? || cb.Link2?
    case OpRename => cb.Rename1? || cb.Rename2?
    case OpOpendir => cb.Opendir? || cb.Opendir2?
    case OpChdir => cb == Chdir
    case OpGetacl => cb == Getacl
  }

  /** The stages that run with a file handle in hand. */
  predicate HasHandle(cb: Callback) {
    cb.OpenConfirm? || cb.OpenSetattr? || cb.TruncateClose? || cb.Close? || cb.Link2? || cb.Rename2? || cb.Opendir2?
  }

  /** The stages that begin with walking a path. */
  predicate AfterLookup(cb: Callback) {
    || cb.OpenReadlink? || cb.Open? || cb.Mount4? || cb.Mkdir? || cb.Remove?
    || cb.Link1? || cb.Link2? || cb.Rename1? || cb.Rename2? || cb.Opendir? || cb.Chdir?
  }

  /** The stages behind a lookup that only report. */
  predicate LastStage(cb: Callback) {
    cb.Mount4? || cb.Mkdir? || cb.Remove? || cb.Link2? || cb.Rename2?
  }

  predicate Opens(op: Op) {
    op.OpOpen? || op.OpTruncate?
  }

  /** The stages of an open that another request can be turned to. */
  predicate OpenStage(cb: Callback) {
    cb.OpenReadlink? || cb.Open? || cb.OpenConfirm?
  }

  predicate TwoPaths(op: Op) {
    op.OpLink? || op.OpRename?
  }

  /** A handle is there when the stage needs one; a link or rename that was turned may have one besides. */
  predicate Geared(d: CbData, cb: Callback) {
    if HasHandle(cb) then d.handle == Held
    else d.handle == Absent || (d.handle == Held && d.turned && TwoPaths(d.op))
  }

  /** What a request is does not change, but for being turned. */
  predicate Coherent(d: CbData) {
    && (d.openCb.TruncateOpen? <==> d.op.OpTruncate?)
    && (d.openCb.OpenTruncate? || d.openCb.OpenChmod? ==> d.op.OpOpen?)
    && (d.noFollow ==> d.op.OpOpen?)
    && (d.turned ==> !Opens(d.op) && !d.op.OpClose? && !d.op.OpGetacl? && !d.op.OpOpendir?)
    && (d.spilled ==> d.turned && TwoPaths(d.op))
  }

  predicate Admits(op: Op, turned: bool, cb: Callback) {
    if turned then OpenStage(cb) else Belongs(op, cb)
  }

  /** The request can go on at stage `cb`. */
  predicate Suits(d: CbData, cb: Callback) {
    && Admits(d.op, d.turned, cb)
    && Geared(d, cb) && d.dir == (if d.op.OpOpendir? then Held else Absent) && Coherent(d)
  }

  predicate Idle(d: CbData) {
    d.live && d.reports == [] && d.pending.None? && !d.lost
  }

  /** Idle, and nothing has been handed to the application. */
  predicate Busy(d: CbData) {
    Idle(d) && (d.handle.Absent? || d.handle.Held?) && (d.dir.Absent? || d.dir.Held?)
  }

  predicate Running(d: CbData, cb: Callback) {
    Idle(d) && Suits(d, cb)
  }

  /** The lookup of a path is under way. */
  predicate Walking(d: CbData) {
    Idle(d) && Suits(d, d.continueCb) && AfterLookup(d.continueCb)
  }

  /** The stage a pending callback leads to. */
  function Target(d: CbData): Callback
    requires d.pending.Some?
  {
    if d.pending.value.Lookup1? || d.pending.value.Lookup2? then d.continueCb else d.pending.value
  }

  /** One callback is on its way, nothing has been reported. */
  predicate Waiting(d: CbData) {
    && d.live && d.reports == [] && d.pending.Some? && !d.lost && Suits(d, Target(d))
    && ((d.pending.value.Lookup1? || d.pending.value.Lookup2?) <==> AfterLookup(Target(d)))
  }

  /**
   Reported once, freed, nothing under way.  An open, or what was turned to one, hands its handle to
   the application exactly when it succeeds, and so does opendir with the directory; all else is released.
   */
  predicate Settled(d: CbData) {
    && !d.live && |d.reports| == 1 && d.pending.None? && !d.held && !d.lost
    && d.handle != Held && d.dir != Held
    && (d.handle == Given <==> (d.op.OpOpen? || d.turned) && d.reports == [Fine])
    && (d.dir == Given <==> d.op.OpOpendir? && d.reports == [Fine])
  }

  /** The call that started it returned -1: freed, never reported; a file to be closed stays with the caller. */
  predicate Refused(d: CbData) {
    && !d.live && d.reports == [] && d.pending.None? && !d.held && !d.lost
    && d.handle == (if d.op.OpClose? then Given else Absent)
    && d.dir in {Absent, Released}
  }

  /** Reported but never freed, and nothing is under way any more. */
  predicate Leaked(d: CbData) {
    d.live && d.reports == [Errno(ELOOP)] && d.pending.None? && d.noFollow && d.op.OpOpen? && !d.lost
  }

  /**
   The program read or wrote outside its data while it handled the request: nothing is known of
   it from then on.  Only a getacl can have been reported and freed before that.
   */
  predicate Strayed(d: CbData) {
    && d.lost && d.pending.None?
    && if d.live then d.reports == [] else |d.reports| == 1 && d.op.OpGetacl? && !d.held
  }

  predicate Ok(d: CbData) {
    Coherent(d) && (Waiting(d) || Settled(d) || Refused(d) || Leaked(d) || Strayed(d))
  }

  /** A path that is looked up is canonical; the export of a mount may be empty before that. */
  predicate WellPlaced(path: string, cb: Callback) {
    if AfterLookup(cb) then Paths.Canonical(path)
    else cb.Mount1? || cb.Mount2? || cb.Mount3? ==> path == "" || Paths.Canonical(path)
  }

  predicate Sound(q: Request) {
    Ok(q.data) && (Waiting(q.data) ==> WellPlaced(q.texts.path, Target(q.data)))
  }

  predicate Same(c: CbData, d: CbData) {
    c.op == d.op && c.noFollow == d.noFollow && c.openCb == d.openCb
  }

  /** free_nfs4_cb_data */
  function Freed(d: CbData): CbData {
    d.(live := false, held := false,
       handle := if d.handle == Held then Released else d.handle,
       dir := if d.dir == Held then Released else d.dir)
  }

  /** The mutex is locked exactly while one request, which is live, holds it. */
  predicate MutexFits(all: seq<Request>, mutex: bool, owner: Option<Ptr>) {
    && mutex == owner.Some? && (owner.Some? ==> owner.value < |all| && all[owner.value].data.live)
    && forall p :: 0 <= p < |all| ==> (all[p].data.held <==> owner == Some(p))
  }

  /** Every request is sound, and the program strayed exactly if one is lost. */
  predicate AllSound(all: seq<Request>, crashed: bool) {
    && (forall p :: 0 <= p < |all| ==> Sound(all[p]))
    && (crashed <==> exists p :: 0 <= p < |all| && all[p].data.lost)
  }

  /** Who holds the mutex after request `p` was handled. */
  function NewOwner(owner: Option<Ptr>, p: Ptr, held: bool, mutex: bool): Option<Ptr> {
    if !mutex then None else if held then Some(p) else owner
  }

  /** The mutex is locked and unlocked with the request that holds it. */
  predicate MutexMoves(held: bool, held': bool, mutex: bool, mutex': bool) {
    if held == held' then mutex' == mutex else mutex == held && mutex' == held'
  }

  /** The working directory after a request whose path is `path` became `d`. */
  function Moved(d: CbData, path: string, cwd: string): string {
    if d.op.OpChdir? && !d.turned && d.reports == [Fine] then path else cwd
  }

  /** The request is still what it is; the mutex went with it, and the program strayed if it is lost. */
  predicate Stays(c: CbData, d: CbData, mutex: bool, mutex': bool, crashed: bool) {
    && Same(c, d) && c.turned == d.turned && c.spilled == d.spilled
    && MutexMoves(c.held, d.held, mutex, mutex') && crashed == d.lost
  }

  // ---- replies ----

  /** What check_nfs4_error makes of a reply. */
  function Verdict(status: RpcStatus, res: Option<Res>): Option<Code> {
    match status
    case Failed => Some(Errno(EFAULT))
    case Cancelled => Some(Errno(EINTR))
    case TimedOut => Some(Errno(EINTR))
    case Success => if res.Some? && res.value.status != NFS4_OK then Some(Server(res.value.status)) else None
  }

  // ---- where a reply leads when nothing runs out ----

  datatype Outcome =
    | Ends(code: Code)                     // reported and freed
    | Waits(cb: Callback)                  // the next request is sent
    | Looks(cb: Callback, texts: Texts)    // a path is looked up, and then `cb`
    | Reads(idx: nat)                      // a link on the path is read
    | Leaks                                // reported and left
    | Strays                               // the program reads or writes outside its data
    | Doubles(code: Code)                  // reported and freed, and then both once more

  const MISSING: Outcome := Ends(Errno(EINVAL))

  /** The components of the path that is looked up; a slash each. */
  function Slashes(path: string): seq<string> {
    if Paths.Rooted(path) then Paths.Components(path) else []
  }

  /** A lookup is started: it reads behind an empty text. */
  function LookFor(cwd: string, cb: Callback, x: Texts, code: nat): (o: Outcome)
    ensures o == Ends(Errno(code)) || o == Strays || (o.Looks? && o.cb == cb)
  {
    match Resolve(cwd, x.path)
    case None => Ends(Errno(code))
    case Some(t) => if t == "" then Strays else Looks(cb, x.(path := t))
  }

  /** data_split_path */
  function Split(x: Texts, t: string): Texts {
    x.(path := DirOf(t), name := NameOf(t))
  }

  /** A path is resolved and split for the lookup: it writes through a null pointer for an empty text. */
  function SplitFor(cwd: string, cb: Callback, x: Texts, path: string): (o: Outcome)
    ensures o == MISSING || o == Strays || (o.Looks? && o.cb == cb)
  {
    match Resolve(cwd, path)
    case None => MISSING
    case Some(t) => if t == "" then Strays else Looks(cb, Split(x, t))
  }

  /** The file is open. */
  function OpenedGoes(cb: OpenCb): Outcome {
    match cb
    case NoOpenCb => Ends(Fine)
    case OpenTruncate => Waits(OpenSetattr)
    case OpenChmod => Waits(OpenSetattr)
    case TruncateOpen => Waits(TruncateClose)
  }

  /** An OPEN went through if all access asked for was granted; it may have to be confirmed. */
  function OpenGoes(cb: OpenCb, ops: seq<ResOp>): Outcome {
    if Grants(ops) then GrantedGoes(cb, ops) else MISSING
  }

  /** The reply grants all access asked for, and brings the file. */
  predicate Grants(ops: seq<ResOp>) {
    var a := Find(ops, KAccess);
    a >= 0 && Find(ops, KGetfh) >= 0 && ops[a].supported == ops[a].access
  }

  /** A server may want the open confirmed. */
  function GrantedGoes(cb: OpenCb, ops: seq<ResOp>): Outcome {
    var o := Find(ops, KOpen);
    if o < 0 then MISSING else if ops[o].confirm then Waits(OpenConfirm) else OpenedGoes(cb)
  }

  /** A directory is complete at its end, if all entries could be read. */
  function ReaddirGoes(ops: seq<ResOp>): Outcome {
    var r := Find(ops, KReaddir);
    if r < 0 || false in ops[r].entries then MISSING else if ops[r].eof then Ends(Fine) else Waits(Opendir2)
  }

  function NeedsThen(ops: seq<ResOp>, kind: Kind, o: Outcome): Outcome {
    if Find(ops, kind) < 0 then MISSING else o
  }

  /** The object of an open is a link: its text is read from the directory of the open. */
  function FinalGoes(cwd: string, x: Texts, ops: seq<ResOp>): Outcome {
    var i := Find(ops, KReadlink);
    if i < 0 then MISSING else SplitFor(cwd, Open, x, FinalLink(x.path, ops[i].text))
  }

  /** The old path of a link is looked up as the application gave it. */
  function LinkNext(cwd: string, x: Texts): Outcome {
    LookFor(cwd, Link2, x.(path := x.oldPath), EFAULT)
  }

  /** The old path of a rename is resolved and split. */
  function RenameNext(cwd: string, x: Texts): Outcome {
    SplitFor(cwd, Rename2, x.(newName := x.name), x.oldPath)
  }

  /** What each stage makes of a good reply. */
  function StageGoes(cwd: string, x: Texts, open: OpenCb, cb: Callback, ops: seq<ResOp>): Outcome {
    match cb
    case OpenReadlink => FinalGoes(cwd, x, ops)
    case Open => OpenGoes(open, ops)
    case OpenConfirm => NeedsThen(ops, KOpenConfirm, OpenedGoes(open))
    case Mount1 => Waits(Mount2)
    case Mount2 => if ops == [] then Strays else Waits(Mount3)
    case Mount3 => LookFor(cwd, Mount4, x, ENOMEM)
    case Mount4 => NeedsThen(ops, KGetfh, Ends(Fine))
    case Link1 => NeedsThen(ops, KGetfh, LinkNext(cwd, x))
    case Rename1 => NeedsThen(ops, KGetfh, RenameNext(cwd, x))
    case Opendir => NeedsThen(ops, KGetfh, ReaddirGoes(ops))
    case Opendir2 => ReaddirGoes(ops)
    case _ => Ends(Fine)
  }

  function Checked(status: RpcStatus, res: Option<Res>, o: Outcome): Outcome {
    if Verdict(status, res).Some? then Ends(Verdict(status, res).value) else o
  }

  /** A cut before the first name leaves the other names behind it, more than are allocated for. */
  predicate Overruns(x: Texts) {
    x.linkIdx == 0 && x.path != "/"
  }

  /** The path is cut behind the names that lead to the link, if it has more than those. */
  function CutGoes(path: string, idx: nat, last: bool): Outcome {
    if last || 1 <= idx < |Slashes(path)| || (idx == 0 && path == "/") then Reads(idx) else Strays
  }

  /** The link is found and read. */
  function LinkGoes(path: string, res: Res, last: bool): Outcome {
    if !last && !HasFailedLookup(res.ops) then Ends(Errno(EFAULT)) else CutGoes(path, LinkIndex(res.ops), last)
  }

  /** The object of an open is a link. */
  function OnLinkGoes(d: CbData, x: Texts): Outcome {
    if d.noFollow then Leaks else if d.op.OpOpendir? then Strays else Looks(OpenReadlink, x)
  }

  /** The reply to a lookup: a link is followed, a path without one leads to the stage behind it. */
  function LookupGoes(cwd: string, d: CbData, x: Texts, status: RpcStatus, res: Res): Outcome {
    if !status.Success? || (res.status != NFS4_OK && res.status != NFS4ERR_SYMLINK) then
      Checked(status, Some(res), MISSING)
    else if !AttrsParse(res.ops) then MISSING
    else if HasLinkAttr(res.ops) then LinkGoes(x.path, res, true)
    else if OpenOnLink(res.ops) then OnLinkGoes(d, x)
    else if res.status == NFS4_OK then StageGoes(cwd, x, d.openCb, d.continueCb, res.ops)
    else LinkGoes(x.path, res, false)
  }

  /** The names up to the link; a link the root itself is takes the place of the first name. */
  function At(idx: nat): nat {
    if idx == 0 then 1 else idx
  }

  /** The link is read: its text replaces its name in the path, if the path has so many names. */
  function ReadGoes(cwd: string, cb: Callback, x: Texts, ops: seq<ResOp>): Outcome {
    var e, cs := At(x.linkIdx), Slashes(x.path);
    var i := Find(ops, KReadlink);
    if e > |cs| then Strays
    else if i < 0 then MISSING
    else LookFor(cwd, cb, x.(path := Spliced(cs, e, ops[i].text)), ENOMEM)
  }

  lemma {:induction false} OnlyGetacl(d: CbData)
    requires Running(d, Getacl)
    ensures d.op.OpGetacl? && !d.turned
  {
  }

  /** The reply to a getacl: a failed one is reported and freed, and then reported and freed again. */
  function GetaclGoes(status: RpcStatus, res: Res): Outcome {
    if Verdict(status, Some(res)).Some? then Doubles(Verdict(status, Some(res)).value) else AclGoes(res.ops)
  }

  function AclGoes(ops: seq<ResOp>): Outcome {
    var i := Find(ops, KGetattr);
    if i < 0 then Doubles(Errno(EINVAL)) else Ends(if ops[i].parses then Fine else Errno(EIO))
  }

  /** Where the reply to the pending callback leads. */
  function Goes(cwd: string, d: CbData, x: Texts, cb: Callback, status: RpcStatus, res: Res): Outcome {
    match cb
    case Lookup1 => LookupGoes(cwd, d, x, status, res)
    case Lookup2 => Checked(status, Some(res), ReadGoes(cwd, d.continueCb, x, res.ops))
    case Mount1 => Checked(status, None, Waits(Mount2))
    case Getacl => GetaclGoes(status, res)
    case _ => Checked(status, Some(res), StageGoes(cwd, x, d.openCb, cb, res.ops))
  }

  /** A callback is on its way. */
  predicate Pends(d: CbData, cb: Callback) {
    d.live && d.reports == [] && d.pending == Some(cb) && !d.lost
  }

  /** The request has what stage `cb` needs, and still holds the mutex if it did. */
  predicate Fitted(c: CbData, d: CbData, cb: Callback) {
    d.held == c.held && d.dir == c.dir && (Geared(d, cb) || (cb == c.continueCb && d.handle == c.handle))
  }

  predicate Went(c: CbData, d: CbData, o: Outcome) {
    match o
    case Ends(code) => Settled(d) && d.reports == [code]
    case Waits(cb) => Pends(d, cb) && Fitted(c, d, cb)
    case Looks(cb, _) => Pends(d, Lookup1) && d.continueCb == cb && Fitted(c, d, cb)
    case Reads(_) => Pends(d, Lookup2) && d.continueCb == c.continueCb && Fitted(c, d, c.continueCb)
    case Leaks => Leaked(d) && d.held == c.held
    case Strays => Strayed(d) && d.live
    case Doubles(code) => Strayed(d) && !d.live && d.reports == [code]
  }

  /** The texts of a request that still waits. */
  function TextsAfter(x: Texts, o: Outcome): Texts {
    match o
    case Looks(_, y) => y
    case Reads(idx) => x.(linkIdx := idx)
    case _ => x
  }

  /** Memory or the connection failed, and the request was settled. */
  predicate Broke(d: CbData) {
    Settled(d) && (d.reports == [Errno(ENOMEM)] || d.reports == [Errno(EINVAL)] || d.reports == [Errno(EFAULT)])
  }

  /** It went as the reply says or, without luck, broke. */
  predicate Result(c: CbData, d: CbData, o: Outcome, lucky: bool) {
    Went(c, d, o) || (!lucky && Broke(d))
  }

  /** Is the request an open from now on? */
  predicate TurnedAfter(c: CbData, o: Outcome) {
    c.turned || (o.Looks? && o.cb.OpenReadlink? && !Opens(c.op))
  }

  /** It is turned exactly when that is so, and a handle is spilled only where one is in the way. */
  predicate Alters(c: CbData, d: CbData, o: Outcome) {
    && (c.turned ==> d.turned) && (c.spilled ==> d.spilled)
    && (if d.pending.Some? then d.turned == TurnedAfter(c, o) else d.turned ==> TurnedAfter(c, o))
    && (d.spilled ==> c.spilled || (c.turned && TwoPaths(c.op) && c.handle.Held?))
  }

  /** A handle is put in its place, over one that may be there. */
  function Took(d: CbData): CbData {
    d.(handle := Held, spilled := d.spilled || d.handle.Held?)
  }

  function Turned(d: CbData): CbData {
    d.(turned := d.turned || !Opens(d.op))
  }

  /** The request as it was, but for what it has been turned to. */
  function Marked(c: CbData, d: CbData): CbData {
    c.(turned := d.turned, spilled := d.spilled)
  }

  /** So it did, and its texts are those it needs if it goes on. */
  predicate Turns(c: CbData, d: CbData, x: Texts, y: Texts, o: Outcome, lucky: bool) {
    Result(c, d, o, lucky) && (d.pending.Some? ==> y == TextsAfter(x, o))
  }

  predicate Astray(o: Outcome) {
    o.Strays? || o.Doubles?
  }

  /** So it did; and it leaked exactly when that was in the reply, and strayed only then. */
  predicate Delivered(c: CbData, d: CbData, x: Texts, y: Texts, o: Outcome, lucky: bool) {
    && Same(c, d) && Turns(c, d, x, y, o, lucky) && Alters(c, d, o)
    && (Leaked(d) <==> o.Leaks?) && (d.lost ==> Astray(o)) && (Astray(o) && lucky ==> d.lost)
  }

  predicate Locks(op: Op) {
    op.OpOpen? || op.OpTruncate? || op.OpClose?
  }

  /** The stage an operation begins with. */
  function FirstStage(op: Op): Callback {
    match op
    case OpOpen => Open
    case OpTruncate => Open
    case OpClose => Close
    case OpMount => Mount1
    case OpMkdir => Mkdir
    case OpRemove => Remove
    case OpLink => Link1
    case OpRename => Rename1
    case OpOpendir => Opendir
    case OpChdir => Chdir
    case OpGetacl => Getacl
  }

  /** A lookup was started, or not, or the program strayed on an empty text. */
  datatype Queue = Queued | Unqueued | Tripped

  /** What starting a lookup makes of a request. */
  predicate Sought(c: CbData, d: CbData, cb: Callback, r: Queue) {
    match r
    case Queued => d == c.(continueCb := cb, pending := Some(Lookup1))
    case Unqueued => d == c.(continueCb := d.continueCb)
    case Tripped => d == c.(lost := true)
  }

  /** How starting a lookup of a path that resolves to `t` can end. */
  predicate Queues(t: Option<string>, r: Queue, lucky: bool) {
    match r
    case Queued => t.Some? && t.value != ""
    case Unqueued => lucky ==> t.None?
    case Tripped => t == Some("")
  }

  lemma {:induction false} SoughtTurns(cwd: string, c: CbData, d: CbData, x: Texts, y: Texts,
                                       cb: Callback, code: nat, r: Queue, lucky: bool)
    requires Sought(c, d, cb, r) && Queues(Resolve(cwd, x.path), r, lucky) && !r.Unqueued?
    requires Idle(c) && (Geared(c, cb) || cb == c.continueCb)
    requires r.Queued? ==> y == x.(path := Resolve(cwd, x.path).value)
    ensures Turns(c, d, x, y, LookFor(cwd, cb, x, code), lucky)
  {
  }

  lemma {:induction false} UnsoughtTurns(cwd: string, c: CbData, d: CbData, x: Texts, y: Texts,
                                         cb: Callback, code: nat, lucky: bool)
    requires Settled(d) && d.reports == [Errno(code)] && (code == ENOMEM || code == EFAULT)
    requires lucky ==> LookFor(cwd, cb, x, code) == Ends(Errno(code))
    ensures Turns(c, d, x, y, LookFor(cwd, cb, x, code), lucky)
  {
  }

  /** A lookup was started, or the request ended because it could not be. */
  lemma {:induction false} LookTurns(cwd: string, c: CbData, d: CbData, x: Texts, y: Texts,
                                     cb: Callback, code: nat, r: Queue, lucky: bool)
    requires Queues(Resolve(cwd, x.path), r, lucky) && (code == ENOMEM || code == EFAULT)
    requires Idle(c) && (Geared(c, cb) || cb == c.continueCb)
    requires if r.Unqueued? then Settled(d) && d.reports == [Errno(code)] else Sought(c, d, cb, r)
    requires r.Queued? ==> y == x.(path := Resolve(cwd, x.path).value)
    ensures Turns(c, d, x, y, LookFor(cwd, cb, x, code), lucky)
  {
    if r.Unqueued? {
      UnsoughtTurns(cwd, c, d, x, y, cb, code, lucky);
    } else {
      SoughtTurns(cwd, c, d, x, y, cb, code, r, lucky);
    }
  }

  /** Whatever a request is about, it can go on as an open. */
  lemma {:induction false} TurnGears(d: CbData)
    requires Walking(d) && !d.op.OpOpendir?
    ensures Geared(Turned(d), OpenReadlink)
  {
  }

  lemma {:induction false} TurnedTurns(c: CbData, d: CbData, x: Texts, y: Texts, lucky: bool)
    requires Turns(Turned(c), d, x, y, Looks(OpenReadlink, x), lucky)
    requires d.turned == Turned(c).turned && d.spilled == c.spilled
    ensures Turns(c, d, x, y, Looks(OpenReadlink, x), lucky) && Alters(c, d, Looks(OpenReadlink, x))
  {
  }

  lemma {:induction false} TookTurns(c: CbData, d: CbData, x: Texts, o: Outcome, lucky: bool)
    requires Geared(c, Open) && Turns(Took(c), d, x, x, o, lucky)
    requires d.turned == c.turned && d.spilled == Took(c).spilled
    requires (o.Waits? ==> HasHandle(o.cb)) && !o.Looks? && !o.Reads? && !o.Leaks? && !o.Doubles?
    ensures Turns(c, d, x, x, o, lucky) && Alters(c, d, o)
  {
  }

  // ---- what resolving keeps ----

  /** A canonical path is looked up as it is. */
  lemma {:induction false} LooksAsIs(cwd: string, cb: Callback, x: Texts, code: nat)
    requires Paths.Canonical(x.path)
    ensures Resolve(cwd, x.path) == Some(x.path) && LookFor(cwd, cb, x, code) == Looks(cb, x)
  {
    Paths.CanonicalIsFixed(x.path);
  }

  lemma {:induction false} ResolvedIsCanonical(cwd: string, path: string)
    ensures var t := Resolve(cwd, path); t.Some? && t.value != "" ==> Paths.Canonical(t.value)
  {
    Paths.NormalFormIsCanonical(AbsoluteText(cwd, path));
  }

  lemma {:induction false} DirIsCanonical(t: string)
    requires Paths.Canonical(t)
    ensures Paths.Canonical(DirOf(t))
  {
    if t != "/" {
      SplitRejoins(t);
    }
  }

  /** What resolving to `t` and splitting made of a request and its texts. */
  predicate Halved(c: CbData, d: CbData, x: Texts, y: Texts, t: Option<string>, r: Queue, lucky: bool) {
    Queues(t, r, lucky) && d == c.(lost := r.Tripped?) && (r.Queued? ==> y == Split(x, t.value))
  }

  lemma {:induction false} SplitHalves(c: CbData, d: CbData, x: Texts, y: Texts, path: string, t: string,
                                       ok: bool, lucky: bool)
    requires d == c.(lost := !ok) && !c.lost && (ok <==> t != "")
    requires ok ==> y == Split(x.(path := path).(path := t), t)
    ensures Halved(c, d, x, y, Some(t), if ok then Queued else Tripped, lucky)
  {
  }

  /** After a split nothing can go wrong with the directory. */
  lemma {:induction false} SplitThenLook(cwd: string, cb: Callback, x: Texts, path: string, code: nat)
    requires Resolve(cwd, path).Some? && Resolve(cwd, path).value != ""
    ensures var y := Split(x, Resolve(cwd, path).value);
            && Paths.Canonical(y.path) && Resolve(cwd, y.path) == Some(y.path)
            && LookFor(cwd, cb, y, code) == SplitFor(cwd, cb, x, path) == Looks(cb, y)
  {
    ResolvedIsCanonical(cwd, path);
    DirIsCanonical(Resolve(cwd, path).value);
    LooksAsIs(cwd, cb, Split(x, Resolve(cwd, path).value), code);
  }

  lemma {:induction false} SplitTurns(cwd: string, c: CbData, d: CbData, x: Texts, y: Texts,
                                      cb: Callback, path: string, lucky: bool)
    requires Resolve(cwd, path).Some? && Resolve(cwd, path).value != ""
    requires var z := Split(x, Resolve(cwd, path).value); Turns(c, d, z, y, LookFor(cwd, cb, z, ENOMEM), lucky)
    ensures Turns(c, d, x, y, SplitFor(cwd, cb, x, path), lucky)
  {
    SplitThenLook(cwd, cb, x, path, ENOMEM);
  }

  lemma {:induction false} UnsplitTurns(cwd: string, c: CbData, d: CbData, x: Texts, y: Texts,
                                        cb: Callback, path: string, r: Queue, lucky: bool)
    requires Queues(Resolve(cwd, path), r, lucky) && !r.Queued?
    requires if r.Tripped? then Strayed(d) && d.live else Settled(d) && d.reports == [Errno(EINVAL)]
    ensures Turns(c, d, x, y, SplitFor(cwd, cb, x, path), lucky)
  {
  }

  /** Where the request ends or a path is looked up, the texts before do not matter. */
  lemma {:induction false} TextsTurn(c: CbData, d: CbData, x: Texts, y: Texts, z: Texts, o: Outcome, lucky: bool)
    requires Turns(c, d, y, z, o, lucky) && !o.Waits? && !o.Reads?
    ensures Turns(c, d, x, z, o, lucky)
  {
  }

  /** The path is rebuilt around the link, and looked up. */
  lemma {:induction false} ReadTurns(cwd: string, c: CbData, d: CbData, x: Texts, y: Texts, z: Texts,
                                     ops: seq<ResOp>, lucky: bool)
    requires var i, e, cs := Find(ops, KReadlink), At(x.linkIdx), Slashes(x.path);
             i >= 0 && e <= |cs| && z == x.(path := Spliced(cs, e, ops[i].text))
    requires Turns(c, d, z, y, LookFor(cwd, c.continueCb, z, ENOMEM), lucky)
    ensures Turns(c, d, x, y, ReadGoes(cwd, c.continueCb, x, ops), lucky)
  {
    var o := LookFor(cwd, c.continueCb, z, ENOMEM);
    assert ReadGoes(cwd, c.continueCb, x, ops) == o;
    TextsTurn(c, d, x, z, y, o, lucky);
  }

  /** A stage that takes a handle and goes on to one that needs it. */
  lemma {:induction false} HandleTurns(c: CbData, d: CbData, x: Texts, y: Texts, z: Texts, o: Outcome, lucky: bool)
    requires Turns(c.(handle := Held), d, y, z, o, lucky)
    requires (o.Looks? || o.Waits? ==> HasHandle(o.cb)) && (o.Waits? ==> x == y)
    requires !o.Reads? && !o.Leaks? && !o.Doubles?
    ensures Turns(c, d, x, z, o, lucky)
  {
  }

  lemma {:induction false} LinkTurns(cwd: string, c: CbData, d: CbData, x: Texts, z: Texts, lucky: bool)
    requires Turns(c.(handle := Held), d, x.(path := x.oldPath), z,
                   LookFor(cwd, Link2, x.(path := x.oldPath), EFAULT), lucky)
    ensures Turns(c, d, x, z, LinkNext(cwd, x), lucky)
  {
    HandleTurns(c, d, x, x.(path := x.oldPath), z, LinkNext(cwd, x), lucky);
  }

  lemma {:induction false} RenameTurns(cwd: string, c: CbData, d: CbData, x: Texts, z: Texts, lucky: bool)
    requires Turns(c.(handle := Held), d, x.(newName := x.name), z,
                   SplitFor(cwd, Rename2, x.(newName := x.name), x.oldPath), lucky)
    ensures Turns(c, d, x, z, RenameNext(cwd, x), lucky)
  {
    HandleTurns(c, d, x, x.(newName := x.name), z, RenameNext(cwd, x), lucky);
  }

  // ---- where a call that starts a request leads when nothing runs out ----

  datatype Opening = Refuses | Begins(texts: Texts) | Stumbles

  /** Calls that work on an object in a directory resolve and split its path. */
  function SplitStart(cwd: string, path: string, oldPath: string): Opening {
    match Resolve(cwd, path)
    case None => Refuses
    case Some(t) => if t == "" then Stumbles else Begins(Texts(DirOf(t), NameOf(t), oldPath, "", 0))
  }

  /** Opendir and chdir resolve their path twice. */
  function FullStart(cwd: string, path: string): Opening {
    match Resolve(cwd, path)
    case None => Refuses
    case Some(t) =>
      match Resolve(cwd, t)
      case None => Refuses
      case Some(u) => if u == "" then Stumbles else Begins(Texts(u, "", "", "", 0))
  }

  /** A mount normalises the path of the export, which may then be empty. */
  function MountStart(path: string): Opening {
    match Paths.NormalForm(path)
    case None => Refuses
    case Some(t) => Begins(Texts(t, "", "", "", 0))
  }

  function StartGoes(cwd: string, op: Op, path: string, oldPath: string): Opening {
    match op
    case OpClose => Begins(NO_TEXTS)
    case OpMount => MountStart(path)
    case OpGetacl => Begins(NO_TEXTS)
    case OpOpendir => FullStart(cwd, path)
    case OpChdir => FullStart(cwd, path)
    case OpLink => SplitStart(cwd, path, oldPath)
    case OpRename => SplitStart(cwd, path, oldPath)
    case _ => SplitStart(cwd, path, "")
  }

  /** The data of a call before anything is known. */
  function Blank(op: Op): CbData {
    CbData(op, false, NoOpenCb, Lookup1, Absent, Absent, false, true, [], None, false, false, false)
  }

  /** The call returned -1: the request is refused, except that a chdir may have been reported as well. */
  predicate Gone(d: CbData) {
    Refused(d) || (d.op.OpChdir? && Settled(d) && d.reports == [Errno(ENOMEM)])
  }

  /** O_TRUNC counts only for writing, and not with O_EXCL. */
  function OpenCbFor(f: Flags): OpenCb {
    if f.excl then OpenChmod else if f.trunc && f.writable then OpenTruncate else NoOpenCb
  }

  /** With O_EXCL the mode is set after the open; O_TRUNC cuts the file if it can be written and is not new. */
  predicate AsFlagged(f: Flags, open: OpenCb) {
    && (open.OpenChmod? <==> f.excl) && (open.OpenTruncate? <==> f.trunc && f.writable && !f.excl)
    && !open.TruncateOpen?
  }

  datatype Alloc = NoData | Dropped | Ready | Lost

  /** Did the call make a request, and what did it return?  Without one it returned -1. */
  datatype Birth = Unmade | Made(r: int)

  function Early(q: Alloc): Birth {
    if q.NoData? then Unmade else Made(-1)
  }

  function Returned(k: Queue): Birth {
    Made(if k.Queued? then 0 else -1)
  }

  /** Data made for a call; `o` is what its path has led to so far. */
  predicate Allocated(q: Alloc, c: CbData, d: CbData, y: Texts, o: Opening, lucky: bool) {
    match q
    case NoData => !lucky
    case Dropped => d == Freed(c) && (lucky ==> o.Refuses?)
    case Ready => o.Begins? && d == c && y == o.texts
    case Lost => o.Stumbles? && d == c.(lost := true)
  }

  function FirstResolve(cwd: string, x: Texts, path: string): Opening {
    match Resolve(cwd, path)
    case None => Refuses
    case Some(t) => Begins(x.(path := t))
  }

  /** What the end of a call makes of a request whose path resolves to `t`. */
  predicate Began(c: CbData, d: CbData, x: Texts, y: Texts, cb: Callback, t: Option<string>, q: Queue, lucky: bool) {
    && Queues(t, q, lucky)
    && match q
       case Queued => d == c.(continueCb := cb, pending := Some(Lookup1)) && y == x.(path := t.value)
       case Unqueued => d == Freed(c.(continueCb := d.continueCb))
       case Tripped => d == c.(lost := true)
  }

  /**
   What a call that starts a request leaves behind.  The new request waits when the call returned
   0, and is gone when it returned -1; only a chdir may have been reported then as well.  When
   nothing runs out the path decides which it is, and the call strays exactly for the paths that
   resolve to the empty text.
   */
  predicate Launched(b: Birth, d: CbData, y: Texts, threads: bool, crashed: bool, lucky: bool, op: Op, o: Opening) {
    match b
    case Unmade => !crashed && (lucky ==> o.Refuses?)
    case Made(r) =>
      && (r == 0 || r == -1) && d.op == op && crashed == d.lost && Coherent(d) && !d.turned
      && (r == 0 ==> o.Begins? && !crashed && Begun(d, op, threads) && y == o.texts)
      && (r != 0 ==> if crashed then o.Stumbles? && Strayed(d) else Gone(d))
      && (lucky ==> (r == 0 <==> o.Begins?) && (crashed <==> o.Stumbles?))
  }

  /** The data of a call that can be looked up, and can be taken back. */
  predicate Launchable(c: CbData, op: Op, threads: bool) {
    && Running(c, FirstStage(op)) && AfterLookup(FirstStage(op)) && c.op == op
    && c.held == (threads && Locks(op)) && Refused(Freed(c)) && !c.turned
  }

  /** A call that ends before its lookup. */
  lemma {:induction false} EarlyLaunches(q: Alloc, c: CbData, d: CbData, y: Texts, o: Opening, o': Opening,
                                         threads: bool, lucky: bool)
    requires Allocated(q, c, d, y, o, lucky) && !q.Ready? && Idle(c) && Refused(Freed(c)) && Coherent(c) && !c.turned
    requires (o.Refuses? ==> o'.Refuses?) && (o.Stumbles? ==> o'.Stumbles?)
    ensures Launched(Early(q), d, y, threads, q.Lost?, lucky, c.op, o')
  {
  }

  /** The path of a call is resolved, and split if that can be. */
  lemma {:induction false} SplitAllocated(cwd: string, path: string, oldPath: string, c: CbData, d: CbData, y: Texts,
                                          ok: bool, lucky: bool)
    requires Resolve(cwd, path).Some? && d == c.(lost := !ok) && !c.lost && (ok <==> Resolve(cwd, path).value != "")
    requires var t := Resolve(cwd, path).value; ok ==> y == Split(NO_TEXTS.(oldPath := oldPath).(path := t), t)
    ensures Allocated(if ok then Ready else Lost, c, d, y, SplitStart(cwd, path, oldPath), lucky)
  {
  }

  lemma {:induction false} UnsplitAllocated(cwd: string, path: string, oldPath: string, q: Alloc,
                                            c: CbData, d: CbData, y: Texts, lucky: bool)
    requires Allocated(q, c, d, y, FirstResolve(cwd, NO_TEXTS.(oldPath := oldPath), path), lucky)
    requires q.NoData? || q.Dropped?
    ensures Allocated(q, c, d, y, SplitStart(cwd, path, oldPath), lucky)
  {
  }

  lemma {:induction false} BeganLaunches(c: CbData, d: CbData, x: Texts, y: Texts, t: Option<string>, q: Queue,
                                         op: Op, o: Opening, threads: bool, lucky: bool)
    requires Launchable(c, op, threads) && Began(c, d, x, y, FirstStage(op), t, q, lucky)
    requires o == match t
                  case None => Refuses
                  case Some(u) => if u == "" then Stumbles else Begins(x.(path := u))
    ensures Launched(Returned(q), d, y, threads, d.lost, lucky, op, o)
  {
  }

  lemma {:induction false} SplitLaunches(cwd: string, op: Op, path: string, oldPath: string, c: CbData, d: CbData,
                                         y: Texts, q: Queue, threads: bool, lucky: bool)
    requires SplitStart(cwd, path, oldPath).Begins? && Launchable(c, op, threads)
    requires var x := SplitStart(cwd, path, oldPath).texts;
             Began(c, d, x, y, FirstStage(op), Resolve(cwd, x.path), q, lucky)
    ensures Launched(Returned(q), d, y, threads, d.lost, lucky, op, SplitStart(cwd, path, oldPath))
  {
    var o := SplitStart(cwd, path, oldPath);
    SplitThenLook(cwd, Open, o.texts, path, 0);
    BeganLaunches(c, d, o.texts, y, Resolve(cwd, o.texts.path), q, op, o, threads, lucky);
  }

  lemma {:induction false} FullLaunches(cwd: string, op: Op, path: string, c: CbData, d: CbData,
                                        y: Texts, q: Queue, threads: bool, lucky: bool)
    requires Resolve(cwd, path).Some? && Launchable(c, op, threads)
    requires var t := Resolve(cwd, path).value;
             Began(c, d, NO_TEXTS.(path := t), y, FirstStage(op), Resolve(cwd, t), q, lucky)
    ensures Launched(Returned(q), d, y, threads, d.lost, lucky, op, FullStart(cwd, path))
  {
    var t := Resolve(cwd, path).value;
    BeganLaunches(c, d, NO_TEXTS.(path := t), y, Resolve(cwd, t), q, op, FullStart(cwd, path), threads, lucky);
  }

  /** The data of an open. */
  function OpenBlank(f: Flags): CbData {
    Blank(OpOpen).(noFollow := f.noFollow, openCb := OpenCbFor(f))
  }

  lemma {:induction false} OpenLaunchable(f: Flags, threads: bool)
    ensures Launchable(OpenBlank(f).(held := threads), OpOpen, threads)
  {
  }

  lemma {:induction false} OpenLaunches(cwd: string, path: string, f: Flags, d: CbData, y: Texts, q: Queue,
                                        threads: bool, lucky: bool)
    requires SplitStart(cwd, path, "").Begins?
    requires var x := SplitStart(cwd, path, "").texts;
             Began(OpenBlank(f).(held := threads), d, x, y, Open, Resolve(cwd, x.path), q, lucky)
    ensures Launched(Returned(q), d, y, threads, d.lost, lucky, OpOpen, SplitStart(cwd, path, ""))
    ensures q.Queued? ==> d.noFollow == f.noFollow && d.openCb == OpenCbFor(f)
  {
    OpenLaunchable(f, threads);
    SplitLaunches(cwd, OpOpen, path, "", OpenBlank(f).(held := threads), d, y, q, threads, lucky);
  }

  function TruncateBlank(): CbData {
    Blank(OpTruncate).(openCb := TruncateOpen)
  }

  lemma {:induction false} TruncateLaunchable(threads: bool)
    ensures Launchable(TruncateBlank().(held := threads), OpTruncate, threads)
  {
  }

  lemma {:induction false} TruncateLaunches(cwd: string, path: string, d: CbData, y: Texts, q: Queue,
                                            threads: bool, lucky: bool)
    requires SplitStart(cwd, path, "").Begins?
    requires var x := SplitStart(cwd, path, "").texts;
             Began(TruncateBlank().(held := threads), d, x, y, Open, Resolve(cwd, x.path), q, lucky)
    ensures Launched(Returned(q), d, y, threads, d.lost, lucky, OpTruncate, SplitStart(cwd, path, ""))
  {
    TruncateLaunchable(threads);
    SplitLaunches(cwd, OpTruncate, path, "", TruncateBlank().(held := threads), d, y, q, threads, lucky);
  }

  /** The calls that work on a name in a directory. */
  predicate Names(op: Op) {
    op.OpMkdir? || op.OpRemove? || op.OpLink? || op.OpRename?
  }

  lemma {:induction false} NameLaunchable(op: Op, threads: bool)
    requires Names(op)
    ensures Launchable(Blank(op), op, threads)
  {
  }

  lemma {:induction false} NameLaunches(cwd: string, op: Op, path: string, oldPath: string, d: CbData, y: Texts,
                                        q: Queue, threads: bool, lucky: bool)
    requires Names(op) && SplitStart(cwd, path, oldPath).Begins?
    requires var x := SplitStart(cwd, path, oldPath).texts;
             Began(Blank(op), d, x, y, FirstStage(op), Resolve(cwd, x.path), q, lucky)
    ensures Launched(Returned(q), d, y, threads, d.lost, lucky, op, SplitStart(cwd, path, oldPath))
  {
    NameLaunchable(op, threads);
    SplitLaunches(cwd, op, path, oldPath, Blank(op), d, y, q, threads, lucky);
  }

  /** A request just started: it waits at the first stage, with the mutex if its operation takes it. */
  predicate Begun(d: CbData, op: Op, threads: bool) {
    && Waiting(d) && d.op == op && Target(d) == FirstStage(op) && !d.pending.value.Lookup2?
    && d.held == (threads && Locks(op))
  }

  // ---- paths stay canonical ----

  lemma {:induction false} LookForSoundly(cwd: string, cb: Callback, x: Texts, code: nat)
    ensures var o := LookFor(cwd, cb, x, code); o.Looks? ==> o.cb == cb && Paths.Canonical(o.texts.path)
  {
    ResolvedIsCanonical(cwd, x.path);
  }

  lemma {:induction false} SplitForSoundly(cwd: string, cb: Callback, x: Texts, path: string)
    ensures var o := SplitFor(cwd, cb, x, path); o.Looks? ==> o.cb == cb && Paths.Canonical(o.texts.path)
  {
    if SplitFor(cwd, cb, x, path).Looks? {
      SplitThenLook(cwd, cb, x, path, 0);
    }
  }

  lemma {:induction false} StageSoundly(cwd: string, x: Texts, open: OpenCb, cb: Callback, ops: seq<ResOp>)
    ensures var o := StageGoes(cwd, x, open, cb, ops); o.Looks? ==> Paths.Canonical(o.texts.path)
  {
    match cb
    case Mount3 => LookForSoundly(cwd, Mount4, x, ENOMEM);
    case Link1 => LookForSoundly(cwd, Link2, x.(path := x.oldPath), EFAULT);
    case Rename1 => SplitForSoundly(cwd, Rename2, x.(newName := x.name), x.oldPath);
    case OpenReadlink =>
      var i := Find(ops, KReadlink);
      if i >= 0 {
        SplitForSoundly(cwd, Open, x, FinalLink(x.path, ops[i].text));
      }
    case _ =>
  }

  lemma {:induction false} StageNeverReads(cwd: string, x: Texts, open: OpenCb, cb: Callback, ops: seq<ResOp>)
    ensures var o := StageGoes(cwd, x, open, cb, ops);
            !o.Reads? && (o.Looks? ==> !o.cb.OpenReadlink? && o.cb != cb && (o.cb.Mount4? <==> cb.Mount3?))
  {
  }

  /** Each stage leads to stages of the same operation, walking a path or not as they need. */
  lemma {:induction false} StageBelongs(cwd: string, x: Texts, open: OpenCb, op: Op, cb: Callback, ops: seq<ResOp>)
    requires Belongs(op, cb) && (open.TruncateOpen? <==> op.OpTruncate?)
    ensures var o := StageGoes(cwd, x, open, cb, ops);
            && (o.Looks? ==> Belongs(op, o.cb) && AfterLookup(o.cb) && !o.cb.OpenReadlink?)
            && (o.Waits? ==> Belongs(op, o.cb) && !AfterLookup(o.cb) && !o.cb.Lookup1? && !o.cb.Lookup2?)
  {
  }

  /** So do the stages of an open for what has been turned to one. */
  lemma {:induction false} OpenStageBelongs(cwd: string, x: Texts, cb: Callback, ops: seq<ResOp>)
    requires OpenStage(cb)
    ensures var o := StageGoes(cwd, x, NoOpenCb, cb, ops);
            && (o.Looks? ==> o.cb.Open?) && (o.Waits? ==> o.cb.OpenConfirm?)
  {
  }

  /** Where a request can go on after a reply. */
  predicate LeadsOn(d: CbData, o: Outcome) {
    && (o.Looks? ==> AfterLookup(o.cb) && Admits(d.op, TurnedAfter(d, o), o.cb))
    && (o.Waits? ==> Admits(d.op, d.turned, o.cb) && !AfterLookup(o.cb) && !o.cb.Lookup1? && !o.cb.Lookup2?)
    && (o.Looks? && o.cb.OpenReadlink? ==> !d.op.OpOpendir? && !d.op.OpClose? && !d.op.OpGetacl?)
    && (o.Looks? && o.cb == d.continueCb ==> Geared(d, o.cb))
    && (o.Reads? ==> AfterLookup(d.continueCb) && Suits(d, d.continueCb))
  }

  lemma {:induction false} StageLeadsOn(cwd: string, x: Texts, d: CbData, cb: Callback, ops: seq<ResOp>)
    requires Suits(d, cb) && (AfterLookup(cb) ==> cb == d.continueCb)
    ensures LeadsOn(d, StageGoes(cwd, x, d.openCb, cb, ops))
  {
    StageNeverReads(cwd, x, d.openCb, cb, ops);
    if d.turned {
      OpenStageBelongs(cwd, x, cb, ops);
    } else {
      StageBelongs(cwd, x, d.openCb, d.op, cb, ops);
    }
  }

  lemma {:induction false} LookupLeadsOn(cwd: string, d: CbData, x: Texts, status: RpcStatus, res: Res)
    requires LeadsOn(d, StageGoes(cwd, x, d.openCb, d.continueCb, res.ops))
    requires Suits(d, d.continueCb) && AfterLookup(d.continueCb)
    ensures LeadsOn(d, LookupGoes(cwd, d, x, status, res))
  {
  }

  lemma {:induction false} GoesLeadsOn(cwd: string, c: CbData, x: Texts, status: RpcStatus, res: Res)
    requires Waiting(c)
    ensures LeadsOn(c, Goes(cwd, c, x, c.pending.value, status, res))
  {
    if !c.pending.value.Lookup2? {
      StageLeadsOn(cwd, x, c, Target(c), res.ops);
      if c.pending.value.Lookup1? {
        LookupLeadsOn(cwd, c, x, status, res);
      }
    }
  }

  lemma {:induction false} ReadLooks(cwd: string, cb: Callback, x: Texts, ops: seq<ResOp>)
    ensures var o := ReadGoes(cwd, cb, x, ops); o.Looks? ==> o.cb == cb
  {
  }

  lemma {:induction false} ReadsForOpens(c: CbData)
    requires Walking(c) && c.continueCb.OpenReadlink?
    ensures c.turned || Opens(c.op)
  {
  }

  /** Reading a link turns nothing. */
  lemma {:induction false} ReadAlters(cwd: string, c: CbData, d: CbData, x: Texts, status: RpcStatus, res: Res)
    requires c.continueCb.OpenReadlink? ==> c.turned || Opens(c.op)
    requires c.turned == d.turned && c.spilled == d.spilled
    ensures Alters(c, d, Checked(status, Some(res), ReadGoes(cwd, c.continueCb, x, res.ops)))
  {
    ReadLooks(cwd, c.continueCb, x, res.ops);
    NotTurned(c, d, Checked(status, Some(res), ReadGoes(cwd, c.continueCb, x, res.ops)));
  }

  lemma {:induction false} NotTurned(c: CbData, d: CbData, o: Outcome)
    requires c.turned == d.turned && c.spilled == d.spilled
    requires o.Looks? && o.cb.OpenReadlink? ==> c.turned || Opens(c.op)
    ensures Alters(c, d, o)
  {
  }

  /** Nor does any stage. */
  lemma {:induction false} StageAlters(cwd: string, c: CbData, d: CbData, x: Texts, cb: Callback,
                                       status: RpcStatus, res: Res)
    requires !cb.Lookup1? && !cb.Lookup2? && c.turned == d.turned && c.spilled == d.spilled
    ensures Alters(c, d, Goes(cwd, c, x, cb, status, res))
  {
    StageNeverReads(cwd, x, c.openCb, cb, res.ops);
    NotTurned(c, d, Goes(cwd, c, x, cb, status, res));
  }

  /** A request that went where a reply leads is waiting, or has come to an end. */
  lemma {:induction false} WentOk(c: CbData, d: CbData, x: Texts, y: Texts, o: Outcome, lucky: bool)
    requires Waiting(c) && Same(c, d) && LeadsOn(c, o) && Turns(c, d, x, y, o, lucky) && Alters(c, d, o)
    ensures Ok(d)
  {
  }

  /** The path that goes with an outcome is as it should be. */
  predicate Places(x: Texts, o: Outcome) {
    && (o.Looks? ==> AfterLookup(o.cb) && Paths.Canonical(o.texts.path))
    && (o.Waits? ==> !AfterLookup(o.cb) && !o.cb.Lookup1? && !o.cb.Lookup2? && WellPlaced(x.path, o.cb))
    && (o.Reads? ==> Paths.Canonical(x.path))
  }

  lemma {:induction false} StagePlaces(cwd: string, x: Texts, d: CbData, cb: Callback, ops: seq<ResOp>)
    requires Suits(d, cb) && (AfterLookup(cb) ==> cb == d.continueCb) && WellPlaced(x.path, cb)
    ensures Places(x, StageGoes(cwd, x, d.openCb, cb, ops))
  {
    StageSoundly(cwd, x, d.openCb, cb, ops);
    StageLeadsOn(cwd, x, d, cb, ops);
  }

  lemma {:induction false} ReadPlaces(cwd: string, cb: Callback, x: Texts, ops: seq<ResOp>)
    requires AfterLookup(cb)
    ensures Places(x, ReadGoes(cwd, cb, x, ops))
  {
    var i, e, cs := Find(ops, KReadlink), At(x.linkIdx), Slashes(x.path);
    if i >= 0 && e <= |cs| {
      LookForSoundly(cwd, cb, x.(path := Spliced(cs, e, ops[i].text)), ENOMEM);
    }
  }

  lemma {:induction false} LookupPlaces(cwd: string, d: CbData, x: Texts, status: RpcStatus, res: Res)
    requires Places(x, StageGoes(cwd, x, d.openCb, d.continueCb, res.ops)) && Paths.Canonical(x.path)
    ensures Places(x, LookupGoes(cwd, d, x, status, res))
  {
  }

  /** Whatever a reply leads to, the path of a request that still waits is as it should be. */
  lemma {:induction false} GoesSoundly(cwd: string, c: CbData, x: Texts, status: RpcStatus, res: Res)
    requires Waiting(c) && WellPlaced(x.path, Target(c))
    ensures Places(x, Goes(cwd, c, x, c.pending.value, status, res))
  {
    if c.pending.value.Lookup2? {
      ReadPlaces(cwd, c.continueCb, x, res.ops);
    } else {
      StagePlaces(cwd, x, c, Target(c), res.ops);
      if c.pending.value.Lookup1? {
        LookupPlaces(cwd, c, x, status, res);
      }
    }
  }

  lemma {:induction false} PlacedSoundly(c: CbData, d: CbData, x: Texts, y: Texts, o: Outcome, lucky: bool)
    requires Turns(c, d, x, y, o, lucky) && Places(x, o) && Ok(d)
    ensures Sound(Request(d, y))
  {
  }

  lemma {:induction false} WentSoundly(cwd: string, c: CbData, d: CbData, x: Texts, y: Texts,
                                       status: RpcStatus, res: Res, lucky: bool)
    requires Waiting(c) && WellPlaced(x.path, Target(c)) && Same(c, d)
    requires var o := Goes(cwd, c, x, c.pending.value, status, res); Turns(c, d, x, y, o, lucky) && Alters(c, d, o)
    ensures Sound(Request(d, y))
  {
    var o := Goes(cwd, c, x, c.pending.value, status, res);
    GoesLeadsOn(cwd, c, x, status, res);
    WentOk(c, d, x, y, o, lucky);
    GoesSoundly(cwd, c, x, status, res);
    PlacedSoundly(c, d, x, y, o, lucky);
  }

  /** A callback runs with its request no longer pending, which changes nothing for where it goes. */
  lemma {:induction false} GoesUnpended(cwd: string, c: CbData, x: Texts, cb: Callback, status: RpcStatus, res: Res)
    ensures Goes(cwd, c.(pending := None), x, cb, status, res) == Goes(cwd, c, x, cb, status, res)
  {
  }

  lemma {:induction false} TurnDelivers(cwd: string, c: CbData, d: CbData, x: Texts, y: Texts,
                                        status: RpcStatus, res: Res, lucky: bool)
    requires Waiting(c) && WellPlaced(x.path, Target(c)) && Same(c, d)
    requires var b := c.(pending := None);
             var o := Goes(cwd, b, x, c.pending.value, status, res);
             Turns(b, d, x, y, o, lucky) && Alters(b, d, o) && (o.Leaks? ==> Leaked(d))
    ensures Delivered(c, d, x, y, Goes(cwd, c, x, c.pending.value, status, res), lucky) && Sound(Request(d, y))
  {
    GoesUnpended(cwd, c, x, c.pending.value, status, res);
    var o := Goes(cwd, c, x, c.pending.value, status, res);
    assert Turns(c, d, x, y, o, lucky) && Alters(c, d, o);
    WentSoundly(cwd, c, d, x, y, status, res, lucky);
  }

  lemma {:induction false} FullStartIsCanonical(cwd: string, path: string)
    ensures var o := FullStart(cwd, path); o.Begins? ==> Paths.Canonical(o.texts.path)
  {
    var t := Resolve(cwd, path);
    if t.Some? {
      ResolvedIsCanonical(cwd, t.value);
    }
  }

  lemma {:induction false} SplitStartIsCanonical(cwd: string, path: string, oldPath: string)
    ensures var o := SplitStart(cwd, path, oldPath); o.Begins? ==> Paths.Canonical(o.texts.path)
  {
    ResolvedIsCanonical(cwd, path);
    var t := Resolve(cwd, path);
    if t.Some? && t.value != "" {
      DirIsCanonical(t.value);
    }
  }

  /** A call that begins a request gives it a path that is as it should be. */
  lemma {:induction false} StartsSoundly(cwd: string, op: Op, path: string, oldPath: string)
    ensures var o := StartGoes(cwd, op, path, oldPath); o.Begins? ==> WellPlaced(o.texts.path, FirstStage(op))
  {
    if op.OpMount? {
      Paths.NormalFormIsCanonical(path);
    } else if op.OpOpendir? || op.OpChdir? {
      FullStartIsCanonical(cwd, path);
    } else {
      SplitStartIsCanonical(cwd, path, if op.OpLink? || op.OpRename? then oldPath else "");
    }
  }

  lemma {:induction false} StoreSound(all: seq<Request>, p: Ptr, q: Request,
                                      mutex: bool, mutex': bool, owner: Option<Ptr>)
    requires MutexFits(all, mutex, owner) && AllSound(all, false) && p < |all| && Sound(q)
    requires MutexMoves(all[p].data.held, q.data.held, mutex, mutex')
    ensures MutexFits(all[p := q], mutex', NewOwner(owner, p, q.data.held, mutex'))
    ensures AllSound(all[p := q], q.data.lost)
  {
    var all' := all[p := q];
    assert all'[p] == q;
    assert q.data.held ==> q.data.live;
    assert forall i :: 0 <= i < |all| && i != p ==> all'[i] == all[i];
  }

  lemma {:induction false} AppendSound(all: seq<Request>, q: Request, mutex: bool, mutex': bool, owner: Option<Ptr>)
    requires MutexFits(all, mutex, owner) && AllSound(all, false) && Sound(q)
    requires MutexMoves(false, q.data.held, mutex, mutex')
    ensures MutexFits(all + [q], mutex', if q.data.held then Some(|all|) else owner)
    ensures AllSound(all + [q], q.data.lost)
  {
    var all' := all + [q];
    assert all'[|all|] == q;
    assert q.data.held ==> q.data.live;
    assert forall i :: 0 <= i < |all| ==> all'[i] == all[i];
  }

  // ---- what the environment lets succeed ----

  /** Does the `k`th thing from now succeed?  Behind the end of the script everything does. */
  predicate Luck(env: seq<bool>, k: nat) {
    k < |env| ==> env[k]
  }

  /** The script after `k` things. */
  function Left(env: seq<bool>, k: nat): seq<bool> {
    if k < |env| then env[k..] else []
  }

  lemma {:induction false} LeftTwice(env: seq<bool>, i: nat, j: nat)
    ensures Left(Left(env, i), j) == Left(env, i + j) && (Luck(Left(env, i), j) <==> Luck(env, i + j))
  {
  }

  /** The data of a call is made, and its path, which resolves to `t`, is in place. */
  predicate FullReady(env: seq<bool>, t: Option<string>) {
    Luck(env, 0) && Luck(env, 1) && t.Some?
  }

  /** A chdir is reported and refused. */
  predicate ToldTwice(env: seq<bool>, t: Option<string>) {
    FullReady(env, t) && !Luck(env, 2)
  }

  /** One step of a run; the flags are those of an open. */
  datatype Step =
    | Start(op: Op, path: string, oldPath: string, flags: Flags)
    | Arrive(p: Ptr, status: RpcStatus, res: Res)

  datatype Flags = Flags(noFollow: bool, writable: bool, trunc: bool, excl: bool, create: bool)

  /** How a request may change over time: reports are never taken back, and what ended stays as it is. */
  predicate Later(c: CbData, d: CbData) {
    c.op == d.op && c.noFollow == d.noFollow && c.reports <= d.reports && (!Waiting(c) ==> c == d)
  }

  lemma {:induction false} LaterTransitive(b: CbData, c: CbData, d: CbData)
    requires Later(b, c) && Later(c, d)
    ensures Later(b, d)
  {
  }

  lemma {:induction false} OnlyLookupsLeak(cwd: string, d: CbData, x: Texts, cb: Callback, status: RpcStatus, res: Res)
    requires !cb.Lookup1?
    ensures !Goes(cwd, d, x, cb, status, res).Leaks?
  {
    StageNeverLeaks(cwd, x, d.openCb, cb, res.ops);
  }

  lemma {:induction false} StageNeverLeaks(cwd: string, x: Texts, open: OpenCb, cb: Callback, ops: seq<ResOp>)
    ensures !StageGoes(cwd, x, open, cb, ops).Leaks?
  {
  }
}
