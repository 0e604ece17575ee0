/**
 Following a symbolic link met during a path lookup.

 The first callback counts LOOKUP results to find which component is the link, cuts a copy
 of the path after it and asks the server for the link text; the second callback uses the
 same count to splice that text into the stored path, which is then looked up again.
 */
module Symlink {
  import opened Options
  import opened Paths
  import opened Replies
  import opened Resolution
  import opened CStrings
  import opened Normalize
  import opened Compound

  // ---- the first callback ----

  datatype Decision =
    | Continue                             // hand the result to the call
    | NotFound                             // NFS4ERR_SYMLINK without a failed LOOKUP
    | Follow(idx: nat, resolveLast: bool)  // read the link the first `idx` names lead to

  /** Decides how a reply with status NFS4_OK or NFS4ERR_SYMLINK goes on. */
  method FindLink(rs: seq<ResOp>, ok: bool, noFollow: bool) returns (o: Decision)
    ensures var last := HasLinkAttr(rs) && !noFollow;
            o == if ok && !last then Continue
                 else if !last && !HasFailedLookup(rs) then NotFound
                 else Follow(LinkIndex(rs), last)
  {
    var resolveLink := false;
    var i := 0;
    while i < |rs|
      invariant 0 <= i <= |rs|
      invariant resolveLink <==> HasLinkAttr(rs[..i])
    {
      assert rs[..i + 1] == rs[..i] + [rs[i]];
      if rs[i].GetattrRes? && rs[i].link {
        resolveLink := true;
        assert rs[..i + 1][i] == rs[i];
      } else {
        assert forall j :: 0 <= j < i ==> rs[..i + 1][j] == rs[..i][j];
      }
      i := i + 1;
    }
    assert rs[..|rs|] == rs;
    if noFollow {
      resolveLink := false;
    }
    if ok && !resolveLink {
      return Continue;
    }

    var idx;
    i, idx := FindFailedLookup(rs);
    if !resolveLink && i == |rs| {
      return NotFound;
    }
    return Follow(idx, resolveLink);
  }

  // ---- slashes of the stored path ----

  /** Where slash number `m` of the path made of `names` is. */
  function SlashAt(names: seq<string>, m: nat): nat
    requires m <= |names|
  {
    |Join(names[..m])|
  }

  /** Slash `m` starts component `m`, which reaches to slash `m + 1` or to the end. */
  lemma {:induction false} BetweenSlashes(names: seq<string>, m: nat)
    requires m < |names| && SlashFree(names[m])
    ensures var t, a, b := Join(names), SlashAt(names, m), SlashAt(names, m + 1);
            && a < b <= |t| && t[a] == '/' && t[a + 1..b] == names[m]
            && t[..a] == Join(names[..m]) && t[b..] == Join(names[m + 1..])
            && (b < |t| <==> m + 1 < |names|) && (b < |t| ==> t[b] == '/')
  {
    var before, after := names[..m], names[m + 1..];
    assert names == before + ([names[m]] + after);
    JoinConcat(before, [names[m]] + after);
    assert ([names[m]] + after)[1..] == after;
    var piece := "/" + names[m];
    assert Join(names) == Join(before) + (piece + Join(after));
    assert names[..m + 1] == before + [names[m]];
    JoinConcat(before, [names[m]]);
    assert [names[m]][1..] == [];
    assert Join([names[m]]) == piece + "";
    if m + 1 < |names| {
      assert Join(after) != "";
    }
  }

  /** A canonical path with at least one name is the join of the names that are looked up. */
  lemma {:induction false} StoredPath(t: string)
    requires Canonical(t) && t != "/"
    ensures LookupNames(t) != [] && Join(LookupNames(t)) == t
    ensures forall i :: 0 <= i < |LookupNames(t)| ==> Proper(LookupNames(t)[i])
  {
    JoinComponents(t);
    var cs := Components(t);
    assert Proper(cs[|cs| - 1]);
  }

  /** Steps from slash to slash with strchr, `m` times. */
  method SkipSlashes(path: array<char>, ghost names: seq<string>, m: nat) returns (tmp: nat)
    requires CString(path, Join(names)) && m < |names|
    requires forall i :: 0 <= i < |names| ==> Proper(names[i])
    ensures tmp == SlashAt(names, m) < |Join(names)|
  {
    ghost var t := Join(names);
    BetweenSlashes(names, 0);
    assert names[..0] == [];
    tmp := 0;
    var i := 0;
    while i < m
      invariant 0 <= i <= m && tmp == SlashAt(names, i) < |t|
    {
      BetweenSlashes(names, i);
      ghost var b := SlashAt(names, i + 1);
      assert forall j :: tmp + 1 <= j < b ==> t[j] == t[tmp + 1..b][j - tmp - 1];
      var next := FindChar(path, t, tmp + 1, '/');
      assert next == b;
      tmp := next;
      i := i + 1;
    }
  }

  /** Cuts a copy of the stored path after the link, when the link is not the last name. */
  method CutAfterLink(path: array<char>, ghost names: seq<string>, idx: nat, resolveLast: bool)
    requires CString(path, Join(names)) && names != []
    requires forall i :: 0 <= i < |names| ==> Proper(names[i])
    requires if resolveLast then idx == |names| else idx < |names|
    modifies path
    ensures CString(path, Join(names[..idx]))
  {
    if !resolveLast {
      var tmp := SkipSlashes(path, names, idx);
      BetweenSlashes(names, idx);
      path[tmp] := '\0';
    } else {
      assert names[..idx] == names;
    }
  }

  // ---- the second callback ----

  /** The buffer holds `u` and nothing but terminators after it. */
  ghost predicate Built(r: array<char>, u: string)
    reads r
  {
    && |u| < r.Length
    && (forall j :: 0 <= j < |u| ==> r[j] == u[j])
    && (forall j :: |u| <= j < r.Length ==> r[j] == '\0')
  }

  method AppendString(r: array<char>, ghost u: string, at: nat, src: array<char>, ghost s: string, from: nat)
    returns (end: nat)
    requires Built(r, u) && at == |u| && Tail(src, s, from) && r != src && |u| + |s| - from < r.Length
    modifies r
    ensures Built(r, u + s[from..]) && end == |u| + |s| - from
  {
    end := Place(r, at, src, s, from);
  }

  /** Appends a slash and the link text up to its first NUL. */
  method AppendLink(r: array<char>, ghost u: string, at: nat, link: string) returns (end: nat)
    requires Built(r, u) && at == |u| && |u| + 1 + |link| < r.Length
    modifies r
    ensures Built(r, u + ("/" + UpToNul(link))) && end == |u| + 1 + |UpToNul(link)|
  {
    r[at] := '/';
    end := at + 1;
    ghost var v := UpToNul(link);
    while end - at - 1 < |link| && link[end - at - 1] != '\0'
      invariant at + 1 <= end <= at + 1 + |v|
      invariant Built(r, u + ("/" + v[..end - at - 1]))
    {
      r[end] := link[end - at - 1];
      end := end + 1;
    }
    assert v[..end - at - 1] == v;
  }

  /** Cuts a text at slash `a` and at the slash behind it, which is `b` unless the text ends first. */
  method CutBoth(path: array<char>, ghost t: string, a: nat, ghost b: nat) returns (end: int)
    requires CString(path, t) && a < b <= |t| && t[a] == '/' && (b < |t| ==> t[b] == '/')
    requires forall j :: a < j < b ==> t[j] != '/'
    modifies path
    ensures CString(path, t[..a])
    ensures end == if b < |t| then b + 1 else -1
    ensures end >= 0 ==> Tail(path, t, end)
  {
    path[a] := '\0';
    end := FindChar(path, t, a + 1, '/');
    if end >= 0 {
      path[end] := '\0';
      end := end + 1;
    }
  }

  /** Terminates the text before component `m` and the component itself; `end` is what follows, or -1. */
  method CutAround(path: array<char>, ghost names: seq<string>, m: nat) returns (end: int)
    requires CString(path, Join(names)) && m < |names|
    requires forall i :: 0 <= i < |names| ==> Proper(names[i])
    modifies path
    ensures CString(path, Join(names[..m]))
    ensures end == if m + 1 < |names| then SlashAt(names, m + 1) + 1 else -1
    ensures end >= 0 ==> Tail(path, Join(names), end)
  {
    ghost var t := Join(names);
    ghost var a, b := SlashAt(names, m), SlashAt(names, m + 1);
    BetweenSlashes(names, m);
    assert forall j :: a < j < b ==> t[j] == t[a + 1..b][j - a - 1];
    var tmp := SkipSlashes(path, names, m);
    end := CutBoth(path, t, tmp, b);
  }

  /** sprintf "%s/%.*s/%s" of the text before, the link, and the text after. */
  method Format(path: array<char>, ghost before: string, link: string, ghost t: string, end: int, size: nat)
    returns (r: array<char>)
    requires CString(path, before) && (end >= 0 ==> Tail(path, t, end))
    requires size > |before| + 2 + |link| + if end >= 0 then |t| - end else 0
    ensures fresh(r) && r.Length == size
    ensures Built(r, before + ("/" + UpToNul(link)) + "/" + if end >= 0 then t[end..] else "")
  {
    r := new char[size](_ => '\0');
    var k := AppendString(r, "", 0, path, before, 0);
    assert "" + before[0..] == before;
    k := AppendLink(r, before, k, link);
    ghost var u := before + ("/" + UpToNul(link));
    r[k] := '/';
    if end >= 0 {
      k := AppendString(r, u + "/", k + 1, path, t, end);
    } else {
      assert u + "/" + "" == u + "/";
    }
  }

  lemma {:induction false} SplicedText(names: seq<string>, idx: nat, link: string)
    requires 1 <= idx <= |names| && forall i :: 0 <= i < |names| ==> Proper(names[i])
    ensures var t, u := Join(names), Join(names[..idx - 1]) + ("/" + UpToNul(link));
            var e := SlashAt(names, idx) + 1;
            && |Join(names[..idx - 1])| + 1 <= |t|
            && (idx < |names| ==> e <= |t| && |Join(names[..idx - 1])| + 1 + (|t| - e) < |t|)
            && Spliced(names, idx, link) == u + "/" + if idx < |names| then t[e..] else ""
  {
    BetweenSlashes(names, idx - 1);
    var t, u := Join(names), Join(names[..idx - 1]) + ("/" + UpToNul(link));
    if idx < |names| {
      var b := SlashAt(names, idx);
      SlashFirst(u, t, b);
      assert Join(names[idx..]) == t[b..];
    } else {
      assert u + "/" + "" == u + "/";
    }
  }

  lemma {:induction false} SlashFirst(u: string, t: string, b: nat)
    requires b < |t| && t[b] == '/'
    ensures u + t[b..] == u + "/" + t[b + 1..]
  {
    assert t[b..] == "/" + t[b + 1..];
  }

  lemma {:induction false} SplicedNoNul(names: seq<string>, idx: nat, link: string)
    requires 1 <= idx <= |names| && forall i :: 0 <= i < |names| ==> Proper(names[i])
    requires '\0' !in Join(names)
    ensures '\0' !in Spliced(names, idx, link)
  {
    BetweenSlashes(names, idx - 1);
    SplicedText(names, idx, link);
  }

  /**
   Rebuilds the stored path with the link text in place of component `idx - 1`, in a buffer of
   the size the source allocates.
   */
  method SpliceLink(stored: array<char>, ghost names: seq<string>, idx: nat, link: string)
    returns (r: array<char>)
    requires CString(stored, Join(names)) && 1 <= idx <= |names|
    requires forall i :: 0 <= i < |names| ==> Proper(names[i])
    ensures fresh(r) && r.Length == |Join(names)| + 3 + |link|
    ensures CString(r, Spliced(names, idx, link))
  {
    ghost var t := Join(names);
    var n := Length(stored, t);
    var path := Duplicate(stored, t, 0);
    assert t[0..] == t;
    var end := CutAround(path, names, idx - 1);
    SplicedText(names, idx, link);
    SplicedNoNul(names, idx, link);
    r := Format(path, Join(names[..idx - 1]), link, t, end, n + 3 + |link|);
  }

  // ---- the whole round ----

  /**
   One round: from the server's reply to the path of the READLINK compound and to the rebuilt
   path.  `isLink` describes the objects along `names`, so the READLINK is sent for the first
   link and the link text replaces exactly that component.
   */
  method FollowOnce(stored: array<char>, ghost names: seq<string>, ghost isLink: seq<bool>, ghost fs: seq<ResOp>,
                    rs: seq<ResOp>, ok: bool, noFollow: bool, link: string)
    returns (linkPath: array<char>, rebuilt: array<char>)
    requires CString(stored, Join(names)) && forall i :: 0 <= i < |names| ==> Proper(names[i])
    requires |isLink| == |names| + 1 && !isLink[0] && FillerOnLink(fs) && rs == LinkReply(isLink, fs)
    requires var m := FirstLink(isLink, 0);
             if m < |names| then !ok else m == |names| && !noFollow
    ensures var m := FirstLink(isLink, 0);
            && 1 <= m <= |names| && fresh(linkPath) && fresh(rebuilt) && linkPath != rebuilt
            && CString(linkPath, Join(names[..m]))
            && CString(rebuilt, Spliced(names, m, link))
  {
    CountSelectsLink(isLink, fs);
    var o := FindLink(rs, ok, noFollow);
    ghost var t := Join(names);
    linkPath := Duplicate(stored, t, 0);
    assert t[0..] == t;
    CutAfterLink(linkPath, names, o.idx, o.resolveLast);
    rebuilt := SpliceLink(stored, names, o.idx, link);
  }

  /** The names that lead to the link, looked up. */
  lemma {:induction false} LinkNames(names: seq<string>, m: nat)
    requires 1 <= m <= |names| && forall i :: 0 <= i < |names| ==> Proper(names[i])
    ensures var t := Join(names[..m]);
            t != "" && t[0] == '/' && LookupNames(t) == names[..m]
  {
    ComponentsJoin(names[..m]);
    assert Proper(names[..m][m - 1]);
  }

  /** Behind the put-handle, `m` LOOKUPs and the GETATTR there is one operation, and it reads a link. */
  predicate ReadsLast(op: array<ArgOp>, n: nat, m: nat)
    reads op
  {
    n == m + 3 <= op.Length && op[m + 1] == Arg(GetAttr) && op[m + 2] == Arg(ReadLink)
  }

  /** The compound that reads the link, and the text rebuilt with what was read. */
  method ReadFirst(stored: array<char>, ghost names: seq<string>, ghost isLink: seq<bool>, ghost fs: seq<ResOp>,
                   rs: seq<ResOp>, ok: bool, noFollow: bool, link: string, rootFh: Option<Fh>)
    returns (op: array<ArgOp>, n: nat, path: array<char>, rebuilt: array<char>)
    requires CString(stored, Join(names)) && forall i :: 0 <= i < |names| ==> Proper(names[i])
    requires |isLink| == |names| + 1 && !isLink[0] && FillerOnLink(fs) && rs == LinkReply(isLink, fs)
    requires var m := FirstLink(isLink, 0);
             if m < |names| then !ok else m == |names| && !noFollow
    ensures var m := FirstLink(isLink, 0);
            && 1 <= m <= |names| && fresh(op) && fresh(path) && fresh(rebuilt)
            && IsCompound(op, n, path, rootFh, names[..m], FillReadlink) && ReadsLast(op, n, m)
            && CString(rebuilt, Spliced(names, m, link))
  {
    path, rebuilt := FollowOnce(stored, names, isLink, fs, rs, ok, noFollow, link);
    ghost var m := FirstLink(isLink, 0);
    LinkNames(names, m);
    op, n := PathOps(path, Join(names[..m]), rootFh, FillReadlink);
    ghost var calls := CompoundCalls(rootFh, names[..m], FillReadlink);
    assert calls[m + 1] == GetAttr && calls[m + 2] == ReadLink;
  }

  /**
   Both callbacks and the lookup after them, from a stored path: the first compound reads the link
   that the server met; the second looks up where the path leads with the link followed, or the
   lookup is refused exactly when that leads nowhere.  It never strays.
   */
  method FollowLink(d: CallData, cwd: array<char>, ghost c: string, ghost t: string,
                    ghost isLink: seq<bool>, ghost fs: seq<ResOp>,
                    rs: seq<ResOp>, ok: bool, noFollow: bool, link: string, rootFh: Option<Fh>, f: Filler)
    returns (readOp: array<ArgOp>, readN: nat, readNames: array<char>,
             r: Built, op: array<ArgOp>, n: nat, names: array<char>)
    requires CString(cwd, c) && CString(d.path, t) && Canonical(t) && t != "/"
    requires |isLink| == |LookupNames(t)| + 1 && !isLink[0] && FillerOnLink(fs) && rs == LinkReply(isLink, fs)
    requires var m := FirstLink(isLink, 0);
             if m < |LookupNames(t)| then !ok else m == |LookupNames(t)| && !noFollow
    modifies d`path
    ensures var all, m := LookupNames(t), FirstLink(isLink, 0);
            && 1 <= m <= |all| && IsCompound(readOp, readN, readNames, rootFh, all[..m], FillReadlink)
            && ReadsLast(readOp, readN, m)
            && (if Followed(all, m, link).None? then r == Refused
                else r == Ready && IsCompound(op, n, names, rootFh, Followed(all, m, link).value, f))
  {
    ghost var all, m := LookupNames(t), FirstLink(isLink, 0);
    StoredPath(t);
    var rebuilt;
    readOp, readN, readNames, rebuilt := ReadFirst(d.path, all, isLink, fs, rs, ok, noFollow, link, rootFh);
    SplicedResolves(c, all, m, link);
    d.path := rebuilt;
    r, op, n, names := d.BuildLookup(cwd, c, Spliced(all, m, link), rootFh, f);
  }
}
