/**
 In-place path normalisation: a sequence of rewriting loops over a C string, proved to
 compute `Paths.NormalForm`.
 */
module Normalize {
  import opened Options
  import opened Paths
  import opened Resolution
  import opened CStrings

  /** "//" -> "/": move the rest of the text one place to the left. */
  method ShiftByOne(p: array<char>, ghost s: string, i: nat)
    requires CString(p, s) && i < |s|
    modifies p
    ensures CString(p, s[..i] + s[i + 1..])
  {
    var str := i;
    while p[str] != '\0'
      invariant i <= str <= |s|
      invariant forall j :: 0 <= j < i ==> p[j] == s[j]
      invariant forall j :: i <= j < str ==> p[j] == if j + 1 < |s| then s[j + 1] else '\0'
      invariant forall j :: str <= j < |s| ==> p[j] == s[j]
      invariant p[|s|] == '\0'
      decreases |s| - str
    {
      p[str] := p[str + 1];
      str := str + 1;
    }
  }

  /** "/./" -> "/": move the rest of the text two places to the left. */
  method ShiftByTwo(p: array<char>, ghost s: string, i: nat)
    requires CString(p, s) && i + 2 <= |s|
    modifies p
    ensures CString(p, s[..i] + s[i + 2..])
  {
    var str := i;
    while p[str + 1] != '\0'
      invariant i <= str < |s|
      invariant forall j :: 0 <= j < i ==> p[j] == s[j]
      invariant forall j :: i <= j < str ==> p[j] == if j + 2 < |s| then s[j + 2] else '\0'
      invariant forall j :: str <= j < |s| ==> p[j] == s[j]
      invariant p[|s|] == '\0'
      decreases |s| - str
    {
      p[str] := p[str + 2];
      str := str + 1;
    }
  }

  /** "/string/../" -> "/": copy the text at `from`, terminator included, down to `to`. */
  method CopyDown(p: array<char>, ghost s: string, to: nat, from: nat)
    requires CString(p, s) && to < from <= |s|
    modifies p
    ensures CString(p, s[..to] + s[from..])
  {
    var tmp, str := to, from;
    p[tmp] := p[str];
    while p[tmp] != '\0'
      invariant to <= tmp && str == tmp + (from - to) <= |s|
      invariant forall j :: 0 <= j < to ==> p[j] == s[j]
      invariant forall j :: to <= j <= tmp ==>
                  p[j] == if j + (from - to) < |s| then s[j + (from - to)] else '\0'
      invariant forall j :: tmp < j < |s| ==> p[j] == s[j]
      invariant p[|s|] == '\0'
      decreases |s| - str
    {
      tmp, str := tmp + 1, str + 1;
      p[tmp] := p[str];
    }
  }

  // ---- the three patterns, character by character ----

  lemma {:induction false} DoubleSlashAt(s: string, i: nat)
    ensures Occurs(s, i, "//") <==> i + 1 < |s| && s[i] == '/' && s[i + 1] == '/'
  {
    var pat := "//";
    assert pat[0] == '/' && pat[1] == '/';
    if i + 1 < |s| {
      assert s[i + 0] == s[i];
    }
  }

  lemma {:induction false} DotAt(s: string, i: nat)
    ensures Occurs(s, i, "/./") <==> i + 2 < |s| && s[i] == '/' && s[i + 1] == '.' && s[i + 2] == '/'
  {
    var pat := "/./";
    assert pat[0] == '/' && pat[1] == '.' && pat[2] == '/';
    if i + 2 < |s| {
      assert s[i + 0] == s[i];
    }
  }

  lemma {:induction false} UpAt(s: string, i: nat)
    ensures Occurs(s, i, "/../") <==>
            i + 3 < |s| && s[i] == '/' && s[i + 1] == '.' && s[i + 2] == '.' && s[i + 3] == '/'
  {
    var pat := "/../";
    assert pat[0] == '/' && pat[1] == '.' && pat[2] == '.' && pat[3] == '/';
    if i + 3 < |s| {
      assert s[i + 0] == s[i];
    }
  }

  // ---- what each rewrite does to the normal form ----

  lemma {:induction false} DropDoubleSlash(s: string, i: nat)
    requires Occurs(s, i, "//")
    ensures NormalForm(s[..i] + s[i + 1..]) == NormalForm(s)
  {
    DoubleSlashAt(s, i);
    var a, b, b' := s[..i], s[i..], s[i + 1..];
    assert a + b == s;
    if s[0] == '/' {
      assert s[i + 1..i + 1] == "";
      ComponentAt(s, i, i + 1);
      ReplaceTail(a, b, b');
    }
  }

  lemma {:induction false} DropDot(s: string, i: nat)
    requires Occurs(s, i, "/./")
    ensures NormalForm(s[..i] + s[i + 2..]) == NormalForm(s)
  {
    DotAt(s, i);
    var a, b, b' := s[..i], s[i..], s[i + 2..];
    assert a + b == s;
    if s[0] == '/' {
      assert s[i + 1..i + 2] == ".";
      ComponentAt(s, i, i + 2);
      ReplaceTail(a, b, b');
    }
  }

  lemma {:induction false} ComponentsAtUp(s: string, i: nat)
    requires Occurs(s, i, "/../")
    ensures i + 3 < |s| && s[i] == '/' && s[i + 3] == '/'
    ensures Components(s[i..]) == [".."] + Components(s[i + 3..])
  {
    UpAt(s, i);
    assert s[i + 1..i + 3] == "..";
    ComponentAt(s, i, i + 3);
  }

  /** The component between two slashes of a clean text, with no "/../" at the first of them. */
  lemma {:induction false} CleanName(s: string, t: nat, i: nat)
    requires t < i < |s| && s[t] == '/' && s[i] == '/' && SlashFree(s[t + 1..i])
    requires !Occurs(s, t, "//") && !Occurs(s, t, "/./") && !Occurs(s, t, "/../")
    ensures Proper(s[t + 1..i])
  {
    DoubleSlashAt(s, t);
    DotAt(s, t);
    UpAt(s, t);
    var x := s[t + 1..i];
    assert forall j :: 0 <= j < |x| ==> x[j] == s[t + 1 + j];
  }

  lemma {:induction false} NameAndUpCancel(st: Stack, x: string, cs: seq<string>)
    requires Proper(x)
    ensures Walk(st, [x, ".."] + cs) == Walk(st, cs)
  {
    var both := [x, ".."] + cs;
    assert both[0] == x && both[1..][0] == ".." && both[1..][1..] == cs;
    if st.Some? {
      assert (st.value + [x])[..|st.value|] == st.value;
    }
  }

  lemma {:induction false} DropNameAndUp(s: string, t: nat, i: nat)
    requires t < i && Occurs(s, i, "/../") && s[t] == '/' && Proper(s[t + 1..i])
    ensures NormalForm(s[..t] + s[i + 3..]) == NormalForm(s)
  {
    ComponentsAtUp(s, i);
    var a, x, b, b' := s[..t], s[t + 1..i], s[t..], s[i + 3..];
    assert a + b == s;
    if s[0] == '/' {
      ComponentAt(s, t, i);
      assert Components(b) == [x, ".."] + Components(b');
      NameAndUpCancel(Walk(Some([]), Components(a)), x, Components(b'));
      ReplaceTail(a, b, b');
    }
  }

  /** Removing a name and its ".." brings neither "//" nor "/./" back. */
  lemma {:induction false} StaysClean(s: string, t: nat, i: nat)
    requires t < i && i + 3 < |s| && s[t] == '/' && s[i + 3] == '/'
    requires Absent(s, "//") && Absent(s, "/./")
    ensures Absent(s[..t] + s[i + 3..], "//") && Absent(s[..t] + s[i + 3..], "/./")
  {
    var r := s[..t] + s[i + 3..];
    forall m | 0 <= m < |r|
      ensures !Occurs(r, m, "//") && !Occurs(r, m, "/./")
    {
      var n := if m < t then m else m + (i + 3 - t);
      assert !Occurs(s, n, "//") && !Occurs(s, n, "/./");
      DoubleSlashAt(s, n);
      DoubleSlashAt(r, m);
      DotAt(s, n);
      DotAt(r, m);
      assert m < t ==> r[m] == s[m] && r[m + 1] == s[m + 1];
      assert m + 1 < t ==> r[m + 2] == s[m + 2];
    }
  }

  lemma {:induction false} AbsentTail(s: string, k: nat, pat: string)
    requires k <= |s| && Absent(s, pat)
    ensures Absent(s[k..], pat)
  {
    forall i | 0 <= i < |s| - k
      ensures !Occurs(s[k..], i, pat)
    {
      assert !Occurs(s, k + i, pat);
      if k + i + |pat| <= |s| {
        var j :| 0 <= j < |pat| && s[k + i + j] != pat[j];
        assert s[k..][i + j] != pat[j];
      }
    }
  }

  /** Once all loops are done, every component but the last is a proper name. */
  lemma {:induction false} AllButLastProper(s: string)
    requires s != "" && s[0] == '/'
    requires Absent(s, "//") && Absent(s, "/./") && Absent(s, "/../")
    ensures var cs := Components(s);
            cs != [] && forall j :: 0 <= j < |cs| - 1 ==> Proper(cs[j])
    decreases |s|
  {
    var k := NextSlash(s, 1);
    if k < |s| {
      CleanName(s, 0, k);
      AbsentTail(s, k, "//");
      AbsentTail(s, k, "/./");
      AbsentTail(s, k, "/../");
      AllButLastProper(s[k..]);
    }
  }

  predicate Clean(s: string) {
    s != "" && s[0] == '/' && Absent(s, "//") && Absent(s, "/./") && Absent(s, "/../")
  }

  /** How a text ends says what its last component is. */
  lemma {:induction false} Endings(s: string, q: nat)
    requires IsLastSlash(s, q)
    ensures s[q + 1..] == "" <==> s[|s| - 1] == '/'
    ensures s[q + 1..] == "." <==> |s| >= 2 && s[|s| - 2] == '/' && s[|s| - 1] == '.'
    ensures s[q + 1..] == ".." <==>
            |s| >= 3 && s[|s| - 3] == '/' && s[|s| - 2] == '.' && s[|s| - 1] == '.'
  {
    var c := s[q + 1..];
    assert |c| > 0 ==> c[0] == s[q + 1];
    assert |c| > 1 ==> c[1] == s[q + 2];
  }

  /** All components of a clean text but the last are proper, and evaluation pushes them. */
  lemma {:induction false} CleanEvaluate(s: string, q: nat)
    requires Clean(s) && IsLastSlash(s, q)
    ensures Rooted(s[..q]) && Components(s) == Components(s[..q]) + [s[q + 1..]]
    ensures forall j :: 0 <= j < |Components(s[..q])| ==> Proper(Components(s[..q])[j])
    ensures Evaluate(s) == Step(Some(Components(s[..q])), s[q + 1..])
  {
    SplitLast(s, q);
    var cs, last := Components(s[..q]), s[q + 1..];
    AllButLastProper(s);
    assert forall j :: 0 <= j < |cs| ==> cs[j] == Components(s)[j];
    WalkConcat(Some([]), cs, [last]);
    WalkPushes([], cs);
    assert [] + cs == cs;
    assert Walk(Some(cs), [last]) == Step(Some(cs), last);
  }

  lemma {:induction false} NormalFormOf(s: string, cs: seq<string>, t: string)
    requires s != "" && s[0] == '/' && Evaluate(s) == Some(cs)
    requires t == Join(cs) && (cs == [] ==> !EndsInSlash(s))
    ensures NormalForm(s) == Some(t)
  {
  }

  /** A clean text that ends in a name, in "/", or in "/.". */
  lemma {:induction false} CleanNormalForm(s: string, q: nat)
    requires Clean(s) && IsLastSlash(s, q) && s[q + 1..] != ".."
    ensures NormalForm(s) ==
            Some(if s[q + 1..] == "." || (s[q + 1..] == "" && q != 0) then s[..q] else s)
  {
    CleanEvaluate(s, q);
    Endings(s, q);
    var a := s[..q];
    if s[q + 1..] == "" && q == 0 {
      assert s == "/";
    } else if s[q + 1..] == "" || s[q + 1..] == "." {
      JoinComponents(a);
      NormalFormOf(s, Components(a), a);
    } else {
      JoinComponents(s);
      NormalFormOf(s, Components(s), s);
    }
  }

  /** A clean text that ends in "/..". */
  lemma {:induction false} CleanUpNormalForm(s: string, q: nat)
    requires Clean(s) && IsLastSlash(s, q) && s[q + 1..] == ".."
    ensures q == 0 ==> NormalForm(s) == None
    ensures forall r: nat :: IsLastSlash(s[..q], r) ==> NormalForm(s) == Some(s[..r])
  {
    CleanEvaluate(s, q);
    Endings(s, q);
    forall r: nat | IsLastSlash(s[..q], r)
      ensures NormalForm(s) == Some(s[..r])
    {
      var a := s[..q];
      SplitLast(a, r);
      assert a[..r] == s[..r];
      var cs := Components(a);
      assert cs[..|cs| - 1] == Components(s[..r]);
      JoinComponents(s[..r]);
      NormalFormOf(s, Components(s[..r]), s[..r]);
    }
  }

  /** Before its last slash a clean text ends in a proper name. */
  lemma {:induction false} ProperBefore(s: string, q: nat, r: nat)
    requires Clean(s) && IsLastSlash(s, q) && IsLastSlash(s[..q], r)
    ensures Proper(s[..q][r + 1..])
  {
    CleanEvaluate(s, q);
    SplitLast(s[..q], r);
    var cs := Components(s[..q]);
    assert Proper(cs[|cs| - 1]);
  }

  /** "/$" and "/.$" of a text the loops have cleaned; `ok` is the test for an empty text. */
  method TrimTail(p: array<char>, ghost s: string, ghost q: nat) returns (ok: bool, len: nat)
    requires CString(p, s) && Clean(s) && IsLastSlash(s, q)
    modifies p
    ensures ok && len == if s[q + 1..] == "." || (s[q + 1..] == "" && q != 0) then q else |s|
    ensures CString(p, s[..len])
  {
    Endings(s, q);
    len := Length(p, s);
    if len > 1 {
      if p[len - 1] == '/' {
        p[len - 1] := '\0';
        len := len - 1;
        if q != 0 {
          ghost var r := LastSlashExists(s[..q]);
          ProperBefore(s, q, r);
          Endings(s[..q], r);
        }
      }
    }
    if p[0] == '\0' {
      return false, len;
    }
    if len >= 2 {
      if p[len - 2] == '/' && p[len - 1] == '.' {
        p[len - 2] := '\0';
        len := len - 2;
      }
    }
    ok := true;
  }

  /** The last slash that is not behind `from`. */
  method SlashBefore(p: array<char>, ghost s: string, from: nat) returns (at: nat)
    requires CString(p, s) && from < |s| && s[0] == '/'
    ensures at <= from && s[at] == '/' && forall j :: at < j <= from ==> s[j] != '/'
  {
    at := from;
    while p[at] != '/'
      invariant at <= from && forall j :: at < j <= from ==> s[j] != '/'
      decreases at
    {
      at := at - 1;
    }
  }

  /** A text that ends in a name and ".." is cut before the name. */
  lemma {:induction false} CutBeforeName(s: string, q: nat, at: nat)
    requires Clean(s) && IsLastSlash(s, q) && s[q + 1..] == ".." && at < q
    requires s[at] == '/' && forall j :: at < j < q ==> s[j] != '/'
    ensures NormalForm(s) == Some(s[..at])
  {
    CleanUpNormalForm(s, q);
    var a := s[..q];
    assert IsLastSlash(a, at);
  }

  /** "^/..$" and "/string/..$" of a trimmed text. */
  method TrimUp(p: array<char>, ghost s: string, ghost q: nat, len: nat) returns (ok: bool)
    requires CString(p, s) && len == |s|
    requires s != "" ==>
      Clean(s) && IsLastSlash(s, q) && s[q + 1..] != "." && (s[q + 1..] == "" ==> q == 0)
    modifies p
    ensures s == "" ==> ok && CString(p, "")
    ensures s != "" ==> (ok <==> NormalForm(s).Some?)
    ensures s != "" && ok ==> CString(p, NormalForm(s).value)
  {
    if s != "" {
      Endings(s, q);
      if s[q + 1..] == ".." {
        CleanUpNormalForm(s, q);
      } else {
        CleanNormalForm(s, q);
      }
    }
    if len == 3 && p[0] == '/' && p[1] == '.' && p[2] == '.' {
      return false;
    }
    if len >= 3 {
      if p[len - 3] == '/' && p[len - 2] == '.' && p[len - 1] == '.' {
        var tmp := SlashBefore(p, s, len - 4);
        CutBeforeName(s, q, tmp);
        p[tmp] := '\0';
      }
    }
    return true;
  }

  lemma {:induction false} AbsentPrefix(s: string, k: nat, pat: string)
    requires k <= |s| && Absent(s, pat)
    ensures Absent(s[..k], pat)
  {
    forall i | 0 <= i < k
      ensures !Occurs(s[..k], i, pat)
    {
      assert !Occurs(s, i, pat);
    }
  }

  /** What trimming leaves is empty, or clean with the same normal form. */
  lemma {:induction false} Trimmed(s: string, q: nat)
    requires Clean(s) && IsLastSlash(s, q)
    requires s[q + 1..] == "." || (s[q + 1..] == "" && q != 0)
    ensures NormalForm(s) == Some(s[..q])
    ensures q != 0 ==> Clean(s[..q]) && NormalForm(s[..q]) == Some(s[..q])
    ensures q != 0 ==> exists r: nat :: IsLastSlash(s[..q], r) && Proper(s[..q][r + 1..])
  {
    CleanNormalForm(s, q);
    if q != 0 {
      AbsentPrefix(s, q, "//");
      AbsentPrefix(s, q, "/./");
      AbsentPrefix(s, q, "/../");
      var r := LastSlashExists(s[..q]);
      ProperBefore(s, q, r);
      CleanNormalForm(s[..q], r);
    }
  }

  method Finish(p: array<char>, ghost s: string) returns (ok: bool)
    requires CString(p, s) && Clean(s)
    modifies p
    ensures ok <==> NormalForm(s).Some?
    ensures ok ==> CString(p, NormalForm(s).value)
  {
    ghost var q := LastSlashExists(s);
    var len;
    ok, len := TrimTail(p, s, q);
    if !ok {
      return;
    }
    ghost var t, r := s[..len], q;
    if len == q {
      Trimmed(s, q);
      if q != 0 {
        r :| IsLastSlash(t, r) && Proper(t[r + 1..]);
      }
    } else {
      assert t == s;
    }
    ok := TrimUp(p, t, r, len);
  }

  /** Removing a "/." before a slash brings no "//" back. */
  lemma {:induction false} DropDotKeeps(s: string, i: nat)
    requires Occurs(s, i, "/./") && Absent(s, "//")
    ensures Absent(s[..i] + s[i + 2..], "//")
  {
    DotAt(s, i);
    var r := s[..i] + s[i + 2..];
    forall m | 0 <= m < |r|
      ensures !Occurs(r, m, "//")
    {
      var n := if m < i then m else m + 2;
      assert !Occurs(s, n, "//");
      DoubleSlashAt(s, n);
      DoubleSlashAt(r, m);
    }
  }

  /** A path that starts with "/../" leaves the root and is refused. */
  lemma {:induction false} LeadingUp(s: string)
    requires Occurs(s, 0, "/../")
    ensures NormalForm(s) == None
  {
    ComponentsAtUp(s, 0);
    assert s[0..] == s;
    WalkFails(Components(s[3..]));
    assert Components(s)[1..] == Components(s[3..]);
  }

  /** "//" -> "/" until there is none. */
  method SquashSlashes(p: array<char>, ghost s: string) returns (ghost t: string)
    requires CString(p, s)
    modifies p
    ensures CString(p, t) && NormalForm(t) == NormalForm(s) && Absent(t, "//")
  {
    t := s;
    var str := Find(p, t, "//");
    while str >= 0
      invariant CString(p, t) && NormalForm(t) == NormalForm(s)
      invariant -1 <= str < |t|
      invariant if str >= 0 then Occurs(t, str, "//") else Absent(t, "//")
      decreases |t|, str
    {
      DropDoubleSlash(t, str);
      ShiftByOne(p, t, str);
      t := t[..str] + t[str + 1..];
      str := Find(p, t, "//");
    }
  }

  /** "/./" -> "/" until there is none. */
  method SquashDots(p: array<char>, ghost s: string) returns (ghost t: string)
    requires CString(p, s) && Absent(s, "//")
    modifies p
    ensures CString(p, t) && NormalForm(t) == NormalForm(s) && Absent(t, "//") && Absent(t, "/./")
  {
    t := s;
    var str := Find(p, t, "/./");
    while str >= 0
      invariant CString(p, t) && NormalForm(t) == NormalForm(s)
      invariant -1 <= str < |t|
      invariant Absent(t, "//")
      invariant if str >= 0 then Occurs(t, str, "/./") else Absent(t, "/./")
      decreases |t|, str
    {
      DropDot(t, str);
      DropDotKeeps(t, str);
      ShiftByTwo(p, t, str);
      t := t[..str] + t[str + 2..];
      str := Find(p, t, "/./");
    }
  }

  /** Dropping a name and ".." from the middle changes neither the meaning nor the tidiness. */
  lemma {:induction false} UpDropped(s: string, at: nat, str: nat)
    requires s != "" && s[0] == '/' && Absent(s, "//") && Absent(s, "/./") && at < str
    requires Occurs(s, str, "/../") && forall m :: 0 <= m < str ==> !Occurs(s, m, "/../")
    requires s[at] == '/' && forall j :: at < j < str ==> s[j] != '/'
    ensures str + 3 < |s|
    ensures var t := s[..at] + s[str + 3..];
            NormalForm(t) == NormalForm(s) && t != "" && t[0] == '/' && Absent(t, "//") && Absent(t, "/./")
  {
    UpAt(s, str);
    CleanName(s, at, str);
    DropNameAndUp(s, at, str);
    StaysClean(s, at, str);
  }

  /** The slash before the name that "/../" at `str` drops. */
  method NameBefore(p: array<char>, ghost s: string, str: nat) returns (at: nat)
    requires CString(p, s) && s != "" && s[0] == '/' && Absent(s, "//") && Absent(s, "/./")
    requires 0 < str && Occurs(s, str, "/../") && forall m :: 0 <= m < str ==> !Occurs(s, m, "/../")
    ensures at < str < |s| - 3
    ensures var t := s[..at] + s[str + 3..];
            NormalForm(t) == NormalForm(s) && t != "" && t[0] == '/' && Absent(t, "//") && Absent(t, "/./")
  {
    UpAt(s, str);
    at := SlashBefore(p, s, str - 1);
    UpDropped(s, at, str);
  }

  /** One "/string/../" -> "/", at the leftmost "/../", which is not at the start. */
  method CollapseUp(p: array<char>, ghost s: string, str: nat) returns (ghost t: string)
    requires CString(p, s) && s != "" && s[0] == '/' && Absent(s, "//") && Absent(s, "/./")
    requires 0 < str && Occurs(s, str, "/../") && forall m :: 0 <= m < str ==> !Occurs(s, m, "/../")
    modifies p
    ensures CString(p, t) && NormalForm(t) == NormalForm(s) && |t| < |s|
    ensures t != "" && t[0] == '/' && Absent(t, "//") && Absent(t, "/./")
  {
    var tmp := NameBefore(p, s, str);
    t := s[..tmp] + s[str + 3..];
    CopyDown(p, s, tmp, str + 3);
  }

  /** "/string/../" -> "/" until there is none; a leading "/../" is an error. */
  method CollapseUps(p: array<char>, ghost s: string) returns (ok: bool, ghost t: string)
    requires CString(p, s) && s != "" && s[0] == '/' && Absent(s, "//") && Absent(s, "/./")
    modifies p
    ensures !ok ==> NormalForm(s) == None
    ensures ok ==> CString(p, t) && NormalForm(t) == NormalForm(s) && Clean(t)
  {
    t := s;
    var str := Find(p, t, "/../");
    while str >= 0
      invariant CString(p, t) && NormalForm(t) == NormalForm(s)
      invariant -1 <= str < |t| && t != "" && t[0] == '/'
      invariant Absent(t, "//") && Absent(t, "/./")
      invariant str >= 0 ==> Occurs(t, str, "/../") && forall m :: 0 <= m < str ==> !Occurs(t, m, "/../")
      invariant str < 0 ==> Absent(t, "/../")
      decreases |t|, str
    {
      var up := HasPrefix(p, t, 0, "/../");
      if up {
        LeadingUp(t);
        return false, t;
      }
      t := CollapseUp(p, t, str);
      str := Find(p, t, "/../");
    }
    ok := true;
  }

  /**
   Normalises the path in `p` in place.  `ok` is false for the C function's -1, and then the
   buffer holds a partly rewritten text that callers discard.
   */
  method NormalizePath(p: array<char>, ghost s: string) returns (ok: bool)
    requires CString(p, s)
    modifies p
    ensures ok <==> NormalForm(s).Some?
    ensures ok ==> CString(p, NormalForm(s).value)
  {
    ghost var t := SquashSlashes(p, s);
    t := SquashDots(p, t);

    var up := HasPrefix(p, t, 0, "/../");
    if up {
      LeadingUp(t);
      return false;
    }
    if p[0] != '/' {
      return false;
    }

    ok, t := CollapseUps(p, t);
    if !ok {
      return;
    }
    ok := Finish(p, t);
  }

  // ---- absolute form of an application path ----

  /** A fresh normalised copy of the path, or null when normalisation refuses it. */
  method ResolvePath(cwd: array<char>, path: array<char>, ghost c: string, ghost s: string)
    returns (r: array?<char>)
    requires CString(cwd, c) && CString(path, s)
    ensures r == null <==> Resolve(c, s).None?
    ensures r != null ==> fresh(r) && CString(r, Resolve(c, s).value)
  {
    var buf: array<char>;
    if path[0] == '/' {
      buf := Duplicate(path, s, 0);
      assert s[0..] == s;
    } else {
      var n := Length(cwd, c);
      var m := Length(path, s);
      buf := new char[m + n + 2](_ => '\0');
      var _ := Place(buf, 0, cwd, c, 0);
      buf[n] := '/';
      var _ := Place(buf, n + 1, path, s, 0);
    }
    var ok := NormalizePath(buf, AbsoluteText(c, s));
    r := if ok then buf else null;
  }
}
