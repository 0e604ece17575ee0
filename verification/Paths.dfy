/**
 Absolute path text and its components.

 A rooted text is a concatenation of pieces "/" + c with no slash inside c; `Components`
 cuts it into those pieces and `Join` puts them together again.  `Walk` is the simple stack
 evaluation of a component list, and `NormalForm` says, without any rewriting, what
 normalising a path has to produce.
 */
module Paths {

  import opened Options

  type Stack = Option<seq<string>>

  predicate Rooted(s: string) {
    s == "" || s[0] == '/'
  }

  predicate SlashFree(c: string) {
    forall j :: 0 <= j < |c| ==> c[j] != '/'
  }

  /** The first slash of `s` at or after `i`, or the end of `s`. */
  function NextSlash(s: string, i: nat): (k: nat)
    requires i <= |s|
    ensures i <= k <= |s|
    ensures forall j :: i <= j < k ==> s[j] != '/'
    ensures k < |s| ==> s[k] == '/'
    decreases |s| - i
  {
    if i == |s| || s[i] == '/' then i else NextSlash(s, i + 1)
  }

  function Components(s: string): (cs: seq<string>)
    requires Rooted(s)
    ensures s == "" <==> cs == []
    decreases |s|
  {
    if s == "" then []
    else
      var k := NextSlash(s, 1);
      [s[1..k]] + Components(s[k..])
  }

  function Join(cs: seq<string>): (s: string)
    ensures Rooted(s)
  {
    if cs == [] then "" else "/" + cs[0] + Join(cs[1..])
  }

  /** A name that a server can look up. */
  predicate Proper(c: string) {
    c != "" && c != "." && c != ".." && SlashFree(c)
  }

  function Step(st: Stack, c: string): Stack {
    if st.None? || c == "" || c == "." then st
    else if c != ".." then Some(st.value + [c])
    else if st.value == [] then None
    else Some(st.value[..|st.value| - 1])
  }

  function Walk(st: Stack, cs: seq<string>): Stack
    decreases |cs|
  {
    if cs == [] then st else Walk(Step(st, cs[0]), cs[1..])
  }

  /** The stack evaluation of an absolute path, started at the root. */
  function Evaluate(s: string): Stack
    requires Rooted(s)
  {
    Walk(Some([]), Components(s))
  }

  predicate EndsInSlash(s: string) {
    s != "" && s[|s| - 1] == '/'
  }

  /** What normalising `s` yields; None when it is refused. */
  function NormalForm(s: string): Option<string> {
    if s == "" || s[0] != '/' then None
    else
      match Evaluate(s)
      case None => None
      case Some(cs) =>
        Some(if cs != [] then Join(cs) else if EndsInSlash(s) then "/" else "")
  }

  /** No "//", no "." or ".." component, no trailing slash except the path "/" itself. */
  predicate Canonical(s: string) {
    s == "/" ||
    (s != "" && s[0] == '/' && forall i :: 0 <= i < |Components(s)| ==> Proper(Components(s)[i]))
  }

  // ---- text and components ----

  /** The first component reaches to the next slash, or to the end. */
  lemma {:induction false} FirstComponent(s: string, k: nat)
    requires s != "" && s[0] == '/' && 1 <= k <= |s| && (k < |s| ==> s[k] == '/')
    requires forall j :: 1 <= j < k ==> s[j] != '/'
    ensures Rooted(s[k..]) && Components(s) == [s[1..k]] + Components(s[k..])
  {
    assert NextSlash(s, 1) == k;
  }

  /** Prepending a first component `c` to a text. */
  lemma {:induction false} PrependComponent(c: string, t: string)
    requires SlashFree(c) && Rooted(t)
    ensures Components("/" + c + t) == [c] + Components(t)
  {
    var s, k := "/" + c + t, 1 + |c|;
    assert s[1..k] == c && s[k..] == t;
    FirstComponent(s, k);
  }

  lemma {:induction false} ComponentsSlashFree(s: string)
    requires Rooted(s)
    ensures forall i :: 0 <= i < |Components(s)| ==> SlashFree(Components(s)[i])
    decreases |s|
  {
    if s != "" {
      ComponentsSlashFree(s[NextSlash(s, 1)..]);
    }
  }

  lemma {:induction false} JoinComponents(s: string)
    requires Rooted(s)
    ensures Join(Components(s)) == s
    decreases |s|
  {
    if s != "" {
      var k := NextSlash(s, 1);
      assert s == "/" + s[1..k] + s[k..];
      assert Components(s) == [s[1..k]] + Components(s[k..]);
      JoinFirst(s[1..k], Components(s[k..]));
      JoinComponents(s[k..]);
    }
  }

  lemma {:induction false} JoinFirst(c: string, cs: seq<string>)
    ensures Join([c] + cs) == "/" + c + Join(cs)
  {
    assert ([c] + cs)[1..] == cs;
  }

  lemma {:induction false} OneComponent(c: string)
    requires SlashFree(c)
    ensures Components("/" + c) == [c]
  {
    PrependComponent(c, "");
    assert "/" + c + "" == "/" + c;
  }

  lemma {:induction false} ComponentsJoin(cs: seq<string>)
    requires forall i :: 0 <= i < |cs| ==> SlashFree(cs[i])
    ensures Components(Join(cs)) == cs
  {
    if cs != [] {
      ComponentsJoin(cs[1..]);
      PrependComponent(cs[0], Join(cs[1..]));
    }
  }

  lemma {:induction false} JoinConcat(a: seq<string>, b: seq<string>)
    ensures Join(a + b) == Join(a) + Join(b)
  {
    if a == [] {
      assert a + b == b;
    } else {
      assert (a + b)[1..] == a[1..] + b;
      JoinConcat(a[1..], b);
    }
  }

  lemma {:induction false} ComponentsConcat(a: string, b: string)
    requires Rooted(a) && Rooted(b)
    ensures Rooted(a + b) && Components(a + b) == Components(a) + Components(b)
  {
    JoinComponents(a);
    JoinComponents(b);
    JoinConcat(Components(a), Components(b));
    ComponentsSlashFree(a);
    ComponentsSlashFree(b);
    ComponentsJoin(Components(a) + Components(b));
  }

  /** The last component is empty exactly when the text ends in a slash. */
  lemma {:induction false} EmptyLast(s: string)
    requires s != "" && s[0] == '/'
    ensures Components(s)[|Components(s)| - 1] == "" <==> EndsInSlash(s)
    decreases |s|
  {
    var k := NextSlash(s, 1);
    if k == |s| {
      assert s[k..] == "";
    } else {
      EmptyLast(s[k..]);
      assert Components(s)[1..] == Components(s[k..]);
    }
  }

  // ---- evaluation ----

  lemma {:induction false} WalkConcat(st: Stack, a: seq<string>, b: seq<string>)
    ensures Walk(st, a + b) == Walk(Walk(st, a), b)
    decreases |a|
  {
    if a == [] {
      assert a + b == b;
    } else {
      assert (a + b)[1..] == a[1..] + b;
      WalkConcat(Step(st, a[0]), a[1..], b);
    }
  }

  lemma {:induction false} WalkFails(cs: seq<string>)
    ensures Walk(None, cs) == None
  {
    if cs != [] {
      WalkFails(cs[1..]);
    }
  }

  /** Proper names are simply pushed. */
  lemma {:induction false} WalkPushes(xs: seq<string>, cs: seq<string>)
    requires forall i :: 0 <= i < |cs| ==> Proper(cs[i])
    ensures Walk(Some(xs), cs) == Some(xs + cs)
    decreases |cs|
  {
    if cs == [] {
      assert xs + cs == xs;
    } else {
      WalkPushes(xs + [cs[0]], cs[1..]);
      assert xs + [cs[0]] + cs[1..] == xs + cs;
    }
  }

  /** Every stack that evaluation reaches holds proper names only. */
  lemma {:induction false} WalkKeepsProper(xs: seq<string>, cs: seq<string>)
    requires forall i :: 0 <= i < |xs| ==> Proper(xs[i])
    requires forall i :: 0 <= i < |cs| ==> SlashFree(cs[i])
    ensures var r := Walk(Some(xs), cs);
            r.Some? ==> forall i :: 0 <= i < |r.value| ==> Proper(r.value[i])
    decreases |cs|
  {
    if cs != [] {
      var st := Step(Some(xs), cs[0]);
      if st.Some? {
        WalkKeepsProper(st.value, cs[1..]);
      } else {
        WalkFails(cs[1..]);
      }
    }
  }

  lemma {:induction false} EvaluateProper(s: string)
    requires Rooted(s)
    ensures Evaluate(s).Some? ==> forall i :: 0 <= i < |Evaluate(s).value| ==> Proper(Evaluate(s).value[i])
  {
    ComponentsSlashFree(s);
    WalkKeepsProper([], Components(s));
  }

  // ---- properties of the normal form ----

  /** Every normal form is canonical or empty. */
  lemma {:induction false} NormalFormIsCanonical(s: string)
    ensures NormalForm(s).Some? ==> NormalForm(s).value == "" || Canonical(NormalForm(s).value)
  {
    if NormalForm(s).Some? {
      var cs := Evaluate(s).value;
      EvaluateProper(s);
      ComponentsJoin(cs);
    }
  }

  /** It is empty exactly when the path evaluates to the root without ending in a slash. */
  lemma {:induction false} NormalFormEmpty(s: string)
    ensures NormalForm(s) == Some("") <==>
            s != "" && s[0] == '/' && Evaluate(s) == Some([]) && !EndsInSlash(s)
  {
  }

  /** The components of a non-empty normal form are the evaluation of the input. */
  lemma {:induction false} NormalFormComponents(s: string)
    requires NormalForm(s).Some? && NormalForm(s).value != ""
    ensures Evaluate(NormalForm(s).value) == Evaluate(s)
    ensures Evaluate(s).value != [] ==> Components(NormalForm(s).value) == Evaluate(s).value
  {
    var cs := Evaluate(s).value;
    EvaluateProper(s);
    if cs != [] {
      ComponentsJoin(cs);
      WalkPushes([], cs);
      assert [] + cs == cs;
    } else {
      OneComponent("");
      assert "/" + "" == "/";
      assert Walk(Some([]), [""]) == Some([]);
    }
  }

  /** A text is its own normal form exactly when it is canonical. */
  lemma {:induction false} CanonicalIsFixed(s: string)
    ensures NormalForm(s) == Some(s) <==> Canonical(s)
  {
    if Canonical(s) {
      if s == "/" {
        OneComponent("");
        assert "/" + "" == "/";
        assert Walk(Some([]), [""]) == Some([]);
      } else {
        WalkPushes([], Components(s));
        assert [] + Components(s) == Components(s);
        JoinComponents(s);
      }
    } else if NormalForm(s) == Some(s) {
      NormalFormIsCanonical(s);
    }
  }

  // ---- rewriting text without changing the normal form ----

  /** A tail may be exchanged for one that evaluates alike and ends alike. */
  lemma {:induction false} ReplaceTail(a: string, b: string, b': string)
    requires Rooted(a) && Rooted(b) && Rooted(b') && b != "" && b' != ""
    requires EndsInSlash(b) == EndsInSlash(b')
    requires Walk(Walk(Some([]), Components(a)), Components(b))
          == Walk(Walk(Some([]), Components(a)), Components(b'))
    ensures NormalForm(a + b) == NormalForm(a + b')
  {
    EvaluateConcat(a, b);
    EvaluateConcat(a, b');
    SameNormalForm(a + b, a + b');
  }

  lemma {:induction false} EvaluateConcat(a: string, b: string)
    requires Rooted(a) && Rooted(b)
    ensures Rooted(a + b) && Evaluate(a + b) == Walk(Walk(Some([]), Components(a)), Components(b))
  {
    ComponentsConcat(a, b);
    WalkConcat(Some([]), Components(a), Components(b));
  }

  lemma {:induction false} SameNormalForm(s: string, t: string)
    requires Rooted(s) && Rooted(t) && s != "" && t != "" && Evaluate(s) == Evaluate(t)
    requires EndsInSlash(s) == EndsInSlash(t)
    ensures NormalForm(s) == NormalForm(t)
  {
  }

  /** The component that starts at slash `i` of `s`, and what follows it. */
  lemma {:induction false} ComponentAt(s: string, i: nat, k: nat)
    requires i < k <= |s| && s[i] == '/' && (k < |s| ==> s[k] == '/')
    requires SlashFree(s[i + 1..k])
    ensures Rooted(s[i..]) && Rooted(s[k..])
    ensures Components(s[i..]) == [s[i + 1..k]] + Components(s[k..])
  {
    var t := s[i..];
    assert forall j :: 1 <= j < k - i ==> t[j] == s[i + 1..k][j - 1];
    assert NextSlash(t, 1) == k - i;
    assert t[1..k - i] == s[i + 1..k];
    assert t[k - i..] == s[k..];
  }

  predicate IsLastSlash(s: string, q: nat) {
    q < |s| && s[q] == '/' && forall j :: q < j < |s| ==> s[j] != '/'
  }

  /** The last slash of a text, or -1. */
  function LastSlash(s: string): (q: int)
    ensures -1 <= q < |s| && (q >= 0 ==> IsLastSlash(s, q))
    ensures q < 0 <==> SlashFree(s)
  {
    if s == "" then -1 else if s[|s| - 1] == '/' then |s| - 1 else LastSlash(s[..|s| - 1])
  }

  lemma {:induction false} LastSlashExists(s: string) returns (q: nat)
    requires s != "" && s[0] == '/'
    ensures IsLastSlash(s, q)
  {
    if s[|s| - 1] == '/' {
      q := |s| - 1;
    } else {
      q := LastSlashExists(s[..|s| - 1]);
    }
  }

  /** Cutting a text at its last slash cuts off its last component. */
  lemma {:induction false} SplitLast(s: string, q: nat)
    requires Rooted(s) && IsLastSlash(s, q)
    ensures Rooted(s[..q]) && Components(s) == Components(s[..q]) + [s[q + 1..]]
  {
    assert s[..q] + s[q..] == s;
    ComponentsConcat(s[..q], s[q..]);
    assert s[q + 1..|s|] == s[q + 1..];
    ComponentAt(s, q, |s|);
    assert s[|s|..] == "";
  }
}
