/**
 What the texts of a request mean: paths read from the working directory and resolved, split into
 directory and name, and rebuilt around the text of a symbolic link.
 */
module Resolution {
  import opened Options
  import opened Paths

  /** Relative paths are read from the working directory. */
  function AbsoluteText(cwd: string, path: string): string {
    if path != "" && path[0] == '/' then path else cwd + "/" + path
  }

  /** Evaluating a relative path continues the evaluation of the working directory. */
  lemma {:induction false} RelativeFromCwd(cwd: string, path: string)
    requires Rooted(cwd) && (path == "" || path[0] != '/')
    ensures Rooted(AbsoluteText(cwd, path))
    ensures Evaluate(AbsoluteText(cwd, path)) == Walk(Evaluate(cwd), Components("/" + path))
  {
    assert cwd + "/" + path == cwd + ("/" + path);
    ComponentsConcat(cwd, "/" + path);
    WalkConcat(Some([]), Components(cwd), Components("/" + path));
  }

  /** nfs4_resolve_path: the normal form, or None when it is refused. */
  function Resolve(cwd: string, path: string): Option<string> {
    NormalForm(AbsoluteText(cwd, path))
  }

  /** The paths that resolve to the empty text: they lead to the root and do not end in a slash. */
  predicate EmptyText(s: string) {
    s != "" && s[0] == '/' && Evaluate(s) == Some([]) && !EndsInSlash(s)
  }

  /** The names looked up for `s`: its components, without an empty last one. */
  function LookupNames(s: string): seq<string>
    requires Rooted(s)
  {
    var cs := Components(s);
    if cs != [] && cs[|cs| - 1] == "" then cs[..|cs| - 1] else cs
  }

  /** For every input, the names looked up after normalising are its stack evaluation. */
  lemma {:induction false} ChainIsEvaluation(s: string, n: string)
    requires NormalForm(s) == Some(n) && n != ""
    ensures Rooted(n) && LookupNames(n) == Evaluate(s).value
  {
    NormalFormComponents(s);
    EvaluateProper(s);
    if Evaluate(s).value == [] {
      OneComponent("");
      assert "/" + "" == "/";
    }
  }

  // ---- the empty text ----

  lemma {:induction false} DotIsRoot()
    ensures Components("/.") == ["."] && EmptyText("/.") && NormalForm("/.") == Some("")
  {
    OneComponent(".");
    assert "/" + "." == "/.";
    assert Walk(Some([]), ["."]) == Some([]);
  }

  /** A resolved path resolves to itself; an empty text resolves to the working directory. */
  lemma {:induction false} ResolveAgain(cwd: string, path: string)
    requires Canonical(cwd) && Resolve(cwd, path).Some?
    ensures var t := Resolve(cwd, path).value;
            Resolve(cwd, t) == Some(if t == "" then cwd else t)
  {
    var t := Resolve(cwd, path).value;
    NormalFormIsCanonical(AbsoluteText(cwd, path));
    if t == "" {
      CwdItself(cwd);
    } else {
      CanonicalIsFixed(t);
    }
  }

  lemma {:induction false} CwdItself(cwd: string)
    requires Canonical(cwd)
    ensures Resolve(cwd, "") == Some(cwd)
  {
    RelativeFromCwd(cwd, "");
    OneComponent("");
    assert "/" + "" == "/";
    assert Walk(Evaluate(cwd), [""]) == Evaluate(cwd);
    assert EndsInSlash(cwd + "/" + "");
    CanonicalIsFixed(cwd);
  }

  /** The names looked up by a call that resolves its path when it starts and again when it looks it up. */
  function TwiceResolved(cwd: string, path: string): Stack {
    match Resolve(cwd, path)
    case None => None
    case Some(t) =>
      match Resolve(cwd, t)
      case None => None
      case Some(u) => if Rooted(u) then Some(LookupNames(u)) else None
  }

  /**
   Resolving twice leads where the path says exactly when the path is not one that resolves to
   the empty text, or the working directory is the root.
   */
  lemma {:induction false} ChainAfterBoth(cwd: string, path: string)
    requires Canonical(cwd) && Resolve(cwd, path).Some?
    ensures var s := AbsoluteText(cwd, path);
            && TwiceResolved(cwd, path) == (if EmptyText(s) then Evaluate(cwd) else Evaluate(s))
            && (TwiceResolved(cwd, path) == Evaluate(s) <==> !EmptyText(s) || Evaluate(cwd) == Some([]))
  {
    var s := AbsoluteText(cwd, path);
    var t := Resolve(cwd, path).value;
    ResolveAgain(cwd, path);
    NormalFormEmpty(s);
    CanonicalIsFixed(cwd);
    if t == "" {
      ChainIsEvaluation(cwd, cwd);
    } else {
      ChainIsEvaluation(s, t);
    }
  }

  /** From "/home", the root written as "/." is looked up as "/home". */
  lemma {:induction false} DotFromHome()
    ensures Canonical("/home") && Evaluate("/.") == Some([]) && TwiceResolved("/home", "/.") == Some(["home"])
  {
    DotIsRoot();
    OneComponent("home");
    assert "/" + "home" == "/home";
    assert Proper("home");
    assert Walk(Some([]), ["home"]) == Some(["home"]) by {
      assert Step(Some([]), "home") == Some([] + ["home"]);
      assert [] + ["home"] == ["home"];
    }
    ChainAfterBoth("/home", "/.");
  }

  // ---- directory and name ----

  /** The directory text left when a path is split at its last slash. */
  function DirOf(s: string): string {
    if LastSlash(s) <= 0 then "/" else s[..LastSlash(s)]
  }

  function NameOf(s: string): string {
    s[LastSlash(s) + 1..]
  }

  /** Splitting a path with at least one component takes its last name off, and nothing else. */
  lemma {:induction false} SplitRejoins(s: string)
    requires Canonical(s) && s != "/"
    ensures Canonical(DirOf(s)) && Proper(NameOf(s))
    ensures LookupNames(DirOf(s)) + [NameOf(s)] == LookupNames(s)
  {
    var q := LastSlash(s);
    SplitLast(s, q);
    var cs := Components(s);
    assert Proper(cs[|cs| - 1]);
    if q == 0 {
      OneComponent("");
      assert "/" + "" == "/";
      assert s[..q] == "";
    } else {
      var ds := Components(s[..q]);
      assert forall i :: 0 <= i < |ds| ==> ds[i] == cs[i];
      assert Proper(ds[|ds| - 1]);
    }
  }

  // ---- symbolic links ----

  /** What "%.*s" prints of the link text. */
  function UpToNul(link: string): (r: string)
    ensures |r| <= |link| && r == link[..|r|] && '\0' !in r
    ensures |r| < |link| ==> link[|r|] == '\0'
  {
    if link == "" || link[0] == '\0' then "" else [link[0]] + UpToNul(link[1..])
  }

  /** The rebuilt path text. */
  function Spliced(names: seq<string>, idx: nat, link: string): string
    requires 1 <= idx <= |names|
  {
    Join(names[..idx - 1]) + ("/" + UpToNul(link)) +
    if idx < |names| then Join(names[idx..]) else "/"
  }

  /** The components of the rebuilt text: those before the link, the link's, those after it. */
  lemma {:induction false} SplicedComponents(names: seq<string>, idx: nat, link: string)
    requires 1 <= idx <= |names| && forall i :: 0 <= i < |names| ==> Proper(names[i])
    ensures Rooted(Spliced(names, idx, link))
    ensures Components(Spliced(names, idx, link)) ==
            names[..idx - 1] + Components("/" + UpToNul(link)) +
            if idx < |names| then names[idx..] else [""]
  {
    var a, b := Join(names[..idx - 1]), "/" + UpToNul(link);
    var c := if idx < |names| then Join(names[idx..]) else "/";
    ComponentsJoin(names[..idx - 1]);
    ComponentsConcat(a, b);
    ComponentsConcat(a + b, c);
    if idx < |names| {
      ComponentsJoin(names[idx..]);
    } else {
      OneComponent("");
      assert "/" + "" == "/";
    }
  }

  /**
   Looking the rebuilt path up evaluates the link text from the directory that holds the link,
   and then the names that came after the link.
   */
  lemma {:induction false} SplicedEvaluation(names: seq<string>, idx: nat, link: string)
    requires 1 <= idx <= |names| && forall i :: 0 <= i < |names| ==> Proper(names[i])
    ensures Rooted(Spliced(names, idx, link))
    ensures Evaluate(Spliced(names, idx, link)) ==
            Walk(Walk(Some(names[..idx - 1]), Components("/" + UpToNul(link))), names[idx..])
  {
    SplicedComponents(names, idx, link);
    var before, mid, after := names[..idx - 1], Components("/" + UpToNul(link)), names[idx..];
    var last := if idx < |names| then after else [""];
    WalkConcat(Some([]), before + mid, last);
    WalkConcat(Some([]), before, mid);
    WalkPushes([], before);
    assert [] + before == before;
    var st := Walk(Walk(Some([]), before), mid);
    if idx == |names| {
      assert Walk(st, [""]) == st == Walk(st, []);
    }
  }

  /** The rebuilt text always ends in a slash or in a proper name, so it never resolves to the empty text. */
  lemma {:induction false} SplicedNotEmpty(names: seq<string>, idx: nat, link: string)
    requires 1 <= idx <= |names| && forall i :: 0 <= i < |names| ==> Proper(names[i])
    ensures !EmptyText(Spliced(names, idx, link))
  {
    var s := Spliced(names, idx, link);
    if idx == |names| {
      assert s[|s| - 1] == '/';
    } else {
      SplicedEvaluation(names, idx, link);
      var st := Walk(Some(names[..idx - 1]), Components("/" + UpToNul(link)));
      if st.Some? {
        WalkPushes(st.value, names[idx..]);
      } else {
        WalkFails(names[idx..]);
      }
    }
  }

  /** Where a path with a link in component m - 1 leads once the link is followed. */
  function Followed(names: seq<string>, m: nat, link: string): Stack
    requires 1 <= m <= |names|
  {
    Walk(Walk(Some(names[..m - 1]), Components("/" + UpToNul(link))), names[m..])
  }

  /** What looking the rebuilt text up comes to. */
  lemma {:induction false} SplicedResolves(cwd: string, names: seq<string>, m: nat, link: string)
    requires 1 <= m <= |names| && forall i :: 0 <= i < |names| ==> Proper(names[i])
    ensures var s := Spliced(names, m, link);
            && AbsoluteText(cwd, s) == s && !EmptyText(s)
            && Evaluate(s) == Followed(names, m, link) && (Resolve(cwd, s).None? <==> Followed(names, m, link).None?)
  {
    SplicedEvaluation(names, m, link);
    SplicedNotEmpty(names, m, link);
    var s := Spliced(names, m, link);
    assert s != "" && s[0] == '/';
  }

  /** The text an open looks up for a link in its final component. */
  function FinalLink(dir: string, link: string): string {
    dir + "/" + UpToNul(link)
  }

  /**
   A link in the final component is evaluated from the directory that was opened in; the directory
   looked up next and the name opened in it are that evaluation.
   */
  lemma {:induction false} FinalLinkEvaluation(dir: string, link: string)
    requires Canonical(dir)
    ensures var u := FinalLink(dir, link);
            && Rooted(u) && Evaluate(u) == Walk(Evaluate(dir), Components("/" + UpToNul(link)))
            && (NormalForm(u).Some? && Evaluate(u) != Some([]) ==>
                  var t := NormalForm(u).value;
                  Canonical(DirOf(t)) && Evaluate(u) == Some(LookupNames(DirOf(t)) + [NameOf(t)]))
  {
    var u, tail := FinalLink(dir, link), "/" + UpToNul(link);
    assert u == dir + tail;
    ComponentsConcat(dir, tail);
    WalkConcat(Some([]), Components(dir), Components(tail));
    if NormalForm(u).Some? && Evaluate(u) != Some([]) {
      var t := NormalForm(u).value;
      NormalFormEmpty(u);
      NormalFormIsCanonical(u);
      NormalFormComponents(u);
      OneComponent("");
      assert "/" + "" == "/";
      assert Walk(Some([]), [""]) == Some([]);
      SplitRejoins(t);
      ChainIsEvaluation(u, t);
    }
  }
}
