/**
 Null-terminated strings in character arrays, with the C library searches the client uses.
 */
module CStrings {

  /** The buffer `p` holds the C string `s`. */
  ghost predicate CString(p: array<char>, s: string)
    reads p
  {
    |s| < p.Length && p[|s|] == '\0' &&
    forall j :: 0 <= j < |s| ==> p[j] == s[j] && s[j] != '\0'
  }

  /** From offset `at` on the buffer holds what `s` holds there; before it, anything. */
  ghost predicate Tail(p: array<char>, s: string, at: nat)
    reads p
  {
    at <= |s| < p.Length && p[|s|] == '\0' &&
    forall j :: at <= j < |s| ==> p[j] == s[j] && s[j] != '\0'
  }

  /** `pat` occurs in `s` at position `i`. */
  predicate Occurs(s: string, i: nat, pat: string) {
    i + |pat| <= |s| && forall j :: 0 <= j < |pat| ==> s[i + j] == pat[j]
  }

  predicate Absent(s: string, pat: string) {
    forall i :: 0 <= i < |s| ==> !Occurs(s, i, pat)
  }

  /** strlen */
  method Length(p: array<char>, ghost s: string) returns (n: nat)
    requires CString(p, s)
    ensures n == |s|
  {
    n := 0;
    while p[n] != '\0'
      invariant n <= |s|
      decreases |s| - n
    {
      n := n + 1;
    }
  }

  /** strncmp of the text at `i` with the whole of `pat`. */
  method HasPrefix(p: array<char>, ghost s: string, i: nat, pat: string) returns (yes: bool)
    requires CString(p, s) && i <= |s| && '\0' !in pat
    ensures yes <==> Occurs(s, i, pat)
  {
    var j := 0;
    while j < |pat|
      invariant j <= |pat| && i + j <= |s|
      invariant forall m :: 0 <= m < j ==> s[i + m] == pat[m]
    {
      if p[i + j] != pat[j] {
        return false;
      }
      j := j + 1;
    }
    return true;
  }

  /** strstr: the leftmost occurrence of `pat`, or -1. */
  method Find(p: array<char>, ghost s: string, pat: string) returns (i: int)
    requires CString(p, s) && pat != "" && '\0' !in pat
    ensures -1 <= i < |s|
    ensures i >= 0 ==> Occurs(s, i, pat) && forall m :: 0 <= m < i ==> !Occurs(s, m, pat)
    ensures i < 0 ==> Absent(s, pat)
  {
    i := 0;
    while p[i] != '\0'
      invariant 0 <= i <= |s|
      invariant forall m :: 0 <= m < i ==> !Occurs(s, m, pat)
      decreases |s| - i
    {
      var here := HasPrefix(p, s, i, pat);
      if here {
        return;
      }
      i := i + 1;
    }
    i := -1;
  }

  /** strlen of the string at offset `at`. */
  method LengthFrom(p: array<char>, ghost s: string, at: nat) returns (n: nat)
    requires Tail(p, s, at)
    ensures n == |s| - at
  {
    n := 0;
    while p[at + n] != '\0'
      invariant at + n <= |s|
      decreases |s| - n
    {
      n := n + 1;
    }
  }

  /** strchr: the offset of the first `c` at or after `at`, or -1. */
  method FindChar(p: array<char>, ghost s: string, at: nat, c: char) returns (i: int)
    requires Tail(p, s, at) && c != '\0'
    ensures -1 <= i < |s|
    ensures i >= 0 ==> at <= i && s[i] == c && forall m :: at <= m < i ==> s[m] != c
    ensures i < 0 ==> forall m :: at <= m < |s| ==> s[m] != c
  {
    i := at;
    while p[i] != '\0'
      invariant at <= i <= |s|
      invariant forall m :: at <= m < i ==> s[m] != c
      decreases |s| - i
    {
      if p[i] == c {
        return;
      }
      i := i + 1;
    }
    i := -1;
  }

  /** strrchr: the last `c`, or -1. */
  method FindLastChar(p: array<char>, ghost s: string, c: char) returns (i: int)
    requires CString(p, s) && c != '\0'
    ensures -1 <= i < |s|
    ensures i >= 0 ==> s[i] == c
    ensures forall m :: i < m < |s| ==> s[m] != c
  {
    i := -1;
    var k := 0;
    while p[k] != '\0'
      invariant 0 <= k <= |s| && -1 <= i < k
      invariant i >= 0 ==> s[i] == c
      invariant forall m :: i < m < k ==> s[m] != c
      decreases |s| - k
    {
      if p[k] == c {
        i := k;
      }
      k := k + 1;
    }
  }

  /** Copies the string at offset `from` of `src`, without the terminator, to offset `at` of `dst`. */
  method Place(dst: array<char>, at: nat, src: array<char>, ghost s: string, from: nat) returns (end: nat)
    requires Tail(src, s, from) && at + |s| - from <= dst.Length && src != dst
    modifies dst
    ensures end == at + |s| - from
    ensures forall j :: at <= j < end ==> dst[j] == s[from + j - at]
    ensures forall j :: 0 <= j < dst.Length && !(at <= j < end) ==> dst[j] == old(dst[j])
  {
    end := at;
    while src[from + end - at] != '\0'
      invariant at <= end <= at + |s| - from && Tail(src, s, from)
      invariant forall j :: at <= j < end ==> dst[j] == s[from + j - at]
      invariant forall j :: 0 <= j < dst.Length && !(at <= j < end) ==> dst[j] == old(dst[j])
      decreases at + |s| - end
    {
      dst[end] := src[from + end - at];
      end := end + 1;
    }
  }

  /** strdup of the string at offset `from`. */
  method Duplicate(p: array<char>, ghost s: string, from: nat) returns (r: array<char>)
    requires Tail(p, s, from)
    ensures fresh(r) && r.Length == |s| - from + 1 && CString(r, s[from..])
  {
    var n := LengthFrom(p, s, from);
    r := new char[n + 1](_ => '\0');
    var _ := Place(r, 0, p, s, from);
  }
}
