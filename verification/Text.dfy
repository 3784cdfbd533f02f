/** The parts of Go's `strings` package that BranchBase relies on, on byte strings:
    a `char` stands for one byte, and white space and letter case are ASCII. */
module Text {

  predicate IsSpace(c: char) {
    c == ' ' || '\t' <= c <= '\r'
  }

  predicate AllSpace(s: string) {
    forall i :: 0 <= i < |s| ==> IsSpace(s[i])
  }

  function TrimLeft(s: string): string {
    if s != "" && IsSpace(s[0]) then TrimLeft(s[1..]) else s
  }

  function TrimRight(s: string): string {
    if s != "" && IsSpace(s[|s| - 1]) then TrimRight(s[..|s| - 1]) else s
  }

  lemma SpaceInFront(s: string, u: string, n: nat)
    requires s != "" && IsSpace(s[0]) && u == s[1..] && n <= |u| && AllSpace(u[..n])
    ensures AllSpace(s[..n + 1]) && s[n + 1..] == u[n..]
  {
    forall i | 0 <= i < n + 1 ensures IsSpace(s[i]) {
      if i > 0 { assert s[i] == u[..n][i - 1]; }
    }
  }

  lemma SpaceBehind(s: string, u: string, n: nat)
    requires s != "" && IsSpace(s[|s| - 1]) && u == s[..|s| - 1] && n <= |u| && AllSpace(u[n..])
    ensures AllSpace(s[n..]) && s[..n] == u[..n]
  {
    forall i | n <= i < |s| ensures IsSpace(s[i]) {
      if i < |u| { assert s[i] == u[n..][i - n]; }
    }
  }

  lemma {:induction false} TrimLeftRest(s: string)
    ensures |TrimLeft(s)| <= |s| && TrimLeft(s) == s[|s| - |TrimLeft(s)|..]
    ensures AllSpace(s[..|s| - |TrimLeft(s)|])
    ensures TrimLeft(s) != "" ==> !IsSpace(TrimLeft(s)[0])
  {
    if s != "" && IsSpace(s[0]) {
      var u := s[1..];
      TrimLeftRest(u);
      SpaceInFront(s, u, |u| - |TrimLeft(u)|);
    }
  }

  /** What is trimmed off the end, by its place */
  lemma {:induction false} TrimRightPlace(s: string)
    ensures |TrimRight(s)| <= |s| && TrimRight(s) == s[..|TrimRight(s)|]
    ensures AllSpace(s[|TrimRight(s)|..])
    ensures TrimRight(s) != "" ==> !IsSpace(TrimRight(s)[|TrimRight(s)| - 1])
  {
    if s != "" && IsSpace(s[|s| - 1]) {
      var u := s[..|s| - 1];
      TrimRightPlace(u);
      SpaceBehind(s, u, |TrimRight(u)|);
    }
  }

  lemma TrimRightRest(s: string)
    ensures TrimRight(s) <= s && TrimRight(s) + s[|TrimRight(s)|..] == s
    ensures AllSpace(s[|TrimRight(s)|..])
    ensures TrimRight(s) != "" ==> !IsSpace(TrimRight(s)[|TrimRight(s)| - 1])
  {
    TrimRightPlace(s);
  }

  lemma Assoc(a: string, b: string, c: string)
    ensures a + (b + c) == (a + b) + c
  {}

  lemma SliceOfSlice(s: string, a: nat, b: nat, c: nat, d: nat)
    requires a <= b <= |s| && c <= d <= b - a
    ensures s[a..b][c..d] == s[a + c..a + d]
  {
    var u := s[a..b];
    assert forall i :: 0 <= i < |u| ==> u[i] == s[a + i];
  }

  lemma SliceAt(s: string, i: nat, j: nat)
    requires i <= j <= |s|
    ensures s[i..][..j - i] == s[i..j] && s[i..][j - i..] == s[j..]
  {}

  /** strings.TrimSpace */
  function TrimSpace(s: string): string {
    TrimRight(TrimLeft(s))
  }

  predicate Occurs(s: string, pattern: string, k: int) {
    0 <= k && k + |pattern| <= |s| && s[k..k + |pattern|] == pattern
  }

  function IndexFrom(s: string, pattern: string, i: nat): (r: int)
    ensures r == -1 || (i <= r && Occurs(s, pattern, r))
    ensures forall k :: i <= k && (r == -1 || k < r) ==> !Occurs(s, pattern, k)
    decreases |s| - i
  {
    if i + |pattern| > |s| then -1
    else if s[i..i + |pattern|] == pattern then i
    else if i == |s| then -1
    else IndexFrom(s, pattern, i + 1)
  }

  /** strings.Index: the first occurrence of `pattern`, or -1. */
  function Index(s: string, pattern: string): (r: int)
    ensures r == -1 || Occurs(s, pattern, r)
    ensures forall k :: r == -1 || k < r ==> !Occurs(s, pattern, k)
  {
    IndexFrom(s, pattern, 0)
  }

  predicate Contains(s: string, pattern: string) {
    Index(s, pattern) >= 0
  }

  lemma OccursContains(s: string, pattern: string, k: int)
    requires Occurs(s, pattern, k)
    ensures Contains(s, pattern) && Index(s, pattern) <= k
  {}

  lemma IndexUnique(s: string, pattern: string, k: int)
    requires Occurs(s, pattern, k)
    requires forall j :: 0 <= j < k ==> !Occurs(s, pattern, j)
    ensures Index(s, pattern) == k
  {}

  lemma OccursPrefix(a: string, b: string, pattern: string, j: int)
    requires j + |pattern| <= |a|
    ensures Occurs(a, pattern, j) == Occurs(a + b, pattern, j)
  {
    if 0 <= j { assert (a + b)[j..j + |pattern|] == a[j..j + |pattern|]; }
  }

  /** The first occurrence does not move when the text behind it changes. */
  lemma IndexStable(a: string, b: string, pattern: string)
    requires Contains(a, pattern)
    ensures Index(a + b, pattern) == Index(a, pattern)
  {
    var k := Index(a, pattern);
    forall j | 0 <= j <= k
      ensures Occurs(a, pattern, j) == Occurs(a + b, pattern, j)
    {
      OccursPrefix(a, b, pattern, j);
    }
    IndexUnique(a + b, pattern, k);
  }

  lemma IndexPrefix(s: string, pattern: string)
    requires Contains(s, pattern)
    ensures Index(s[..Index(s, pattern) + |pattern|], pattern) == Index(s, pattern)
  {
    var k := Index(s, pattern);
    var n := k + |pattern|;
    forall j | 0 <= j <= k
      ensures Occurs(s[..n], pattern, j) == Occurs(s, pattern, j)
    {
      OccursPrefix(s[..n], s[n..], pattern, j);
      assert s[..n] + s[n..] == s;
    }
    IndexUnique(s[..n], pattern, k);
  }

  function WordLen(s: string): (n: nat)
    ensures n <= |s|
    ensures forall i :: 0 <= i < n ==> !IsSpace(s[i])
    ensures n < |s| ==> IsSpace(s[n])
  {
    if s == "" || IsSpace(s[0]) then 0 else 1 + WordLen(s[1..])
  }

  /** strings.Fields: the maximal runs of non-space characters. */
  function Fields(s: string): seq<string>
    decreases |s|
  {
    if s == "" then []
    else if IsSpace(s[0]) then Fields(s[1..])
    else [s[..WordLen(s)]] + Fields(s[WordLen(s)..])
  }

  lemma WordLenUnique(s: string, n: nat)
    requires n <= |s|
    requires forall i :: 0 <= i < n ==> !IsSpace(s[i])
    requires n < |s| ==> IsSpace(s[n])
    ensures WordLen(s) == n
  {}

  /** A white-space character always separates words. */
  lemma {:induction false} FieldsSplit(a: string, w: char, b: string)
    requires IsSpace(w)
    ensures Fields(a + [w] + b) == Fields(a) + Fields(b)
    decreases |a|
  {
    var s := a + [w] + b;
    if a == "" {
      assert s[1..] == b;
    } else if IsSpace(a[0]) {
      assert s[1..] == a[1..] + [w] + b;
      FieldsSplit(a[1..], w, b);
    } else {
      var n := WordLen(a);
      WordLenUnique(s, n);
      assert s[..n] == a[..n];
      assert s[n..] == a[n..] + [w] + b;
      FieldsSplit(a[n..], w, b);
    }
  }

  /** An extra space changes no word when the text before it is empty or already ends in white space. */
  lemma FieldsExtraSpace(p: string, w: char, rest: string)
    requires IsSpace(w)
    requires p == "" || IsSpace(p[|p| - 1])
    ensures Fields(p + [w] + rest) == Fields(p + rest)
  {
    if p == "" {
      assert p + [w] + rest == [w] + rest && p + rest == rest;
    } else {
      var q, v := p[..|p| - 1], p[|p| - 1];
      assert p == q + [v];
      assert p + rest == q + [v] + rest;
      FieldsSplit(q, v, rest);
      assert p + [w] + rest == q + [v] + ([w] + rest);
      FieldsSplit(q, v, [w] + rest);
      assert Fields([w] + rest) == Fields(([w] + rest)[1..]);
      assert ([w] + rest)[1..] == rest;
    }
  }

  lemma {:induction false} FieldsTrailing(p: string, w: string)
    requires AllSpace(w)
    ensures Fields(p + w) == Fields(p)
  {
    if w == "" {
      assert p + w == p;
    } else {
      var v := w[|w| - 1];
      var u := w[..|w| - 1];
      assert p + w == (p + u) + [v] + "";
      FieldsSplit(p + u, v, "");
      FieldsTrailing(p, u);
    }
  }

  /** strings.Join */
  function Join(parts: seq<string>, sep: string): string {
    if parts == [] then ""
    else if |parts| == 1 then parts[0]
    else parts[0] + sep + Join(parts[1..], sep)
  }

  function Lower(c: char): char {
    if 'A' <= c <= 'Z' then c - 'A' + 'a' else c
  }

  function Upper(c: char): char {
    if 'a' <= c <= 'z' then c - 'a' + 'A' else c
  }

  function ToLower(s: string): (r: string)
    ensures |r| == |s| && forall i :: 0 <= i < |s| ==> r[i] == Lower(s[i])
  {
    seq(|s|, i requires 0 <= i < |s| => Lower(s[i]))
  }

  function ToUpper(s: string): (r: string)
    ensures |r| == |s| && forall i :: 0 <= i < |s| ==> r[i] == Upper(s[i])
  {
    seq(|s|, i requires 0 <= i < |s| => Upper(s[i]))
  }

  /** strings.EqualFold on ASCII */
  predicate EqualFold(a: string, b: string) {
    ToLower(a) == ToLower(b)
  }
}
