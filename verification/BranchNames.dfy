/** internal/git/resolver.go, internal/config/config.go and the drivers: from branch names to database names. */
module BranchNames {
  import opened Text

  predicate IsAlnum(c: char) {
    'a' <= c <= 'z' || 'A' <= c <= 'Z' || '0' <= c <= '9'
  }

  /** invalidCharsRegex: every other character becomes an underscore. */
  function ReplaceInvalid(s: string): (r: string)
    ensures |r| == |s|
  {
    seq(|s|, i requires 0 <= i < |s| => if IsAlnum(s[i]) then s[i] else '_')
  }

  /** multipleUnderscore: a run of underscores becomes one. */
  function Collapse(s: string): string {
    if |s| <= 1 then s
    else if s[0] == '_' && s[1] == '_' then Collapse(s[1..])
    else [s[0]] + Collapse(s[1..])
  }

  function TrimLeftU(s: string): string {
    if s != "" && s[0] == '_' then TrimLeftU(s[1..]) else s
  }

  function TrimRightU(s: string): string {
    if s != "" && s[|s| - 1] == '_' then TrimRightU(s[..|s| - 1]) else s
  }

  function SanitizeBranchName(branch: string): string {
    var s := TrimRightU(TrimLeftU(Collapse(ReplaceInvalid(TrimSpace(branch)))));
    if s == "" then "default" else ToLower(s)
  }

  // ---- A reference definition: the words of the name ----

  /** Length of the word at the start of `s` */
  function WordSize(s: string): (n: nat)
    ensures n <= |s|
    ensures forall i :: 0 <= i < n ==> IsAlnum(s[i])
    ensures n < |s| ==> !IsAlnum(s[n])
  {
    if s == "" || !IsAlnum(s[0]) then 0 else 1 + WordSize(s[1..])
  }

  /** The maximal runs of letters and digits */
  function Words(s: string): seq<string>
    decreases |s|
  {
    if s == "" then []
    else if !IsAlnum(s[0]) then Words(s[1..])
    else [s[..WordSize(s)]] + Words(s[WordSize(s)..])
  }

  /** Each word behind an underscore */
  function Tail(words: seq<string>): string {
    if words == [] then "" else "_" + words[0] + Tail(words[1..])
  }

  /** The words with underscores between them */
  function Joined(words: seq<string>): string {
    if words == [] then "" else words[0] + Tail(words[1..])
  }

  function Clean(s: string): string {
    TrimRightU(TrimLeftU(Collapse(ReplaceInvalid(s))))
  }

  lemma ReplaceCons(s: string)
    requires s != ""
    ensures ReplaceInvalid(s) == [if IsAlnum(s[0]) then s[0] else '_'] + ReplaceInvalid(s[1..])
  {}

  /** What collapsing leaves of a run of underscores is at most one. */
  lemma {:induction false} CollapseWord(s: string, n: nat)
    requires n == WordSize(s)
    ensures Collapse(ReplaceInvalid(s)) == s[..n] + Collapse(ReplaceInvalid(s[n..]))
    decreases |s|
  {
    if n > 0 {
      ReplaceCons(s);
      var u := s[1..];
      CollapseWord(u, n - 1);
      assert u[n - 1..] == s[n..];
      assert s[..n] == [s[0]] + u[..n - 1];
    }
  }

  lemma TrimRightKeeps(a: string, b: string)
    requires a != "" && a[|a| - 1] != '_'
    ensures TrimRightU(a + b) == a + TrimRightU(b)
    decreases |b|
  {
    if b != "" && b[|b| - 1] == '_' {
      assert (a + b)[..|a + b| - 1] == a + b[..|b| - 1];
      TrimRightKeeps(a, b[..|b| - 1]);
    } else if b == "" {
      assert a + b == a;
    }
  }

  /** A separator in front is trimmed away. */
  lemma SeparatorInFront(s: string)
    requires s != "" && !IsAlnum(s[0])
    ensures TrimLeftU(Collapse(ReplaceInvalid(s))) == TrimLeftU(Collapse(ReplaceInvalid(s[1..])))
  {
    ReplaceCons(s);
    var u := ReplaceInvalid(s[1..]);
    assert ("_" + u)[1..] == u;
    if u != "" && u[0] != '_' {
      assert Collapse("_" + u) == "_" + Collapse(u);
      assert ("_" + Collapse(u))[1..] == Collapse(u);
    }
  }

  lemma ReplaceRest(s: string)
    requires s != ""
    ensures ReplaceInvalid(s)[0] == (if IsAlnum(s[0]) then s[0] else '_') && ReplaceInvalid(s)[1..] == ReplaceInvalid(s[1..])
  {}

  lemma CollapseBeforeWord(t: string)
    requires |t| >= 2 && t[0] == '_' && t[1] != '_'
    ensures Collapse(t) == "_" + Collapse(t[1..])
  {}

  lemma SeparatorThenWord(s: string, u: string, n: nat)
    requires s != "" && !IsAlnum(s[0]) && u == s[1..] && u != "" && IsAlnum(u[0]) && n == WordSize(u)
    ensures Collapse(ReplaceInvalid(s)) == ("_" + u[..n]) + Collapse(ReplaceInvalid(u[n..]))
  {
    ReplaceRest(s);
    ReplaceRest(u);
    CollapseBeforeWord(ReplaceInvalid(s));
    CollapseWord(u, n);
    Assoc("_", u[..n], Collapse(ReplaceInvalid(u[n..])));
  }

  /** Collapsed text that starts outside a word: an underscore, and then the words. */
  lemma {:induction false} CollapsedTail(s: string)
    requires s != "" && !IsAlnum(s[0])
    ensures TrimRightU(Collapse(ReplaceInvalid(s))) == Tail(Words(s))
    decreases |s|, 0
  {
    var u := s[1..];
    ReplaceCons(s);
    if u == "" {
      assert ReplaceInvalid(s) == "_";
      assert TrimRightU("_") == TrimRightU("");
    } else if !IsAlnum(u[0]) {
      ReplaceCons(u);
      CollapsedTail(u);
    } else {
      var n := WordSize(u);
      SeparatorThenWord(s, u, n);
      TrimRightKeeps("_" + u[..n], Collapse(ReplaceInvalid(u[n..])));
      CollapsedRest(u[n..]);
    }
  }

  /** Behind a word there is nothing, or a separator. */
  lemma {:induction false} CollapsedRest(s: string)
    requires s != "" ==> !IsAlnum(s[0])
    ensures TrimRightU(Collapse(ReplaceInvalid(s))) == Tail(Words(s))
    decreases |s|, 1
  {
    if s != "" { CollapsedTail(s); }
  }

  /** Replacing, collapsing and trimming leaves the words, joined by underscores. */
  lemma {:induction false} CleanIsJoined(s: string)
    ensures Clean(s) == Joined(Words(s))
    decreases |s|
  {
    if s == "" {
    } else if !IsAlnum(s[0]) {
      SeparatorInFront(s);
      CleanIsJoined(s[1..]);
    } else {
      var n := WordSize(s);
      var rest := Collapse(ReplaceInvalid(s[n..]));
      CollapseWord(s, n);
      assert (s[..n] + rest)[0] == s[0] != '_';
      assert s[..n][n - 1] != '_';
      TrimRightKeeps(s[..n], rest);
      CollapsedRest(s[n..]);
      assert Words(s)[1..] == Words(s[n..]);
    }
  }

  lemma WordSizeIs(s: string, n: nat)
    requires n <= |s| && forall i :: 0 <= i < n ==> IsAlnum(s[i])
    requires n < |s| ==> !IsAlnum(s[n])
    ensures WordSize(s) == n
  {}

  lemma {:induction false} WordsTrailing(s: string, c: char)
    requires !IsAlnum(c)
    ensures Words(s + [c]) == Words(s)
    decreases |s|
  {
    var t := s + [c];
    if s == "" {
      assert t[1..] == "";
    } else if !IsAlnum(s[0]) {
      assert t[1..] == s[1..] + [c];
      WordsTrailing(s[1..], c);
    } else {
      var n := WordSize(s);
      WordSizeIs(t, n);
      assert t[n..] == s[n..] + [c] && t[..n] == s[..n];
      WordsTrailing(s[n..], c);
    }
  }

  /** TrimSpace removes no word: before the other steps it changes nothing. */
  lemma {:induction false} WordsTrimRight(s: string)
    ensures Words(TrimRight(s)) == Words(s)
    decreases |s|
  {
    if s != "" && IsSpace(s[|s| - 1]) {
      var u := s[..|s| - 1];
      assert s == u + [s[|s| - 1]];
      WordsTrailing(u, s[|s| - 1]);
      WordsTrimRight(u);
    }
  }

  lemma {:induction false} WordsTrimLeft(s: string)
    ensures Words(TrimLeft(s)) == Words(s)
    decreases |s|
  {
    if s != "" && IsSpace(s[0]) { WordsTrimLeft(s[1..]); }
  }

  lemma WordsTrimSpace(s: string)
    ensures Words(TrimSpace(s)) == Words(s)
  {
    WordsTrimLeft(s);
    WordsTrimRight(TrimLeft(s));
  }

  function LowerWords(words: seq<string>): (r: seq<string>)
    ensures |r| == |words|
  {
    seq(|words|, i requires 0 <= i < |words| => ToLower(words[i]))
  }

  /** The lower-case words a branch is known by; a name without words is known as "default". */
  function Names(branch: string): seq<string> {
    if Words(branch) == [] then ["default"] else LowerWords(Words(branch))
  }

  lemma {:induction false} LowerTail(words: seq<string>)
    ensures ToLower(Tail(words)) == Tail(LowerWords(words))
  {
    if words != [] {
      LowerTail(words[1..]);
      assert LowerWords(words)[1..] == LowerWords(words[1..]);
      LowerConcat("_" + words[0], Tail(words[1..]));
      assert ToLower("_" + words[0]) == "_" + ToLower(words[0]);
    }
  }

  lemma LowerConcat(a: string, b: string)
    ensures ToLower(a + b) == ToLower(a) + ToLower(b)
  {}

  lemma LowerJoined(words: seq<string>)
    requires words != []
    ensures ToLower(Joined(words)) == Joined(LowerWords(words))
  {
    LowerConcat(words[0], Tail(words[1..]));
    LowerTail(words[1..]);
    assert LowerWords(words)[1..] == LowerWords(words[1..]);
  }

  predicate IsWord(w: string) {
    w != "" && forall i :: 0 <= i < |w| ==> IsAlnum(w[i])
  }

  predicate AllWords(words: seq<string>) {
    forall i :: 0 <= i < |words| ==> IsWord(words[i])
  }

  lemma {:induction false} WordsAreWords(s: string)
    ensures AllWords(Words(s))
    decreases |s|
  {
    if s == "" {
    } else if !IsAlnum(s[0]) {
      WordsAreWords(s[1..]);
    } else {
      WordsAreWords(s[WordSize(s)..]);
    }
  }

  lemma WordFront(w: string, rest: string)
    requires IsWord(w) && (rest != "" ==> !IsAlnum(rest[0]))
    ensures Words(w + rest) == [w] + Words(rest)
  {
    WordSizeIs(w + rest, |w|);
    assert (w + rest)[..|w|] == w && (w + rest)[|w|..] == rest;
    assert IsAlnum((w + rest)[0]);
  }

  lemma {:induction false} WordsOfTail(words: seq<string>)
    requires AllWords(words)
    ensures Words(Tail(words)) == words
  {
    if words != [] {
      var rest := Tail(words[1..]);
      assert Tail(words) == "_" + (words[0] + rest);
      assert Tail(words)[1..] == words[0] + rest;
      WordFront(words[0], rest);
      WordsOfTail(words[1..]);
    }
  }

  /** Joining words loses nothing. */
  lemma WordsOfJoined(words: seq<string>)
    requires AllWords(words)
    ensures Words(Joined(words)) == words
  {
    if words != [] {
      WordFront(words[0], Tail(words[1..]));
      WordsOfTail(words[1..]);
    }
  }

  lemma NamesAreWords(branch: string)
    ensures AllWords(Names(branch)) && Names(branch) != []
    ensures LowerWords(Names(branch)) == Names(branch)
  {
    WordsAreWords(branch);
    var d := "default";
    assert IsWord(d) && ToLower(d) == d;
    forall i | 0 <= i < |Words(branch)| ensures ToLower(ToLower(Words(branch)[i])) == ToLower(Words(branch)[i]) {}
  }

  /** What the pipeline computes: the branch's words in lower case, joined by underscores. */
  lemma SanitizeIsNames(branch: string)
    ensures SanitizeBranchName(branch) == Joined(Names(branch))
  {
    var t := TrimSpace(branch);
    CleanIsJoined(t);
    WordsTrimSpace(branch);
    WordsAreWords(branch);
    if Words(branch) == [] {
      assert Tail([]) == "";
    } else {
      LowerJoined(Words(branch));
    }
  }

  /** Sanitising keeps the words a branch is known by. */
  lemma NamesOfSanitized(branch: string)
    ensures Names(SanitizeBranchName(branch)) == Names(branch)
  {
    SanitizeIsNames(branch);
    NamesAreWords(branch);
    WordsOfJoined(Names(branch));
  }

  lemma SanitizeIdempotent(branch: string)
    ensures SanitizeBranchName(SanitizeBranchName(branch)) == SanitizeBranchName(branch)
  {
    NamesOfSanitized(branch);
    SanitizeIsNames(branch);
    SanitizeIsNames(SanitizeBranchName(branch));
  }

  /** Two branches collide exactly when they have the same words but for letter case. */
  lemma CollisionIff(a: string, b: string)
    ensures SanitizeBranchName(a) == SanitizeBranchName(b) <==> Names(a) == Names(b)
  {
    NamesOfSanitized(a);
    NamesOfSanitized(b);
    SanitizeIsNames(a);
    SanitizeIsNames(b);
  }

  lemma SanitizedNonEmpty(branch: string)
    ensures SanitizeBranchName(branch) != ""
  {
    SanitizeIsNames(branch);
    NamesAreWords(branch);
  }
}
