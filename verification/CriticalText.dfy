/** internal/risk/policy.go, MatchesAlwaysCriticalForEngine: which texts are always critical, told by the text itself. */
module CriticalText {
  import opened Text
  import opened SqlTokens
  import opened SqlStrip
  import opened SqlDrops
  import opened SqlNormalize

  // ---- White space squeezed to single spaces ----

  function Squeeze(s: string): string {
    Join(Fields(s), " ")
  }

  lemma JoinFirst(w: string, rest: seq<string>)
    ensures Join([w] + rest, " ") == if rest == [] then w else w + " " + Join(rest, " ")
  {
    if rest == [] {
      assert [w] + rest == [w];
    } else {
      assert ([w] + rest)[1..] == rest;
    }
  }

  lemma {:induction false} NoEmptyFields(s: string)
    ensures forall i :: 0 <= i < |Fields(s)| ==> Fields(s)[i] != ""
    decreases |s|
  {
    if s == "" {
    } else if IsSpace(s[0]) {
      NoEmptyFields(s[1..]);
    } else {
      NoEmptyFields(s[WordLen(s)..]);
    }
  }

  lemma SqueezeEmpty(s: string)
    ensures Squeeze(s) == "" <==> Fields(s) == []
  {
    NoEmptyFields(s);
    if Fields(s) != [] {
      JoinFirst(Fields(s)[0], Fields(s)[1..]);
      assert Fields(s) == [Fields(s)[0]] + Fields(s)[1..];
    }
  }

  lemma SqueezeSpace(c: char, s: string)
    requires IsSpace(c)
    ensures Squeeze([c] + s) == Squeeze(s)
  {
    assert ([c] + s)[1..] == s;
  }

  /** A character of its own word */
  lemma SqueezeAlone(c: char, s: string)
    requires !IsSpace(c) && (s == "" || IsSpace(s[0]))
    ensures Squeeze([c] + s) == if Squeeze(s) == "" then [c] else [c] + " " + Squeeze(s)
  {
    var t := [c] + s;
    WordLenUnique(t, 1);
    assert t[..1] == [c] && t[1..] == s;
    JoinFirst([c], Fields(s));
    SqueezeEmpty(s);
  }

  lemma FieldsFirst(s: string)
    requires s != "" && !IsSpace(s[0])
    ensures WordLen(s) > 0 && Fields(s) == [s[..WordLen(s)]] + Fields(s[WordLen(s)..])
  {}

  lemma FieldsJoined(c: char, s: string, t: string)
    requires !IsSpace(c) && s != "" && !IsSpace(s[0]) && t == [c] + s
    ensures var n := WordLen(s); Fields(t) == [[c] + s[..n]] + Fields(s[n..])
  {
    var n := WordLen(s);
    assert t[1..] == s;
    assert WordLen(t) == 1 + n;
    FieldsFirst(t);
    assert t[..1 + n] == [c] + s[..n] && t[1 + n..] == s[n..];
  }

  /** A character in front of a word */
  lemma SqueezeJoined(c: char, s: string)
    requires !IsSpace(c) && s != "" && !IsSpace(s[0])
    ensures Squeeze([c] + s) == [c] + Squeeze(s)
  {
    var n := WordLen(s);
    var w, rest := s[..n], Fields(s[n..]);
    FieldsJoined(c, s, [c] + s);
    FieldsFirst(s);
    LongerFirst(c, w, rest);
  }

  lemma LongerFirst(c: char, w: string, rest: seq<string>)
    ensures Join([[c] + w] + rest, " ") == [c] + Join([w] + rest, " ")
  {
    JoinFirst([c] + w, rest);
    JoinFirst(w, rest);
  }

  /** What stands in front of a text does not change how it is squeezed. */
  lemma {:induction false} SqueezeSuffix(a: string, s: string) returns (x: string)
    ensures Squeeze(a + s) == x + Squeeze(s)
    decreases |a|
  {
    if a == "" {
      x := "";
      assert a + s == s && x + Squeeze(s) == Squeeze(s);
    } else {
      var c, u := a[0], a[1..] + s;
      var y := SqueezeSuffix(a[1..], s);
      assert a + s == [c] + u;
      if IsSpace(c) {
        SqueezeSpace(c, u);
        x := y;
      } else if u == "" || IsSpace(u[0]) {
        SqueezeAlone(c, u);
        x := if Squeeze(u) == "" then [c] else [c] + " " + y;
      } else {
        SqueezeJoined(c, u);
        x := [c] + y;
      }
    }
  }

  /** Neither does what stands behind it. */
  lemma {:induction false} SqueezePrefix(s: string, b: string)
    ensures Squeeze(s) <= Squeeze(s + b)
    decreases |s|
  {
    if s == "" {
      assert Squeeze("") == "";
    } else {
      var c, u := s[0], s[1..];
      assert s == [c] + u && s + b == [c] + (u + b);
      SqueezePrefix(u, b);
      if IsSpace(c) {
        SqueezeSpace(c, u);
        SqueezeSpace(c, u + b);
      } else if u == "" {
        SqueezeAlone(c, u);
        FirstStays(c, b);
        assert u + b == b && Squeeze("") == "";
      } else if IsSpace(u[0]) {
        SqueezeAlone(c, u);
        SqueezeAlone(c, u + b);
      } else {
        SqueezeJoined(c, u);
        SqueezeJoined(c, u + b);
      }
    }
  }

  lemma FirstStays(c: char, b: string)
    requires !IsSpace(c)
    ensures [c] <= Squeeze([c] + b)
  {
    if b == "" || IsSpace(b[0]) { SqueezeAlone(c, b); } else { SqueezeJoined(c, b); }
  }

  /** A squeezed part occurs in the squeezed whole. */
  lemma SqueezeInside(a: string, b: string, c: string)
    ensures exists k :: Occurs(Squeeze(a + (b + c)), Squeeze(b), k)
  {
    var x := SqueezeSuffix(a, b + c);
    SqueezePrefix(b, c);
    var whole, part := Squeeze(a + (b + c)), Squeeze(b);
    assert whole[|x|..|x| + |part|] == Squeeze(b + c)[..|part|];
    assert Occurs(whole, part, |x|);
  }

  // ---- Code that stands in a text ----

  /** A character that neither separates words nor begins a quote or a comment */
  predicate IsCodeChar(c: char) {
    !IsSpace(c) && c !in {'\'', '"', '`', '$', '#', '-', '/', '*'}
  }

  predicate IsCodeWord(w: string) {
    w != "" && forall i :: 0 <= i < |w| ==> IsCodeChar(w[i])
  }

  predicate AreCodeWords(words: seq<string>) {
    forall i :: 0 <= i < |words| ==> IsCodeWord(words[i])
  }

  lemma CodeChar(c: char, rest: string, d: Dialect)
    requires IsCodeChar(c)
    ensures Lex([c] + rest, d, true) == Keep([c], Lex(rest, d, true)) && Words([c], d) == [c]
  {
    var s := [c] + rest;
    assert TagLen(s) == 0 && TagLen([c]) == 0;
    assert s[..1] == [c] && s[1..] == rest;
  }

  lemma {:induction false} CodeFlat(w: string, rest: string, d: Dialect)
    requires forall i :: 0 <= i < |w| ==> IsCodeChar(w[i])
    ensures Flat(Lex(w + rest, d, true), d) == w + Flat(Lex(rest, d, true), d)
    decreases |w|
  {
    if w == "" {
      assert w + rest == rest;
    } else {
      assert w + rest == [w[0]] + (w[1..] + rest);
      CodeChar(w[0], w[1..] + rest, d);
      CodeFlat(w[1..], rest, d);
      Assoc([w[0]], w[1..], Flat(Lex(rest, d, true), d));
      assert [w[0]] + w[1..] == w;
    }
  }

  /** What may stand between two words: white space, a line comment with its newline, or a block comment with its closer */
  datatype Filler =
    | White(c: char)
    | Line(opener: string, text: string, newline: char)
    | Block(inside: string)

  predicate IsFiller(f: Filler, d: Dialect) {
    match f
    case White(c) => IsSpace(c)
    case Line(opener, text, newline) => opener in {"--", "#"} && NoNewline(text) && newline in {'\n', '\r'}
    case Block(inside) => IsBlockEnd(inside, d)
  }

  function FillerText(f: Filler): string {
    match f
    case White(c) => [c]
    case Line(opener, text, newline) => opener + text + [newline]
    case Block(inside) => "/*" + inside
  }

  lemma SpaceFlat(c: char, rest: string, d: Dialect)
    requires IsSpace(c)
    ensures Flat(Lex([c] + rest, d, true), d) == [c] + Flat(Lex(rest, d, true), d)
  {
    var s := [c] + rest;
    assert TagLen(s) == 0 && TagLen([c]) == 0;
    assert s[..1] == [c] && s[1..] == rest;
    assert Lex(s, d, true) == Keep([c], Lex(rest, d, true));
  }

  lemma DropFlat(s: string, n: nat, rest: string, d: Dialect)
    requires n <= |s| && DropLen(s, d) == n > 0 && s[n..] == rest
    ensures Flat(Lex(s, d, true), d) == " " + Flat(Lex(rest, d, true), d)
  {}

  lemma LineFlat(opener: string, text: string, newline: char, rest: string, s: string, d: Dialect)
    requires opener in {"--", "#"} && NoNewline(text) && newline in {'\n', '\r'} && s == opener + text + ([newline] + rest)
    ensures Flat(Lex(s, d, true), d) == " " + ([newline] + Flat(Lex(rest, d, true), d))
  {
    var u := [newline] + rest;
    LineDropLen(s, opener, text, u, d);
    DropFlat(s, |opener + text|, u, d);
    SpaceFlat(newline, rest, d);
  }

  lemma BlockFlat(inside: string, rest: string, s: string, d: Dialect)
    requires IsBlockEnd(inside, d) && s == "/*" + inside + rest
    ensures Flat(Lex(s, d, true), d) == " " + Flat(Lex(rest, d, true), d)
  {
    BlockDropLen(s, inside, rest, d);
    DropFlat(s, 2 + |inside|, rest, d);
  }

  lemma FillerFlat(f: Filler, rest: string, d: Dialect) returns (w: string)
    requires IsFiller(f, d)
    ensures AllSpace(w) && w != "" && Flat(Lex(FillerText(f) + rest, d, true), d) == w + Flat(Lex(rest, d, true), d)
  {
    var s := FillerText(f) + rest;
    match f
    case White(c) =>
      w := [c];
      SpaceFlat(c, rest, d);
    case Line(opener, text, newline) =>
      w := " " + [newline];
      Assoc(opener + text, [newline], rest);
      LineFlat(opener, text, newline, rest, s, d);
      Assoc(" ", [newline], Flat(Lex(rest, d, true), d));
    case Block(inside) =>
      w := " ";
      BlockFlat(inside, rest, s, d);
  }

  function GapText(fs: seq<Filler>): string {
    if fs == [] then "" else FillerText(fs[0]) + GapText(fs[1..])
  }

  predicate IsGap(fs: seq<Filler>, d: Dialect) {
    fs != [] && forall i :: 0 <= i < |fs| ==> IsFiller(fs[i], d)
  }

  lemma {:induction false} GapFlat(fs: seq<Filler>, rest: string, d: Dialect) returns (w: string)
    requires forall i :: 0 <= i < |fs| ==> IsFiller(fs[i], d)
    ensures AllSpace(w) && (fs != [] ==> w != "")
    ensures Flat(Lex(GapText(fs) + rest, d, true), d) == w + Flat(Lex(rest, d, true), d)
    decreases |fs|
  {
    if fs == [] {
      w := "";
      assert GapText(fs) + rest == rest;
    } else {
      var x := FillerFlat(fs[0], GapText(fs[1..]) + rest, d);
      var y := GapFlat(fs[1..], rest, d);
      Assoc(FillerText(fs[0]), GapText(fs[1..]), rest);
      Assoc(x, y, Flat(Lex(rest, d, true), d));
      w := x + y;
    }
  }

  /** The words with these gaps between them */
  function Spelled(words: seq<string>, gaps: seq<seq<Filler>>): string
    requires |words| == |gaps| + 1
  {
    if gaps == [] then words[0] else words[0] + (GapText(gaps[0]) + Spelled(words[1..], gaps[1..]))
  }

  lemma {:induction false} FieldsLeading(w: string, x: string)
    requires AllSpace(w)
    ensures Fields(w + x) == Fields(x)
    decreases |w|
  {
    if w == "" {
      assert w + x == x;
    } else {
      assert (w + x)[1..] == w[1..] + x;
      FieldsLeading(w[1..], x);
    }
  }

  lemma FieldsWord(w: string, gap: string, x: string)
    requires IsCodeWord(w) && AllSpace(gap) && (gap != "" || x == "")
    ensures Fields(w + (gap + x)) == [w] + Fields(x)
  {
    var s := w + (gap + x);
    WordLenUnique(s, |w|);
    assert s[..|w|] == w && s[|w|..] == gap + x;
    assert !IsSpace(s[0]) by { assert s[0] == w[0]; }
    FieldsLeading(gap, x);
  }

  lemma FourParts(w: string, gap: string, body: string, rest: string)
    ensures (w + (gap + body)) + rest == w + (gap + (body + rest))
  {}

  lemma WordAndGap(w: string, gap: seq<Filler>, body: string, rest: string, x: string, tail: string, d: Dialect) returns (y: string)
    requires IsCodeWord(w) && IsGap(gap, d)
    requires tail == Flat(Lex(rest, d, true), d) && Flat(Lex(body + rest, d, true), d) == x + tail
    ensures AllSpace(y) && y != ""
    ensures Flat(Lex((w + (GapText(gap) + body)) + rest, d, true), d) == (w + (y + x)) + tail
  {
    y := GapFlat(gap, body + rest, d);
    CodeFlat(w, GapText(gap) + (body + rest), d);
    FourParts(w, GapText(gap), body, rest);
    FourParts(w, y, x, tail);
  }

  lemma LastWord(w: string, rest: string, d: Dialect)
    requires IsCodeWord(w)
    ensures Flat(Lex(w + rest, d, true), d) == w + Flat(Lex(rest, d, true), d) && Fields(w) == [w]
  {
    CodeFlat(w, rest, d);
    FieldsWord(w, "", "");
    assert w + ("" + "") == w && Fields("") == [];
  }

  /** The words are what is left of them in the normal form. */
  lemma {:induction false} SpelledFlat(words: seq<string>, gaps: seq<seq<Filler>>, rest: string, d: Dialect) returns (b: string)
    requires |words| == |gaps| + 1 && AreCodeWords(words) && forall i :: 0 <= i < |gaps| ==> IsGap(gaps[i], d)
    ensures Flat(Lex(Spelled(words, gaps) + rest, d, true), d) == b + Flat(Lex(rest, d, true), d)
    ensures Fields(b) == words
    decreases |gaps|
  {
    var w := words[0];
    if gaps == [] {
      b := w;
      LastWord(w, rest, d);
      assert words == [w];
    } else {
      var body := Spelled(words[1..], gaps[1..]);
      var x := SpelledFlat(words[1..], gaps[1..], rest, d);
      var y := WordAndGap(w, gaps[0], body, rest, x, Flat(Lex(rest, d, true), d), d);
      b := w + (y + x);
      FieldsWord(w, y, x);
      assert words == [w] + words[1..];
    }
  }

  // ---- Patterns ----

  function SpaceGaps(n: nat): (gaps: seq<seq<Filler>>)
    ensures |gaps| == n && forall i :: 0 <= i < n ==> gaps[i] == [White(' ')]
  {
    seq(n, i => [White(' ')])
  }

  lemma {:induction false} JoinIsSpelled(words: seq<string>)
    requires words != []
    ensures Join(words, " ") == Spelled(words, SpaceGaps(|words| - 1))
    decreases |words|
  {
    if |words| > 1 {
      var gaps := SpaceGaps(|words| - 1);
      JoinIsSpelled(words[1..]);
      assert gaps[1..] == SpaceGaps(|words| - 2);
      assert GapText(gaps[0]) == " " by { assert GapText([]) == ""; }
      assert words[0] + " " + Join(words[1..], " ") == words[0] + (" " + Join(words[1..], " "));
    }
  }

  /** A pattern of single-spaced words is its own normal form. */
  lemma PatternNorm(words: seq<string>, d: Dialect)
    requires words != [] && AreCodeWords(words)
    ensures Norm(Join(words, " "), d) == Join(words, " ")
  {
    var p := Join(words, " ");
    JoinIsSpelled(words);
    var b := SpelledFlat(words, SpaceGaps(|words| - 1), "", d);
    assert p + "" == p && b + "" == b;
    NormFlat(p, d);
  }

  // ---- A text with the pattern's words in code ----

  function PieceLen(s: string, d: Dialect): (n: nat)
    requires s != ""
    ensures 1 <= n <= |s|
  {
    if DropLen(s, d) > 0 then DropLen(s, d) else KeepLen(s, true)
  }

  /** Position `i` lies between two tokens: not within a comment, a quoted string or a dollar quote. */
  predicate IsBoundary(s: string, i: nat, d: Dialect)
    requires i <= |s|
    decreases |s|
  {
    i == 0 || (PieceLen(s, d) <= i && IsBoundary(s[PieceLen(s, d)..], i - PieceLen(s, d), d))
  }

  lemma {:induction false} FlatFrom(s: string, i: nat, d: Dialect) returns (a: string)
    requires i <= |s| && IsBoundary(s, i, d)
    ensures Flat(Lex(s, d, true), d) == a + Flat(Lex(s[i..], d, true), d)
    decreases |s|
  {
    if i == 0 {
      a := "";
      assert s[0..] == s;
    } else {
      var n := PieceLen(s, d);
      var u := s[n..];
      var x := FlatFrom(u, i - n, d);
      assert u[i - n..] == s[i..];
      var head := FlatPiece(s, u, d);
      Assoc(head, x, Flat(Lex(s[i..], d, true), d));
      a := head + x;
    }
  }

  lemma FlatPiece(s: string, u: string, d: Dialect) returns (head: string)
    requires s != "" && u == s[PieceLen(s, d)..]
    ensures Flat(Lex(s, d, true), d) == head + Flat(Lex(u, d, true), d)
  {
    head := if DropLen(s, d) > 0 then " " else Words(s[..PieceLen(s, d)], d);
  }

  lemma UpperOccurs(s: string, t: string, k: int)
    requires Occurs(s, t, k)
    ensures Occurs(ToUpper(s), ToUpper(t), k)
  {
    assert ToUpper(s)[k..k + |t|] == ToUpper(t) by {
      forall i | 0 <= i < |t| ensures ToUpper(s)[k + i] == ToUpper(t)[i] {
        assert s[k + i] == s[k..k + |t|][i];
      }
    }
  }

  lemma {:induction false} UpperJoin(a: seq<string>, b: seq<string>)
    requires |a| == |b| && forall i :: 0 <= i < |a| ==> ToUpper(a[i]) == ToUpper(b[i])
    ensures ToUpper(Join(a, " ")) == ToUpper(Join(b, " "))
    decreases |a|
  {
    if |a| > 1 {
      UpperJoin(a[1..], b[1..]);
      UpperConcat(a[0] + " ", Join(a[1..], " "));
      UpperConcat(b[0] + " ", Join(b[1..], " "));
      UpperConcat(a[0], " ");
      UpperConcat(b[0], " ");
    }
  }

  lemma UpperConcat(a: string, b: string)
    ensures ToUpper(a + b) == ToUpper(a) + ToUpper(b)
  {}

  /** A text is always critical when somewhere outside comments and quotes it has the words of a pattern in sequence, in any letter
      case, with any white space and comments between them, whatever stands before and behind. */
  lemma CodeIsCritical(s: string, patterns: seq<string>, d: Dialect, pattern: seq<string>,
                       i: nat, words: seq<string>, gaps: seq<seq<Filler>>, behind: string)
    requires pattern != [] && AreCodeWords(pattern) && Join(pattern, " ") in patterns
    requires |words| == |pattern| == |gaps| + 1 && AreCodeWords(words)
    requires forall j :: 0 <= j < |words| ==> EqualFold(words[j], pattern[j])
    requires forall j :: 0 <= j < |gaps| ==> IsGap(gaps[j], d)
    requires i <= |s| && IsBoundary(s, i, d) && s[i..] == Spelled(words, gaps) + behind
    ensures IsAlwaysCritical(s, patterns, d)
  {
    var a := FlatFrom(s, i, d);
    var b := SpelledFlat(words, gaps, behind, d);
    NormFlat(s, d);
    SqueezeInside(a, b, Flat(Lex(behind, d, true), d));
    var k :| Occurs(Norm(s, d), Join(words, " "), k);
    UpperOccurs(Norm(s, d), Join(words, " "), k);
    forall j | 0 <= j < |words| ensures ToUpper(words[j]) == ToUpper(pattern[j]) {
      SameCase(words[j], pattern[j]);
    }
    UpperJoin(words, pattern);
    PatternNorm(pattern, d);
    OccursContains(UpperNorm(s, d), UpperNorm(Join(pattern, " "), d), k);
    JoinedNotEmpty(pattern);
    var m :| 0 <= m < |patterns| && patterns[m] == Join(pattern, " ");
    assert CriticalHit(s, patterns[m], d);
  }

  lemma JoinedNotEmpty(words: seq<string>)
    requires words != [] && AreCodeWords(words)
    ensures Join(words, " ") != ""
  {}

  lemma SameCase(a: string, b: string)
    requires EqualFold(a, b)
    ensures ToUpper(a) == ToUpper(b)
  {
    forall i | 0 <= i < |a| ensures Upper(a[i]) == Upper(b[i]) {
      assert ToLower(a)[i] == ToLower(b)[i];
    }
  }

  // ---- Dollar quotes ----

  lemma {:induction false} FieldsOfJoin(words: seq<string>)
    requires forall i :: 0 <= i < |words| ==> words[i] != "" && NoSpace(words[i])
    ensures Fields(Join(words, " ")) == words
    decreases |words|
  {
    if words == [] {
    } else {
      var w, rest := words[0], words[1..];
      assert words == [w] + rest;
      JoinFirst(w, rest);
      FieldsOfJoin(rest);
      if rest == [] {
        PlainWord(w, "");
        assert w + "" == w;
      } else {
        PlainWord(w, " " + Join(rest, " "));
        assert w + (" " + Join(rest, " ")) == w + " " + Join(rest, " ");
        assert (" " + Join(rest, " "))[1..] == Join(rest, " ");
      }
    }
  }

  lemma PlainWord(w: string, x: string)
    requires w != "" && NoSpace(w) && (x != "" ==> IsSpace(x[0]))
    ensures Fields(w + x) == [w] + Fields(x)
  {
    var s := w + x;
    assert s[0] == w[0];
    WordLenUnique(s, |w|);
    FieldsFirst(s);
    assert s[..|w|] == w && s[|w|..] == x;
  }

  lemma {:induction false} FieldsHaveNoSpace(s: string)
    ensures forall i :: 0 <= i < |Fields(s)| ==> Fields(s)[i] != "" && NoSpace(Fields(s)[i])
    decreases |s|
  {
    if s == "" {
    } else if IsSpace(s[0]) {
      FieldsHaveNoSpace(s[1..]);
    } else {
      FieldsHaveNoSpace(s[WordLen(s)..]);
    }
  }

  /** Squeezing twice is squeezing once. */
  lemma SqueezeTwice(s: string)
    ensures Squeeze(Squeeze(s)) == Squeeze(s)
  {
    FieldsHaveNoSpace(s);
    FieldsOfJoin(Fields(s));
  }

  lemma DollarFlat(s: string, t: string, behind: string, d: Dialect)
    requires s != "" && DropLen(s, d) == 0 && DollarLen(s) == |t| > 0 && s == t + behind
    ensures Flat(Lex(s, d, true), d) == " " + Norm(DollarBody(t), d) + " " + Flat(Lex(behind, d, true), d)
  {
    assert s[..|t|] == t && s[|t|..] == behind;
    DollarPiece(s, t);
  }

  lemma BodyInside(a: string, n: string, c: string)
    ensures exists k :: Occurs(Squeeze(a + (" " + n + " " + c)), Squeeze(n), k)
  {
    SqueezeInside(a + " ", n, " " + c);
    assert (a + " ") + (n + (" " + c)) == a + (" " + n + " " + c);
  }

  lemma BodyNormInside(s: string, d: Dialect, i: nat, t: string, behind: string) returns (k: int)
    requires i <= |s| && IsBoundary(s, i, d) && s[i..] == t + behind
    requires DropLen(s[i..], d) == 0 && DollarLen(s[i..]) == |t| > 0
    ensures Occurs(Norm(s, d), Norm(DollarBody(t), d), k)
  {
    var a := FlatFrom(s, i, d);
    DollarFlat(s[i..], t, behind, d);
    NormFlat(s, d);
    NormSqueezed(DollarBody(t), d);
    var n, rest := Norm(DollarBody(t), d), Flat(Lex(behind, d, true), d);
    BodyInside(a, n, rest);
    k :| Occurs(Squeeze(a + (" " + n + " " + rest)), Squeeze(n), k);
  }

  lemma NormSqueezed(s: string, d: Dialect)
    ensures Squeeze(Norm(s, d)) == Norm(s, d)
  {
    NormFlat(s, d);
    SqueezeTwice(Flat(Lex(s, d, true), d));
  }

  /** What a dollar quote holds is code: if its body is always critical, so is the text. */
  lemma DollarBodyIsCritical(s: string, patterns: seq<string>, d: Dialect, i: nat, t: string, behind: string)
    requires i <= |s| && IsBoundary(s, i, d) && s[i..] == t + behind
    requires DropLen(s[i..], d) == 0 && DollarLen(s[i..]) == |t| > 0
    requires IsAlwaysCritical(DollarBody(t), patterns, d)
    ensures IsAlwaysCritical(s, patterns, d)
  {
    var k := BodyNormInside(s, d, i, t, behind);
    var m :| 0 <= m < |patterns| && CriticalHit(DollarBody(t), patterns[m], d);
    HitCarries(s, DollarBody(t), patterns[m], d, k);
  }

  lemma HitCarries(s: string, body: string, pattern: string, d: Dialect, k: int)
    requires Occurs(Norm(s, d), Norm(body, d), k) && CriticalHit(body, pattern, d)
    ensures CriticalHit(s, pattern, d)
  {
    UpperOccurs(Norm(s, d), Norm(body, d), k);
    ContainsCarries(UpperNorm(s, d), UpperNorm(body, d), UpperNorm(pattern, d), k);
  }

  lemma ContainsCarries(n: string, b: string, p: string, k: int)
    requires Occurs(n, b, k) && Contains(b, p)
    ensures Contains(n, p)
  {
    OccursWithin(n, b, p, k, Index(b, p));
    OccursContains(n, p, k + Index(b, p));
  }

  // ---- A text with the pattern's words in quotes and comments only ----

  /** The text with spaces in the place of every comment and every quoted string, character for character */
  function Blanked(l: Lexed): string {
    match l
    case End => ""
    case Drop(t, r) => Spaces(|t|) + Blanked(r)
    case Keep(t, r) => (if t != "" && IsQuote(t[0]) then Spaces(|t|) else t) + Blanked(r)
  }

  function Spaces(n: nat): (s: string)
    ensures |s| == n && forall i :: 0 <= i < n ==> s[i] == ' '
  {
    seq(n, _ => ' ')
  }

  /** Position `i` of the text belongs to a comment or to a quoted string. */
  predicate IsHidden(l: Lexed, i: int) {
    match l
    case End => false
    case Drop(t, r) => if i < |t| then true else IsHidden(r, i - |t|)
    case Keep(t, r) => if i < |t| then t != "" && IsQuote(t[0]) else IsHidden(r, i - |t|)
  }

  lemma {:induction false} BlankedAt(l: Lexed, i: nat)
    requires i < |Source(l)|
    ensures |Blanked(l)| == |Source(l)|
    ensures Blanked(l)[i] == if IsHidden(l, i) then ' ' else Source(l)[i]
    decreases l
  {
    var t, r := l.text, l.rest;
    BlankedLength(l);
    if i >= |t| { BlankedAt(r, i - |t|); }
  }

  lemma {:induction false} BlankedLength(l: Lexed)
    ensures |Blanked(l)| == |Source(l)|
    decreases l
  {
    if !l.End? { BlankedLength(l.rest); }
  }

  lemma FieldsSpaces(p: string, n: nat, rest: string)
    requires n > 0
    ensures Fields(p + (Spaces(n) + rest)) == Fields(p + (" " + rest))
  {
    SpacesSplit(p, n, rest);
    SpacesSplit(p, 1, rest);
    assert Spaces(1) == " ";
  }

  lemma SpacesSplit(p: string, n: nat, rest: string)
    requires n > 0
    ensures Fields(p + (Spaces(n) + rest)) == Fields(p) + Fields(rest)
  {
    var more := Spaces(n - 1);
    assert p + (Spaces(n) + rest) == p + [' '] + (more + rest);
    FieldsSplit(p, ' ', more + rest);
    FieldsLeading(more, rest);
  }

  /** Without dollar quotes the normal form is made of what is not blanked. */
  lemma {:induction false} FieldsBlanked(p: string, l: Lexed, d: Dialect)
    requires NoDollarPieces(l) && WellFormed(l)
    ensures Fields(p + Flat(l, d)) == Fields(p + Blanked(l))
    decreases l, 0
  {
    match l
    case End =>
    case Drop(t, r) => BlankedPiece(p, t, r, d);
    case Keep(t, r) =>
      if t != "" && IsQuote(t[0]) {
        BlankedPiece(p, t, r, d);
      } else {
        FieldsBlanked(p + t, r, d);
        Assoc(p, t, Flat(r, d));
        Assoc(p, t, Blanked(r));
      }
  }

  lemma {:induction false} BlankedPiece(p: string, t: string, r: Lexed, d: Dialect)
    requires NoDollarPieces(r) && WellFormed(r) && t != ""
    ensures Fields(p + (" " + Flat(r, d))) == Fields(p + (Spaces(|t|) + Blanked(r)))
    decreases r, 1
  {
    FieldsBlanked(p + " ", r, d);
    Assoc(p, " ", Flat(r, d));
    Assoc(p, " ", Blanked(r));
    FieldsSpaces(p, |t|, Blanked(r));
  }

  lemma NormIsBlanked(s: string, d: Dialect)
    requires NoDollarPieces(Lex(s, d, true))
    ensures Norm(s, d) == Squeeze(Blanked(Lex(s, d, true)))
  {
    var l := Lex(s, d, true);
    NormFlat(s, d);
    LexSource(s, d, true);
    FieldsBlanked("", l, d);
    assert "" + Flat(l, d) == Flat(l, d) && "" + Blanked(l) == Blanked(l);
  }

  predicate NoSpace(x: string) {
    forall i :: 0 <= i < |x| ==> !IsSpace(x[i])
  }

  lemma {:induction false} SqueezeStart(s: string, x: string)
    requires NoSpace(x) && x <= Squeeze(s) && x != ""
    ensures exists k :: Occurs(s, x, k)
    ensures s != "" && !IsSpace(s[0]) ==> x <= s
    decreases |s|
  {
    if s == "" {
    } else {
      var c, u := s[0], s[1..];
      assert s == [c] + u;
      if IsSpace(c) {
        SqueezeSpace(c, u);
        SqueezeStart(u, x);
        var k :| Occurs(u, x, k);
        OccursBehind(s, x, k);
      } else {
        SqueezeStartWord(c, u, x);
        assert Occurs(s, x, 0) by { assert s[0..|x|] == x; }
      }
    }
  }

  lemma OccursBehind(s: string, x: string, k: int)
    requires s != "" && Occurs(s[1..], x, k)
    ensures Occurs(s, x, k + 1)
  {
    assert s[k + 1..k + 1 + |x|] == s[1..][k..k + |x|];
  }

  lemma OneLetter(c: char, u: string, x: string)
    requires NoSpace(x) && x != "" && (x <= [c] || x <= [c] + " " + Squeeze(u))
    ensures x == [c]
  {
    if |x| > 1 { SecondIsSpace(c, Squeeze(u), x); }
  }

  lemma SecondIsSpace(c: char, w: string, x: string)
    requires |x| > 1 && (x <= [c] || x <= [c] + " " + w)
    ensures x[1] == ' '
  {}

  lemma {:induction false} SqueezeStartWord(c: char, u: string, x: string)
    requires !IsSpace(c) && NoSpace(x) && x <= Squeeze([c] + u) && x != ""
    ensures x <= [c] + u
    decreases |u| + 1, 0
  {
    if u == "" || IsSpace(u[0]) {
      SqueezeAlone(c, u);
      OneLetter(c, u, x);
    } else {
      SqueezeJoined(c, u);
      var y := x[1..];
      assert y <= Squeeze(u) by { assert ([c] + Squeeze(u))[1..] == Squeeze(u); }
      if y != "" {
        SqueezeStartWord(u[0], u[1..], y) by { assert [u[0]] + u[1..] == u; }
        assert [u[0]] + u[1..] == u;
      }
      assert x == [c] + y;
    }
  }

  /** What has no white space and occurs in the squeezed text occurs in the text. */
  lemma {:induction false} SqueezeOccurs(s: string, x: string, k: int)
    requires NoSpace(x) && x != "" && Occurs(Squeeze(s), x, k)
    ensures exists j :: Occurs(s, x, j)
    decreases |s|
  {
    assert Squeeze("") == "";
    if s == "" {
    } else if k == 0 {
      assert x <= Squeeze(s);
      SqueezeStart(s, x);
    } else {
      var c, u := s[0], s[1..];
      assert s == [c] + u;
      var i := SqueezeLater(c, u, x, k);
      SqueezeOccurs(u, x, i);
      var j :| Occurs(u, x, j);
      OccursBehind(s, x, j);
    }
  }

  lemma SqueezeLater(c: char, u: string, x: string, k: int) returns (i: int)
    requires NoSpace(x) && x != "" && k > 0 && Occurs(Squeeze([c] + u), x, k)
    ensures Occurs(Squeeze(u), x, i)
  {
    var whole := Squeeze([c] + u);
    if IsSpace(c) {
      SqueezeSpace(c, u);
      i := k;
    } else if u == "" || IsSpace(u[0]) {
      SqueezeAlone(c, u);
      assert x[0] == whole[k];
      i := k - 2;
      assert Squeeze(u)[i..i + |x|] == whole[k..k + |x|];
    } else {
      SqueezeJoined(c, u);
      i := k - 1;
      assert Squeeze(u)[i..i + |x|] == whole[k..k + |x|];
    }
  }

  /** The words of the pattern occur in the pattern. */
  lemma {:induction false} WordInJoin(words: seq<string>, m: nat) returns (k: int)
    requires m < |words|
    ensures Occurs(Join(words, " "), words[m], k)
    decreases |words|
  {
    var p := Join(words, " ");
    if m == 0 {
      k := 0;
      assert p[0..|words[0]|] == words[0];
    } else {
      var i := WordInJoin(words[1..], m - 1);
      k := |words[0]| + 1 + i;
      var rest := Join(words[1..], " ");
      assert p == words[0] + " " + rest;
      assert p[k..k + |words[m]|] == rest[i..i + |words[m]|];
    }
  }

  lemma UnblankedPart(l: Lexed, s: string, x: string, j: int)
    requires Source(l) == s && NoSpace(x) && Occurs(Blanked(l), x, j)
    ensures j + |x| <= |s| && s[j..j + |x|] == x
    ensures forall i :: j <= i < j + |x| ==> !IsHidden(l, i)
  {
    var b := Blanked(l);
    BlankedLength(l);
    forall i | j <= i < j + |x|
      ensures !IsHidden(l, i) && s[i] == x[i - j]
    {
      BlankedAt(l, i);
      assert b[i] == b[j..j + |x|][i - j];
    }
  }

  /** An occurrence in the normal form, in any letter case, comes from an occurrence in the text that nothing hides. */
  lemma HitIsInCode(s: string, d: Dialect, w: string, k: int) returns (j: int)
    requires NoDollarPieces(Lex(s, d, true)) && IsCodeWord(w) && Occurs(UpperNorm(s, d), ToUpper(w), k)
    ensures 0 <= j && j + |w| <= |s| && EqualFold(s[j..j + |w|], w)
    ensures forall i :: j <= i < j + |w| ==> !IsHidden(Lex(s, d, true), i)
  {
    var l, n := Lex(s, d, true), Norm(s, d);
    LexSource(s, d, true);
    NormIsBlanked(s, d);
    var x := n[k..k + |w|];
    UpperPart(n, w, k, x);
    SqueezeOccurs(Blanked(l), x, k);
    j :| Occurs(Blanked(l), x, j);
    UnblankedPart(l, s, x, j);
    LowerFromUpper(x, w);
  }

  lemma UpperPart(n: string, w: string, k: int, x: string)
    requires IsCodeWord(w) && Occurs(ToUpper(n), ToUpper(w), k) && x == n[k..k + |w|]
    ensures ToUpper(x) == ToUpper(w) && NoSpace(x) && |x| == |w|
  {
    forall i | 0 <= i < |w| ensures Upper(x[i]) == Upper(w[i]) && !IsSpace(x[i]) {
      assert ToUpper(n)[k + i] == ToUpper(n)[k..k + |w|][i];
    }
  }

  lemma LowerFromUpper(a: string, b: string)
    requires ToUpper(a) == ToUpper(b)
    ensures EqualFold(a, b)
  {
    forall i | 0 <= i < |a| ensures Lower(a[i]) == Lower(b[i]) {
      assert ToUpper(a)[i] == ToUpper(b)[i];
    }
  }

  /** The word stands here, in some letter case. */
  predicate Stands(s: string, w: string, j: int) {
    0 <= j && j + |w| <= |s| && EqualFold(s[j..j + |w|], w)
  }

  /** Wherever the word stands, in whatever letter case, a comment or a quoted string has part of it. */
  ghost predicate OnlyHidden(s: string, d: Dialect, w: string) {
    forall j :: Stands(s, w, j) ==> exists i :: j <= i < j + |w| && IsHidden(Lex(s, d, true), i)
  }

  /** A text in which each pattern has a word that only comments and quoted strings contain is not always critical. */
  lemma HiddenIsNotCritical(s: string, patterns: seq<seq<string>>, d: Dialect)
    requires NoDollarPieces(Lex(s, d, true))
    requires forall k :: 0 <= k < |patterns| ==> AreCodeWords(patterns[k]) && patterns[k] != []
    requires forall k :: 0 <= k < |patterns| ==> exists m :: 0 <= m < |patterns[k]| && OnlyHidden(s, d, patterns[k][m])
    ensures !IsAlwaysCritical(s, Joins(patterns), d)
  {
    forall k | 0 <= k < |patterns| ensures !CriticalHit(s, Join(patterns[k], " "), d) {
      var m :| 0 <= m < |patterns[k]| && OnlyHidden(s, d, patterns[k][m]);
      HiddenIsNoHit(s, patterns[k], d, m);
    }
  }

  function Joins(patterns: seq<seq<string>>): (r: seq<string>)
    ensures |r| == |patterns| && forall k :: 0 <= k < |r| ==> r[k] == Join(patterns[k], " ")
  {
    seq(|patterns|, k requires 0 <= k < |patterns| => Join(patterns[k], " "))
  }

  /** A hit puts every word of the pattern into the upper-case normal form. */
  lemma HitHasWord(s: string, pattern: seq<string>, d: Dialect, m: nat) returns (k: int)
    requires AreCodeWords(pattern) && m < |pattern| && CriticalHit(s, Join(pattern, " "), d)
    ensures Occurs(UpperNorm(s, d), ToUpper(pattern[m]), k)
  {
    var p := Join(pattern, " ");
    PatternNorm(pattern, d);
    var i := WordInJoin(pattern, m);
    k := WordOfHit(UpperNorm(s, d), p, pattern[m], i);
  }

  lemma WordOfHit(n: string, p: string, w: string, i: int) returns (k: int)
    requires Contains(n, ToUpper(p)) && Occurs(p, w, i)
    ensures Occurs(n, ToUpper(w), k)
  {
    UpperOccurs(p, w, i);
    OccursWithin(n, ToUpper(p), ToUpper(w), Index(n, ToUpper(p)), i);
    k := Index(n, ToUpper(p)) + i;
  }

  lemma HitIsNotHidden(s: string, pattern: seq<string>, d: Dialect, m: nat)
    requires NoDollarPieces(Lex(s, d, true)) && AreCodeWords(pattern) && m < |pattern|
    requires CriticalHit(s, Join(pattern, " "), d)
    ensures !OnlyHidden(s, d, pattern[m])
  {
    var k := HitHasWord(s, pattern, d, m);
    var j := HitIsInCode(s, d, pattern[m], k);
    assert Stands(s, pattern[m], j);
  }

  lemma HiddenIsNoHit(s: string, pattern: seq<string>, d: Dialect, m: nat)
    requires NoDollarPieces(Lex(s, d, true)) && AreCodeWords(pattern) && m < |pattern| && OnlyHidden(s, d, pattern[m])
    ensures !CriticalHit(s, Join(pattern, " "), d)
  {
    if CriticalHit(s, Join(pattern, " "), d) {
      HitIsNotHidden(s, pattern, d, m);
    }
  }

  lemma OccursWithin(n: string, p: string, w: string, k: int, i: int)
    requires Occurs(n, p, k) && Occurs(p, w, i)
    ensures Occurs(n, w, k + i)
  {
    SliceOfSlice(n, k, k + |p|, i, i + |w|);
  }
}
