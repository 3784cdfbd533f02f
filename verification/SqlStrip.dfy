/** internal/risk/parser.go: StripCommentsAndTransactionsForEngine. */
module SqlStrip {
  import opened Text
  import opened SqlTokens
  import opened SqlScan

  /** Something was written that does not end in a space, so a removal writes one. */
  predicate Gap(out: string) {
    out != "" && out[|out| - 1] != ' '
  }

  /** The text written for `l`; `gap` tells whether there is a gap before it. */
  function Emit(l: Lexed, gap: bool): string {
    match l
    case End => ""
    case Drop(_, r) => if gap then " " + Emit(r, false) else Emit(r, false)
    case Keep(t, r) => t + Emit(r, Gap(t))
  }

  function Strip(s: string, d: Dialect): string {
    TrimSpace(Emit(Lex(s, d, d.Postgres?), false))
  }

  // ---- Nothing new is formed across a removal ----

  predicate SpaceFree(x: string) {
    ' ' !in x
  }

  lemma OccursInside(a: string, b: string, c: string, x: string, k: int)
    requires Occurs(b, x, k)
    ensures Occurs(a + b + c, x, |a| + k)
  {
    assert (a + b + c)[|a| + k..|a| + k + |x|] == b[k..k + |x|];
  }

  /** A space-free word of `a`, a space and `b` lies in `a` or in `b`. */
  lemma OccursBeside(a: string, b: string, x: string, k: int)
    requires SpaceFree(x) && x != "" && Occurs(a + " " + b, x, k)
    ensures Occurs(a, x, k) || Occurs(b, x, k - |a| - 1)
  {
    var s := a + " " + b;
    assert forall j :: k <= j < k + |x| ==> s[j] == s[k..k + |x|][j - k] == x[j - k];
    assert s[|a|] == ' ';
    if k + |x| <= |a| {
      assert a[k..k + |x|] == s[k..k + |x|];
    } else {
      var j := k - |a| - 1;
      assert b[j..j + |x|] == s[k..k + |x|];
    }
  }

  /** Text put in where nothing or a space stands cuts no space-free word. */
  lemma OccursAround(p: string, t: string, b: string, x: string, k: int) returns (j: int)
    requires SpaceFree(x) && x != "" && Occurs(p + " " + b, x, k)
    ensures Occurs(p + (t + b), x, j)
  {
    OccursBeside(p, b, x, k);
    if Occurs(p, x, k) {
      OccursInside("", p, t + b, x, k);
      assert "" + p + (t + b) == p + (t + b);
      j := k;
    } else {
      j := |p + t| + (k - |p| - 1);
      OccursInside(p + t, b, "", x, k - |p| - 1);
      assert p + t + b + "" == p + (t + b);
    }
  }

  /** A space-free word of the output, read after `p`, was already a word of the input. */
  lemma {:induction false} NoNewWord(p: string, l: Lexed, gap: bool, x: string, k: int) returns (j: int)
    requires gap || !Gap(p)
    requires WellFormed(l) && x != "" && SpaceFree(x) && Occurs(p + Emit(l, gap), x, k)
    ensures Occurs(p + Source(l), x, j)
    decreases l
  {
    match l
    case End =>
      j := k;
    case Drop(t, r) =>
      if gap {
        assert p + Emit(l, gap) == (p + " ") + Emit(r, false);
        j := NoNewWord(p + " ", r, false, x, k);
        j := OccursAround(p, t, Source(r), x, j);
      } else {
        assert p + Emit(l, gap) == p + Emit(r, false);
        j := NoNewWord(p, r, false, x, k);
        j := NoNewWordNoGap(p, t, Source(r), x, j);
      }
    case Keep(t, r) =>
      assert p + Emit(l, gap) == (p + t) + Emit(r, Gap(t));
      j := NoNewWord(p + t, r, Gap(t), x, k);
      assert (p + t) + Source(r) == p + Source(l);
  }

  lemma NoNewWordNoGap(p: string, t: string, b: string, x: string, k: int) returns (j: int)
    requires !Gap(p) && SpaceFree(x) && x != "" && Occurs(p + b, x, k)
    ensures Occurs(p + (t + b), x, j)
  {
    if p == "" {
      assert p + b == b && t + b + "" == p + (t + b);
      OccursInside(t, b, "", x, k);
      j := |t| + k;
    } else {
      var q := p[..|p| - 1];
      assert p == q + " ";
      assert p + b == q + " " + b && p + (t + b) == q + ((" " + t) + b);
      j := OccursAround(q, " " + t, b, x, k);
    }
  }

  /** A space-free beginning of the output was the beginning of the input. */
  lemma {:induction false} NoNewPrefix(w: string, l: Lexed)
    requires WellFormed(l) && SpaceFree(w) && w <= Emit(l, true)
    ensures w <= Source(l)
    decreases l
  {
    var b := Emit(l, true);
    if w != "" {
      assert w[0] == b[0];
      var Keep(t, r) := l;
      var n := |t|;
      if |w| >= n {
        assert w[n - 1] == b[n - 1] == t[n - 1];
        assert w[n..] <= Emit(r, true);
        NoNewPrefix(w[n..], r);
        assert w == t + w[n..];
      } else {
        assert w == t[..|w|];
      }
    }
  }

  /** What follows a space-free beginning of the output contains no word that did not follow it in the input. */
  lemma {:induction false} NoNewTail(w: string, l: Lexed, x: string, k: int) returns (j: int)
    requires WellFormed(l) && SpaceFree(w) && w <= Emit(l, true) && w <= Source(l)
    requires x != "" && SpaceFree(x) && Occurs(Emit(l, true)[|w|..], x, k)
    ensures Occurs(Source(l)[|w|..], x, j)
    decreases l
  {
    var b, s := Emit(l, true), Source(l);
    if w == "" {
      assert "" + b == b[0..] && "" + s == s[0..];
      j := NoNewWord("", l, true, x, k);
    } else {
      assert w[0] == b[0];
      var Keep(t, r) := l;
      var n := |t|;
      if |w| >= n {
        assert w[n - 1] == b[n - 1] == t[n - 1];
        var v := w[n..];
        assert v <= Source(r) && v <= Emit(r, true);
        assert b[|w|..] == Emit(r, true)[|v|..];
        assert s[|w|..] == Source(r)[|v|..];
        j := NoNewTail(v, r, x, k);
      } else {
        var p := t[|w|..];
        assert b[|w|..] == p + Emit(r, Gap(t));
        assert s[|w|..] == p + Source(r);
        j := NoNewWord(p, r, Gap(t), x, k);
      }
    }
  }

  // ---- The output is lexed into the kept pieces again ----

  /** `l` with each removal replaced by the space it leaves. */
  function Cleaned(l: Lexed, gap: bool): Lexed {
    match l
    case End => End
    case Drop(_, r) => if gap then Keep(" ", Cleaned(r, false)) else Cleaned(r, false)
    case Keep(t, r) => Keep(t, Cleaned(r, Gap(t)))
  }

  /** After a piece that does not end in a space, the output goes on like the input, or with a space. */
  lemma EmitHead(l: Lexed)
    requires WellFormed(l)
    ensures var b := Emit(l, true); b == "" || b[0] == ' ' || (Source(l) != "" && b[0] == Source(l)[0])
  {}

  /** No comment opener is formed at the end of a kept piece. */
  lemma NoNewOpener(s: string, d: Dialect, n: nat, l: Lexed)
    requires 0 < n <= |s| && DropLen(s, d) == 0
    requires WellFormed(l) && Source(l) == s[n..]
    ensures DropLen(s[..n] + Emit(l, Gap(s[..n])), d) == 0
  {
    var u := s[..n] + Emit(l, Gap(s[..n]));
    EmitHead(l);
    assert u[0] == s[0];
    if n == 1 {
      if |u| > 1 && u[1] != ' ' && u[0] != ' ' {
        assert u[1] == s[n..][0] == s[1];
      }
    } else {
      assert u[1] == s[1];
    }
  }

  predicate IsTag(tag: string) {
    && |tag| >= 2 && tag[0] == '$' && tag[|tag| - 1] == '$'
    && forall i :: 1 <= i < |tag| - 1 ==> IsTagChar(tag[i])
  }

  lemma DollarTag(s: string) returns (tag: string, k: int)
    requires DollarLen(s) > 0
    ensures IsTag(tag) && tag <= s && Occurs(s[|tag|..], tag, k)
  {
    tag := s[..TagLen(s)];
    k := Index(s[|tag|..], tag);
  }

  lemma DollarOpens(s: string, tag: string, k: int)
    requires IsTag(tag) && tag <= s && Occurs(s[|tag|..], tag, k)
    ensures DollarLen(s) > 0
  {
    var t := |tag|;
    assert forall i :: 0 <= i < t ==> s[i] == tag[i];
    TagLenUnique(s, t);
    assert s[..t] == tag;
    OccursContains(s[t..], tag, k);
  }

  /** A '$' that opens no dollar quote in the input opens none in the output. */
  lemma NoNewDollarQuote(s: string, l: Lexed)
    requires s != "" && DollarLen(s) == 0
    requires WellFormed(l) && Source(l) == s[1..]
    ensures DollarLen(s[..1] + Emit(l, Gap(s[..1]))) == 0
  {
    var u := s[..1] + Emit(l, Gap(s[..1]));
    if DollarLen(u) > 0 {
      assert u[0] == s[0] == '$';
      var tag, k := DollarTag(u);
      assert u == "$" + Emit(l, true);
      var j := TagCarriesBack(s, l, u, tag, k);
      DollarOpens(s, tag, j);
    }
  }

  lemma TagCarriesBack(s: string, l: Lexed, u: string, tag: string, k: int) returns (j: int)
    requires s != "" && s[0] == '$' && u == "$" + Emit(l, true)
    requires WellFormed(l) && Source(l) == s[1..]
    requires IsTag(tag) && tag <= u && Occurs(u[|tag|..], tag, k)
    ensures tag <= s && Occurs(s[|tag|..], tag, j)
  {
    var t := |tag|;
    var w := tag[1..];
    assert w == u[1..t] == Emit(l, true)[..t - 1];
    NoNewPrefix(w, l);
    assert w == s[1..][..t - 1] == s[1..t];
    assert tag == [s[0]] + w == s[..t];
    assert u[t..] == Emit(l, true)[|w|..];
    j := NoNewTail(w, l, tag, k);
    assert s[t..] == Source(l)[|w|..];
  }

  lemma NoNewQuoteEnd(s: string, l: Lexed)
    requires s != "" && IsQuote(s[0])
    requires WellFormed(l) && Source(l) == s[1 + QuoteRest(s[1..], s[0])..]
    ensures var t := s[..1 + QuoteRest(s[1..], s[0])];
            QuoteRest((t + Emit(l, Gap(t)))[1..], s[0]) == |t| - 1
  {
    var q, v := s[0], s[1..];
    var n := QuoteRest(v, q);
    var t := s[..1 + n];
    var b := Emit(l, Gap(t));
    assert (t + b)[1..] == v[..n] + b;
    if QuoteCloses(v, q) {
      QuoteClosed(v, q);
      assert t[n] == v[n - 1] == q;
      EmitHead(l);
      QuoteStable(v, q, b);
    } else {
      QuoteUnclosed(v, q);
      assert s[1 + n..] == "" && l == End;
      assert (t + b)[1..] == v;
    }
  }

  lemma NoNewPiece(s: string, d: Dialect, dollars: bool, l: Lexed)
    requires s != "" && DropLen(s, d) == 0
    requires WellFormed(l) && Source(l) == s[KeepLen(s, dollars)..]
    ensures var t := s[..KeepLen(s, dollars)];
            KeepLen(t + Emit(l, Gap(t)), dollars) == |t|
  {
    var n := KeepLen(s, dollars);
    var t := s[..n];
    var b := Emit(l, Gap(t));
    assert (t + b)[0] == s[0];
    if dollars && DollarLen(s) > 0 {
      DollarStable(s, b);
    } else if IsQuote(s[0]) {
      NoNewQuoteEnd(s, l);
    } else if dollars {
      NoNewDollarQuote(s, l);
    }
  }

  lemma LexKeep(t: string, b: string, d: Dialect, dollars: bool)
    requires t != "" && DropLen(t + b, d) == 0 && KeepLen(t + b, dollars) == |t|
    ensures Lex(t + b, d, dollars) == Keep(t, Lex(b, d, dollars))
  {
    assert (t + b)[..|t|] == t && (t + b)[|t|..] == b;
  }

  lemma LexSpace(w: char, b: string, d: Dialect, dollars: bool)
    requires IsSpace(w)
    ensures Lex([w] + b, d, dollars) == Keep([w], Lex(b, d, dollars))
  {
    assert ([w] + b)[0] == w;
    LexKeep([w], b, d, dollars);
  }

  lemma RelexPiece(s: string, d: Dialect, dollars: bool)
    requires s != "" && DropLen(s, d) == 0
    ensures var t, l := s[..KeepLen(s, dollars)], Lex(s[KeepLen(s, dollars)..], d, dollars);
            Lex(t + Emit(l, Gap(t)), d, dollars) == Keep(t, Lex(Emit(l, Gap(t)), d, dollars))
  {
    var n := KeepLen(s, dollars);
    var t, l := s[..n], Lex(s[n..], d, dollars);
    LexSource(s[n..], d, dollars);
    NoNewOpener(s, d, n, l);
    NoNewPiece(s, d, dollars, l);
    LexKeep(t, Emit(l, Gap(t)), d, dollars);
  }

  /** Lexing the output gives the kept pieces of the input, with a space for each removal that left one. */
  lemma {:induction false} Relex(s: string, d: Dialect, dollars: bool, gap: bool)
    ensures Lex(Emit(Lex(s, d, dollars), gap), d, dollars) == Cleaned(Lex(s, d, dollars), gap)
    decreases |s|
  {
    var l := Lex(s, d, dollars);
    match l
    case End =>
    case Drop(t, r) =>
      var u := s[DropLen(s, d)..];
      Relex(u, d, dollars, false);
      assert r == Lex(u, d, dollars);
      if gap {
        assert Emit(l, gap) == [' '] + Emit(r, false);
        LexSpace(' ', Emit(r, false), d, dollars);
      }
    case Keep(t, r) =>
      var u := s[KeepLen(s, dollars)..];
      Relex(u, d, dollars, Gap(t));
      assert r == Lex(u, d, dollars);
      RelexPiece(s, d, dollars);
  }

  // ---- Stripping is a projection ----

  predicate NoDrops(l: Lexed) {
    match l
    case End => true
    case Drop(_, _) => false
    case Keep(_, r) => NoDrops(r)
  }

  lemma CleanedNoDrops(l: Lexed, gap: bool)
    ensures NoDrops(Cleaned(l, gap))
  {
    match l
    case End =>
    case Drop(_, r) => CleanedNoDrops(r, false);
    case Keep(t, r) => CleanedNoDrops(r, Gap(t));
  }

  lemma EmitNoDrops(l: Lexed, gap: bool)
    requires NoDrops(l)
    ensures Emit(l, gap) == Source(l)
  {}

  predicate SpacePieces(l: Lexed) {
    match l
    case End => true
    case Drop(_, _) => false
    case Keep(t, r) => |t| == 1 && IsSpace(t[0]) && SpacePieces(r)
  }

  /** `a` is `b` without the white space at its end, which may belong to an unclosed quote. */
  predicate Trimmed(a: Lexed, b: Lexed) {
    match (a, b)
    case (End, _) => SpacePieces(b)
    case (Keep(t, ra), Keep(u, rb)) =>
      (t == u && Trimmed(ra, rb)) || (t != "" && IsQuote(t[0]) && t <= u && ra.End? && rb.End?)
    case (_, _) => false
  }

  lemma {:induction false} SpacesLex(w: string, d: Dialect, dollars: bool)
    requires AllSpace(w)
    ensures SpacePieces(Lex(w, d, dollars))
  {
    if w != "" {
      assert w == [w[0]] + w[1..];
      LexSpace(w[0], w[1..], d, dollars);
      SpacesLex(w[1..], d, dollars);
    }
  }

  lemma QuoteLonger(v: string, w: string, q: char)
    requires QuoteCloses(v, q) && AllSpace(w) && IsQuote(q)
    ensures QuoteRest(v + w, q) == QuoteRest(v, q)
  {
    var n := QuoteRest(v, q);
    QuoteClosed(v, q);
    assert (v[n..] + w) == "" || (v[n..] + w)[0] != q;
    QuoteStable(v, q, v[n..] + w);
    assert v[..n] + (v[n..] + w) == v + w;
  }

  lemma {:induction false} SpacesLeaveOpen(w: string, q: char)
    requires AllSpace(w) && IsQuote(q)
    ensures !QuoteCloses(w, q)
  {
    if w != "" { SpacesLeaveOpen(w[1..], q); }
  }

  /** White space never closes a quote. */
  lemma {:induction false} QuoteStaysOpen(v: string, w: string, q: char)
    requires !QuoteCloses(v, q) && AllSpace(w) && IsQuote(q)
    ensures !QuoteCloses(v + w, q)
    decreases |v|
  {
    var u := v + w;
    if v == "" {
      assert u == w;
      SpacesLeaveOpen(w, q);
    } else if QuotePair(v, q) {
      QuoteStaysOpen(v[2..], w, q);
      assert u[2..] == v[2..] + w && u[1] == v[1];
    } else if |v| == 1 && QuotePair(u, q) {
      SpacesLeaveOpen(w[1..], q);
      assert u[2..] == w[1..];
    } else {
      QuoteStaysOpen(v[1..], w, q);
      assert u[1..] == v[1..] + w;
    }
  }

  lemma DollarShorter(x: string, w: string)
    requires AllSpace(w)
    ensures DollarLen(x + w) > 0 ==> DollarLen(x) > 0
  {
    var u := x + w;
    var n := DollarLen(u);
    assert forall i :: |x| <= i < |u| ==> IsSpace(u[i]);
    if n > 0 {
      assert u[n - 1] == '$';
      DollarStable(u, x[n..]);
      assert u[..n] + x[n..] == x;
    }
  }

  lemma TrimmedPiece(x: string, w: string, d: Dialect, dollars: bool)
    requires x != "" && AllSpace(w) && DropLen(x + w, d) == 0
    ensures DropLen(x, d) == 0
    ensures KeepLen(x, dollars) == KeepLen(x + w, dollars) ||
            (IsQuote(x[0]) && KeepLen(x, dollars) == |x| && KeepLen(x + w, dollars) == |x + w|)
  {
    var u := x + w;
    assert u[0] == x[0] && (|x| > 1 ==> u[1] == x[1]);
    DollarShorter(x, w);
    if dollars && DollarLen(x) > 0 {
      DollarLonger(x, w);
    } else if IsQuote(x[0]) {
      assert u[1..] == x[1..] + w;
      if QuoteCloses(x[1..], x[0]) {
        QuoteLonger(x[1..], w, x[0]);
      } else {
        QuoteStaysOpen(x[1..], w, x[0]);
        QuoteUnclosed(x[1..], x[0]);
        QuoteUnclosed(u[1..], x[0]);
      }
    }
  }

  lemma {:induction false} LexTrimmed(x: string, w: string, d: Dialect, dollars: bool)
    requires AllSpace(w) && NoDrops(Lex(x + w, d, dollars))
    ensures NoDrops(Lex(x, d, dollars)) && Trimmed(Lex(x, d, dollars), Lex(x + w, d, dollars))
    decreases |x|
  {
    var u := x + w;
    if x == "" {
      assert u == w;
      SpacesLex(w, d, dollars);
    } else {
      TrimmedPiece(x, w, d, dollars);
      var n := KeepLen(x, dollars);
      if KeepLen(u, dollars) == n {
        assert u[..n] == x[..n] && u[n..] == x[n..] + w;
        LexTrimmed(x[n..], w, d, dollars);
      } else {
        assert x[..n] <= u;
      }
    }
  }

  lemma {:induction false} LexTrimLeft(s: string, d: Dialect, dollars: bool)
    requires NoDrops(Lex(s, d, dollars))
    ensures NoDrops(Lex(TrimLeft(s), d, dollars))
  {
    if s != "" && IsSpace(s[0]) {
      assert s == [s[0]] + s[1..];
      LexSpace(s[0], s[1..], d, dollars);
      LexTrimLeft(s[1..], d, dollars);
    }
  }

  lemma TrimSpaceTwice(s: string)
    ensures TrimSpace(TrimSpace(s)) == TrimSpace(s)
  {
    var u := TrimLeft(s);
    var r := TrimRight(u);
    TrimLeftRest(s);
    TrimRightRest(u);
    if r != "" { assert r[0] == u[0]; }
    assert TrimLeft(r) == r;
    assert TrimRight(r) == r;
  }

  lemma TrimRightNoDrops(u: string, d: Dialect, dollars: bool)
    requires NoDrops(Lex(u, d, dollars))
    ensures NoDrops(Lex(TrimRight(u), d, dollars)) && Trimmed(Lex(TrimRight(u), d, dollars), Lex(u, d, dollars))
  {
    TrimRightRest(u);
    LexTrimmed(TrimRight(u), u[|TrimRight(u)|..], d, dollars);
  }

  lemma TrimNoDrops(e: string, d: Dialect, dollars: bool)
    requires NoDrops(Lex(e, d, dollars))
    ensures NoDrops(Lex(TrimSpace(e), d, dollars))
  {
    LexTrimLeft(e, d, dollars);
    TrimRightNoDrops(TrimLeft(e), d, dollars);
  }

  /** Everything in a stripped text is kept. */
  lemma StripNoDrops(s: string, d: Dialect)
    ensures NoDrops(Lex(Strip(s, d), d, d.Postgres?))
  {
    var l := Lex(s, d, d.Postgres?);
    Relex(s, d, d.Postgres?, false);
    CleanedNoDrops(l, false);
    TrimNoDrops(Emit(l, false), d, d.Postgres?);
  }

  /** Stripping an already stripped text changes nothing. */
  lemma StripIdempotent(s: string, d: Dialect)
    ensures Strip(Strip(s, d), d) == Strip(s, d)
  {
    var r := Strip(s, d);
    StripNoDrops(s, d);
    EmitNoDrops(Lex(r, d, d.Postgres?), false);
    LexSource(r, d, d.Postgres?);
    TrimSpaceTwice(Emit(Lex(s, d, d.Postgres?), false));
  }

  // ---- The scanner itself ----

  method WriteSpace(out: string) returns (r: string)
    ensures r == if Gap(out) then out + " " else out
  {
    r := out;
    if |out| > 0 && out[|out| - 1] != ' ' {
      r := r + " ";
    }
  }

  lemma LexDropAt(sql: string, i: nat, j: nat, d: Dialect, dollars: bool)
    requires i < j <= |sql| && j == i + DropLen(sql[i..], d)
    ensures Lex(sql[i..], d, dollars) == Drop(sql[i..j], Lex(sql[j..], d, dollars))
  {
    SliceAt(sql, i, j);
  }

  lemma LexKeepAt(sql: string, i: nat, j: nat, d: Dialect, dollars: bool)
    requires i < j <= |sql| && DropLen(sql[i..], d) == 0 && j == i + KeepLen(sql[i..], dollars)
    ensures Lex(sql[i..], d, dollars) == Keep(sql[i..j], Lex(sql[j..], d, dollars))
  {
    SliceAt(sql, i, j);
  }

  lemma EmitDropped(out: string, t: string, r: Lexed)
    ensures var out' := if Gap(out) then out + " " else out;
            out' + Emit(r, Gap(out')) == out + Emit(Drop(t, r), Gap(out))
  {}

  lemma EmitKept(out: string, t: string, r: Lexed)
    requires t != ""
    ensures (out + t) + Emit(r, Gap(out + t)) == out + Emit(Keep(t, r), Gap(out))
  {
    var e := Emit(r, Gap(t));
    assert Gap(out + t) == Gap(t) && Emit(Keep(t, r), Gap(out)) == t + e;
    Assoc(out, t, e);
  }

  method StripCommentsAndTransactionsForEngine(sql: string, engine: string) returns (r: string)
    ensures r == Strip(sql, DialectOf(engine))
  {
    var d := DialectOf(engine);
    var out := "";
    var i := 0;
    ghost var rest := Lex(sql, d, d.Postgres?);
    ghost var goal := Emit(rest, false);
    assert sql[0..] == sql;
    while i < |sql|
      invariant 0 <= i <= |sql| && rest == Lex(sql[i..], d, d.Postgres?)
      invariant out + Emit(rest, Gap(out)) == goal
      decreases |sql| - i
    {
      var j := ScanDropped(sql, i, d);
      if j > i {
        LexDropAt(sql, i, j, d, d.Postgres?);
        EmitDropped(out, sql[i..j], Lex(sql[j..], d, d.Postgres?));
        out := WriteSpace(out);
        i, rest := j, rest.rest;
        continue;
      }
      j := ScanKept(sql, i, d);
      LexKeepAt(sql, i, j, d, d.Postgres?);
      EmitKept(out, sql[i..j], Lex(sql[j..], d, d.Postgres?));
      out := out + sql[i..j];
      i, rest := j, rest.rest;
    }
    assert out == goal by {
      assert sql[i..] == "" && rest == End && out + "" == out;
    }
    r := TrimSpace(out);
  }

  /** The branches that copy: a dollar-quoted string, a quoted string, or one character. */
  method ScanKept(sql: string, i: nat, d: Dialect) returns (j: nat)
    requires i < |sql|
    ensures j == i + KeepLen(sql[i..], d.Postgres?) && i < j <= |sql|
  {
    if d.Postgres? && sql[i] == '$' {
      var closes, _, closeAt := ScanDollar(sql, i);
      if closes {
        return closeAt;
      }
    }
    assert sql[i..][1..] == sql[i + 1..];
    if sql[i] == '\'' || sql[i] == '"' || sql[i] == '`' {
      j := ScanQuote(sql, i);
    } else {
      j := i + 1;
    }
  }
}
