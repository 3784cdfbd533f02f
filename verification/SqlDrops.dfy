/** What comment stripping removes and what survives it, character by character. */
module SqlDrops {
  import opened Text
  import opened SqlTokens
  import opened SqlStrip

  // ---- Line comments ----

  predicate NoNewline(s: string) {
    '\n' !in s && '\r' !in s
  }

  /** The text is over, or goes on with a newline. */
  predicate AtNewline(s: string) {
    s == "" || s[0] == '\n' || s[0] == '\r'
  }

  lemma {:induction false} LineRunIs(c: string, rest: string)
    requires NoNewline(c) && AtNewline(rest)
    ensures LineRun(c + rest) == |c|
  {
    if c == "" {
      assert c + rest == rest;
    } else {
      assert (c + rest)[0] == c[0] && (c + rest)[1..] == c[1..] + rest;
      LineRunIs(c[1..], rest);
    }
  }

  lemma {:induction false} LineRunEnds(s: string)
    ensures NoNewline(s[..LineRun(s)]) && AtNewline(s[LineRun(s)..])
  {
    if s != "" && !IsNewline(s[0]) {
      var u := s[1..];
      LineRunEnds(u);
      assert s[..LineRun(s)] == [s[0]] + u[..LineRun(u)];
      assert s[LineRun(s)..] == u[LineRun(u)..];
    }
  }

  // ---- Block comments ----

  /** `c` brings a PostgreSQL comment from this many open levels to its very end: openers and closers balance, and not before. */
  predicate Closes(c: string, depth: nat)
    decreases |c|
  {
    if depth == 0 then c == ""
    else if "/*" <= c then Closes(c[2..], depth + 1)
    else if "*/" <= c then Closes(c[2..], depth - 1)
    else c != "" && Closes(c[1..], depth)
  }

  /** `s` never brings a comment that is open to its end. */
  predicate StaysOpen(s: string, depth: nat)
    decreases |s|
  {
    if depth == 0 then false
    else if "/*" <= s then StaysOpen(s[2..], depth + 1)
    else if "*/" <= s then StaysOpen(s[2..], depth - 1)
    else s == "" || StaysOpen(s[1..], depth)
  }

  lemma TwoThen(s: string, n: nat)
    requires 2 <= n <= |s|
    ensures s[..n][2..] == s[2..][..n - 2]
    ensures "/*" <= s[..n] <==> "/*" <= s
    ensures "*/" <= s[..n] <==> "*/" <= s
  {
    assert s[..n][..2] == s[..2];
  }

  /** A nested comment is read to its balancing closer, or else to the end of the text. */
  lemma {:induction false} NestedEnds(s: string, depth: nat)
    ensures var n := NestedRest(s, depth); Closes(s[..n], depth) || (n == |s| && StaysOpen(s, depth))
    decreases |s|
  {
    var n := NestedRest(s, depth);
    if s == "" || depth == 0 {
    } else if "/*" <= s {
      NestedEnds(s[2..], depth + 1);
      TwoThen(s, n);
    } else if "*/" <= s {
      NestedEnds(s[2..], depth - 1);
      TwoThen(s, n);
    } else {
      NestedEnds(s[1..], depth);
      assert s[..n][1..] == s[1..][..n - 1];
      assert !("/*" <= s[..n]) && !("*/" <= s[..n]) by { PrefixNotOpener(s, n); }
    }
  }

  lemma PrefixNotOpener(s: string, n: nat)
    requires n <= |s| && !("/*" <= s) && !("*/" <= s)
    ensures !("/*" <= s[..n]) && !("*/" <= s[..n])
  {
    if n >= 2 { TwoThen(s, n); }
  }

  /** What balances is read whole, whatever follows it. */
  lemma {:induction false} NestedIs(c: string, depth: nat, rest: string)
    requires Closes(c, depth)
    ensures NestedRest(c + rest, depth) == |c|
    decreases |c|
  {
    var s := c + rest;
    if depth == 0 {
    } else if "/*" <= c {
      assert s[..2] == c[..2] && s[2..] == c[2..] + rest;
      NestedIs(c[2..], depth + 1, rest);
    } else if "*/" <= c {
      assert s[..2] == c[..2] && s[2..] == c[2..] + rest;
      NestedIs(c[2..], depth - 1, rest);
    } else {
      ClosesLong(c, depth);
      assert s[..2] == c[..2] && s[1..] == c[1..] + rest;
      NestedIs(c[1..], depth, rest);
    }
  }

  /** It takes two characters to close a comment. */
  lemma {:induction false} ClosesLong(c: string, depth: nat)
    requires Closes(c, depth) && depth > 0
    ensures |c| >= 2
    decreases |c|
  {
    if !("/*" <= c) && !("*/" <= c) { ClosesLong(c[1..], depth); }
  }

  /** Elsewhere a comment is read to the first closer, or else to the end of the text. */
  lemma {:induction false} BlockEnds(s: string)
    ensures BlockRest(s) == if Contains(s, "*/") then Index(s, "*/") + 2 else |s|
    decreases |s|
  {
    var x := "*/";
    if s == "" {
      assert !Occurs(s, x, 0);
    } else if x <= s {
      assert s[0..2] == x;
      IndexUnique(s, x, 0);
    } else {
      BlockEnds(s[1..]);
      ShiftIndex(s, x);
    }
  }

  lemma ShiftIndex(s: string, x: string)
    requires s != "" && |x| == 2 && !(x <= s)
    ensures Contains(s, x) <==> Contains(s[1..], x)
    ensures Contains(s, x) ==> Index(s, x) == Index(s[1..], x) + 1
  {
    var u := s[1..];
    forall k: int | 0 <= k ensures Occurs(u, x, k) <==> Occurs(s, x, k + 1) {
      if k + 2 <= |u| { assert u[k..k + 2] == s[k + 1..k + 3]; }
    }
    assert !Occurs(s, x, 0) by { if |s| >= 2 { assert s[0..2] == s[..2]; } }
    if Contains(s, x) {
      var k := Index(s, x);
      assert Occurs(u, x, k - 1);
      OccursContains(u, x, k - 1);
    }
    if Contains(u, x) {
      var k := Index(u, x);
      assert forall j :: 0 <= j < k + 1 ==> !Occurs(s, x, j) by {
        forall j: int | 0 <= j < k + 1 ensures !Occurs(s, x, j) {
          if j > 0 { assert !Occurs(u, x, j - 1); }
        }
      }
      IndexUnique(s, x, k + 1);
    }
  }

  // ---- Every dropped piece ----

  /** A piece is dropped exactly where one of these begins, outside quotes. */
  predicate OpensDrop(s: string, d: Dialect) {
    (s != "" && s[0] == '#') || "--" <= s || "/*" <= s || (d.MySql? && "*/" <= s)
  }

  lemma DropIff(s: string, d: Dialect)
    ensures DropLen(s, d) > 0 <==> OpensDrop(s, d)
  {}

  /** `t`, with `rest` behind it, is a whole comment of one of the kinds, or a delimiter of a MySQL executable comment. */
  ghost predicate IsDropped(t: string, rest: string, d: Dialect) {
    || (t != "" && t[0] == '#' && NoNewline(t) && AtNewline(rest))
    || ("--" <= t && NoNewline(t) && AtNewline(rest))
    || (d.MySql? && "/*!" <= t && (forall i :: 3 <= i < |t| ==> '0' <= t[i] <= '9') &&
        (rest != "" ==> !('0' <= rest[0] <= '9')))
    || (d.MySql? && t == "*/")
    || ("/*" <= t && d.Postgres? && (Closes(t[2..], 1) || (rest == "" && StaysOpen(t[2..], 1))))
    || ("/*" <= t && !d.Postgres? && (if rest == "" && !Contains(t[2..], "*/") then true
                                     else |t| >= 4 && Contains(t[2..], "*/") && Index(t[2..], "*/") == |t| - 4))
  }

  lemma {:induction false} DigitRunEnds(s: string)
    ensures forall i :: 0 <= i < DigitRun(s) ==> '0' <= s[i] <= '9'
    ensures DigitRun(s) < |s| ==> !('0' <= s[DigitRun(s)] <= '9')
  {
    if s != "" && IsDigit(s[0]) {
      DigitRunEnds(s[1..]);
      assert forall i :: 1 <= i < DigitRun(s) ==> s[i] == s[1..][i - 1];
    }
  }

  lemma LineDropped(s: string, d: Dialect, k: nat)
    requires k <= |s| && NoNewline(s[..k])
    ensures var n := k + LineRun(s[k..]); n <= |s| && NoNewline(s[..n]) && AtNewline(s[n..])
  {
    var u := s[k..];
    var m := LineRun(u);
    LineRunEnds(u);
    assert s[..k + m] == s[..k] + u[..m];
    assert s[k + m..] == u[m..];
  }

  lemma BlockDropped(s: string)
    requires "/*" <= s
    ensures var n := 2 + BlockRest(s[2..]); var t, rest := s[..n], s[n..];
            if rest == "" && !Contains(t[2..], "*/") then true
            else |t| >= 4 && Contains(t[2..], "*/") && Index(t[2..], "*/") == |t| - 4
  {
    var u := s[2..];
    BlockEnds(u);
    var n := 2 + BlockRest(u);
    assert s[..n][2..] == u[..n - 2];
    if Contains(u, "*/") {
      IndexPrefix(u, "*/");
      assert u[..n - 2] == u[..Index(u, "*/") + 2];
    } else {
      assert u[..n - 2] == u;
    }
  }

  lemma ExecutableDropped(s: string)
    requires "/*!" <= s
    ensures var n := 3 + DigitRun(s[3..]);
            && n <= |s| && (forall i :: 3 <= i < n ==> '0' <= s[i] <= '9') && (n < |s| ==> !('0' <= s[n] <= '9'))
  {
    DigitRunEnds(s[3..]);
    assert forall i :: 3 <= i < |s| ==> s[i] == s[3..][i - 3];
  }

  lemma NestedDropped(s: string)
    requires "/*" <= s
    ensures var n := 2 + NestedRest(s[2..], 1); Closes(s[..n][2..], 1) || (s[n..] == "" && StaysOpen(s[..n][2..], 1))
  {
    var u := s[2..];
    var m := NestedRest(u, 1);
    NestedEnds(u, 1);
    assert s[..2 + m][2..] == u[..m];
    if m == |u| { assert u[..m] == u; }
  }

  /** What is dropped is a comment, whole and nothing but: a line comment up to its newline, a block comment up to its closer. */
  lemma DroppedIsComment(s: string, d: Dialect)
    requires DropLen(s, d) > 0
    ensures IsDropped(s[..DropLen(s, d)], s[DropLen(s, d)..], d)
  {
    if s[0] == '#' || "--" <= s {
      LineCommentDropped(s, d);
    } else if d.MySql? && "/*!" <= s {
      ExecutableDropped(s);
      assert s[..DropLen(s, d)][..3] == s[..3];
    } else if "/*" <= s {
      BlockCommentDropped(s, d);
    } else {
      assert s[..DropLen(s, d)] == "*/";
    }
  }

  lemma LineCommentDropped(s: string, d: Dialect)
    requires s != "" && (s[0] == '#' || "--" <= s)
    ensures IsDropped(s[..DropLen(s, d)], s[DropLen(s, d)..], d)
  {
    var t := s[..DropLen(s, d)];
    if s[0] == '#' {
      LineDropped(s, d, 1);
      assert t[0] == '#';
    } else {
      LineDropped(s, d, 2);
      assert t[..2] == s[..2];
    }
  }

  lemma BlockCommentDropped(s: string, d: Dialect)
    requires "/*" <= s && !(d.MySql? && "/*!" <= s)
    ensures IsDropped(s[..DropLen(s, d)], s[DropLen(s, d)..], d)
  {
    assert s[..DropLen(s, d)][..2] == s[..2];
    if d.Postgres? { NestedDropped(s); } else { BlockDropped(s); }
  }

  // ---- Every kept piece ----

  /** `t`, with `rest` behind it, is one character outside quotes, a quoted string up to its closing quote, or a dollar quote up to
      the first repetition of its tag. */
  ghost predicate IsKept(t: string, rest: string, d: Dialect, dollars: bool) {
    || (|t| == 1 && !IsQuoteChar(t[0]))
    || (t != "" && IsQuoteChar(t[0]) && (ClosesQuote(t[1..], rest, t[0]) || (rest == "" && !QuoteEnds(t[1..], t[0]))))
    || (dollars && t != "" && t[0] == '$' && exists k :: IsDollarQuote(t, k))
  }

  predicate IsQuoteChar(c: char) {
    c == '\'' || c == '"' || c == '`'
  }

  /** `v` reads on to a closing `q`: doubled quotes, and in single quotes escapes, are read in pairs. */
  predicate QuoteEnds(v: string, q: char)
    decreases |v|
  {
    if v == "" then false
    else if |v| > 1 && ((v[0] == q && v[1] == q) || (v[0] == '\\' && q == '\'')) then QuoteEnds(v[2..], q)
    else v[0] == q || QuoteEnds(v[1..], q)
  }

  /** `v` ends in the closing `q` of the string, and not before. */
  predicate ClosesQuote(v: string, rest: string, q: char)
    decreases |v|
  {
    if v == "" then false
    else if |v| > 1 && ((v[0] == q && v[1] == q) || (v[0] == '\\' && q == '\'')) then ClosesQuote(v[2..], rest, q)
    else if v[0] == q then |v| == 1 && (rest == "" || rest[0] != q)
    else ClosesQuote(v[1..], rest, q)
  }

  /** A tag of `k` characters at both ends, and nowhere else behind the first */
  predicate IsDollarQuote(t: string, k: int) {
    && 2 <= k && 2 * k <= |t| && t[0] == t[k - 1] == '$' && (forall i :: 1 <= i < k - 1 ==> IsTagChar(t[i]))
    && Occurs(t, t[..k], |t| - k) && forall j :: k <= j < |t| - k ==> !Occurs(t, t[..k], j)
  }

  lemma {:induction false} QuoteRestEnds(v: string, q: char)
    requires IsQuote(q)
    ensures var n := QuoteRest(v, q);
            ClosesQuote(v[..n], v[n..], q) || (n == |v| && !QuoteEnds(v, q))
    decreases |v|
  {
    var n := QuoteRest(v, q);
    if v == "" {
    } else if QuotePair(v, q) {
      QuoteRestEnds(v[2..], q);
      var m := n - 2;
      assert v[..n][2..] == v[2..][..m] && v[n..] == v[2..][m..];
    } else if v[0] == q {
      assert v[..1][0] == q;
    } else {
      QuoteRestEnds(v[1..], q);
      QuoteStep(v, q, n);
    }
  }

  lemma QuoteStep(v: string, q: char, n: nat)
    requires IsQuote(q) && v != "" && !QuotePair(v, q) && v[0] != q && 1 <= n <= |v|
    requires ClosesQuote(v[1..][..n - 1], v[n..], q) || (n == |v| && !QuoteEnds(v[1..], q))
    ensures ClosesQuote(v[..n], v[n..], q) || (n == |v| && !QuoteEnds(v, q))
  {
    var t := v[..n];
    assert t[1..] == v[1..][..n - 1];
  }

  lemma SameSlice(s: string, k: nat, n: nat, j: nat)
    requires k <= j && j + k <= n <= |s|
    ensures s[..n][j..j + k] == s[k..][j - k..j]
  {}

  lemma DollarKept(s: string)
    requires DollarLen(s) > 0
    ensures IsDollarQuote(s[..DollarLen(s)], TagLen(s))
  {
    var n, k := DollarLen(s), TagLen(s);
    var t, tag, u := s[..n], s[..k], s[k..];
    assert t[..k] == tag;
    assert n == k + Index(u, tag) + k;
    SameSlice(s, k, n, n - k);
    forall j: int | k <= j < n - k ensures !Occurs(t, tag, j) {
      if j + k <= n {
        SameSlice(s, k, n, j);
        assert !Occurs(u, tag, j - k);
      }
    }
  }

  lemma KeptIsPiece(s: string, d: Dialect, dollars: bool)
    requires s != ""
    ensures IsKept(s[..KeepLen(s, dollars)], s[KeepLen(s, dollars)..], d, dollars)
  {
    var n := KeepLen(s, dollars);
    var t := s[..n];
    assert t[0] == s[0];
    if dollars && DollarLen(s) > 0 {
      DollarKept(s);
    } else if IsQuote(s[0]) {
      QuoteRestEnds(s[1..], s[0]);
      var u := s[1..];
      assert t[1..] == u[..n - 1] && s[n..] == u[n - 1..];
      if n == |s| { assert t[1..] == u; }
    }
  }

  // ---- The whole text ----

  /** Every piece is one of these: dropped at the place of an opener, kept elsewhere. */
  ghost predicate Shaped(l: Lexed, d: Dialect, dollars: bool) {
    match l
    case End => true
    case Drop(t, r) => OpensDrop(Source(l), d) && IsDropped(t, Source(r), d) && Shaped(r, d, dollars)
    case Keep(t, r) => !OpensDrop(Source(l), d) && IsKept(t, Source(r), d, dollars) && Shaped(r, d, dollars)
  }

  /** The tokens are the text cut into comments and kept pieces, with nothing left out. */
  lemma {:induction false} TextIsShaped(s: string, d: Dialect, dollars: bool)
    ensures Source(Lex(s, d, dollars)) == s && Shaped(Lex(s, d, dollars), d, dollars)
    decreases |s|
  {
    LexSource(s, d, dollars);
    if s == "" {
    } else if DropLen(s, d) > 0 {
      var n := DropLen(s, d);
      DropIff(s, d);
      DroppedIsComment(s, d);
      LexSource(s[n..], d, dollars);
      TextIsShaped(s[n..], d, dollars);
    } else {
      var n := KeepLen(s, dollars);
      DropIff(s, d);
      KeptIsPiece(s, d, dollars);
      LexSource(s[n..], d, dollars);
      TextIsShaped(s[n..], d, dollars);
    }
  }

  // ---- What survives ----

  /** `e` is the kept pieces, whole and in order, with at most one space for each dropped piece. */
  predicate KeepsPieces(l: Lexed, e: string) {
    match l
    case End => e == ""
    case Drop(_, r) => KeepsPieces(r, e) || (e != "" && e[0] == ' ' && KeepsPieces(r, e[1..]))
    case Keep(t, r) => t <= e && KeepsPieces(r, e[|t|..])
  }

  lemma {:induction false} EmitKeepsPieces(l: Lexed, gap: bool)
    ensures KeepsPieces(l, Emit(l, gap))
    decreases l
  {
    match l
    case End =>
    case Drop(t, r) =>
      EmitKeepsPieces(r, false);
      assert (" " + Emit(r, false))[1..] == Emit(r, false);
    case Keep(t, r) =>
      EmitKeepsPieces(r, Gap(t));
      assert (t + Emit(r, Gap(t)))[|t|..] == Emit(r, Gap(t));
  }

  /** Stripping removes the comments, puts at most a space in the place of each, trims the ends, and keeps everything else. */
  lemma StripKeepsPieces(s: string, d: Dialect) returns (e: string)
    ensures KeepsPieces(Lex(s, d, d.Postgres?), e) && Strip(s, d) == TrimSpace(e)
  {
    e := Emit(Lex(s, d, d.Postgres?), false);
    EmitKeepsPieces(Lex(s, d, d.Postgres?), false);
  }

  // ---- A comment in front ----

  lemma TrimSpaceInFront(w: char, x: string)
    requires IsSpace(w)
    ensures TrimSpace([w] + x) == TrimSpace(x)
  {
    assert ([w] + x)[1..] == x;
  }

  /** Written with or without a gap before it, a text differs by a space at most. */
  lemma TrimGap(l: Lexed)
    ensures TrimSpace(Emit(l, true)) == TrimSpace(Emit(l, false))
  {
    if l.Drop? {
      TrimSpaceInFront(' ', Emit(l.rest, false));
    }
  }

  /** A line comment is removed up to its newline: the text behind it is stripped as if it stood alone. */
  lemma LineCommentStrips(opener: string, c: string, newline: char, rest: string, d: Dialect)
    requires opener in {"--", "#"} && NoNewline(c) && newline in {'\n', '\r'}
    ensures Strip(opener + c + [newline] + rest, d) == Strip(rest, d)
  {
    var dollars, s, u := d.Postgres?, opener + c + [newline] + rest, [newline] + rest;
    var n := |opener + c|;
    LineDropLen(s, opener, c, u, d);
    assert s[n..] == u && u[1..] == rest && u[..1] == [newline];
    assert DropLen(u, d) == 0 && KeepLen(u, dollars) == 1;
    var l := Lex(rest, d, dollars);
    assert Lex(u, d, dollars) == Keep([newline], l);
    assert Lex(s, d, dollars) == Drop(s[..n], Keep([newline], l));
    CommentThenNewline(s[..n], newline, l);
    TrimSpaceInFront(newline, Emit(l, true));
    TrimGap(l);
  }

  lemma CommentThenNewline(t: string, newline: char, l: Lexed)
    requires newline != ' '
    ensures Emit(Drop(t, Keep([newline], l)), false) == [newline] + Emit(l, true)
  {
    assert Gap([newline]);
  }

  lemma LineDropLen(s: string, opener: string, c: string, u: string, d: Dialect)
    requires opener in {"--", "#"} && NoNewline(c) && AtNewline(u) && s == opener + c + u
    ensures DropLen(s, d) == |opener + c|
  {
    LineRunIs(c, u);
    assert s[|opener|..] == c + u;
    assert s[..|opener|] == opener;
  }

  /** The inside of a block comment with its closer; in MySQL it is no executable comment. */
  predicate IsBlockEnd(c: string, d: Dialect) {
    && (if d.Postgres? then Closes(c, 1) else Contains(c, "*/") && Index(c, "*/") == |c| - 2)
    && (d.MySql? ==> c != "" && c[0] != '!')
  }

  /** A closed block comment is removed, and nothing behind it. */
  lemma BlockCommentStrips(c: string, rest: string, d: Dialect)
    requires IsBlockEnd(c, d)
    ensures Strip("/*" + c + rest, d) == Strip(rest, d)
  {
    var dollars, s := d.Postgres?, "/*" + c + rest;
    BlockDropLen(s, c, rest, d);
    assert s[2 + |c|..] == rest;
    var l := Lex(rest, d, dollars);
    assert Lex(s, d, dollars) == Drop(s[..2 + |c|], l);
  }

  lemma BlockDropLen(s: string, c: string, rest: string, d: Dialect)
    requires s == "/*" + c + rest && IsBlockEnd(c, d)
    ensures DropLen(s, d) == 2 + |c|
  {
    var u := c + rest;
    assert s[..2] == "/*" && s[2..] == u;
    BlockLong(c, d);
    assert d.MySql? ==> s[2] == c[0];
    if d.Postgres? {
      NestedIs(c, 1, rest);
    } else {
      BlockIs(c, rest);
    }
  }

  lemma BlockLong(c: string, d: Dialect)
    requires IsBlockEnd(c, d)
    ensures |c| >= 2
  {
    if d.Postgres? { ClosesLong(c, 1); }
  }

  lemma BlockIs(c: string, rest: string)
    requires Contains(c, "*/") && Index(c, "*/") == |c| - 2
    ensures BlockRest(c + rest) == |c|
  {
    IndexStable(c, rest, "*/");
    BlockEnds(c + rest);
  }
}
