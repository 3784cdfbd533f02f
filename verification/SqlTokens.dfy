/** The lexical shape of migration text, shared by the stripper, the policy
    normaliser and the splitter: at a position outside quotes the text continues
    either with something that is dropped (a comment, or a delimiter of a MySQL
    executable comment) or with a piece that is kept whole (a quoted string, a
    PostgreSQL dollar-quoted string, or one character). */
module SqlTokens {
  import opened Text

  datatype Dialect = Postgres | MySql | Other

  function DialectOf(engine: string): Dialect {
    if EqualFold(engine, "mysql") || EqualFold(engine, "mariadb") then MySql
    else if EqualFold(engine, "postgres") || EqualFold(engine, "postgresql") || engine == "" then Postgres
    else Other
  }

  /** The engine names, in any letter case; no name means PostgreSQL. */
  lemma EngineNames(engine: string)
    ensures EqualFold(engine, "mysql") || EqualFold(engine, "mariadb") ==> DialectOf(engine) == MySql
    ensures EqualFold(engine, "postgres") || EqualFold(engine, "postgresql") || engine == "" ==> DialectOf(engine) == Postgres
    ensures EqualFold(engine, "sqlite") ==> DialectOf(engine) == Other
  {
    var my, maria, pg, pgsql, lite := "mysql", "mariadb", "postgres", "postgresql", "sqlite";
    assert |my| == 5 && |maria| == 7 && |pg| == 8 && |pgsql| == 10 && |lite| == 6;
    assert |engine| == 0 ==> |ToLower(engine)| == 0;
  }

  predicate IsNewline(c: char) { c == '\n' || c == '\r' }

  predicate IsDigit(c: char) { '0' <= c <= '9' }

  predicate IsTagChar(c: char) { c == '_' || 'a' <= c <= 'z' || 'A' <= c <= 'Z' || IsDigit(c) }

  predicate IsQuote(c: char) { c == '\'' || c == '"' || c == '`' }

  function LineRun(s: string): (n: nat)
    ensures n <= |s|
  {
    if s == "" || IsNewline(s[0]) then 0 else 1 + LineRun(s[1..])
  }

  function DigitRun(s: string): (n: nat)
    ensures n <= |s|
  {
    if s == "" || !IsDigit(s[0]) then 0 else 1 + DigitRun(s[1..])
  }

  function TagRun(s: string): (n: nat)
    ensures n <= |s|
    ensures forall i :: 0 <= i < n ==> IsTagChar(s[i])
    ensures n < |s| ==> !IsTagChar(s[n])
  {
    if s == "" || !IsTagChar(s[0]) then 0 else 1 + TagRun(s[1..])
  }

  /** Length of the rest of a PostgreSQL block comment that is `depth` levels open. */
  function NestedRest(s: string, depth: nat): (n: nat)
    ensures n <= |s|
    decreases |s|
  {
    if s == "" || depth == 0 then 0
    else if "/*" <= s then 2 + NestedRest(s[2..], depth + 1)
    else if "*/" <= s then 2 + NestedRest(s[2..], depth - 1)
    else 1 + NestedRest(s[1..], depth)
  }

  /** Length of the rest of a block comment that does not nest. */
  function BlockRest(s: string): (n: nat)
    ensures n <= |s|
    decreases |s|
  {
    if s == "" then 0 else if "*/" <= s then 2 else 1 + BlockRest(s[1..])
  }

  /** How much of `s` is dropped at its start; 0 when `s` starts with a kept piece. */
  function DropLen(s: string, d: Dialect): (n: nat)
    ensures n <= |s|
  {
    if s == "" then 0
    else if s[0] == '#' then 1 + LineRun(s[1..])
    else if "--" <= s then 2 + LineRun(s[2..])
    else if d.MySql? && "/*!" <= s then 3 + DigitRun(s[3..])
    else if "/*" <= s then 2 + (if d.Postgres? then NestedRest(s[2..], 1) else BlockRest(s[2..]))
    else if d.MySql? && "*/" <= s then 2
    else 0
  }

  /** Two characters inside a quoted string that are read together: a doubled quote, or an escape. */
  predicate QuotePair(s: string, q: char) {
    |s| > 1 && ((s[0] == q && s[1] == q) || (s[0] == '\\' && q == '\''))
  }

  /** Length of the rest of a quoted string after its opening quote `q`. */
  function QuoteRest(s: string, q: char): (n: nat)
    ensures n <= |s|
    decreases |s|
  {
    if s == "" then 0
    else if QuotePair(s, q) then 2 + QuoteRest(s[2..], q)
    else if s[0] == q then 1
    else 1 + QuoteRest(s[1..], q)
  }

  /** Length of the tag `$name$` at the start of `s`, or 0. */
  function TagLen(s: string): (n: nat)
    ensures n <= |s|
    ensures n > 0 ==> n >= 2 && s[0] == '$' && s[n - 1] == '$' && forall i :: 1 <= i < n - 1 ==> IsTagChar(s[i])
  {
    if s == "" || s[0] != '$' then 0
    else
      var e := 1 + TagRun(s[1..]);
      if e < |s| && s[e] == '$' then
        assert forall i :: 1 <= i < e ==> s[i] == s[1..][i - 1];
        e + 1
      else 0
  }

  /** Length of the dollar-quoted string at the start of `s`, or 0 when its tag never closes. */
  function DollarLen(s: string): (n: nat)
    ensures n <= |s|
    ensures n > 0 ==> TagLen(s) > 0 && n >= 2 * TagLen(s) && s[n - 1] == '$'
  {
    var t := TagLen(s);
    if t == 0 then 0
    else
      var k := Index(s[t..], s[..t]);
      if k < 0 then 0
      else
        assert s[t..][k..k + t][t - 1] == s[t - 1];
        t + k + t
  }

  /** Length of the piece kept whole at the start of a non-empty `s`. */
  function KeepLen(s: string, dollars: bool): (n: nat)
    requires s != ""
    ensures 1 <= n <= |s|
  {
    if dollars && DollarLen(s) > 0 then DollarLen(s)
    else if IsQuote(s[0]) then 1 + QuoteRest(s[1..], s[0])
    else 1
  }

  /** A text cut into what is dropped and what is kept. */
  datatype Lexed = End | Drop(text: string, rest: Lexed) | Keep(text: string, rest: Lexed)

  /** `dollars` says whether dollar quotes are recognised. */
  function Lex(s: string, d: Dialect, dollars: bool): Lexed
    decreases |s|
  {
    if s == "" then End
    else if DropLen(s, d) > 0 then Drop(s[..DropLen(s, d)], Lex(s[DropLen(s, d)..], d, dollars))
    else Keep(s[..KeepLen(s, dollars)], Lex(s[KeepLen(s, dollars)..], d, dollars))
  }

  function Source(l: Lexed): string {
    match l
    case End => ""
    case Drop(t, r) => t + Source(r)
    case Keep(t, r) => t + Source(r)
  }

  predicate WellFormed(l: Lexed) {
    match l
    case End => true
    case Drop(t, r) => t != "" && WellFormed(r)
    case Keep(t, r) => t != "" && WellFormed(r)
  }

  lemma {:induction false} LexSource(s: string, d: Dialect, dollars: bool)
    ensures Source(Lex(s, d, dollars)) == s && WellFormed(Lex(s, d, dollars))
    decreases |s|
  {
    if s == "" {
    } else {
      var n := if DropLen(s, d) > 0 then DropLen(s, d) else KeepLen(s, dollars);
      LexSource(s[n..], d, dollars);
      assert s[..n] + s[n..] == s;
    }
  }

  /** A kept piece that is a dollar-quoted string. */
  predicate IsDollarPiece(t: string) {
    |t| > 1 && t[0] == '$'
  }

  /** No dollar quote closes at any position that the scanners look at. */
  predicate NoDollarPieces(l: Lexed) {
    match l
    case End => true
    case Drop(_, r) => NoDollarPieces(r)
    case Keep(t, r) => !IsDollarPiece(t) && NoDollarPieces(r)
  }

  /** The rest of the quoted string has its closing quote. */
  predicate QuoteCloses(s: string, q: char)
    decreases |s|
  {
    s != "" &&
    if QuotePair(s, q) then QuoteCloses(s[2..], q)
    else s[0] == q || QuoteCloses(s[1..], q)
  }

  lemma {:induction false} QuoteUnclosed(s: string, q: char)
    requires !QuoteCloses(s, q)
    ensures QuoteRest(s, q) == |s|
    decreases |s|
  {
    if s != "" {
      QuoteUnclosed(if QuotePair(s, q) then s[2..] else s[1..], q);
    }
  }

  lemma {:induction false} QuoteClosed(s: string, q: char)
    requires QuoteCloses(s, q)
    ensures 0 < QuoteRest(s, q) && s[QuoteRest(s, q) - 1] == q
    ensures QuoteRest(s, q) < |s| ==> s[QuoteRest(s, q)] != q
    decreases |s|
  {
    if QuotePair(s, q) {
      QuoteClosed(s[2..], q);
    } else if s[0] != q {
      QuoteClosed(s[1..], q);
    }
  }

  /** A closed quote ends where it ends whatever follows, unless that is another quote character. */
  lemma {:induction false} QuoteStable(s: string, q: char, rest: string)
    requires QuoteCloses(s, q)
    requires rest == "" || rest[0] != q
    ensures QuoteRest(s[..QuoteRest(s, q)] + rest, q) == QuoteRest(s, q)
    decreases |s|
  {
    var n := QuoteRest(s, q);
    var u := s[..n] + rest;
    QuoteClosed(s, q);
    assert u[0] == s[0];
    if QuotePair(s, q) {
      QuoteStable(s[2..], q, rest);
      assert u[1] == s[1] && u[2..] == s[2..][..n - 2] + rest;
    } else if s[0] == q {
      assert |u| > 1 ==> u[1] == rest[0];
    } else {
      QuoteStable(s[1..], q, rest);
      assert u[1..] == s[1..][..n - 1] + rest;
    }
  }

  lemma TagLenUnique(s: string, n: nat)
    requires 2 <= n <= |s| && s[0] == '$' && s[n - 1] == '$'
    requires forall i :: 1 <= i < n - 1 ==> IsTagChar(s[i])
    ensures TagLen(s) == n
  {
    var t := s[1..];
    var r := TagRun(t);
    assert forall i :: 0 <= i < |t| ==> t[i] == s[i + 1];
    assert r >= n - 2;
    assert t[n - 2] == '$';
  }

  lemma TagLenSame(s: string, u: string)
    requires TagLen(s) > 0 && TagLen(s) <= |u| && s[..TagLen(s)] == u[..TagLen(s)]
    ensures TagLen(u) == TagLen(s)
  {
    var t := TagLen(s);
    assert forall i :: 0 <= i < t ==> u[i] == u[..t][i] == s[..t][i] == s[i];
    TagLenUnique(u, t);
  }

  lemma IndexOnPrefix(s: string, n: nat, rest: string, tag: string)
    requires Contains(s, tag) && n == Index(s, tag) + |tag|
    ensures Index(s[..n] + rest, tag) == Index(s, tag)
  {
    IndexPrefix(s, tag);
    IndexStable(s[..n], rest, tag);
  }

  /** A dollar-quoted string keeps its length when the text behind it changes. */
  lemma DollarStable(s: string, rest: string)
    requires DollarLen(s) > 0
    ensures DollarLen(s[..DollarLen(s)] + rest) == DollarLen(s)
  {
    var n, t := DollarLen(s), TagLen(s);
    var u := s[..n] + rest;
    assert u[..t] == s[..t];
    TagLenSame(s, u);
    IndexOnPrefix(s[t..], n - t, rest, s[..t]);
    assert u[t..] == s[t..][..n - t] + rest;
  }

  lemma DollarLonger(s: string, rest: string)
    requires DollarLen(s) > 0
    ensures DollarLen(s + rest) == DollarLen(s)
  {
    var n := DollarLen(s);
    DollarStable(s, s[n..] + rest);
    assert s[..n] + (s[n..] + rest) == s + rest;
  }

  /** Where no dollar quote closes it makes no difference whether they are recognised. */
  lemma {:induction false} LexNoDollars(s: string, d: Dialect)
    requires NoDollarPieces(Lex(s, d, true))
    ensures Lex(s, d, true) == Lex(s, d, false)
    decreases |s|
  {
    if s == "" {
    } else if DropLen(s, d) > 0 {
      LexNoDollars(s[DropLen(s, d)..], d);
    } else {
      assert DollarLen(s) == 0;
      LexNoDollars(s[KeepLen(s, true)..], d);
    }
  }

  /** A text without '$' has no dollar quotes. */
  lemma {:induction false} NoDollarCharacter(s: string, d: Dialect, dollars: bool)
    requires '$' !in s
    ensures NoDollarPieces(Lex(s, d, dollars))
    decreases |s|
  {
    if s == "" {
    } else if DropLen(s, d) > 0 {
      NoDollarCharacter(s[DropLen(s, d)..], d, dollars);
    } else {
      assert s[0] != '$';
      NoDollarCharacter(s[KeepLen(s, dollars)..], d, dollars);
    }
  }
}
