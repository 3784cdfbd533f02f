/** internal/risk/parser.go: SplitStatementsForEngine. */
module SqlSplit {
  import opened Text
  import opened SqlTokens
  import opened SqlStrip

  /** The splitter's quote flags: at most one is set. */
  datatype Mode = Code | Single | Double | Backtick | Dollar

  /** The text between the cuts. */
  datatype Cuts = Last(text: string) | Cut(text: string, rest: Cuts)

  /** `x` in front of the first segment */
  function AddTo(x: string, c: Cuts): Cuts {
    match c
    case Last(t) => Last(x + t)
    case Cut(t, r) => Cut(x + t, r)
  }

  /** The segments with the semicolons put back */
  function Rejoin(c: Cuts): string {
    match c
    case Last(t) => t
    case Cut(t, r) => t + ";" + Rejoin(r)
  }

  function ModeOf(q: char): Mode
    requires IsQuote(q)
  {
    if q == '\'' then Single else if q == '"' then Double else Backtick
  }

  /** Where the search for the second '$' of an opening tag stops. */
  function TagSearch(t: string, e: nat): (r: nat)
    requires 1 <= e <= 30
    ensures e <= r <= 30
    decreases |t| - e
  {
    if e < |t| && t[e] != '$' && e < 30 then TagSearch(t, e + 1) else e
  }

  /** Length of what the splitter takes for an opening tag at the start of `t`, or 0. */
  function OpenTag(t: string): (n: nat)
    ensures n <= |t|
  {
    if t == "" || t[0] != '$' then 0
    else
      var e := TagSearch(t, 1);
      if e < |t| && t[e] == '$' then e + 1 else 0
  }

  /** How one character outside dollar quotes changes the quote flags. */
  function Toggle(c: char, m: Mode): Mode {
    if !IsQuote(c) then m
    else if m == Code then ModeOf(c)
    else if m == ModeOf(c) then Code
    else m
  }

  /** One step of the splitter: how many characters it takes, the flags after them, and whether it cuts. */
  datatype Step = Step(len: nat, mode: Mode, cut: bool)

  function StepAt(t: string, pg: bool, m: Mode): (r: Step)
    requires t != ""
    ensures 1 <= r.len <= |t|
    ensures r.cut ==> r.len == 1 && t[0] == ';'
  {
    if pg && m == Code && OpenTag(t) > 0 then Step(OpenTag(t), Dollar, false)
    else if m == Dollar then Step(1, Dollar, false)
    else if m == Single && t[0] == '\\' && |t| > 1 then Step(2, Single, false)
    else Step(1, Toggle(t[0], m), m == Code && t[0] == ';')
  }

  function Segments(t: string, pg: bool, m: Mode): Cuts
    decreases |t|
  {
    if t == "" then Last("")
    else
      var step := StepAt(t, pg, m);
      var rest := Segments(t[step.len..], pg, step.mode);
      if step.cut then Cut("", rest) else AddTo(t[..step.len], rest)
  }

  // ---- Splitting conserves the text ----

  lemma RejoinAddTo(x: string, c: Cuts)
    ensures Rejoin(AddTo(x, c)) == x + Rejoin(c)
  {
    if c.Cut? {
      assert (x + c.text) + ";" + Rejoin(c.rest) == x + (c.text + ";" + Rejoin(c.rest));
    }
  }

  /** The segments joined by semicolons are the text, in every dialect. */
  lemma {:induction false} SegmentsConserve(t: string, pg: bool, m: Mode)
    ensures Rejoin(Segments(t, pg, m)) == t
    decreases |t|
  {
    if t != "" {
      var step := StepAt(t, pg, m);
      var rest := Segments(t[step.len..], pg, step.mode);
      SegmentsConserve(t[step.len..], pg, step.mode);
      if step.cut {
        assert "" + ";" + t[1..] == t;
      } else {
        RejoinAddTo(t[..step.len], rest);
        assert t[..step.len] + t[step.len..] == t;
      }
    }
  }

  // ---- Cuts are made at exactly the unquoted semicolons ----

  /** One kept piece: a semicolon of its own cuts, anything else goes on. */
  function CutOr(t: string, c: Cuts): Cuts {
    if t == ";" then Cut("", c) else AddTo(t, c)
  }

  /** The text cut at the semicolons that stand outside every quote. */
  function CodeSplit(l: Lexed): Cuts {
    match l
    case End => Last("")
    case Drop(t, r) => AddTo(t, CodeSplit(r))
    case Keep(t, r) => CutOr(t, CodeSplit(r))
  }

  lemma AddToTwice(x: string, y: string, c: Cuts)
    ensures AddTo(x, AddTo(y, c)) == AddTo(x + y, c)
  {
    assert x + (y + c.text) == (x + y) + c.text;
  }

  lemma Glue(v: string, k: nat, n: nat, c: Cuts)
    requires k <= n <= |v|
    ensures AddTo(v[..k], AddTo(v[k..][..n - k], c)) == AddTo(v[..n], c)
  {
    assert v[..k] + v[k..][..n - k] == v[..n];
    AddToTwice(v[..k], v[k..][..n - k], c);
  }

  lemma AddToInjective(x: string, a: Cuts, b: Cuts)
    ensures AddTo(x, a) == AddTo(x, b) <==> a == b
  {
    assert (x + a.text)[|x|..] == a.text && (x + b.text)[|x|..] == b.text;
  }

  /** Inside a quoted string an escape is taken in one step ... */
  lemma EscapeSegment(v: string, pg: bool)
    requires |v| > 1 && v[0] == '\\'
    ensures Segments(v, pg, Single) == AddTo(v[..2], Segments(v[2..], pg, Single))
  {
    assert StepAt(v, pg, Single) == Step(2, Single, false);
  }

  lemma OpenQuoteSegment(s: string, q: char, pg: bool)
    requires s != "" && IsQuote(q) && s[0] == q
    ensures Segments(s, pg, Code) == AddTo(s[..1], Segments(s[1..], pg, ModeOf(q)))
  {
    assert StepAt(s, pg, Code) == Step(1, ModeOf(q), false);
  }

  lemma CloseQuoteSegment(s: string, q: char, pg: bool)
    requires s != "" && IsQuote(q) && s[0] == q
    ensures Segments(s, pg, ModeOf(q)) == AddTo(s[..1], Segments(s[1..], pg, Code))
  {
    assert StepAt(s, pg, ModeOf(q)) == Step(1, Code, false);
  }

  lemma InQuoteSegment(s: string, q: char, pg: bool)
    requires s != "" && IsQuote(q) && s[0] != q && !QuotePair(s, q)
    ensures Segments(s, pg, ModeOf(q)) == AddTo(s[..1], Segments(s[1..], pg, ModeOf(q)))
  {
    assert StepAt(s, pg, ModeOf(q)) == Step(1, ModeOf(q), false);
  }

  /** ... and a doubled quote in two: the flags close and open again. */
  lemma DoubledSegment(v: string, u: string, w: string, q: char, pg: bool)
    requires IsQuote(q) && |v| > 1 && v[0] == q && u == v[1..] && u[0] == q && w == v[2..]
    ensures Segments(v, pg, ModeOf(q)) == AddTo(v[..2], Segments(w, pg, ModeOf(q)))
  {
    CloseQuoteSegment(v, q, pg);
    OpenQuoteSegment(u, q, pg);
    assert u[1..] == w;
    GlueOne(v, 2, Segments(v, pg, ModeOf(q)), Segments(u, pg, Code), Segments(w, pg, ModeOf(q)));
  }

  lemma QuoteStepSegment(v: string, q: char, pg: bool)
    requires IsQuote(q) && v != ""
    ensures QuotePair(v, q) ==> Segments(v, pg, ModeOf(q)) == AddTo(v[..2], Segments(v[2..], pg, ModeOf(q)))
    ensures !QuotePair(v, q) ==>
              Segments(v, pg, ModeOf(q)) == AddTo(v[..1], Segments(v[1..], pg, if v[0] == q then Code else ModeOf(q)))
  {
    if QuotePair(v, q) {
      if v[0] == q { DoubledSegment(v, v[1..], v[2..], q, pg); } else { EscapeSegment(v, pg); }
    } else if v[0] == q {
      CloseQuoteSegment(v, q, pg);
    } else {
      InQuoteSegment(v, q, pg);
    }
  }

  lemma NoSegments(v: string, pg: bool, m: Mode)
    requires v == ""
    ensures Segments(v, pg, m) == Last("") == AddTo(v, Last(""))
  {}

  /** `whole` reads `v`: `k` characters, then `middle`, which reads up to `n`, then `tail`. */
  lemma GlueAt(v: string, k: nat, n: nat, whole: Cuts, middle: Cuts, tail: Cuts)
    requires k <= n <= |v|
    requires whole == AddTo(v[..k], middle) && middle == AddTo(v[k..][..n - k], tail)
    ensures whole == AddTo(v[..n], tail)
  {
    Glue(v, k, n, tail);
  }

  /** The two cases of QuoteRest in which the string goes on: `k` characters are read, and `u` follows. */
  lemma QuoteGoesOn(v: string, q: char, k: nat, u: string, n: nat)
    requires v != "" && k == (if QuotePair(v, q) then 2 else 1) && u == v[k..]
    requires QuotePair(v, q) || v[0] != q
    requires n == QuoteRest(v, q)
    ensures n == k + QuoteRest(u, q)
  {}

  lemma GoesOnSegment(v: string, q: char, pg: bool, k: nat, u: string)
    requires IsQuote(q) && v != "" && (QuotePair(v, q) || v[0] != q)
    requires k == (if QuotePair(v, q) then 2 else 1) && u == v[k..]
    ensures Segments(v, pg, ModeOf(q)) == AddTo(v[..k], Segments(u, pg, ModeOf(q)))
  {
    QuoteStepSegment(v, q, pg);
  }

  /** Toggling the flags at every quote character leaves the quoted string where the stripper does; `w` is what follows it. */
  lemma {:induction false} QuoteSegment(v: string, q: char, pg: bool, n: nat, w: string)
    requires IsQuote(q) && n == QuoteRest(v, q) && w == v[n..]
    ensures Segments(v, pg, ModeOf(q)) == AddTo(v[..n], Segments(w, pg, Code))
    decreases |v|
  {
    if v == "" {
      NoSegments(v, pg, ModeOf(q));
      NoSegments(w, pg, Code);
    } else if !QuotePair(v, q) && v[0] == q {
      CloseQuoteSegment(v, q, pg);
    } else {
      var k := if QuotePair(v, q) then 2 else 1;
      var u := v[k..];
      QuoteGoesOn(v, q, k, u, n);
      assert u[n - k..] == w;
      QuoteSegment(u, q, pg, n - k, w);
      GoesOnSegment(v, q, pg, k, u);
      GlueAt(v, k, n, Segments(v, pg, ModeOf(q)), Segments(u, pg, ModeOf(q)), Segments(w, pg, Code));
    }
  }

  /** `whole` reads `s`: one character, then `middle`, which reads up to `n`, then `tail`. */
  lemma GlueOne(s: string, n: nat, whole: Cuts, middle: Cuts, tail: Cuts)
    requires 1 <= n <= |s|
    requires whole == AddTo(s[..1], middle) && middle == AddTo(s[1..][..n - 1], tail)
    ensures whole == AddTo(s[..n], tail)
  {
    Glue(s, 1, n, tail);
  }

  lemma QuotedTail(s: string, u: string, v: string, q: char, pg: bool, n: nat)
    requires IsQuote(q) && |s| >= 1 && u == s[1..] && n == 1 + QuoteRest(u, q) && v == s[n..]
    ensures Segments(u, pg, ModeOf(q)) == AddTo(u[..n - 1], Segments(v, pg, Code))
  {
    assert u[n - 1..] == v;
    QuoteSegment(u, q, pg, n - 1, v);
  }

  lemma QuotedSegment(s: string, u: string, v: string, q: char, pg: bool, n: nat)
    requires IsQuote(q) && |s| >= 1 && s[0] == q && u == s[1..] && n == 1 + QuoteRest(u, q) && v == s[n..]
    ensures Segments(s, pg, Code) == AddTo(s[..n], Segments(v, pg, Code))
  {
    OpenQuoteSegment(s, q, pg);
    QuotedTail(s, u, v, q, pg, n);
    GlueOne(s, n, Segments(s, pg, Code), Segments(u, pg, ModeOf(q)), Segments(v, pg, Code));
  }

  lemma KeptSegment(s: string, pg: bool, dollars: bool)
    requires s != "" && (s[0] == '$' ==> OpenTag(s) == 0 || !pg) && (dollars ==> DollarLen(s) == 0)
    ensures var n := KeepLen(s, dollars);
            Segments(s, pg, Code) == CutOr(s[..n], Segments(s[n..], pg, Code))
  {
    if IsQuote(s[0]) {
      var n := KeepLen(s, dollars);
      QuotedSegment(s, s[1..], s[n..], s[0], pg, n);
      assert s[..n][0] == s[0];
    } else {
      assert s[..1] == [s[0]] && KeepLen(s, dollars) == 1;
      assert StepAt(s, pg, Code) == Step(1, Code, s[0] == ';');
    }
  }

  predicate NoDollarStart(l: Lexed) {
    match l
    case End => true
    case Drop(_, r) => NoDollarStart(r)
    case Keep(t, r) => (t == "" || t[0] != '$') && NoDollarStart(r)
  }

  /** Outside PostgreSQL, and where no '$' stands outside quotes, the splitter cuts at exactly the unquoted semicolons. */
  lemma {:induction false} SplitAtCode(s: string, d: Dialect)
    requires NoDrops(Lex(s, d, d.Postgres?))
    requires !d.Postgres? || NoDollarStart(Lex(s, d, true))
    ensures Segments(s, d.Postgres?, Code) == CodeSplit(Lex(s, d, d.Postgres?))
    decreases |s|
  {
    var dollars := d.Postgres?;
    if s == "" {
    } else {
      var n := KeepLen(s, dollars);
      assert s[..n][0] == s[0];
      KeptSegment(s, dollars, dollars);
      SplitAtCode(s[n..], d);
    }
  }

  // ---- PostgreSQL: a dollar quote, once entered, is never left ----

  /** After an opening tag the splitter makes no further cut: the tag it compares against never matches. */
  lemma {:induction false} DollarNeverCloses(t: string, pg: bool)
    ensures Segments(t, pg, Dollar) == Last(t)
    decreases |t|
  {
    if t != "" {
      DollarNeverCloses(t[1..], pg);
      assert t[..1] + t[1..] == t;
    }
  }

  predicate NoSemicolon(l: Lexed) {
    match l
    case End => true
    case Drop(_, r) => NoSemicolon(r)
    case Keep(t, r) => t != ";" && NoSemicolon(r)
  }

  /** Every dollar quote has a tag that the splitter's bounded search can see. */
  predicate ShortTags(l: Lexed) {
    match l
    case End => true
    case Drop(_, r) => ShortTags(r)
    case Keep(t, r) => (IsDollarPiece(t) ==> TagLen(t) <= 31) && ShortTags(r)
  }

  /** No semicolon stands outside quotes at or after the first place where the splitter enters a dollar quote. */
  predicate NoSemicolonAfterDollar(l: Lexed) {
    match l
    case End => true
    case Drop(_, r) => NoSemicolonAfterDollar(r)
    case Keep(t, r) => if OpenTag(Source(l)) > 0 then NoSemicolon(l) else NoSemicolonAfterDollar(r)
  }

  lemma OneSegment(l: Lexed)
    ensures CodeSplit(l).Last? <==> NoSemicolon(l)
    ensures NoSemicolon(l) ==> CodeSplit(l) == Last(Source(l))
  {}

  lemma {:induction false} TagSearchFinds(t: string, e: nat, k: nat)
    requires 1 <= e <= k <= 30 && k < |t| && t[k] == '$'
    requires forall i :: e <= i < k ==> t[i] != '$'
    ensures TagSearch(t, e) == k
    decreases k - e
  {
    if e < k { TagSearchFinds(t, e + 1, k); }
  }

  lemma DollarPieceOpens(s: string)
    requires DollarLen(s) > 0 && TagLen(s) <= 31
    ensures OpenTag(s) > 0
  {
    TagSearchFinds(s, 1, TagLen(s) - 1);
  }

  lemma EntersDollar(s: string, l: Lexed)
    requires OpenTag(s) > 0 && Source(l) == s
    ensures Segments(s, true, Code) == CodeSplit(l) <==> NoSemicolon(l)
  {
    var k := OpenTag(s);
    DollarNeverCloses(s[k..], true);
    assert s[..k] + s[k..] == s;
    assert StepAt(s, true, Code) == Step(k, Dollar, false);
    assert Segments(s, true, Code) == Last(s);
    OneSegment(l);
  }

  lemma NoTagNoDollar(s: string)
    requires s != "" && OpenTag(s) == 0
    requires IsDollarPiece(s[..KeepLen(s, true)]) ==> TagLen(s[..KeepLen(s, true)]) <= 31
    ensures DollarLen(s) == 0
  {
    var n := KeepLen(s, true);
    if DollarLen(s) > 0 {
      assert s[..n][..TagLen(s)] == s[..TagLen(s)];
      TagLenSame(s, s[..n]);
      DollarPieceOpens(s);
    }
  }

  lemma CutOrInjective(t: string, a: Cuts, b: Cuts)
    ensures CutOr(t, a) == CutOr(t, b) <==> a == b
  {
    AddToInjective(t, a, b);
  }

  /** PostgreSQL: the splitter cuts at exactly the unquoted semicolons if and only if none of them comes
      at or after the first place where it enters a dollar quote. */
  lemma {:induction false} SplitAtCodePostgres(s: string)
    requires NoDrops(Lex(s, Postgres, true)) && ShortTags(Lex(s, Postgres, true))
    ensures Segments(s, true, Code) == CodeSplit(Lex(s, Postgres, true)) <==> NoSemicolonAfterDollar(Lex(s, Postgres, true))
    decreases |s|
  {
    var l := Lex(s, Postgres, true);
    LexSource(s, Postgres, true);
    if s == "" {
    } else if OpenTag(s) > 0 {
      EntersDollar(s, l);
    } else {
      var n := KeepLen(s, true);
      NoTagNoDollar(s);
      KeptSegment(s, true, true);
      SplitAtCodePostgres(s[n..]);
      CutOrInjective(s[..n], Segments(s[n..], true, Code), CodeSplit(l.rest));
    }
  }

  /** What SplitStatementsForEngine is given, outside PostgreSQL: it cuts every stripped text at exactly its unquoted semicolons. */
  lemma SplitStripped(s: string, d: Dialect)
    requires !d.Postgres?
    ensures Segments(Strip(s, d), false, Code) == CodeSplit(Lex(Strip(s, d), d, false))
  {
    StripNoDrops(s, d);
    SplitAtCode(Strip(s, d), d);
  }

  /** The same for PostgreSQL, with the exact condition. */
  lemma SplitStrippedPostgres(s: string)
    requires ShortTags(Lex(Strip(s, Postgres), Postgres, true))
    ensures var l := Lex(Strip(s, Postgres), Postgres, true);
            Segments(Strip(s, Postgres), true, Code) == CodeSplit(l) <==> NoSemicolonAfterDollar(l)
  {
    StripNoDrops(s, Postgres);
    SplitAtCodePostgres(Strip(s, Postgres));
  }

  // ---- A text on which the splitter misses its cut ----

  lemma DollarThenLex(s: string)
    requires |s| == 7 && s[0] == s[1] == s[3] == s[4] == '$' && s[2] == 'a' && s[5] == ';' && s[6] == 'b'
    ensures DollarLen(s) == 5
    ensures Lex(s, Postgres, true) == Keep(s[0..5], Keep(s[5..6], Keep(s[6..7], End)))
  {
    TagLenUnique(s, 2);
    var t := s[2..];
    assert t[1..3] == s[..2] && t[0..2] != s[..2] by { assert t[0..2][0] != s[0]; }
    assert Occurs(t, s[..2], 1) && !Occurs(t, s[..2], 0);
    LexKeepAt(s, 0, 5, Postgres, true) by { assert s[0..] == s; }
    LexKeepAt(s, 5, 6, Postgres, true);
    LexKeepAt(s, 6, 7, Postgres, true);
    assert s[0..] == s && s[7..] == "";
  }

  lemma ThreePieces(x: string, y: string, z: string, l: Lexed)
    requires l == Keep(x, Keep(y, Keep(z, End))) && x != "" && y != "" && z != ""
    ensures Emit(l, false) == x + (y + z)
  {
    assert Emit(Keep(z, End), Gap(y)) == z;
    assert Emit(Keep(y, Keep(z, End)), Gap(x)) == y + z;
  }

  lemma NothingStripped(s: string, x: string, y: string, z: string, l: Lexed)
    requires l == Keep(x, Keep(y, Keep(z, End))) && l == Lex(s, Postgres, true) && x != "" && y != "" && z != ""
    requires s == x + (y + z) && !IsSpace(s[0]) && !IsSpace(s[|s| - 1])
    ensures Strip(s, Postgres) == s
  {
    ThreePieces(x, y, z, l);
    assert TrimLeft(s) == s && TrimRight(s) == s;
  }

  lemma SevenParts(s: string)
    requires |s| == 7
    ensures s == s[0..5] + (s[5..6] + s[6..7]) && s[0..5] != "" && s[5..6] != "" && s[6..7] != ""
  {}

  lemma DollarSwallows(s: string)
    requires |s| == 7 && s[0] == s[1] == '$'
    ensures OpenTag(s) == 2 && Segments(s, true, Code) == Last(s)
  {
    assert TagSearch(s, 1) == 1;
    DollarNeverCloses(s[2..], true);
    assert StepAt(s, true, Code) == Step(2, Dollar, false);
    assert s[..2] + s[2..] == s;
  }

  /** Three pieces of which the second is a semicolon */
  lemma CutInTheMiddle(x: string, y: string, z: string, l: Lexed)
    requires l == Keep(x, Keep(y, Keep(z, End))) && |x| >= 2 && y == ";" && z != "" && z != ";"
    ensures CodeSplit(l) == Cut(x, Last(z)) && !NoSemicolon(l)
  {
    assert CodeSplit(Keep(z, End)) == Last(z) by { assert z + "" == z; }
    assert CodeSplit(Keep(y, Keep(z, End))) == Cut("", Last(z));
    assert x + "" == x;
  }

  /** `$$a$$;b` stays one segment, although its semicolon stands outside the dollar quote. */
  lemma DollarQuoteSwallowsCut(s: string)
    requires s == "$$a$$;b"
    ensures Strip(s, Postgres) == s
    ensures Segments(s, true, Code) == Last(s)
    ensures CodeSplit(Lex(s, Postgres, true)) == Cut(s[0..5], Last(s[6..7]))
    ensures !NoSemicolonAfterDollar(Lex(s, Postgres, true))
  {
    DollarThenLex(s);
    var l := Lex(s, Postgres, true);
    SevenParts(s);
    NothingStripped(s, s[0..5], s[5..6], s[6..7], l);
    DollarSwallows(s);
    LexSource(s, Postgres, true);
    CutInTheMiddle(s[0..5], s[5..6], s[6..7], l);
  }

  // ---- Tags of any length ----

  lemma {:induction false} NothingToCut(t: string, pg: bool, m: Mode)
    requires ';' !in t
    ensures Segments(t, pg, m) == Last(t)
    decreases |t|
  {
    if t != "" {
      var step := StepAt(t, pg, m);
      NothingToCut(t[step.len..], pg, step.mode);
      assert t[..step.len] + t[step.len..] == t;
    }
  }

  /** No semicolon at all comes at or after the first '$' outside quotes. */
  predicate NoSemicolonFromDollar(l: Lexed) {
    match l
    case End => true
    case Drop(_, r) => NoSemicolonFromDollar(r)
    case Keep(t, r) => if t != "" && t[0] == '$' then ';' !in Source(l) else NoSemicolonFromDollar(r)
  }

  lemma {:induction false} NoPieceCuts(l: Lexed)
    requires ';' !in Source(l)
    ensures NoSemicolon(l)
  {
    match l
    case End =>
    case Drop(t, r) => NoPieceCuts(r);
    case Keep(t, r) =>
      assert forall c :: c in Source(r) ==> c in Source(l);
      NoPieceCuts(r);
      assert t != "" ==> Source(l)[0] == t[0];
  }

  /** Whatever the length of its tags: a PostgreSQL text is cut at exactly its unquoted semicolons if all of them come before
      the first '$' outside quotes and no dollar quote holds one either. */
  lemma {:induction false} SplitBeforeDollar(s: string)
    requires NoDrops(Lex(s, Postgres, true)) && NoSemicolonFromDollar(Lex(s, Postgres, true))
    ensures Segments(s, true, Code) == CodeSplit(Lex(s, Postgres, true))
    decreases |s|
  {
    LexSource(s, Postgres, true);
    if s == "" {
    } else if s[0] == '$' {
      DollarFirst(s);
    } else {
      var n := KeepLen(s, true);
      assert s[..n][0] == s[0];
      KeptSegment(s, true, true);
      SplitBeforeDollar(s[n..]);
    }
  }

  lemma DollarFirst(s: string)
    requires s != "" && s[0] == '$' && NoDrops(Lex(s, Postgres, true)) && NoSemicolonFromDollar(Lex(s, Postgres, true))
    ensures Segments(s, true, Code) == CodeSplit(Lex(s, Postgres, true))
  {
    var l := Lex(s, Postgres, true);
    LexSource(s, Postgres, true);
    assert s[..KeepLen(s, true)][0] == '$';
    NothingToCut(s, true, Code);
    NoPieceCuts(l);
    OneSegment(l);
  }

  // ---- The splitter itself ----

  predicate IsIgnoredStatement(stmt: string) {
    var upper := ToUpper(TrimSpace(stmt));
    upper == "BEGIN" || upper == "COMMIT" || upper == "ROLLBACK" || upper == "BEGIN TRANSACTION" ||
    upper == "COMMIT TRANSACTION" || "SAVEPOINT " <= upper
  }

  function Statement(text: string): seq<string> {
    var stmt := TrimSpace(text);
    if stmt != "" && !IsIgnoredStatement(stmt) then [stmt] else []
  }

  /** `before` and the statements of the segments, in order */
  function Statements(before: seq<string>, c: Cuts): seq<string>
    decreases c
  {
    match c
    case Last(t) => before + Statement(t)
    case Cut(t, r) => Statements(before + Statement(t), r)
  }

  /** The texts between the cuts, in order */
  function Texts(c: Cuts): seq<string> {
    match c
    case Last(t) => [t]
    case Cut(t, r) => [t] + Texts(r)
  }

  /** A transaction statement that stands alone, in any letter case, or a SAVEPOINT */
  predicate IsBareTransaction(stmt: string) {
    || (exists k :: k in ["BEGIN", "COMMIT", "ROLLBACK", "BEGIN TRANSACTION", "COMMIT TRANSACTION"] && EqualFold(stmt, k))
    || (|stmt| >= 10 && EqualFold(stmt[..10], "SAVEPOINT "))
  }

  lemma SameFold(a: string, b: string)
    ensures EqualFold(a, b) <==> ToUpper(a) == ToUpper(b)
  {
    if ToUpper(a) == ToUpper(b) {
      forall i | 0 <= i < |a| ensures Lower(a[i]) == Lower(b[i]) {
        assert ToUpper(a)[i] == ToUpper(b)[i];
      }
    }
    if ToLower(a) == ToLower(b) {
      forall i | 0 <= i < |a| ensures Upper(a[i]) == Upper(b[i]) {
        assert ToLower(a)[i] == ToLower(b)[i];
      }
    }
  }

  lemma UpperWord(stmt: string, k: string)
    requires ToUpper(k) == k
    ensures EqualFold(stmt, k) <==> ToUpper(stmt) == k
  {
    SameFold(stmt, k);
  }

  lemma UpperStart(stmt: string, k: string)
    requires ToUpper(k) == k
    ensures k <= ToUpper(stmt) <==> |stmt| >= |k| && EqualFold(stmt[..|k|], k)
  {
    if |stmt| >= |k| {
      UpperWord(stmt[..|k|], k);
      assert ToUpper(stmt[..|k|]) == ToUpper(stmt)[..|k|];
    }
  }

  lemma IgnoredIsTransaction(stmt: string)
    requires TrimSpace(stmt) == stmt
    ensures IsIgnoredStatement(stmt) <==> IsBareTransaction(stmt)
  {
    var a, b, c, d, e, f := "BEGIN", "COMMIT", "ROLLBACK", "BEGIN TRANSACTION", "COMMIT TRANSACTION", "SAVEPOINT ";
    UpperWord(stmt, a);
    UpperWord(stmt, b);
    UpperWord(stmt, c);
    UpperWord(stmt, d);
    UpperWord(stmt, e);
    UpperStart(stmt, f);
    var all := ["BEGIN", "COMMIT", "ROLLBACK", "BEGIN TRANSACTION", "COMMIT TRANSACTION"];
    assert a == all[0] && b == all[1] && c == all[2] && d == all[3] && e == all[4];
  }

  /** What comes of one segment: itself without the white space around it, unless that is empty or a bare transaction statement */
  lemma StatementIs(text: string)
    ensures Statement(text) == if TrimSpace(text) == "" || IsBareTransaction(TrimSpace(text)) then [] else [TrimSpace(text)]
  {
    TrimSpaceTwice(text);
    IgnoredIsTransaction(TrimSpace(text));
  }

  /** The statements of all the texts, in order */
  function Surviving(texts: seq<string>): seq<string> {
    if texts == [] then []
    else
      var t := TrimSpace(texts[0]);
      (if t == "" || IsBareTransaction(t) then [] else [t]) + Surviving(texts[1..])
  }

  /** Every segment that is not blank and not a bare transaction statement is returned, in order and as often as it stands there,
      and nothing else is. */
  lemma {:induction false} StatementsAreSegments(before: seq<string>, c: Cuts)
    ensures Statements(before, c) == before + Surviving(Texts(c))
    decreases c
  {
    match c
    case Last(t) =>
      SurvivingFirst(t, []);
      assert [t] + [] == [t] && Surviving([]) == [];
    case Cut(t, r) =>
      SurvivingFirst(t, Texts(r));
      StatementsAreSegments(before + Statement(t), r);
      ThreeLists(before, Statement(t), Surviving(Texts(r)));
  }

  lemma ThreeLists(a: seq<string>, b: seq<string>, c: seq<string>)
    ensures (a + b) + c == a + (b + c)
  {}

  lemma SurvivingFirst(t: string, rest: seq<string>)
    ensures Surviving([t] + rest) == Statement(t) + Surviving(rest)
  {
    StatementIs(t);
    assert ([t] + rest)[1..] == rest;
  }

  method AppendStatement(statements: seq<string>, text: string) returns (r: seq<string>)
    ensures r == statements + Statement(text)
  {
    r := statements;
    var stmt := TrimSpace(text);
    if stmt != "" && !IsIgnoredStatement(stmt) {
      r := r + [stmt];
    }
  }

  method SearchTagEnd(runes: string, i: nat) returns (tagEnd: nat)
    requires i < |runes|
    ensures tagEnd == i + TagSearch(runes[i..], 1)
  {
    tagEnd := i + 1;
    while tagEnd < |runes| && runes[tagEnd] != '$' && tagEnd - i < 30
      invariant 1 <= tagEnd - i <= 30
      invariant TagSearch(runes[i..], tagEnd - i) == TagSearch(runes[i..], 1)
      decreases |runes| - tagEnd
    {
      assert runes[i..][tagEnd - i] == runes[tagEnd];
      tagEnd := tagEnd + 1;
    }
    assert tagEnd < |runes| ==> runes[i..][tagEnd - i] == runes[tagEnd];
  }

  method NextDollar(runes: string, i: nat) returns (e: nat)
    requires i <= |runes|
    ensures i <= e <= |runes|
    ensures forall k :: i <= k < e ==> runes[k] != '$'
    ensures e < |runes| ==> runes[e] == '$'
  {
    e := i;
    while e < |runes| && runes[e] != '$'
      invariant i <= e <= |runes|
      invariant forall k :: i <= k < e ==> runes[k] != '$'
    {
      e := e + 1;
    }
  }

  /** The branch on '$': a closing tag is compared while inside a dollar quote, an opening tag is
      searched outside. Returns how much was taken, 0 when the '$' is an ordinary character.
      The search for a closing tag starts on the '$' itself, so its candidate is never longer than that. */
  method TakeTag(runes: string, i: nat, inDollarQuote: bool, dollarTag: string) returns (len: nat)
    requires i < |runes| && runes[i] == '$' && (inDollarQuote ==> |dollarTag| >= 2)
    ensures len == if inDollarQuote then 0 else OpenTag(runes[i..])
  {
    len := 0;
    if inDollarQuote {
      var tagEnd := NextDollar(runes, i);
      if tagEnd < |runes| && runes[i..tagEnd + 1] == dollarTag {
        assert false;
      }
    } else {
      var tagEnd := SearchTagEnd(runes, i);
      assert tagEnd < |runes| ==> runes[i..][tagEnd - i] == runes[tagEnd];
      if tagEnd < |runes| && runes[tagEnd] == '$' {
        len := tagEnd + 1 - i;
      }
    }
  }

  lemma TakeStep(t: string, pg: bool, m: Mode, current: string)
    requires t != ""
    ensures var step := StepAt(t, pg, m);
            var rest := Segments(t[step.len..], pg, step.mode);
            AddTo(current, Segments(t, pg, m)) ==
            if step.cut then Cut(current, AddTo("", rest)) else AddTo(current + t[..step.len], rest)
  {
    var step := StepAt(t, pg, m);
    var rest := Segments(t[step.len..], pg, step.mode);
    AddToTwice(current, "", rest);
    AddToTwice(current, t[..step.len], rest);
    assert Segments(t, pg, m) == if step.cut then Cut("", rest) else AddTo(t[..step.len], rest);
    assert current + "" == current && "" + rest.text == rest.text;
  }

  /** The three flags as the quote characters toggle them. */
  method ToggleFlags(r: char, single: bool, double: bool, backtick: bool, ghost m: Mode)
    returns (single': bool, double': bool, backtick': bool)
    requires m != Dollar && single == (m == Single) && double == (m == Double) && backtick == (m == Backtick)
    ensures var m' := Toggle(r, m); single' == (m' == Single) && double' == (m' == Double) && backtick' == (m' == Backtick)
  {
    single', double', backtick' := single, double, backtick;
    if r == '\'' && !double && !backtick {
      single' := !single;
    } else if r == '"' && !single && !backtick {
      double' := !double;
    } else if r == '`' && !single && !double {
      backtick' := !backtick;
    }
  }

  lemma NoStatements(t: string, pg: bool)
    requires t == ""
    ensures Statements([], Segments(t, pg, Code)) == []
  {
    NoSegments(t, pg, Code);
    assert TrimLeft(t) == t && TrimRight(t) == t;
    assert Statement("") == [];
  }

  method SplitStatementsForEngine(sql: string, engine: string) returns (statements: seq<string>)
    ensures var d := DialectOf(engine);
            statements == Statements([], Segments(Strip(sql, d), d.Postgres?, Code))
  {
    var cleaned := StripCommentsAndTransactionsForEngine(sql, engine);
    if cleaned == "" {
      NoStatements(cleaned, DialectOf(engine).Postgres?);
      return [];
    }
    statements := SplitCleaned(cleaned, DialectOf(engine).Postgres?);
  }

  /** The splitter's state beside the text of the current segment */
  datatype Flags = Flags(inSingleQuote: bool, inDoubleQuote: bool, inBacktickQuote: bool, inDollarQuote: bool, dollarTag: string) {
    predicate Match(m: Mode) {
      && inSingleQuote == (m == Single) && inDoubleQuote == (m == Double)
      && inBacktickQuote == (m == Backtick) && inDollarQuote == (m == Dollar)
      && (inDollarQuote ==> |dollarTag| >= 2)
    }
  }

  /** One round of the splitter's loop: how much it takes, its flags after that, and whether it cuts. */
  method TakeOne(runes: string, i: nat, isPostgres: bool, f: Flags, ghost m: Mode)
    returns (len: nat, f': Flags, cut: bool)
    requires i < |runes| && f.Match(m)
    ensures var step := StepAt(runes[i..], isPostgres, m); len == step.len && cut == step.cut && f'.Match(step.mode)
  {
    var r := runes[i];
    f' := f;
    cut := false;
    if isPostgres && !f.inSingleQuote && !f.inDoubleQuote && !f.inBacktickQuote && r == '$' {
      len := TakeTag(runes, i, f.inDollarQuote, f.dollarTag);
      if len > 0 {
        f' := f.(dollarTag := runes[i..i + len], inDollarQuote := true);
        return;
      }
    }
    len := 1;
    if !f.inDollarQuote {
      if r == '\\' && f.inSingleQuote && i + 1 < |runes| {
        len := 2;
        return;
      }
      var single, double, backtick := ToggleFlags(r, f.inSingleQuote, f.inDoubleQuote, f.inBacktickQuote, m);
      f' := f.(inSingleQuote := single, inDoubleQuote := double, inBacktickQuote := backtick);
    }
    cut := r == ';' && !f'.inSingleQuote && !f'.inDoubleQuote && !f'.inBacktickQuote && !f'.inDollarQuote;
  }

  /** The splitter's loop as a recursion over the text that is left. */
  function Run(t: string, pg: bool, m: Mode, current: string, statements: seq<string>): seq<string>
    decreases |t|
  {
    if t == "" then statements + Statement(current)
    else
      var step := StepAt(t, pg, m);
      if step.cut then Run(t[step.len..], pg, step.mode, "", statements + Statement(current))
      else Run(t[step.len..], pg, step.mode, current + t[..step.len], statements)
  }

  lemma {:induction false} RunIsSegments(t: string, pg: bool, m: Mode, current: string, statements: seq<string>)
    ensures Run(t, pg, m, current, statements) == Statements(statements, AddTo(current, Segments(t, pg, m)))
    decreases |t|
  {
    if t == "" {
      assert current + "" == current;
    } else {
      TakeStep(t, pg, m, current);
      var step := StepAt(t, pg, m);
      if step.cut {
        RunIsSegments(t[step.len..], pg, step.mode, "", statements + Statement(current));
      } else {
        RunIsSegments(t[step.len..], pg, step.mode, current + t[..step.len], statements);
      }
    }
  }

  method Round(runes: string, i: nat, isPostgres: bool, f: Flags, ghost m: Mode, current: string, statements: seq<string>)
    returns (j: nat, f': Flags, ghost m': Mode, current': string, statements': seq<string>)
    requires i < |runes| && f.Match(m)
    ensures i < j <= |runes| && f'.Match(m')
    ensures Run(runes[i..], isPostgres, m, current, statements) == Run(runes[j..], isPostgres, m', current', statements')
  {
    var len, cut;
    len, f', cut := TakeOne(runes, i, isPostgres, f, m);
    j := i + len;
    m' := StepAt(runes[i..], isPostgres, m).mode;
    SliceAt(runes, i, j);
    if cut {
      statements' := AppendStatement(statements, current);
      current' := "";
    } else {
      statements' := statements;
      current' := current + runes[i..j];
    }
  }

  method SplitCleaned(runes: string, isPostgres: bool) returns (statements: seq<string>)
    ensures statements == Statements([], Segments(runes, isPostgres, Code))
  {
    statements := [];
    var current := "";
    var f := Flags(false, false, false, false, "");
    var i := 0;
    ghost var m := Code;
    ghost var goal := Run(runes, isPostgres, m, current, statements);
    assert runes[0..] == runes;
    while i < |runes|
      invariant 0 <= i <= |runes| && f.Match(m)
      invariant Run(runes[i..], isPostgres, m, current, statements) == goal
      decreases |runes| - i
    {
      i, f, m, current, statements := Round(runes, i, isPostgres, f, m, current, statements);
    }
    RunEnds(runes[i..], isPostgres, m, current, statements);
    statements := AppendStatement(statements, current);
    RunAll(runes, isPostgres);
  }

  lemma RunEnds(t: string, pg: bool, m: Mode, current: string, statements: seq<string>)
    requires t == ""
    ensures Run(t, pg, m, current, statements) == statements + Statement(current)
  {}

  lemma RunAll(t: string, pg: bool)
    ensures Run(t, pg, Code, "", []) == Statements([], Segments(t, pg, Code))
  {
    RunIsSegments(t, pg, Code, "", []);
    var c := Segments(t, pg, Code);
    assert "" + c.text == c.text;
  }
}
