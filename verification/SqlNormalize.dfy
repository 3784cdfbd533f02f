/** internal/risk/policy.go: sqlForPolicyMatchingForEngine and MatchesAlwaysCriticalForEngine. */
module SqlNormalize {
  import opened Text
  import opened SqlTokens
  import opened SqlScan
  import opened SqlStrip

  /** The body of a dollar-quoted piece. */
  function DollarBody(t: string): (b: string)
    ensures t != "" ==> |b| < |t|
  {
    var k := TagLen(t);
    if 0 < k && 2 * k <= |t| then t[k..|t| - k] else ""
  }

  /** What is written for a dollar quote whose body normalises to `body`. */
  function Unfolded(body: string, gap: bool): string {
    if body != "" then " " + body + " " else if gap then " " else ""
  }

  /** The text written for `l` before the white space is collapsed. Unlike the stripper
      this scanner drops quoted strings and unfolds dollar-quoted ones, in every dialect. */
  function Raw(l: Lexed, d: Dialect, gap: bool): string
    decreases |Source(l)|, 1, l
  {
    match l
    case End => ""
    case Drop(_, r) => if gap then " " + Raw(r, d, false) else Raw(r, d, false)
    case Keep(t, r) =>
      if IsDollarPiece(t) then Unfolded(Norm(DollarBody(t), d), gap) + Raw(r, d, false)
      else if t != "" && IsQuote(t[0]) then if gap then " " + Raw(r, d, false) else Raw(r, d, false)
      else t + Raw(r, d, Gap(t))
  }

  function Norm(s: string, d: Dialect): string
    decreases |s|, 2
  {
    LexSource(s, d, true);
    Join(Fields(Raw(Lex(s, d, true), d, false)), " ")
  }

  /** What a kept piece contributes, up to white space. */
  function Words(t: string, d: Dialect): string {
    if IsDollarPiece(t) then " " + Norm(DollarBody(t), d) + " "
    else if t != "" && IsQuote(t[0]) then " "
    else t
  }

  /** `Raw` with a space at every removal. */
  function Flat(l: Lexed, d: Dialect): string {
    match l
    case End => ""
    case Drop(_, r) => " " + Flat(r, d)
    case Keep(t, r) => Words(t, d) + Flat(r, d)
  }

  /** `p` is empty or ends in white space. */
  predicate Parted(p: string) {
    p == "" || IsSpace(p[|p| - 1])
  }

  lemma OptionalSpace(p: string, rest: string)
    requires Parted(p)
    ensures Fields(p + (" " + rest)) == Fields(p + rest)
  {
    assert p + (" " + rest) == p + [' '] + rest;
    FieldsExtraSpace(p, ' ', rest);
  }

  lemma {:induction false} RawIsFlat(p: string, l: Lexed, d: Dialect, gap: bool)
    requires WellFormed(l) && (gap || Parted(p))
    ensures Fields(p + Raw(l, d, gap)) == Fields(p + Flat(l, d))
    decreases l, 0
  {
    match l
    case End =>
    case Drop(_, r) =>
      RawIsFlat(if gap then p + " " else p, r, d, false);
      RawSpace(p, Raw(r, d, false), Flat(r, d), gap);
    case Keep(t, r) =>
      RawIsFlatKeep(p, t, r, d, gap);
  }

  /** A space that is written only when it is needed separates the same words as one that always is. */
  lemma RawSpace(p: string, raw: string, flat: string, gap: bool)
    requires gap || Parted(p)
    requires Fields((if gap then p + " " else p) + raw) == Fields((if gap then p + " " else p) + flat)
    ensures Fields(p + (if gap then " " + raw else raw)) == Fields(p + (" " + flat))
  {
    if gap {
      Assoc(p, " ", raw);
      Assoc(p, " ", flat);
    } else {
      OptionalSpace(p, flat);
    }
  }

  lemma UnfoldedSpace(p: string, body: string, gap: bool, flat: string)
    requires gap || Parted(p)
    ensures Fields((p + Unfolded(body, gap)) + flat) == Fields(p + ((" " + body + " ") + flat))
  {
    var w := " " + body + " ";
    Assoc(p, w, flat);
    if body == "" {
      assert w == " " + " ";
      Assoc(p, " ", " ");
      OptionalSpace(p + " ", flat);
      Assoc(p + " ", " ", flat);
      if !gap {
        assert p + "" == p;
        OptionalSpace(p, flat);
        Assoc(p, " ", flat);
      }
    }
  }

  lemma {:induction false} RawIsFlatKeep(p: string, t: string, r: Lexed, d: Dialect, gap: bool)
    requires t != "" && WellFormed(r) && (gap || Parted(p))
    ensures Fields(p + Raw(Keep(t, r), d, gap)) == Fields(p + (Words(t, d) + Flat(r, d)))
    decreases r, 1
  {
    var w, flat := Words(t, d), Flat(r, d);
    if IsDollarPiece(t) {
      var body := Norm(DollarBody(t), d);
      var u := Unfolded(body, gap);
      RawIsFlat(p + u, r, d, false) by { if u == "" { assert p + u == p; } }
      UnfoldedSpace(p, body, gap, flat);
      Assoc(p, u, Raw(r, d, false));
    } else if t != "" && IsQuote(t[0]) {
      RawIsFlat(if gap then p + " " else p, r, d, false);
      RawSpace(p, Raw(r, d, false), flat, gap);
    } else {
      RawIsFlat(p + t, r, d, Gap(t));
      Assoc(p, t, Raw(r, d, Gap(t)));
      Assoc(p, t, flat);
    }
  }

  /** Removing comments beforehand changes no word. */
  lemma {:induction false} FlatCleaned(p: string, l: Lexed, d: Dialect, gap: bool)
    requires WellFormed(l) && (gap || Parted(p))
    ensures Fields(p + Flat(Cleaned(l, gap), d)) == Fields(p + Flat(l, d))
    decreases l
  {
    match l
    case End =>
    case Drop(_, r) =>
      FlatCleaned(if gap then p + " " else p, r, d, false);
      RawSpace(p, Flat(Cleaned(r, false), d), Flat(r, d), gap);
    case Keep(t, r) =>
      var w := Words(t, d);
      WordsGap(p, t, d);
      FlatCleaned(p + w, r, d, Gap(t));
      Assoc(p, w, Flat(Cleaned(r, Gap(t)), d));
      Assoc(p, w, Flat(r, d));
  }

  lemma WordsGap(p: string, t: string, d: Dialect)
    requires t != ""
    ensures Gap(t) || Parted(p + Words(t, d))
  {}

  lemma {:induction false} FlatSpaces(l: Lexed, d: Dialect)
    requires SpacePieces(l)
    ensures AllSpace(Flat(l, d))
    decreases l
  {
    match l
    case End =>
    case Keep(t, r) => FlatSpaces(r, d);
  }

  lemma {:induction false} FlatTrimmed(p: string, a: Lexed, b: Lexed, d: Dialect)
    requires Trimmed(a, b)
    ensures Fields(p + Flat(a, d)) == Fields(p + Flat(b, d))
    decreases a
  {
    match a
    case End =>
      FlatSpaces(b, d);
      FieldsTrailing(p, Flat(b, d));
      assert p + "" == p;
    case Keep(t, r) =>
      if t == b.text && Trimmed(r, b.rest) {
        var w := Words(t, d);
        FlatTrimmed(p + w, r, b.rest, d);
        Assoc(p, w, Flat(r, d));
        Assoc(p, w, Flat(b.rest, d));
      } else {
        assert t[0] == b.text[0];
        assert Words(t, d) == " " == Words(b.text, d);
      }
  }

  lemma {:induction false} FlatTrimLeft(s: string, d: Dialect)
    ensures Fields(Flat(Lex(TrimLeft(s), d, true), d)) == Fields(Flat(Lex(s, d, true), d))
    decreases |s|
  {
    if s != "" && IsSpace(s[0]) {
      assert s == [s[0]] + s[1..];
      LexSpace(s[0], s[1..], d, true);
      FlatTrimLeft(s[1..], d);
      var f := Flat(Lex(s[1..], d, true), d);
      assert Flat(Lex(s, d, true), d) == [s[0]] + f;
      assert ([s[0]] + f)[1..] == f;
    }
  }

  lemma NormFlat(s: string, d: Dialect)
    ensures Norm(s, d) == Join(Fields(Flat(Lex(s, d, true), d)), " ")
  {
    var l := Lex(s, d, true);
    LexSource(s, d, true);
    RawIsFlat("", l, d, false);
    assert "" + Raw(l, d, false) == Raw(l, d, false);
    assert "" + Flat(l, d) == Flat(l, d);
  }

  lemma SameFields(a: Lexed, b: Lexed, d: Dialect)
    requires Trimmed(a, b)
    ensures Fields(Flat(a, d)) == Fields(Flat(b, d))
  {
    FlatTrimmed("", a, b, d);
    assert "" + Flat(a, d) == Flat(a, d) && "" + Flat(b, d) == Flat(b, d);
  }

  lemma FlatTrimSpace(e: string, d: Dialect)
    requires NoDrops(Lex(e, d, true))
    ensures Fields(Flat(Lex(TrimSpace(e), d, true), d)) == Fields(Flat(Lex(e, d, true), d))
  {
    FlatTrimLeft(e, d);
    LexTrimLeft(e, d, true);
    FlatTrimRight(TrimLeft(e), d);
  }

  lemma FlatTrimRight(u: string, d: Dialect)
    requires NoDrops(Lex(u, d, true))
    ensures Fields(Flat(Lex(TrimRight(u), d, true), d)) == Fields(Flat(Lex(u, d, true), d))
  {
    TrimRightNoDrops(u, d, true);
    SameFields(Lex(TrimRight(u), d, true), Lex(u, d, true), d);
  }

  lemma FlatEmit(s: string, d: Dialect)
    ensures var e := Emit(Lex(s, d, true), false);
            NoDrops(Lex(e, d, true)) && Fields(Flat(Lex(e, d, true), d)) == Fields(Flat(Lex(s, d, true), d))
  {
    var l := Lex(s, d, true);
    Relex(s, d, true, false);
    CleanedNoDrops(l, false);
    LexSource(s, d, true);
    FlatCleaned("", l, d, false);
    assert "" + Flat(Cleaned(l, false), d) == Flat(Cleaned(l, false), d) && "" + Flat(l, d) == Flat(l, d);
  }

  /** The two scanners agree: policy matching sees the same words before and after comment stripping. */
  lemma NormAfterStrip(s: string, d: Dialect)
    requires d.Postgres? || NoDollarPieces(Lex(s, d, true))
    ensures Norm(Strip(s, d), d) == Norm(s, d)
  {
    if !d.Postgres? { LexNoDollars(s, d); }
    var e := Emit(Lex(s, d, true), false);
    assert Strip(s, d) == TrimSpace(e);
    FlatEmit(s, d);
    FlatTrimSpace(e, d);
    NormFlat(s, d);
    NormFlat(TrimSpace(e), d);
  }

  lemma DollarComment(s: string)
    requires |s| == 5 && s[0] == s[1] == s[3] == s[4] == '$' && s[2] == '#'
    ensures DollarLen(s) == 5 && DollarBody(s) == [s[2]]
  {
    TagLenUnique(s, 2);
    var t := s[2..];
    assert t[1..3] == s[..2] && t[0..2] != s[..2] by { assert t[0..2][0] != s[0]; }
    assert Occurs(t, s[..2], 1) && !Occurs(t, s[..2], 0);
  }

  lemma TwoDollars(s: string)
    requires |s| == 2 && s[0] == s[1] == '$'
    ensures Norm(s, MySql) == s
  {
    TagLenUnique(s, 2);
    assert DollarLen(s) == 0 && DollarLen(s[1..]) == 0;
    LexKeepAt(s, 0, 1, MySql, true) by { assert s[0..] == s; }
    LexKeepAt(s, 1, 2, MySql, true);
    assert s[0..] == s && s[2..] == "";
    assert Raw(Keep(s[1..2], End), MySql, true) == s[1..2];
    assert Raw(Keep(s[0..1], Keep(s[1..2], End)), MySql, false) == s[0..1] + s[1..2] == s;
    WordLenUnique(s, 2);
    assert Fields(s) == [s] by { assert s[..2] == s && s[2..] == ""; }
  }

  lemma DollarCommentUnfolds(s: string)
    requires s == "$$#$$"
    ensures Norm(s, MySql) == ""
  {
    DollarComment(s);
    LexKeepAt(s, 0, 5, MySql, true) by { assert s[0..] == s; }
    assert s[0..] == s && s[5..] == "" && s[0..5] == s;
    var body := [s[2]];
    LexDropAt(body, 0, 1, MySql, true) by { assert body[0..] == body && body[1..] == ""; }
    assert body[0..] == body && body[1..] == "";
    assert Raw(Drop(body[0..1], End), MySql, false) == "";
    assert Norm(body, MySql) == "";
    assert Raw(Keep(s, End), MySql, false) == "";
  }

  lemma DollarCommentStrips(s: string)
    requires s == "$$#$$"
    ensures Strip(s, MySql) == s[..2]
  {
    var line := s[2..][1..];
    assert LineRun(line) == 2 by { assert |line| == 2 && line[1..] == [s[4]] && line[1..][1..] == ""; }
    LexDropAt(s, 2, 5, MySql, false);
    LexKeepAt(s, 1, 2, MySql, false);
    LexKeepAt(s, 0, 1, MySql, false);
    assert s[0..] == s && s[5..] == "" && Gap(s[0..1]) && Gap(s[1..2]);
    var l := Drop(s[2..5], End);
    assert Emit(l, true) == [' '];
    assert Emit(Keep(s[1..2], l), true) == s[1..2] + [' '];
    assert Emit(Keep(s[0..1], Keep(s[1..2], l)), false) == s[0..1] + (s[1..2] + [' ']);
    var e := s[..2] + [' '];
    assert e == s[0..1] + (s[1..2] + [' ']);
    assert e[..2] == s[..2] && TrimRight(e) == s[..2];
  }

  /** Outside PostgreSQL the agreement needs its condition: the normaliser unfolds dollar quotes there
      that the stripper reads as plain text, and the stripper may remove the closing tag. */
  lemma NormAfterStripNeedsNoDollars(s: string)
    requires s == "$$#$$"
    ensures Norm(s, MySql) == "" && Norm(Strip(s, MySql), MySql) == "$$"
  {
    DollarCommentUnfolds(s);
    DollarCommentStrips(s);
    TwoDollars(s[..2]);
  }

  // ---- The scanner itself ----

  lemma RawDropped(out: string, t: string, r: Lexed, d: Dialect)
    ensures var out' := if Gap(out) then out + " " else out;
            out' + Raw(r, d, Gap(out')) == out + Raw(Drop(t, r), d, Gap(out))
  {}

  lemma RawQuoted(out: string, t: string, r: Lexed, d: Dialect)
    requires t != "" && IsQuote(t[0])
    ensures var out' := if Gap(out) then out + " " else out;
            out' + Raw(r, d, Gap(out')) == out + Raw(Keep(t, r), d, Gap(out))
  {}

  lemma UnfoldedOut(out: string, body: string, raw: string)
    ensures var wide := if body != "" then out + " " + body + " " else out;
            var out' := if Gap(wide) then wide + " " else wide;
            !Gap(out') && out' + raw == out + (Unfolded(body, Gap(out)) + raw)
  {
    if body != "" {
      assert out + ((" " + body + " ") + raw) == (out + " " + body + " ") + raw;
    } else {
      assert out + (" " + raw) == (out + " ") + raw;
      assert "" + raw == raw;
    }
  }

  lemma RawChar(out: string, t: string, r: Lexed, d: Dialect)
    requires |t| == 1 && !IsQuote(t[0])
    ensures (out + t) + Raw(r, d, Gap(out + t)) == out + Raw(Keep(t, r), d, Gap(out))
  {}

  lemma DollarBodyAt(sql: string, i: nat, tagEnd: nat, end: nat)
    requires i < |sql| && DollarLen(sql[i..]) > 0
    requires tagEnd == i + TagLen(sql[i..]) && end == i + DollarLen(sql[i..])
    ensures i < end <= |sql| && IsDollarPiece(sql[i..end])
    ensures tagEnd <= end - (tagEnd - i) && DollarBody(sql[i..end]) == sql[tagEnd..end - (tagEnd - i)]
  {
    DollarPiece(sql[i..], sql[i..end]);
    var k := tagEnd - i;
    SliceOfSlice(sql, i, end, k, end - i - k);
  }

  lemma DollarPiece(s: string, t: string)
    requires DollarLen(s) > 0 && t == s[..DollarLen(s)]
    ensures TagLen(t) == TagLen(s) && IsDollarPiece(t)
  {
    assert t[..TagLen(s)] == s[..TagLen(s)];
    TagLenSame(s, t);
  }

  method SqlForPolicyMatchingForEngine(sql: string, engine: string) returns (r: string)
    ensures r == Norm(sql, DialectOf(engine))
    decreases |sql|, 2
  {
    var d := DialectOf(engine);
    var out := "";
    var i := 0;
    ghost var rest := Lex(sql, d, true);
    ghost var goal := Raw(rest, d, false);
    assert sql[0..] == sql;
    while i < |sql|
      invariant 0 <= i <= |sql| && rest == Lex(sql[i..], d, true)
      invariant out + Raw(rest, d, Gap(out)) == goal
      decreases |sql| - i
    {
      var j := ScanDropped(sql, i, d);
      if j > i {
        LexDropAt(sql, i, j, d, true);
        RawDropped(out, sql[i..j], Lex(sql[j..], d, true), d);
        out := WriteSpace(out);
        i := j;
      } else {
        i, out := NormalizeKept(sql, i, engine, out);
      }
      rest := Lex(sql[i..], d, true);
    }
    assert out == goal by {
      assert sql[i..] == "" && rest == End && out + "" == out;
    }
    r := Join(Fields(out), " ");
  }

  /** The branches for a dollar-quoted string, a quoted string, and one character. */
  method NormalizeKept(sql: string, i: nat, engine: string, out: string) returns (j: nat, r: string)
    requires i < |sql| && DropLen(sql[i..], DialectOf(engine)) == 0
    ensures i < j <= |sql|
    ensures var d := DialectOf(engine);
            r + Raw(Lex(sql[j..], d, true), d, Gap(r)) == out + Raw(Lex(sql[i..], d, true), d, Gap(out))
    decreases |sql|, 1
  {
    ghost var d := DialectOf(engine);
    if sql[i] == '$' {
      var closes, tagEnd, end := ScanDollar(sql, i);
      if closes {
        r := NormalizeDollar(sql, i, tagEnd, end, engine, out);
        j := end;
        return;
      }
    }
    if sql[i] == '\'' || sql[i] == '"' || sql[i] == '`' {
      r := WriteSpace(out);
      j := ScanQuote(sql, i);
      assert sql[i..][1..] == sql[i + 1..];
      assert j == i + KeepLen(sql[i..], true);
      LexKeepAt(sql, i, j, d, true);
      RawQuoted(out, sql[i..j], Lex(sql[j..], d, true), d);
    } else {
      r := out + [sql[i]];
      j := i + 1;
      assert j == i + KeepLen(sql[i..], true);
      LexKeepAt(sql, i, j, d, true);
      assert sql[i..j] == [sql[i]];
      RawChar(out, [sql[i]], Lex(sql[j..], d, true), d);
    }
  }

  method NormalizeDollar(sql: string, i: nat, tagEnd: nat, end: nat, engine: string, out: string) returns (r: string)
    requires i < |sql| && DropLen(sql[i..], DialectOf(engine)) == 0 && DollarLen(sql[i..]) > 0
    requires tagEnd == i + TagLen(sql[i..]) && end == i + DollarLen(sql[i..])
    ensures i < end <= |sql|
    ensures var d := DialectOf(engine);
            r + Raw(Lex(sql[end..], d, true), d, Gap(r)) == out + Raw(Lex(sql[i..], d, true), d, Gap(out))
    decreases |sql|, 0
  {
    ghost var d := DialectOf(engine);
    DollarBodyAt(sql, i, tagEnd, end);
    LexKeepAt(sql, i, end, d, true);
    var body := sql[tagEnd..end - (tagEnd - i)];
    var normBody := SqlForPolicyMatchingForEngine(body, engine);
    UnfoldedOut(out, normBody, Raw(Lex(sql[end..], d, true), d, false));
    r := out;
    if normBody != "" {
      r := out + " " + normBody + " ";
    }
    r := WriteSpace(r);
  }

  function UpperNorm(sql: string, d: Dialect): string {
    ToUpper(Norm(sql, d))
  }

  /** The normalised pattern occurs in the normalised text, in any case. */
  predicate CriticalHit(sql: string, pattern: string, d: Dialect) {
    UpperNorm(pattern, d) != "" && Contains(UpperNorm(sql, d), UpperNorm(pattern, d))
  }

  predicate IsAlwaysCritical(sql: string, patterns: seq<string>, d: Dialect) {
    exists k :: 0 <= k < |patterns| && CriticalHit(sql, patterns[k], d)
  }

  method UpperNormalized(sql: string, engine: string) returns (r: string)
    ensures r == UpperNorm(sql, DialectOf(engine))
  {
    r := SqlForPolicyMatchingForEngine(sql, engine);
    r := ToUpper(r);
  }

  method MatchesAlwaysCriticalForEngine(patterns: seq<string>, sql: string, engine: string) returns (hit: bool, pattern: string)
    ensures hit == IsAlwaysCritical(sql, patterns, DialectOf(engine))
    ensures hit ==> exists k :: 0 <= k < |patterns| && pattern == patterns[k] && CriticalHit(sql, pattern, DialectOf(engine)) &&
                      forall j :: 0 <= j < k ==> !CriticalHit(sql, patterns[j], DialectOf(engine))
    ensures !hit ==> pattern == ""
  {
    var upperSQL := UpperNormalized(sql, engine);
    for k := 0 to |patterns|
      invariant forall j :: 0 <= j < k ==> !CriticalHit(sql, patterns[j], DialectOf(engine))
    {
      var normalized := UpperNormalized(patterns[k], engine);
      if normalized != "" && Index(upperSQL, normalized) >= 0 {
        return true, patterns[k];
      }
    }
    return false, "";
  }

  /** The always-critical verdict is the same on a text and on the text the statements are parsed from. */
  lemma CriticalAfterStrip(s: string, patterns: seq<string>, d: Dialect)
    requires d.Postgres? || NoDollarPieces(Lex(s, d, true))
    ensures IsAlwaysCritical(Strip(s, d), patterns, d) == IsAlwaysCritical(s, patterns, d)
  {
    NormAfterStrip(s, d);
    forall k | 0 <= k < |patterns|
      ensures CriticalHit(Strip(s, d), patterns[k], d) == CriticalHit(s, patterns[k], d)
    {}
  }
}
