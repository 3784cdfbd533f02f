/** The inner loops that the stripper and the policy normaliser each run: every
    scan moves an index through the text and stops where the lexer says. */
module SqlScan {
  import opened Text
  import opened SqlTokens

  method SkipLine(sql: string, i: nat) returns (j: nat)
    requires i <= |sql|
    ensures j == i + LineRun(sql[i..]) && j <= |sql|
  {
    j := i;
    while j < |sql| && sql[j] != '\n' && sql[j] != '\r'
      invariant i <= j <= |sql| && (j - i) + LineRun(sql[j..]) == LineRun(sql[i..])
    {
      assert sql[j..][1..] == sql[j + 1..];
      j := j + 1;
    }
  }

  method SkipDigits(sql: string, i: nat) returns (j: nat)
    requires i <= |sql|
    ensures j == i + DigitRun(sql[i..]) && j <= |sql|
  {
    j := i;
    while j < |sql| && '0' <= sql[j] <= '9'
      invariant i <= j <= |sql| && (j - i) + DigitRun(sql[j..]) == DigitRun(sql[i..])
    {
      assert sql[j..][1..] == sql[j + 1..];
      j := j + 1;
    }
  }

  method SkipTag(sql: string, i: nat) returns (j: nat)
    requires i <= |sql|
    ensures j == i + TagRun(sql[i..]) && j <= |sql|
  {
    j := i;
    while j < |sql| && (sql[j] == '_' || 'a' <= sql[j] <= 'z' || 'A' <= sql[j] <= 'Z' || '0' <= sql[j] <= '9')
      invariant i <= j <= |sql| && (j - i) + TagRun(sql[j..]) == TagRun(sql[i..])
    {
      assert sql[j..][1..] == sql[j + 1..];
      j := j + 1;
    }
  }

  lemma NestedStep(sql: string, j: nat, depth: nat)
    requires j < |sql| && depth > 0
    ensures var two := if j + 1 < |sql| then sql[j..j + 2] else "";
            NestedRest(sql[j..], depth) ==
            if two == "/*" then 2 + NestedRest(sql[j + 2..], depth + 1)
            else if two == "*/" then 2 + NestedRest(sql[j + 2..], depth - 1)
            else 1 + NestedRest(sql[j + 1..], depth)
  {
    NotPrefix(sql, j, "/*");
    NotPrefix(sql, j, "*/");
    assert sql[j..][1..] == sql[j + 1..];
    assert j + 1 < |sql| ==> sql[j..][2..] == sql[j + 2..];
  }

  lemma NestedDone(s: string, depth: nat)
    requires s == "" || depth == 0
    ensures NestedRest(s, depth) == 0
  {}

  /** A PostgreSQL block comment whose opener ends at `i`; comments nest. */
  method SkipNested(sql: string, i: nat) returns (j: nat)
    requires i <= |sql|
    ensures j == i + NestedRest(sql[i..], 1) && j <= |sql|
  {
    ghost var inside := NestedRest(sql[i..], 1);
    var depth: nat := 1;
    j := i;
    while j < |sql| && depth > 0
      invariant i <= j <= |sql| && inside == NestedRest(sql[j..], depth) + (j - i)
      decreases |sql| - j
    {
      j, depth := NestedAdvance(sql, j, depth);
    }
    NestedDone(sql[j..], depth);
  }

  method NestedAdvance(sql: string, i: nat, depth: nat) returns (j: nat, depth': nat)
    requires i < |sql| && depth > 0
    ensures i < j <= |sql| && NestedRest(sql[i..], depth) == (j - i) + NestedRest(sql[j..], depth')
  {
    NestedStep(sql, i, depth);
    if i + 1 < |sql| && sql[i..i + 2] == "/*" {
      return i + 2, depth + 1;
    }
    if i + 1 < |sql| && sql[i..i + 2] == "*/" {
      return i + 2, depth - 1;
    }
    return i + 1, depth;
  }

  /** A block comment of the other dialects, whose opener ends at `i`. */
  method SkipBlock(sql: string, i: nat) returns (j: nat)
    requires i <= |sql|
    ensures j == i + BlockRest(sql[i..]) && j <= |sql|
  {
    j := i;
    while j < |sql|
      invariant i <= j <= |sql| && (j - i) + BlockRest(sql[j..]) == BlockRest(sql[i..])
    {
      if j + 1 < |sql| && sql[j..j + 2] == "*/" {
        assert "*/" <= sql[j..];
        j := j + 2;
        break;
      }
      NotPrefix(sql, j, "*/");
      assert sql[j..][1..] == sql[j + 1..];
      j := j + 1;
    }
  }

  lemma NotPrefix(sql: string, j: nat, two: string)
    requires j <= |sql| && |two| == 2
    ensures two <= sql[j..] <==> j + 1 < |sql| && sql[j..j + 2] == two
  {
    if two <= sql[j..] { assert sql[j..][..2] == sql[j..j + 2]; }
    if j + 1 < |sql| && sql[j..j + 2] == two { assert sql[j..][..2] == two; }
  }

  lemma NotPrefix3(sql: string, j: nat, three: string)
    requires j <= |sql| && |three| == 3
    ensures three <= sql[j..] <==> j + 2 < |sql| && sql[j..j + 3] == three
  {
    if three <= sql[j..] { assert sql[j..][..3] == sql[j..j + 3]; }
    if j + 2 < |sql| && sql[j..j + 3] == three { assert sql[j..][..3] == three; }
  }

  /** The quoted string that opens at `i`. */
  method ScanQuote(sql: string, i: nat) returns (j: nat)
    requires i < |sql|
    ensures j == i + 1 + QuoteRest(sql[i + 1..], sql[i]) && j <= |sql|
  {
    var quote := sql[i];
    j := i + 1;
    while j < |sql|
      invariant i < j <= |sql| && (j - (i + 1)) + QuoteRest(sql[j..], quote) == QuoteRest(sql[i + 1..], quote)
    {
      assert |sql[j..]| > 1 ==> sql[j..][1] == sql[j + 1] && sql[j..][2..] == sql[j + 2..];
      assert sql[j..][1..] == sql[j + 1..];
      if sql[j] == quote {
        if j + 1 < |sql| && sql[j + 1] == quote {
          j := j + 2;
          continue;
        }
        j := j + 1;
        break;
      }
      if sql[j] == '\\' && quote == '\'' && j + 1 < |sql| {
        j := j + 2;
        continue;
      }
      j := j + 1;
    }
  }

  /** The dollar-quoted string that opens at `i`: where its tag ends, and where it ends, if it closes. */
  method ScanDollar(sql: string, i: nat) returns (closes: bool, tagEnd: nat, end: nat)
    requires i < |sql| && sql[i] == '$'
    ensures closes == (DollarLen(sql[i..]) > 0)
    ensures closes ==> tagEnd == i + TagLen(sql[i..]) && end == i + DollarLen(sql[i..]) <= |sql|
  {
    closes, tagEnd, end := false, i, i;
    var s := sql[i..];
    var e := SkipTag(sql, i + 1);
    assert s[1..] == sql[i + 1..];
    if e < |sql| && sql[e] == '$' {
      var tag := sql[i..e + 1];
      assert TagLen(s) == e + 1 - i && s[..TagLen(s)] == tag && s[TagLen(s)..] == sql[e + 1..];
      var closeAt := Index(sql[e + 1..], tag);
      if closeAt >= 0 {
        closes, tagEnd, end := true, e + 1, e + 1 + closeAt + |tag|;
      }
    }
  }

  /** What is dropped at `i`: the branches of both scanners that remove text. */
  method ScanDropped(sql: string, i: nat, d: Dialect) returns (j: nat)
    requires i < |sql|
    ensures j == i + DropLen(sql[i..], d) && j <= |sql|
  {
    NotPrefix(sql, i, "--");
    NotPrefix(sql, i, "/*");
    NotPrefix(sql, i, "*/");
    NotPrefix3(sql, i, "/*!");
    assert sql[i..][1..] == sql[i + 1..];
    assert i + 2 <= |sql| ==> sql[i..][2..] == sql[i + 2..];
    assert i + 3 <= |sql| ==> sql[i..][3..] == sql[i + 3..];
    if sql[i] == '#' || (i + 1 < |sql| && sql[i..i + 2] == "--") {
      if sql[i] == '#' {
        j := SkipLine(sql, i + 1);
      } else {
        j := SkipLine(sql, i + 2);
      }
    } else if d.MySql? && i + 2 < |sql| && sql[i..i + 3] == "/*!" {
      j := SkipDigits(sql, i + 3);
    } else if i + 1 < |sql| && sql[i..i + 2] == "/*" {
      if d.Postgres? {
        j := SkipNested(sql, i + 2);
      } else {
        j := SkipBlock(sql, i + 2);
      }
    } else if d.MySql? && i + 1 < |sql| && sql[i..i + 2] == "*/" {
      j := i + 2;
    } else {
      j := i;
    }
  }
}
