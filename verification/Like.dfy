/** internal/driver/postgres/postgres.go and mysql.go: escapeLikeWildcards and the pattern of ListBranches. */
module Like {

  /** strings.ReplaceAll of one character by two */
  function ReplaceAll(s: string, c: char, sub: string): string {
    if s == "" then "" else (if s[0] == c then sub else [s[0]]) + ReplaceAll(s[1..], c, sub)
  }

  function EscapeLikeWildcards(s: string): string {
    ReplaceAll(ReplaceAll(ReplaceAll(s, '\\', "\\\\"), '%', "\\%"), '_', "\\_")
  }

  predicate IsSpecial(c: char) {
    c == '\\' || c == '%' || c == '_'
  }

  /** Every special character with a backslash in front */
  function Escape(s: string): string {
    if s == "" then "" else (if IsSpecial(s[0]) then ['\\', s[0]] else [s[0]]) + Escape(s[1..])
  }

  /** `s LIKE pattern ESCAPE '\'`, section 9.7.1 of the PostgreSQL documentation;
      a pattern that ends in a lone backslash, which the server refuses, matches nothing here. */
  predicate Matches(s: string, pattern: string)
    decreases |pattern|, |s|
  {
    if pattern == "" then s == ""
    else if pattern[0] == '%' then Matches(s, pattern[1..]) || (s != "" && Matches(s[1..], pattern))
    else if s == "" then false
    else if pattern[0] == '_' then Matches(s[1..], pattern[1..])
    else if pattern[0] == '\\' then |pattern| > 1 && s[0] == pattern[1] && Matches(s[1..], pattern[2..])
    else s[0] == pattern[0] && Matches(s[1..], pattern[1..])
  }

  lemma {:induction false} ReplaceConcat(a: string, b: string, c: char, sub: string)
    ensures ReplaceAll(a + b, c, sub) == ReplaceAll(a, c, sub) + ReplaceAll(b, c, sub)
  {
    if a == "" {
      assert a + b == b;
    } else {
      assert (a + b)[1..] == a[1..] + b;
      ReplaceConcat(a[1..], b, c, sub);
    }
  }

  lemma ReplaceOne(c: char, d: char, sub: string)
    ensures ReplaceAll([c], d, sub) == if c == d then sub else [c]
  {
    assert ReplaceAll("", d, sub) == "";
  }

  lemma EscapeOne(c: char)
    ensures EscapeLikeWildcards([c]) == if IsSpecial(c) then ['\\', c] else [c]
  {
    ReplaceOne(c, '\\', "\\\\");
    if c == '\\' {
      assert "\\\\" == ['\\'] + ['\\'];
      ReplaceConcat(['\\'], ['\\'], '%', "\\%");
      ReplaceOne('\\', '%', "\\%");
      ReplaceConcat(['\\'], ['\\'], '_', "\\_");
      ReplaceOne('\\', '_', "\\_");
    } else if c == '%' {
      ReplaceOne('%', '%', "\\%");
      assert "\\%" == ['\\'] + ['%'];
      ReplaceConcat(['\\'], ['%'], '_', "\\_");
      ReplaceOne('\\', '_', "\\_");
      ReplaceOne('%', '_', "\\_");
    } else {
      ReplaceOne(c, '%', "\\%");
      ReplaceOne(c, '_', "\\_");
    }
  }

  lemma EscapeConcat(a: string, b: string)
    ensures EscapeLikeWildcards(a + b) == EscapeLikeWildcards(a) + EscapeLikeWildcards(b)
  {
    var p, q, r := "\\\\", "\\%", "\\_";
    ReplaceConcat(a, b, '\\', p);
    ReplaceConcat(ReplaceAll(a, '\\', p), ReplaceAll(b, '\\', p), '%', q);
    ReplaceConcat(ReplaceAll(ReplaceAll(a, '\\', p), '%', q), ReplaceAll(ReplaceAll(b, '\\', p), '%', q), '_', r);
  }

  /** The three replacements, in their order, escape each character once: no replacement touches an earlier one's backslash. */
  lemma {:induction false} EscapeIsPerCharacter(s: string)
    ensures EscapeLikeWildcards(s) == Escape(s)
  {
    if s != "" {
      assert s == [s[0]] + s[1..];
      EscapeConcat([s[0]], s[1..]);
      EscapeOne(s[0]);
      EscapeIsPerCharacter(s[1..]);
    }
  }

  /** The pattern that ListBranches asks for */
  function BranchPattern(base: string): string {
    EscapeLikeWildcards(base) + "\\_%"
  }

  lemma {:induction false} AnythingMatches(s: string, pattern: string)
    requires pattern == "%"
    ensures Matches(s, pattern)
    decreases |s|
  {
    if s == "" {
      assert Matches(s, pattern[1..]);
    } else {
      AnythingMatches(s[1..], pattern);
    }
  }

  /** An escaped text in front of a pattern matches itself and nothing else. */
  lemma {:induction false} EscapedMatches(s: string, literal: string, pattern: string)
    ensures Matches(s, Escape(literal) + pattern) <==> literal <= s && Matches(s[|literal|..], pattern)
    decreases |literal|
  {
    var p := Escape(literal) + pattern;
    if literal == "" {
      assert p == pattern && s[0..] == s;
    } else {
      var c, rest := literal[0], literal[1..];
      var next := Escape(rest) + pattern;
      assert p == (if IsSpecial(c) then ['\\', c] else [c]) + next;
      assert IsSpecial(c) ==> p[2..] == next;
      assert !IsSpecial(c) ==> p[1..] == next;
      if s != "" {
        EscapedMatches(s[1..], rest, pattern);
        assert literal <= s <==> c == s[0] && rest <= s[1..];
        assert literal <= s ==> s[1..][|rest|..] == s[|literal|..];
      }
    }
  }

  /** The pattern selects exactly the names that start with the base name and an underscore, whatever the base name holds. */
  lemma PatternIsExact(base: string, name: string)
    ensures Matches(name, BranchPattern(base)) <==> base + "_" <= name
  {
    EscapeIsPerCharacter(base);
    var percent, under := "%", "_";
    assert Escape(under) == "\\_" by { assert Escape("") == ""; }
    assert BranchPattern(base) == Escape(base) + (Escape(under) + percent);
    EscapedMatches(name, base, Escape(under) + percent);
    if base <= name {
      var rest := name[|base|..];
      EscapedMatches(rest, under, percent);
      if under <= rest { AnythingMatches(rest[1..], percent); }
      assert base + under <= name <==> under <= rest;
    }
  }
}
