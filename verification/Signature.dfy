/** internal/risk/introspect.go, FormatSchemaSignature, and cache.go, ComputeCacheKey: what a cache key records. */
module Signature {
  import opened Text
  import opened Risk

  // ---- sort.Strings ----

  /** Byte-wise lexicographic order */
  predicate LexLe(a: string, b: string) {
    a == "" || (b != "" && (a[0] < b[0] || (a[0] == b[0] && LexLe(a[1..], b[1..]))))
  }

  function Insert(x: string, s: seq<string>): (r: seq<string>)
    ensures multiset(r) == multiset(s) + multiset{x}
  {
    if s == [] then [x]
    else if LexLe(x, s[0]) then [x] + s
    else
      assert s == [s[0]] + s[1..];
      [s[0]] + Insert(x, s[1..])
  }

  function Sort(s: seq<string>): (r: seq<string>)
    ensures multiset(r) == multiset(s)
  {
    if s == [] then []
    else
      assert s == [s[0]] + s[1..];
      Insert(s[0], Sort(s[1..]))
  }

  lemma {:induction false} LexTotal(a: string, b: string)
    ensures LexLe(a, b) || LexLe(b, a)
    ensures LexLe(a, b) && LexLe(b, a) ==> a == b
  {
    if a != "" && b != "" {
      LexTotal(a[1..], b[1..]);
      assert a == [a[0]] + a[1..] && b == [b[0]] + b[1..];
    }
  }

  lemma {:induction false} LexTransitive(a: string, b: string, c: string)
    requires LexLe(a, b) && LexLe(b, c)
    ensures LexLe(a, c)
  {
    if a != "" && b != "" && c != "" && a[0] == b[0] && b[0] == c[0] {
      LexTransitive(a[1..], b[1..], c[1..]);
    }
  }

  lemma {:induction false} InsertCommutes(x: string, y: string, s: seq<string>)
    ensures Insert(x, Insert(y, s)) == Insert(y, Insert(x, s))
  {
    LexTotal(x, y);
    if s != [] {
      var h, t := s[0], s[1..];
      LexTotal(x, h);
      LexTotal(y, h);
      if LexLe(x, y) && LexLe(y, h) { LexTransitive(x, y, h); }
      if LexLe(y, x) && LexLe(x, h) { LexTransitive(y, x, h); }
      InsertCommutes(x, y, t);
    }
  }

  lemma {:induction false} SortFrom(s: seq<string>, i: nat)
    requires i < |s|
    ensures Sort(s) == Insert(s[i], Sort(s[..i] + s[i + 1..]))
  {
    if i == 0 {
      assert s[..0] + s[1..] == s[1..];
    } else {
      var rest := s[..i] + s[i + 1..];
      assert rest[0] == s[0] && rest[1..] == s[1..][..i - 1] + s[1..][i..];
      SortFrom(s[1..], i - 1);
      InsertCommutes(s[0], s[i], Sort(rest[1..]));
    }
  }

  /** Sorting forgets the order and nothing else. */
  lemma {:induction false} SortIff(a: seq<string>, b: seq<string>)
    ensures Sort(a) == Sort(b) <==> multiset(a) == multiset(b)
  {
    if Sort(a) == Sort(b) {
      assert multiset(a) == multiset(Sort(a)) == multiset(b);
    }
    if multiset(a) == multiset(b) {
      SortSame(a, b);
    }
  }

  lemma Without(a: seq<string>, b: seq<string>, i: nat)
    requires a != [] && i < |b| && b[i] == a[0] && multiset(a) == multiset(b)
    ensures multiset(a[1..]) == multiset(b[..i] + b[i + 1..])
  {
    assert a == [a[0]] + a[1..];
    assert b == b[..i] + [b[i]] + b[i + 1..];
    assert multiset(b) == multiset(b[..i]) + multiset{b[i]} + multiset(b[i + 1..]);
    assert multiset(a[1..]) == multiset(a) - multiset{a[0]};
  }

  lemma {:induction false} SortSame(a: seq<string>, b: seq<string>)
    requires multiset(a) == multiset(b)
    ensures Sort(a) == Sort(b)
  {
    if a == [] {
      assert |b| == |multiset(b)|;
    } else {
      assert a[0] in multiset(b);
      var i :| 0 <= i < |b| && b[i] == a[0];
      Without(a, b, i);
      SortSame(a[1..], b[..i] + b[i + 1..]);
      SortFrom(b, i);
    }
  }

  // ---- Text that can be taken apart again ----

  predicate Free(s: string, c: char) {
    c !in s
  }

  /** The first separator is where it was put. */
  lemma SplitUnique(x: string, a: string, y: string, b: string, c: char)
    requires Free(x, c) && Free(y, c) && x + [c] + a == y + [c] + b
    ensures x == y && a == b
  {
    var s := x + [c] + a;
    assert s[|x|] == c && s[|y|] == c;
    assert forall i :: 0 <= i < |x| ==> s[i] == x[i];
    assert forall i :: 0 <= i < |y| ==> s[i] == y[i];
    assert x == s[..|x|] && y == s[..|y|];
    assert a == s[|x| + 1..] && b == s[|y| + 1..];
  }

  /** Nonempty, and free of the separator */
  predicate Words(words: seq<string>, c: char) {
    forall i :: 0 <= i < |words| ==> words[i] != "" && Free(words[i], c)
  }

  lemma {:induction false} JoinFree(words: seq<string>, sep: string, c: char)
    requires Free(sep, c) && forall i :: 0 <= i < |words| ==> Free(words[i], c)
    ensures Free(Join(words, sep), c)
  {
    if |words| >= 2 { JoinFree(words[1..], sep, c); }
  }

  /** Joined words can be told apart again. */
  lemma {:induction false} JoinInjective(a: seq<string>, b: seq<string>, c: char)
    requires Words(a, c) && Words(b, c) && Join(a, [c]) == Join(b, [c])
    ensures a == b
  {
    if |a| >= 2 && |b| >= 2 {
      SplitUnique(a[0], Join(a[1..], [c]), b[0], Join(b[1..], [c]), c);
      JoinInjective(a[1..], b[1..], c);
      assert a == [a[0]] + a[1..] && b == [b[0]] + b[1..];
    } else {
      JoinLong(a, c);
      JoinLong(b, c);
    }
  }

  lemma JoinLong(a: seq<string>, c: char)
    requires Words(a, c)
    ensures Join(a, [c]) == "" <==> a == []
    ensures c in Join(a, [c]) <==> |a| >= 2
  {
    if |a| >= 2 {
      assert Join(a, [c])[|a[0]|] == c;
    }
  }

  // ---- The signature of a table ----

  /** SHA-256 in hexadecimal, as far as it matters: no two texts have the same one, and it is made of hex digits. */
  ghost predicate IsHash(sha: string -> string) {
    (forall x, y :: sha(x) == sha(y) ==> x == y) && forall x :: IsHex(sha(x))
  }

  predicate IsHex(s: string) {
    s != "" && forall i :: 0 <= i < |s| ==> '0' <= s[i] <= '9' || 'a' <= s[i] <= 'f'
  }

  function Unary(n: nat): (r: string)
    ensures IsHex(r)
  {
    if n == 0 then "b" else "a" + Unary(n - 1)
  }

  /** A code with hex digits that no two texts share */
  function Code(s: string): (r: string)
    ensures IsHex(r)
  {
    if s == "" then "c" else Unary(s[0] as int) + Code(s[1..])
  }

  lemma {:induction false} UnaryInjective(m: nat, x: string, n: nat, y: string)
    requires Unary(m) + x == Unary(n) + y
    ensures m == n && x == y
  {
    var s, t := Unary(m) + x, Unary(n) + y;
    assert s[0] == if m == 0 then 'b' else 'a';
    assert t[0] == if n == 0 then 'b' else 'a';
    if m > 0 {
      assert s[1..] == Unary(m - 1) + x && t[1..] == Unary(n - 1) + y;
      UnaryInjective(m - 1, x, n - 1, y);
    } else {
      assert s[1..] == x && t[1..] == y;
    }
  }

  lemma CodeFront(s: string)
    ensures s != "" ==> Code(s) == Unary(s[0] as int) + Code(s[1..])
    ensures Code(s)[0] == 'c' <==> s == ""
  {
    if s != "" {
      assert Unary(s[0] as int)[0] in {'a', 'b'};
    }
  }

  lemma {:induction false} CodeInjective(x: string, y: string)
    requires Code(x) == Code(y)
    ensures x == y
    decreases |x|
  {
    CodeFront(x);
    CodeFront(y);
    if x != "" {
      UnaryInjective(x[0] as int, Code(x[1..]), y[0] as int, Code(y[1..]));
      CodeInjective(x[1..], y[1..]);
      assert x == [x[0]] + x[1..] && y == [y[0]] + y[1..];
    }
  }

  /** The assumption about SHA-256 can be met. */
  lemma HashesExist()
    ensures IsHash(Code)
  {
    forall x, y | Code(x) == Code(y) ensures x == y {
      CodeInjective(x, y);
    }
  }

  /** A name without any of the characters that signatures use themselves */
  predicate Plain(s: string) {
    s != "" && forall i :: 0 <= i < |s| ==> s[i] !in {',', ';', '|', '.', '-', '>', ':'}
  }

  predicate PlainKey(fk: ForeignKey) {
    Plain(fk.fromTable) && Plain(fk.fromColumn) && Plain(fk.toTable) && Plain(fk.toColumn)
  }

  predicate PlainMeta(m: Metadata) {
    && Plain(m.table)
    && (forall c :: c in m.columns ==> Plain(c))
    && (forall fk :: fk in m.inbound ==> PlainKey(fk))
  }

  function KeyText(fk: ForeignKey): string {
    fk.fromTable + "." + (fk.fromColumn + "-" + (">" + (fk.toTable + "." + fk.toColumn)))
  }

  function KeyTexts(fks: seq<ForeignKey>): (r: seq<string>)
    ensures |r| == |fks| && forall i :: 0 <= i < |fks| ==> r[i] == KeyText(fks[i])
  {
    seq(|fks|, i requires 0 <= i < |fks| => KeyText(fks[i]))
  }

  function ColumnsPart(m: Metadata): string {
    "cols:" + Join(Sort(m.columns), ",")
  }

  function KeysPart(m: Metadata): string {
    "inbound_fks:" + Join(Sort(KeyTexts(m.inbound)), "|")
  }

  function MetaText(m: Metadata): string {
    "table:" + m.table + ";" + (ColumnsPart(m) + ";" + KeysPart(m))
  }

  /** The loop over the foreign keys */
  method CollectKeys(fks: seq<ForeignKey>) returns (texts: seq<string>)
    ensures texts == KeyTexts(fks)
  {
    texts := [];
    for i := 0 to |fks|
      invariant texts == KeyTexts(fks)[..i]
    {
      texts := texts + [KeyText(fks[i])];
    }
  }

  method FormatSchemaSignature(sha: string -> string, m: Metadata) returns (s: string)
    ensures s == sha(MetaText(m))
  {
    var tablePart := "table:" + m.table;
    var colsPart := "cols:" + Join(Sort(m.columns), ",");
    assert colsPart == ColumnsPart(m);
    var fks := CollectKeys(m.inbound);
    var keysPart := "inbound_fks:" + Join(Sort(fks), "|");
    assert keysPart == KeysPart(m);
    s := sha(tablePart + ";" + (colsPart + ";" + keysPart));
  }

  lemma PlainFree(s: string, c: char)
    requires Plain(s) && c in {',', ';', '|', '.', '-', '>', ':'}
    ensures s != "" && Free(s, c)
  {}

  /** A key's text says which columns it links. */
  lemma KeyTextInjective(a: ForeignKey, b: ForeignKey)
    requires PlainKey(a) && PlainKey(b) && KeyText(a) == KeyText(b)
    ensures a == b.(name := a.name)
  {
    PlainFree(a.fromTable, '.');
    PlainFree(b.fromTable, '.');
    var x, y := ">" + (a.toTable + "." + a.toColumn), ">" + (b.toTable + "." + b.toColumn);
    SplitUnique(a.fromTable, a.fromColumn + "-" + x, b.fromTable, b.fromColumn + "-" + y, '.');
    PlainFree(a.fromColumn, '-');
    PlainFree(b.fromColumn, '-');
    SplitUnique(a.fromColumn, x, b.fromColumn, y, '-');
    assert x[1..] == a.toTable + "." + a.toColumn && y[1..] == b.toTable + "." + b.toColumn;
    PlainFree(a.toTable, '.');
    PlainFree(b.toTable, '.');
    SplitUnique(a.toTable, a.toColumn, b.toTable, b.toColumn, '.');
  }

  lemma KeyTextFree(fk: ForeignKey, c: char)
    requires PlainKey(fk) && c in {';', '|', ','}
    ensures KeyText(fk) != "" && Free(KeyText(fk), c)
  {
    PlainFree(fk.fromTable, c);
    PlainFree(fk.fromColumn, c);
    PlainFree(fk.toTable, c);
    PlainFree(fk.toColumn, c);
  }

  lemma SortKeeps(s: seq<string>, c: char)
    requires Words(s, c)
    ensures Words(Sort(s), c)
  {
    forall i | 0 <= i < |Sort(s)| ensures Sort(s)[i] in s {
      assert Sort(s)[i] in multiset(Sort(s));
    }
  }

  lemma ColumnWords(m: Metadata, c: char)
    requires PlainMeta(m) && c in {',', ';'}
    ensures Words(m.columns, c)
  {
    forall i | 0 <= i < |m.columns| ensures m.columns[i] != "" && Free(m.columns[i], c) {
      assert m.columns[i] in m.columns;
      PlainFree(m.columns[i], c);
    }
  }

  lemma KeyWords(m: Metadata, c: char)
    requires PlainMeta(m) && c in {'|', ';'}
    ensures Words(KeyTexts(m.inbound), c)
  {
    forall i | 0 <= i < |m.inbound| ensures KeyTexts(m.inbound)[i] != "" && Free(KeyTexts(m.inbound)[i], c) {
      assert m.inbound[i] in m.inbound;
      KeyTextFree(m.inbound[i], c);
    }
  }

  lemma PrefixCancels(p: string, a: string, b: string)
    ensures p + a == p + b <==> a == b
  {
    assert (p + a)[|p|..] == a && (p + b)[|p|..] == b;
  }

  lemma ColumnsPartIff(a: Metadata, b: Metadata)
    requires PlainMeta(a) && PlainMeta(b)
    ensures ColumnsPart(a) == ColumnsPart(b) <==> multiset(a.columns) == multiset(b.columns)
  {
    var x, y := Sort(a.columns), Sort(b.columns);
    PrefixCancels("cols:", Join(x, ","), Join(y, ","));
    SortIff(a.columns, b.columns);
    ColumnWords(a, ',');
    ColumnWords(b, ',');
    SortKeeps(a.columns, ',');
    SortKeeps(b.columns, ',');
    if Join(x, ",") == Join(y, ",") { JoinInjective(x, y, ','); }
  }

  lemma KeysPartIff(a: Metadata, b: Metadata)
    requires PlainMeta(a) && PlainMeta(b)
    ensures KeysPart(a) == KeysPart(b) <==> multiset(KeyTexts(a.inbound)) == multiset(KeyTexts(b.inbound))
  {
    var x, y := Sort(KeyTexts(a.inbound)), Sort(KeyTexts(b.inbound));
    PrefixCancels("inbound_fks:", Join(x, "|"), Join(y, "|"));
    SortIff(KeyTexts(a.inbound), KeyTexts(b.inbound));
    KeyWords(a, '|');
    KeyWords(b, '|');
    SortKeeps(KeyTexts(a.inbound), '|');
    SortKeeps(KeyTexts(b.inbound), '|');
    if Join(x, "|") == Join(y, "|") { JoinInjective(x, y, '|'); }
  }

  lemma ColumnsPartFree(m: Metadata)
    requires PlainMeta(m)
    ensures Free(ColumnsPart(m), ';')
  {
    ColumnWords(m, ';');
    SortKeeps(m.columns, ';');
    JoinFree(Sort(m.columns), ",", ';');
  }

  /** What is the same in two tables with the same signature */
  predicate SameShape(a: Metadata, b: Metadata) {
    && a.table == b.table
    && multiset(a.columns) == multiset(b.columns)
    && multiset(KeyTexts(a.inbound)) == multiset(KeyTexts(b.inbound))
  }

  /** A table's text stands for its name, its columns and the columns its foreign keys link, in any order, and for nothing else. */
  lemma MetaTextIff(a: Metadata, b: Metadata)
    requires PlainMeta(a) && PlainMeta(b)
    ensures MetaText(a) == MetaText(b) <==> SameShape(a, b)
  {
    ColumnsPartIff(a, b);
    KeysPartIff(a, b);
    if MetaText(a) == MetaText(b) {
      MetaTextParts(a, b);
    }
  }

  lemma MetaTextParts(a: Metadata, b: Metadata)
    requires PlainMeta(a) && PlainMeta(b) && MetaText(a) == MetaText(b)
    ensures a.table == b.table && ColumnsPart(a) == ColumnsPart(b) && KeysPart(a) == KeysPart(b)
  {
    var x, y := ColumnsPart(a) + ";" + KeysPart(a), ColumnsPart(b) + ";" + KeysPart(b);
    PlainFree(a.table, ';');
    PlainFree(b.table, ';');
    SplitUnique("table:" + a.table, x, "table:" + b.table, y, ';');
    PrefixCancels("table:", a.table, b.table);
    ColumnsPartFree(a);
    ColumnsPartFree(b);
    SplitUnique(ColumnsPart(a), KeysPart(a), ColumnsPart(b), KeysPart(b), ';');
  }

  lemma SignatureIff(sha: string -> string, a: Metadata, b: Metadata)
    requires IsHash(sha) && PlainMeta(a) && PlainMeta(b)
    ensures sha(MetaText(a)) == sha(MetaText(b)) <==> SameShape(a, b)
  {
    MetaTextIff(a, b);
  }

  // ---- The cache key ----

  /** The signatures of all tables; without any, a word that is no hash */
  function SchemaSignature(signatures: seq<string>): string {
    if signatures == [] then "no_schema" else Join(Sort(signatures), ";")
  }

  function KeyInput(sql: string, signature: string): string {
    sql + "::" + signature
  }

  /** cache.go: ComputeCacheKey */
  function ComputeCacheKey(sha: string -> string, sql: string, signature: string): string {
    sha(KeyInput(sql, signature))
  }

  predicate AllHex(signatures: seq<string>) {
    forall i :: 0 <= i < |signatures| ==> IsHex(signatures[i])
  }

  lemma HexWords(signatures: seq<string>, c: char)
    requires AllHex(signatures) && c in {';', ':', '_'}
    ensures Words(Sort(signatures), c)
  {
    forall i | 0 <= i < |signatures| ensures signatures[i] != "" && Free(signatures[i], c) {
      assert IsHex(signatures[i]);
    }
    SortKeeps(signatures, c);
  }

  lemma JoinedFree(signatures: seq<string>, c: char)
    requires AllHex(signatures) && c in {':', '_'}
    ensures Free(Join(Sort(signatures), ";"), c)
  {
    HexWords(signatures, c);
    JoinFree(Sort(signatures), ";", c);
  }

  lemma SchemaSignatureFree(signatures: seq<string>)
    requires AllHex(signatures)
    ensures Free(SchemaSignature(signatures), ':')
  {
    JoinedFree(signatures, ':');
  }

  lemma NoSchemaIsNoHash(signatures: seq<string>, s: string)
    requires AllHex(signatures) && s == "no_schema"
    ensures Join(Sort(signatures), ";") != s
  {
    JoinedFree(signatures, '_');
    assert s[2] == '_';
  }

  /** The signature of a schema stands for the tables' signatures, in any order. */
  lemma SchemaSignatureIff(a: seq<string>, b: seq<string>)
    requires AllHex(a) && AllHex(b)
    ensures SchemaSignature(a) == SchemaSignature(b) <==> multiset(a) == multiset(b)
  {
    SortIff(a, b);
    NoSchemaIsNoHash(a, "no_schema");
    NoSchemaIsNoHash(b, "no_schema");
    if a != [] && b != [] && Join(Sort(a), ";") == Join(Sort(b), ";") {
      HexWords(a, ';');
      HexWords(b, ';');
      JoinInjective(Sort(a), Sort(b), ';');
    }
    assert a != [] ==> a[0] in multiset(a);
    assert b != [] ==> b[0] in multiset(b);
  }

  /** Because a signature has no colon, the last two colons of a key's text tell where it begins. */
  lemma KeyInputInjective(a: string, s: string, b: string, t: string)
    requires Free(s, ':') && Free(t, ':') && KeyInput(a, s) == KeyInput(b, t)
    ensures a == b && s == t
  {
    var k := KeyInput(a, s);
    var m, n := |k| - |s|, |k| - |t|;
    assert k[m - 1] == ':' && k[n - 1] == ':';
    assert forall i :: m <= i < |k| ==> k[i] == s[i - m];
    assert forall i :: n <= i < |k| ==> k[i] == t[i - n];
    assert k[m..] == s && k[n..] == t;
    assert k[..m - 2] == a && k[..n - 2] == b;
  }

  /** A cache key stands for the text of the migration and the signatures of its tables. */
  lemma CacheKeyIff(sha: string -> string, sql: string, a: seq<string>, sql': string, b: seq<string>)
    requires IsHash(sha) && AllHex(a) && AllHex(b)
    ensures ComputeCacheKey(sha, sql, SchemaSignature(a)) == ComputeCacheKey(sha, sql', SchemaSignature(b)) <==>
            sql == sql' && multiset(a) == multiset(b)
  {
    SchemaSignatureFree(a);
    SchemaSignatureFree(b);
    SchemaSignatureIff(a, b);
    if KeyInput(sql, SchemaSignature(a)) == KeyInput(sql', SchemaSignature(b)) {
      KeyInputInjective(sql, SchemaSignature(a), sql', SchemaSignature(b));
    }
  }
}
