/** internal/proxy/mysqlwire/mysqlwire.go: packet framing and the handshake response of the MySQL protocol. */
module MySqlWire {
  import opened Wrappers
  import opened Bytes

  const MaxHandshakePacketSize: nat := 1024 * 1024

  datatype Error =
    | UnexpectedEnd
    | PacketTooLarge
    | PacketTooShort
    | Protocol320
    | InvalidPacket
    | InvalidName

  // ---- Framing ----

  datatype Read = Read(payload: seq<Byte>, seqId: Byte, rest: seq<Byte>)

  /** ReadPacket on a stream that ends after `stream` */
  function ReadPacket(stream: seq<Byte>): Result<Read, Error> {
    if |stream| < 4 then Err(UnexpectedEnd)
    else
      var n := U24LE(stream[..4]);
      if n > MaxHandshakePacketSize then Err(PacketTooLarge)
      else if |stream| < 4 + n then Err(UnexpectedEnd)
      else Ok(Read(stream[4..4 + n], stream[3], stream[4 + n..]))
  }

  /** What WritePacket writes: the header keeps the low three bytes of the length. */
  function Frame(payload: seq<Byte>, seqId: Byte): seq<Byte> {
    PutU24LE(|payload|) + [seqId] + payload
  }

  /** How a MySQL peer takes the first packet off a stream; it has no size limit of its own. */
  function Deframe(stream: seq<Byte>): Option<Read> {
    if |stream| < 4 then None
    else
      var n := U24LE(stream[..4]);
      if |stream| < 4 + n then None else Some(Read(stream[4..4 + n], stream[3], stream[4 + n..]))
  }

  /** A written packet is read back exactly, whatever follows, if and only if its length fits three bytes. */
  lemma FrameRoundTrip(payload: seq<Byte>, seqId: Byte, rest: seq<Byte>)
    ensures Deframe(Frame(payload, seqId) + rest) == Some(Read(payload, seqId, rest)) <==> |payload| < 0x100_0000
  {
    var stream := Frame(payload, seqId) + rest;
    var n := |payload|;
    assert PutU24LE(n) <= stream[..4];
    assert stream[3] == seqId;
    if n < 0x100_0000 {
      U24RoundTrip(n, stream[..4]);
      assert stream[4..4 + n] == payload && stream[4 + n..] == rest;
    }
  }

  /** A read succeeds exactly on a whole frame whose payload is at most one megabyte, and takes that frame and nothing else. */
  lemma ReadPacketIff(stream: seq<Byte>, payload: seq<Byte>, seqId: Byte, rest: seq<Byte>)
    ensures ReadPacket(stream) == Ok(Read(payload, seqId, rest)) <==>
            |payload| <= 1048576 && stream == Frame(payload, seqId) + rest
  {
    if ReadPacket(stream) == Ok(Read(payload, seqId, rest)) {
      ForwardVerbatim(stream);
    }
    if |payload| <= 1048576 && stream == Frame(payload, seqId) + rest {
      FrameRoundTrip(payload, seqId, rest);
      assert Deframe(stream) == Some(Read(payload, seqId, rest));
    }
  }

  /** Forwarding a packet: what is written, and the rest of the source */
  function ForwardPacket(stream: seq<Byte>): Result<(seq<Byte>, seq<Byte>), Error> {
    var r := ReadPacket(stream);
    if r.Err? then Err(r.error) else Ok((Frame(r.value.payload, r.value.seqId), r.value.rest))
  }

  /** Forwarding passes on exactly the bytes it consumes. */
  lemma ForwardVerbatim(stream: seq<Byte>)
    requires ForwardPacket(stream).Ok?
    ensures var (written, rest) := ForwardPacket(stream).value; written + rest == stream
  {
    var r := ReadPacket(stream).value;
    var n := U24LE(stream[..4]);
    var d: nat := stream[2];
    var c := Digit(stream[1], d);
    assert n == Digit(stream[0], c);
    DigitParts(stream[1], d);
    DigitParts(stream[0], c);
    assert PutU24LE(n) == stream[..3];
    assert stream == stream[..3] + [stream[3]] + stream[4..4 + n] + stream[4 + n..];
  }

  // ---- Flags ----

  /** The four bytes of the capability flags, the lowest first */
  datatype Flags = Flags(b0: Byte, b1: Byte, b2: Byte, b3: Byte)

  function FlagsOf(s: seq<Byte>): Flags
    requires |s| >= 4
  {
    Flags(s[0], s[1], s[2], s[3])
  }

  function FlagBytes(f: Flags): seq<Byte> {
    [f.b0, f.b1, f.b2, f.b3]
  }

  lemma FlagBytesBack(s: seq<Byte>)
    requires |s| == 4
    ensures FlagBytes(FlagsOf(s)) == s
  {}

  /** The flags as the number that the code reads */
  function Word(f: Flags): nat {
    U32LE(FlagBytes(f))
  }

  // CLIENT_CONNECT_WITH_DB 0x8, CLIENT_PROTOCOL_41 0x200, CLIENT_SSL 0x800, CLIENT_SECURE_CONNECTION 0x8000
  // and CLIENT_PLUGIN_AUTH_LENENC_CLIENT_DATA 0x200000, each in the byte that holds it.

  predicate HasDB(f: Flags) { f.b0 / 0x8 % 2 == 1 }

  predicate HasProtocol41(f: Flags) { f.b1 / 0x2 % 2 == 1 }

  predicate HasSsl(f: Flags) { f.b1 / 0x8 % 2 == 1 }

  predicate HasSecureConnection(f: Flags) { f.b1 / 0x80 == 1 }

  predicate HasLenencData(f: Flags) { f.b2 / 0x20 % 2 == 1 }

  lemma Quotients(w: nat, b: nat)
    requires b == w / 256
    ensures w / 0x200 == b / 0x2 && w / 0x800 == b / 0x8 && w / 0x8000 == b / 0x80
  {
    Quotient(w, b, 0x2, 0x200);
    Quotient(w, b, 0x8, 0x800);
    Quotient(w, b, 0x80, 0x8000);
  }

  /** Dividing by 256 and then by `k` is dividing by their product. */
  lemma Quotient(w: nat, b: nat, k: nat, n: nat)
    requires b == w / 256 && n == 256 * k && k in {0x2, 0x8, 0x80, 0x2000}
    ensures w / n == b / k
  {
    var q, r := b / k, b % k;
    assert b == k * q + r;
    assert w == 256 * b + w % 256;
    if k == 0x2 { assert w == 0x200 * q + (256 * r + w % 256); }
    else if k == 0x8 { assert w == 0x800 * q + (256 * r + w % 256); }
    else if k == 0x80 { assert w == 0x8000 * q + (256 * r + w % 256); }
    else { assert w == 0x20_0000 * q + (256 * r + w % 256); }
  }

  lemma Parity(x: nat, h: nat)
    ensures (x + 2 * h) % 2 == x % 2
  {}

  /** The lowest eight bits of a number decide its low bits: here that of 0x2, */
  lemma Bit2(b: nat, l: nat, high: nat)
    requires l < 256 && b == l + 256 * high
    ensures b / 0x2 % 2 == l / 0x2 % 2
  {
    var x := l / 0x2;
    assert b == 0x2 * (x + 0x80 * high) + l % 0x2;
    assert b / 0x2 == x + 0x80 * high;
    Parity(x, 0x40 * high);
  }

  /** of 0x8, */
  lemma Bit8(b: nat, l: nat, high: nat)
    requires l < 256 && b == l + 256 * high
    ensures b / 0x8 % 2 == l / 0x8 % 2
  {
    var x := l / 0x8;
    assert b == 0x8 * (x + 0x20 * high) + l % 0x8;
    assert b / 0x8 == x + 0x20 * high;
    Parity(x, 0x10 * high);
  }

  /** of 0x20, */
  lemma Bit20(b: nat, l: nat, high: nat)
    requires l < 256 && b == l + 256 * high
    ensures b / 0x20 % 2 == l / 0x20 % 2
  {
    var x := l / 0x20;
    assert b == 0x20 * (x + 0x8 * high) + l % 0x20;
    assert b / 0x20 == x + 0x8 * high;
    Parity(x, 0x4 * high);
  }

  /** and of 0x80. */
  lemma Bit80(b: nat, l: nat, high: nat)
    requires l < 256 && b == l + 256 * high
    ensures b / 0x80 % 2 == l / 0x80
  {
    var x := l / 0x80;
    assert b == 0x80 * (x + 0x2 * high) + l % 0x80;
  }

  lemma ThirdQuotient(w: nat, b: nat, c: nat)
    requires b == w / 256 && c == b / 256
    ensures w / 0x20_0000 == c / 0x20
  {
    Quotient(w, b, 0x2000, 0x20_0000);
    var q, r := c / 0x20, c % 0x20;
    assert b == 256 * c + b % 256 && c == 0x20 * q + r;
    assert b == 0x2000 * q + (256 * r + b % 256);
  }

  /** The flags are the bits of the number that the code tests. */
  lemma FlagBits(f: Flags)
    ensures HasDB(f) <==> Word(f) / 0x8 % 2 == 1
    ensures HasProtocol41(f) <==> Word(f) / 0x200 % 2 == 1
    ensures HasSsl(f) <==> Word(f) / 0x800 % 2 == 1
    ensures HasSecureConnection(f) <==> Word(f) / 0x8000 % 2 == 1
    ensures HasLenencData(f) <==> Word(f) / 0x20_0000 % 2 == 1
  {
    var d: nat := f.b3;
    var c := Digit(f.b2, d);
    var b := Digit(f.b1, c);
    var w := Word(f);
    assert w == Digit(f.b0, b);
    DigitParts(f.b0, b);
    DigitParts(f.b1, c);
    Bit8(w, f.b0, b);
    Bit2(b, f.b1, c);
    Bit8(b, f.b1, c);
    Bit80(b, f.b1, c);
    Bit20(c, f.b2, d);
    Quotients(w, b);
    ThirdQuotient(w, b, c);
  }

  /** CLIENT_CONNECT_WITH_DB is added to what is there. */
  function WithDB(f: Flags): Flags {
    if HasDB(f) then f
    else
      assert f.b0 % 16 < 8 && f.b0 == 16 * (f.b0 / 16) + f.b0 % 16;
      f.(b0 := f.b0 as int + 8)
  }

  /** Setting CONNECT_WITH_DB adds 8 to the flags where it was not set, and leaves every other flag alone. */
  lemma WithDBFlags(f: Flags)
    ensures HasDB(WithDB(f))
    ensures WithDB(f).b1 == f.b1 && WithDB(f).b2 == f.b2 && WithDB(f).b3 == f.b3
    ensures WithDB(f).b0 % 8 == f.b0 % 8 && WithDB(f).b0 / 16 == f.b0 / 16
    ensures Word(WithDB(f)) == Word(f) + if HasDB(f) then 0 else 8
  {
    assert f.b0 == 16 * (f.b0 / 16) + f.b0 % 16;
  }

  /** IsSSLRequest */
  predicate IsSSLRequest(payload: seq<Byte>) {
    |payload| >= 4 && HasSsl(FlagsOf(payload[..4]))
  }

  // ---- Database names ----

  predicate BadByte(c: Byte) {
    c == 0 || c == 47 || c == 92 || c == 59 || c < 32 || c == 127
  }

  predicate ValidName(name: seq<Byte>) {
    1 <= |name| <= 64 && forall i :: 0 <= i < |name| ==> !BadByte(name[i])
  }

  method ValidateDatabaseIdentifier(name: seq<Byte>) returns (ok: bool)
    ensures ok == ValidName(name)
    ensures ok <==> 1 <= |name| <= 64 && forall i :: 0 <= i < |name| ==> 32 <= name[i] && name[i] !in {47, 59, 92, 127}
  {
    if name == [] || |name| > 64 { return false; }
    for i := 0 to |name|
      invariant forall k :: 0 <= k < i ==> !BadByte(name[k])
    {
      if BadByte(name[i]) { return false; }
    }
    return true;
  }

  // ---- HandshakeResponse41 ----

  /** The three forms of the authentication data; `prefix` is the length as it was encoded. */
  datatype Auth =
    | Lenenc(prefix: seq<Byte>, data: seq<Byte>)
    | Short(data: seq<Byte>)
    | Terminated(data: seq<Byte>)

  /** What follows the fixed part of the packet; `trailing` is everything behind the database. */
  datatype Body = Body(user: seq<Byte>, auth: Auth, database: Option<seq<Byte>>, trailing: seq<Byte>)

  /** `head` is the packet size, the character set and the filler. */
  datatype Response = Response(flags: Flags, head: seq<Byte>, body: Body)

  datatype Parsed<T> = Parsed(value: T, rest: seq<Byte>)

  /** A zero-terminated string */
  function ParseText(s: seq<Byte>): Option<Parsed<seq<Byte>>> {
    var i := IndexByte(s, 0);
    if i < 0 then None else Some(Parsed(s[..i], s[i + 1..]))
  }

  /** How many bytes the length-encoded integer at the start of `s` takes; 0xfb and 0xff count as one. */
  function LenencSize(first: Byte): (n: nat)
    ensures 1 <= n <= 9
  {
    if first == 0xfc then 3 else if first == 0xfd then 4 else if first == 0xfe then 9 else 1
  }

  function LenencValue(s: seq<Byte>): nat
    requires s != [] && |s| >= LenencSize(s[0])
  {
    if s[0] == 0xfb then 0
    else if s[0] == 0xfc then U16LE(s[1..])
    else if s[0] == 0xfd then U24LE(s[1..])
    else if s[0] == 0xfe then U64LE(s[1..])
    else s[0]
  }

  function ParseLenenc(s: seq<Byte>): Option<Parsed<Auth>> {
    if s == [] || |s| < LenencSize(s[0]) then None
    else
      var k, n := LenencSize(s[0]), LenencValue(s);
      if n > |s| - k then None else Some(Parsed(Lenenc(s[..k], s[k..k + n]), s[k + n..]))
  }

  function ParseShort(s: seq<Byte>): Option<Parsed<Auth>> {
    if s == [] || s[0] > |s| - 1 then None else Some(Parsed(Short(s[1..1 + s[0]]), s[1 + s[0]..]))
  }

  function ParseAuth(flags: Flags, s: seq<Byte>): Option<Parsed<Auth>> {
    if HasLenencData(flags) then ParseLenenc(s)
    else if HasSecureConnection(flags) then ParseShort(s)
    else
      var t := ParseText(s);
      if t.None? then None else Some(Parsed(Terminated(t.value.value), t.value.rest))
  }

  function ParseDatabase(flags: Flags, s: seq<Byte>): Option<Parsed<Option<seq<Byte>>>> {
    if !HasDB(flags) then Some(Parsed(None, s))
    else
      var t := ParseText(s);
      if t.None? then None else Some(Parsed(Some(t.value.value), t.value.rest))
  }

  /** The database and what follows it, behind the user name and the authentication data */
  function ParseTail(flags: Flags, user: seq<Byte>, auth: Auth, s: seq<Byte>): Option<Body> {
    var db := ParseDatabase(flags, s);
    if db.None? then None else Some(Body(user, auth, db.value.value, db.value.rest))
  }

  function ParseAfterUser(flags: Flags, user: seq<Byte>, s: seq<Byte>): Option<Body> {
    var auth := ParseAuth(flags, s);
    if auth.None? then None else ParseTail(flags, user, auth.value.value, auth.value.rest)
  }

  function ParseBody(flags: Flags, s: seq<Byte>): Option<Body> {
    var user := ParseText(s);
    if user.None? then None else ParseAfterUser(flags, user.value.value, user.value.rest)
  }

  /** Protocol::HandshakeResponse41 */
  function Parse(p: seq<Byte>): Result<Response, Error> {
    if |p| < 32 then Err(PacketTooShort)
    else
      var flags := FlagsOf(p[..4]);
      if !HasProtocol41(flags) then Err(Protocol320)
      else
        var body := ParseBody(flags, p[32..]);
        if body.None? then Err(InvalidPacket) else Ok(Response(flags, p[4..32], body.value))
  }

  function EncodeAuth(a: Auth): seq<Byte> {
    match a
    case Lenenc(prefix, data) => prefix + data
    case Short(data) => if |data| < 256 then [|data|] + data else []
    case Terminated(data) => data + [0]
  }

  function EncodeDatabase(db: Option<seq<Byte>>): seq<Byte> {
    if db.None? then [] else db.value + [0]
  }

  function EncodeTail(b: Body): seq<Byte> {
    EncodeDatabase(b.database) + b.trailing
  }

  function EncodeAfterUser(b: Body): seq<Byte> {
    EncodeAuth(b.auth) + EncodeTail(b)
  }

  function EncodeBody(b: Body): seq<Byte> {
    b.user + [0] + EncodeAfterUser(b)
  }

  function Encode(r: Response): seq<Byte> {
    FlagBytes(r.flags) + r.head + EncodeBody(r.body)
  }

  predicate ValidAuth(flags: Flags, a: Auth) {
    match a
    case Lenenc(prefix, data) =>
      HasLenencData(flags) && prefix != [] && |prefix| == LenencSize(prefix[0]) && LenencValue(prefix) == |data|
    case Short(data) => !HasLenencData(flags) && HasSecureConnection(flags) && |data| < 256
    case Terminated(data) => !HasLenencData(flags) && !HasSecureConnection(flags) && 0 !in data
  }

  predicate ValidBody(flags: Flags, b: Body) {
    && 0 !in b.user
    && ValidAuth(flags, b.auth)
    && (b.database.Some? <==> HasDB(flags))
    && (b.database.Some? ==> 0 !in b.database.value)
  }

  predicate Valid(r: Response) {
    HasProtocol41(r.flags) && |r.head| == 28 && ValidBody(r.flags, r.body)
  }

  // ---- Parsing and encoding are inverse ----

  lemma TextEncode(text: seq<Byte>, rest: seq<Byte>)
    requires 0 !in text
    ensures ParseText(text + [0] + rest) == Some(Parsed(text, rest))
  {
    var s := text + [0] + rest;
    IndexByteAt(text, 0, rest);
    assert s[..|text|] == text && s[|text| + 1..] == rest;
  }

  lemma TextParse(s: seq<Byte>)
    requires ParseText(s).Some?
    ensures var t := ParseText(s).value; 0 !in t.value && t.value + [0] + t.rest == s
  {}

  lemma LenencSame(s: seq<Byte>, t: seq<Byte>)
    requires s != [] && |s| >= LenencSize(s[0]) && s[..LenencSize(s[0])] <= t
    ensures LenencValue(t) == LenencValue(s)
  {
    assert forall i :: 0 <= i < LenencSize(s[0]) ==> s[i] == s[..LenencSize(s[0])][i] == t[i];
    if s[0] == 0xfe {
      assert s[1..][4..] == s[5..] && t[1..][4..] == t[5..];
    }
  }

  lemma LenencEncode(prefix: seq<Byte>, data: seq<Byte>, rest: seq<Byte>, s: seq<Byte>)
    requires prefix != [] && |prefix| == LenencSize(prefix[0]) && LenencValue(prefix) == |data|
    requires s == prefix + data + rest
    ensures ParseLenenc(s) == Some(Parsed(Lenenc(prefix, data), rest))
  {
    assert s[0] == prefix[0];
    assert prefix[..|prefix|] == prefix && s[..|prefix|] == prefix;
    LenencSame(prefix, s);
    assert s[|prefix|..|prefix| + |data|] == data && s[|prefix| + |data|..] == rest;
  }

  lemma ShortEncode(data: seq<Byte>, rest: seq<Byte>, s: seq<Byte>)
    requires |data| < 256 && s == [|data|] + data + rest
    ensures ParseShort(s) == Some(Parsed(Short(data), rest))
  {
    assert s[1..1 + |data|] == data && s[1 + |data|..] == rest;
  }

  lemma AuthEncode(flags: Flags, a: Auth, rest: seq<Byte>)
    requires ValidAuth(flags, a)
    ensures ParseAuth(flags, EncodeAuth(a) + rest) == Some(Parsed(a, rest))
  {
    match a
    case Lenenc(prefix, data) => LenencEncode(prefix, data, rest, EncodeAuth(a) + rest);
    case Short(data) => ShortEncode(data, rest, EncodeAuth(a) + rest);
    case Terminated(data) => TextEncode(data, rest);
  }

  lemma LenencParse(s: seq<Byte>)
    requires ParseLenenc(s).Some?
    ensures var a := ParseLenenc(s).value;
            a.value.Lenenc? && EncodeAuth(a.value) + a.rest == s && a.value.prefix != [] &&
            |a.value.prefix| == LenencSize(a.value.prefix[0]) && LenencValue(a.value.prefix) == |a.value.data|
  {
    var k := LenencSize(s[0]);
    LenencSame(s, s[..k]);
    assert s[..k] + s[k..] == s;
  }

  lemma ShortParse(s: seq<Byte>)
    requires ParseShort(s).Some?
    ensures var a := ParseShort(s).value; a.value.Short? && |a.value.data| < 256 && EncodeAuth(a.value) + a.rest == s
  {
    assert [s[0]] + s[1..1 + s[0]] + s[1 + s[0]..] == s;
  }

  lemma AuthParse(flags: Flags, s: seq<Byte>)
    requires ParseAuth(flags, s).Some?
    ensures var a := ParseAuth(flags, s).value; ValidAuth(flags, a.value) && EncodeAuth(a.value) + a.rest == s
  {
    if HasLenencData(flags) {
      LenencParse(s);
    } else if HasSecureConnection(flags) {
      ShortParse(s);
    } else {
      TextParse(s);
    }
  }

  lemma TailParse(flags: Flags, user: seq<Byte>, auth: Auth, s: seq<Byte>)
    requires ParseTail(flags, user, auth, s).Some? && 0 !in user && ValidAuth(flags, auth)
    ensures var b := ParseTail(flags, user, auth, s).value;
            ValidBody(flags, b) && b.user == user && b.auth == auth && EncodeTail(b) == s
  {
    if HasDB(flags) {
      TextParse(s);
    }
  }

  lemma BodyParse(flags: Flags, s: seq<Byte>)
    requires ParseBody(flags, s).Some?
    ensures var b := ParseBody(flags, s).value; ValidBody(flags, b) && EncodeBody(b) == s
  {
    var user := ParseText(s).value;
    TextParse(s);
    var auth := ParseAuth(flags, user.rest).value;
    AuthParse(flags, user.rest);
    TailParse(flags, user.value, auth.value, auth.rest);
  }

  lemma TailEncode(flags: Flags, b: Body)
    requires ValidBody(flags, b)
    ensures ParseTail(flags, b.user, b.auth, EncodeTail(b)) == Some(b)
  {
    if b.database.Some? {
      TextEncode(b.database.value, b.trailing);
    } else {
      assert EncodeTail(b) == b.trailing;
    }
  }

  lemma BodyEncode(flags: Flags, b: Body)
    requires ValidBody(flags, b)
    ensures ParseBody(flags, EncodeBody(b)) == Some(b)
  {
    TextEncode(b.user, EncodeAfterUser(b));
    AuthEncode(flags, b.auth, EncodeTail(b));
    TailEncode(flags, b);
  }

  /** What the parser accepts is well formed, and is the encoding of what the parser says. */
  lemma ParseThenEncode(p: seq<Byte>)
    requires Parse(p).Ok?
    ensures Valid(Parse(p).value) && Encode(Parse(p).value) == p
  {
    BodyParse(FlagsOf(p[..4]), p[32..]);
    FlagBytesBack(p[..4]);
    assert p == p[..4] + p[4..32] + p[32..];
  }

  lemma EncodedParts(r: Response)
    requires |r.head| == 28
    ensures var p := Encode(r);
            |p| >= 32 && p[..4] == FlagBytes(r.flags) && p[4..32] == r.head && p[32..] == EncodeBody(r.body)
  {}

  /** Every well-formed response is read back from its encoding. */
  lemma EncodeThenParse(r: Response)
    requires Valid(r)
    ensures Parse(Encode(r)) == Ok(r)
  {
    EncodedParts(r);
    BodyEncode(r.flags, r.body);
  }

  // ---- Rewriting ----

  /** The response that asks for `target` and is otherwise the same */
  function Route(r: Response, target: seq<Byte>): Response {
    Response(WithDB(r.flags), r.head, r.body.(database := Some(target)))
  }

  /** What RewriteHandshakeResponseDatabase is to return */
  function Rewritten(p: seq<Byte>, target: seq<Byte>): Result<seq<Byte>, Error> {
    if !ValidName(target) then Err(InvalidName)
    else
      var r := Parse(p);
      if r.Err? then Err(r.error) else Ok(Encode(Route(r.value, target)))
  }

  /** Steps over the authentication data in its length-encoded form, from `at` on. */
  method SkipLenenc(payload: seq<Byte>, at: nat) returns (r: Result<int, Error>)
    requires at <= |payload|
    ensures r == SkipResult(payload, at, ParseLenenc(payload[at..]))
  {
    var idx := at;
    if idx >= |payload| { return Err(InvalidPacket); }
    var firstByte := payload[idx];
    idx := idx + 1;
    var authLen: nat := firstByte;
    if firstByte == 0xfb {
      authLen := 0;
    } else if firstByte == 0xfc {
      if idx + 2 > |payload| { return Err(InvalidPacket); }
      authLen := U16LE(payload[idx..]);
      idx := idx + 2;
    } else if firstByte == 0xfd {
      if idx + 3 > |payload| { return Err(InvalidPacket); }
      authLen := U24LE(payload[idx..]);
      idx := idx + 3;
    } else if firstByte == 0xfe {
      if idx + 8 > |payload| { return Err(InvalidPacket); }
      authLen := U64LE(payload[idx..]);
      idx := idx + 8;
    }
    if authLen > |payload| - idx { return Err(InvalidPacket); }
    return Ok(idx + authLen);
  }

  /** The position behind what `parsed` took from `payload[at..]` */
  function SkipResult<T>(payload: seq<Byte>, at: nat, parsed: Option<Parsed<T>>): Result<int, Error> {
    if parsed.None? then Err(InvalidPacket) else Ok(|payload| - |parsed.value.rest|)
  }

  method SkipText(payload: seq<Byte>, at: nat) returns (r: Result<int, Error>)
    requires at <= |payload|
    ensures r == SkipResult(payload, at, ParseText(payload[at..]))
  {
    var end := IndexByte(payload[at..], 0);
    if end == -1 { return Err(InvalidPacket); }
    return Ok(at + end + 1);
  }

  method SkipAuth(payload: seq<Byte>, at: nat, flags: Flags) returns (r: Result<int, Error>)
    requires at <= |payload|
    ensures r == SkipResult(payload, at, ParseAuth(flags, payload[at..]))
  {
    if HasLenencData(flags) {
      r := SkipLenenc(payload, at);
    } else if HasSecureConnection(flags) {
      if at >= |payload| { return Err(InvalidPacket); }
      var authLen: nat := payload[at];
      if authLen > |payload| - (at + 1) { return Err(InvalidPacket); }
      r := Ok(at + 1 + authLen);
    } else {
      r := SkipText(payload, at);
    }
  }

  /** `payload` up to a position behind the authentication data */
  lemma PrefixParts(payload: seq<Byte>, user: seq<Byte>, auth: seq<Byte>, rest: seq<Byte>, idx: nat)
    requires |payload| >= 32 && payload[32..] == user + [0] + (auth + rest) && idx == |payload| - |rest|
    ensures 32 <= idx <= |payload| && payload[idx..] == rest
    ensures payload[..idx] == payload[..4] + payload[4..32] + (user + [0] + auth)
    ensures payload[4..idx] == payload[4..32] + (user + [0] + auth)
  {
    assert payload == payload[..4] + payload[4..32] + (user + [0] + auth) + rest;
  }

  /** The position at which the database goes, and what the parser says of the text before and behind it */
  lemma DatabasePosition(payload: seq<Byte>, flags: Flags, user: Parsed<seq<Byte>>, auth: Parsed<Auth>, idx: int)
    requires |payload| >= 32 && ParseText(payload[32..]) == Some(user) && ParseAuth(flags, user.rest) == Some(auth)
    requires idx == |payload| - |auth.rest|
    ensures 32 <= idx <= |payload| && payload[idx..] == auth.rest
    ensures payload[..idx] == payload[..4] + payload[4..32] + (user.value + [0] + EncodeAuth(auth.value))
    ensures payload[4..idx] == payload[4..32] + (user.value + [0] + EncodeAuth(auth.value))
  {
    TextParse(payload[32..]);
    AuthParse(flags, user.rest);
    PrefixParts(payload, user.value, EncodeAuth(auth.value), auth.rest, idx);
  }

  lemma EncodedRoute(r: Response, target: seq<Byte>, middle: seq<Byte>)
    requires middle == r.head + (r.body.user + [0] + EncodeAuth(r.body.auth))
    ensures Encode(Route(r, target)) == FlagBytes(WithDB(r.flags)) + middle + target + [0] + r.body.trailing
  {
    var b := r.body.(database := Some(target));
    assert EncodeBody(b) == r.body.user + [0] + EncodeAuth(r.body.auth) + target + [0] + r.body.trailing;
  }

  /** From the authentication data on: the database is replaced, or put in front of the rest. */
  method PlaceDatabase(payload: seq<Byte>, idx: nat, flags: Flags, targetDB: seq<Byte>) returns (r: Result<seq<Byte>, Error>)
    requires 4 <= idx <= |payload|
    ensures var db := ParseDatabase(flags, payload[idx..]);
            r == if db.None? then Err(InvalidPacket)
                 else Ok((if HasDB(flags) then payload[..4] else FlagBytes(WithDB(flags)))
                         + payload[4..idx] + targetDB + [0] + db.value.rest)
  {
    if HasDB(flags) {
      if idx >= |payload| { return Err(InvalidPacket); }
      var dbEnd := IndexByte(payload[idx..], 0);
      if dbEnd == -1 { return Err(InvalidPacket); }
      var trailing := payload[idx + dbEnd + 1..];
      assert trailing == payload[idx..][dbEnd + 1..];
      assert payload[..idx] == payload[..4] + payload[4..idx];
      return Ok(payload[..idx] + targetDB + [0] + trailing);
    }
    return Ok(FlagBytes(WithDB(flags)) + payload[4..idx] + targetDB + [0] + payload[idx..]);
  }

  /** The rewriter finds the place of the database with a cursor, and does what parsing, routing and encoding do. */
  method RewriteHandshakeResponseDatabase(payload: seq<Byte>, targetDB: seq<Byte>) returns (r: Result<seq<Byte>, Error>)
    ensures r == Rewritten(payload, targetDB)
  {
    var valid := ValidateDatabaseIdentifier(targetDB);
    if !valid { return Err(InvalidName); }
    if |payload| < 32 { return Err(PacketTooShort); }
    var flags := FlagsOf(payload[..4]);
    if !HasProtocol41(flags) { return Err(Protocol320); }
    var afterUser := SkipText(payload, 32);
    if afterUser.Err? { return Err(afterUser.error); }
    ghost var user := ParseText(payload[32..]).value;
    UserPosition(payload, user, afterUser.value);
    var afterAuth := SkipAuth(payload, afterUser.value, flags);
    if afterAuth.Err? { return Err(afterAuth.error); }
    ghost var auth := ParseAuth(flags, user.rest).value;
    DatabasePosition(payload, flags, user, auth, afterAuth.value);
    r := PlaceDatabase(payload, afterAuth.value, flags, targetDB);
    if r.Ok? {
      PlacedIsRouted(payload, targetDB, flags, payload[4..afterAuth.value], r.value);
    }
  }

  lemma UserPosition(payload: seq<Byte>, user: Parsed<seq<Byte>>, idx: int)
    requires |payload| >= 32 && ParseText(payload[32..]) == Some(user) && idx == |payload| - |user.rest|
    ensures 32 <= idx <= |payload| && payload[idx..] == user.rest
  {
    TextParse(payload[32..]);
    assert payload[32..][idx - 32..] == payload[idx..];
  }

  lemma PlacedIsRouted(payload: seq<Byte>, target: seq<Byte>, flags: Flags, middle: seq<Byte>, out: seq<Byte>)
    requires Parse(payload).Ok? && flags == FlagsOf(payload[..4])
    requires var b := Parse(payload).value.body;
             && middle == payload[4..32] + (b.user + [0] + EncodeAuth(b.auth))
             && out == (if HasDB(flags) then payload[..4] else FlagBytes(WithDB(flags)))
                       + middle + target + [0] + b.trailing
    ensures out == Encode(Route(Parse(payload).value, target))
  {
    FlagBytesBack(payload[..4]);
    EncodedRoute(Parse(payload).value, target, middle);
  }

  lemma ValidNameZeroless(name: seq<Byte>)
    requires ValidName(name)
    ensures 0 !in name
  {}

  lemma RouteValid(r: Response, target: seq<Byte>)
    requires Valid(r) && ValidName(target)
    ensures Valid(Route(r, target))
  {
    WithDBFlags(r.flags);
    ValidNameZeroless(target);
  }

  /** The rewriter succeeds exactly for a good name and a payload that is the encoding of a response to which
      CLIENT_PROTOCOL_41, the bit 0x200 of its flags, applies. */
  lemma RewriteSucceedsIff(p: seq<Byte>, target: seq<Byte>)
    ensures Rewritten(p, target).Ok? <==>
            && 1 <= |target| <= 64 && (forall i :: 0 <= i < |target| ==> 32 <= target[i] && target[i] !in {47, 59, 92, 127})
            && exists r :: IsResponse(r) && p == Encode(r)
  {
    if Parse(p).Ok? {
      ParseThenEncode(p);
      FlagBits(Parse(p).value.flags);
      assert IsResponse(Parse(p).value) && p == Encode(Parse(p).value);
    }
    forall r | IsResponse(r) && p == Encode(r) ensures Parse(p) == Ok(r) {
      FlagBits(r.flags);
      EncodeThenParse(r);
    }
  }

  /** A response as the protocol has it, told by the bits of its flags */
  predicate IsResponse(r: Response) {
    var w, b := Word(r.flags), r.body;
    && w / 0x200 % 2 == 1 && |r.head| == 28 && 0 !in b.user
    && (b.database.Some? <==> w / 0x8 % 2 == 1) && (b.database.Some? ==> 0 !in b.database.value)
    && (match b.auth
        case Lenenc(prefix, data) =>
          w / 0x20_0000 % 2 == 1 && prefix != [] && |prefix| == LenencSize(prefix[0]) && LenencValue(prefix) == |data|
        case Short(data) => w / 0x20_0000 % 2 == 0 && w / 0x8000 % 2 == 1 && |data| < 256
        case Terminated(data) => w / 0x20_0000 % 2 == 0 && w / 0x8000 % 2 == 0 && 0 !in data)
  }

  /** The rewritten packet says what the client said, with CONNECT_WITH_DB set and the target as its database. */
  lemma RewriteTouchesOnlyDatabase(p: seq<Byte>, target: seq<Byte>)
    requires Rewritten(p, target).Ok?
    ensures var before, after := Parse(p).value, Parse(Rewritten(p, target).value);
            && after == Ok(Route(before, target))
            && after.value.head == before.head
            && after.value.body == before.body.(database := Some(target))
            && Word(after.value.flags) == Word(before.flags) + (if HasDB(before.flags) then 0 else 8)
  {
    ParseThenEncode(p);
    RouteValid(Parse(p).value, target);
    WithDBFlags(Parse(p).value.flags);
    EncodeThenParse(Route(Parse(p).value, target));
  }

  /** Only the last rewriting shows. */
  lemma LastRewriteWins(p: seq<Byte>, a: seq<Byte>, b: seq<Byte>)
    requires Rewritten(p, a).Ok?
    ensures Rewritten(Rewritten(p, a).value, b) == Rewritten(p, b)
  {
    RewriteTouchesOnlyDatabase(p, a);
    ParseThenEncode(p);
    WithDBFlags(Parse(p).value.flags);
  }

  /** A packet that already asks for the target is not changed at all, and only such a packet. */
  lemma RewriteFixedPoint(p: seq<Byte>, target: seq<Byte>)
    requires Rewritten(p, target).Ok?
    ensures Rewritten(p, target).value == p <==> Parse(p).value.body.database == Some(target)
  {
    ParseThenEncode(p);
    RewriteTouchesOnlyDatabase(p, target);
  }

  /** A rewritten packet is at most 65 bytes longer. */
  lemma RewriteLength(p: seq<Byte>, target: seq<Byte>)
    requires Rewritten(p, target).Ok?
    ensures |Rewritten(p, target).value| <= |p| + 65
  {
    var r := Parse(p).value;
    ParseThenEncode(p);
    EncodedRoute(r, target, r.head + (r.body.user + [0] + EncodeAuth(r.body.auth)));
    assert |p| >= 32 + |r.body.user| + 1 + |EncodeAuth(r.body.auth)| + |r.body.trailing|;
  }

  /** Every packet that was read still fits the three-byte length once rewritten: the header written for it is true. */
  lemma RewrittenFrame(stream: seq<Byte>, target: seq<Byte>, seqId: Byte, rest: seq<Byte>)
    requires ReadPacket(stream).Ok? && Rewritten(ReadPacket(stream).value.payload, target).Ok?
    ensures var out := Rewritten(ReadPacket(stream).value.payload, target).value;
            Deframe(Frame(out, seqId) + rest) == Some(Read(out, seqId, rest))
  {
    var payload := ReadPacket(stream).value.payload;
    RewriteLength(payload, target);
    FrameRoundTrip(Rewritten(payload, target).value, seqId, rest);
  }
}
