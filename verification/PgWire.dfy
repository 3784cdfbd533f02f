/** internal/proxy/pgwire/pgwire.go: the startup messages of the PostgreSQL frontend/backend protocol. */
module PgWire {
  import opened Wrappers
  import opened Bytes

  // The codes 80877103, 80877104 and 80877102, the highest byte first
  const SSLRequestCode: seq<Byte> := [4, 210, 22, 47]
  const GSSENCRequestCode: seq<Byte> := [4, 210, 22, 48]
  const CancelRequestCode: seq<Byte> := [4, 210, 22, 46]
  const MaxDatabaseIdentifierLen: nat := 63
  const MaxStartupPacket: nat := 10240

  datatype Error =
    | PacketTooShort
    | PacketTooLarge
    | UnexpectedEnd
    | EmptyDatabaseName
    | DatabaseNameTooLong
    | DatabaseNameContainsNull
    | InvalidDatabaseIdentifier

  // ---- Requests ----

  /** The packet has this code where a StartupMessage has its version. */
  predicate HasCode(packet: seq<Byte>, code: seq<Byte>)
    requires |packet| >= 8
  {
    packet[4..8] == code
  }

  /** Comparing the bytes is comparing the numbers. */
  lemma CodeNumbers(packet: seq<Byte>)
    requires |packet| >= 8
    ensures HasCode(packet, SSLRequestCode) <==> U32BE(packet[4..8]) == 80877103
    ensures HasCode(packet, GSSENCRequestCode) <==> U32BE(packet[4..8]) == 80877104
    ensures HasCode(packet, CancelRequestCode) <==> U32BE(packet[4..8]) == 80877102
  {
    CodeNumber(packet[4..8], 47);
    CodeNumber(packet[4..8], 48);
    CodeNumber(packet[4..8], 46);
  }

  lemma CodeNumber(s: seq<Byte>, last: Byte)
    requires |s| == 4
    ensures s == [4, 210, 22, last] <==> U32BE(s) == 80877056 + last as int
  {
    if U32BE(s) == 80877056 + last as int {
      var b: nat := s[0];
      assert s[3] == last && 256 * (256 * b + s[1] as int) + s[2] as int == 315926;
      assert 256 * b + s[1] as int == 1234 && s[2] == 22;
    }
  }

  predicate IsRequest(packet: seq<Byte>, code: seq<Byte>) {
    |packet| >= 8 && U32BE(packet[0..4]) == 8 && HasCode(packet, code)
  }

  predicate IsSSLRequest(packet: seq<Byte>) {
    IsRequest(packet, SSLRequestCode)
  }

  predicate IsGSSENCRequest(packet: seq<Byte>) {
    IsRequest(packet, GSSENCRequestCode)
  }

  predicate IsCancelRequest(packet: seq<Byte>) {
    |packet| == 16 && U32BE(packet[0..4]) == 16 && HasCode(packet, CancelRequestCode)
  }

  // ---- Reading a packet ----

  /** A packet taken from a stream, and what is left of the stream */
  datatype Read = Read(packet: seq<Byte>, rest: seq<Byte>)

  /** ReadStartupPacket on a stream that ends after `stream` */
  function ReadStartupPacket(stream: seq<Byte>): Result<Read, Error> {
    if |stream| < 4 then Err(UnexpectedEnd)
    else
      var n := U32BE(stream[..4]);
      if n < 8 then Err(PacketTooShort)
      else if n > MaxStartupPacket then Err(PacketTooLarge)
      else if |stream| < n then Err(UnexpectedEnd)
      else Ok(Read(stream[..4] + stream[4..n], stream[n..]))
  }

  /** The packets that can be read are those whose length field is true and between 8 and 10240. */
  predicate Framed(packet: seq<Byte>) {
    8 <= |packet| <= 10240 && U32BE(packet[..4]) == |packet|
  }

  /** A read takes exactly one framed packet off the stream, and every framed packet is read back whatever follows it. */
  lemma ReadTakesOnePacket(stream: seq<Byte>, packet: seq<Byte>, rest: seq<Byte>)
    ensures ReadStartupPacket(stream) == Ok(Read(packet, rest)) <==> Framed(packet) && stream == packet + rest
  {
    if ReadStartupPacket(stream) == Ok(Read(packet, rest)) {
      var n := U32BE(stream[..4]);
      assert stream[..4] + stream[4..n] == stream[..n];
      assert stream[..n] + stream[n..] == stream;
      assert packet[..4] == stream[..4];
    }
    if Framed(packet) && stream == packet + rest {
      var n := |packet|;
      assert stream[..4] == packet[..4];
      assert stream[..4] + stream[4..n] == packet;
      assert stream[n..] == rest;
    }
  }

  // ---- Database names ----

  predicate BadByte(c: Byte) {
    c < 32 || c == 127 || c == 47 || c == 92
  }

  function ValidName(name: seq<Byte>): Result<(), Error> {
    if name == [] then Err(EmptyDatabaseName)
    else if |name| > MaxDatabaseIdentifierLen then Err(DatabaseNameTooLong)
    else if 0 in name then Err(DatabaseNameContainsNull)
    else if exists i :: 0 <= i < |name| && BadByte(name[i]) then Err(InvalidDatabaseIdentifier)
    else Ok(())
  }

  method ValidateDatabaseIdentifier(name: seq<Byte>) returns (r: Result<(), Error>)
    ensures r == ValidName(name)
    ensures r.Ok? <==> 1 <= |name| <= 63 && forall i :: 0 <= i < |name| ==> 32 <= name[i] && name[i] !in {127, 47, 92}
  {
    if name == [] { return Err(EmptyDatabaseName); }
    if |name| > MaxDatabaseIdentifierLen { return Err(DatabaseNameTooLong); }
    if 0 in name { return Err(DatabaseNameContainsNull); }
    for i := 0 to |name|
      invariant forall k :: 0 <= k < i ==> !BadByte(name[k])
    {
      if BadByte(name[i]) { return Err(InvalidDatabaseIdentifier); }
    }
    return Ok(());
  }

  // ---- Parameters ----

  type Params = map<seq<Byte>, seq<Byte>>

  datatype StartupMessage = StartupMessage(protocol: int, params: Params)

  /** int32 of a uint32, and back */
  function ToInt32(n: nat): int
    requires n < 0x1_0000_0000
  {
    if n < 0x8000_0000 then n else n - 0x1_0000_0000
  }

  function ToUint32(n: int): nat
    requires -0x8000_0000 <= n < 0x8000_0000
  {
    if n >= 0 then n else n + 0x1_0000_0000
  }

  /** bytes.Split on the zero byte */
  function Split(data: seq<Byte>): (parts: seq<seq<Byte>>)
    ensures |parts| >= 1
    decreases |data|
  {
    var i := IndexByte(data, 0);
    if i < 0 then [data] else [data[..i]] + Split(data[i + 1..])
  }

  /** The key-value pairs up to the first empty key; a later pair replaces an earlier one. */
  function Pairs(parts: seq<seq<Byte>>): Params
    decreases |parts|
  {
    if |parts| < 2 || parts[0] == [] then map[]
    else map[parts[0] := parts[1]] + Pairs(parts[2..])
  }

  function StripFinalZero(data: seq<Byte>): seq<Byte> {
    if |data| > 0 && data[|data| - 1] == 0 then data[..|data| - 1] else data
  }

  function Parse(packet: seq<Byte>): Result<StartupMessage, Error> {
    if |packet| < 8 then Err(PacketTooShort)
    else Ok(StartupMessage(ToInt32(U32BE(packet[4..8])), Pairs(Split(StripFinalZero(packet[8..])))))
  }

  /** The parts with zero bytes between them */
  function Zeroed(parts: seq<seq<Byte>>): seq<Byte>
    requires parts != []
  {
    if |parts| == 1 then parts[0] else parts[0] + [0] + Zeroed(parts[1..])
  }

  lemma {:induction false} SplitRejoins(data: seq<Byte>)
    ensures Zeroed(Split(data)) == data
    decreases |data|
  {
    var i := IndexByte(data, 0);
    if i >= 0 {
      var head, tail := data[..i], data[i + 1..];
      SplitRejoins(tail);
      ZeroedFirst(head, Split(tail));
      CutAtZero(data, i);
    }
  }

  /** Splitting cuts the bytes at all zeros and loses nothing. */
  lemma SplitJoins(data: seq<Byte>)
    ensures Zeroed(Split(data)) == data
    ensures forall i :: 0 <= i < |Split(data)| ==> Zeroless(Split(data)[i])
  {
    SplitRejoins(data);
    SplitZeroless(data);
  }

  lemma ZeroedFirst(head: seq<Byte>, rest: seq<seq<Byte>>)
    requires rest != []
    ensures Zeroed([head] + rest) == head + [0] + Zeroed(rest)
  {
    assert ([head] + rest)[1..] == rest;
  }

  lemma CutAtZero(data: seq<Byte>, i: nat)
    requires i < |data| && data[i] == 0
    ensures data == data[..i] + [0] + data[i + 1..]
  {}

  /** The pair at `i` is read: no key up to it is empty. */
  predicate IsRead(parts: seq<seq<Byte>>, i: nat) {
    2 * i + 1 < |parts| && forall j: nat :: j <= i ==> parts[2 * j] != []
  }

  lemma ReadNext(parts: seq<seq<Byte>>, i: nat)
    requires |parts| >= 2 && parts[0] != []
    ensures IsRead(parts, i + 1) <==> IsRead(parts[2..], i)
    ensures IsRead(parts, 0)
  {
    var rest := parts[2..];
    if IsRead(parts, i + 1) {
      forall j: nat | j <= i ensures rest[2 * j] != [] {
        assert rest[2 * j] == parts[2 * (j + 1)];
      }
    }
    if IsRead(rest, i) {
      forall j: nat | j <= i + 1 ensures parts[2 * j] != [] {
        if j > 0 { assert parts[2 * j] == rest[2 * (j - 1)]; }
      }
    }
  }

  /** A key has a value exactly when a pair with that key is read, and its value is that of the last such pair. */
  lemma {:induction false} LastPairWins(parts: seq<seq<Byte>>, key: seq<Byte>) returns (last: nat)
    ensures key in Pairs(parts) ==> IsRead(parts, last) && parts[2 * last] == key && Pairs(parts)[key] == parts[2 * last + 1]
    ensures forall i: nat :: IsRead(parts, i) && parts[2 * i] == key ==> key in Pairs(parts) && i <= last
    decreases |parts|
  {
    last := 0;
    if |parts| >= 2 && parts[0] != [] {
      var rest := parts[2..];
      var l := LastPairWins(rest, key);
      forall i: nat | IsRead(parts, i) && parts[2 * i] == key
        ensures key in Pairs(parts) && i <= if key in Pairs(rest) then l + 1 else 0
      {
        if i > 0 {
          ReadNext(parts, i - 1);
          assert rest[2 * (i - 1)] == parts[2 * i];
        }
      }
      if key in Pairs(rest) {
        last := l + 1;
        ReadNext(parts, l);
      } else {
        ReadNext(parts, 0);
      }
    }
  }

  /** Reading one more pair: what is read so far, plus the pairs that are left, stays the same. */
  lemma PairsStep(acc: Params, parts: seq<seq<Byte>>)
    requires |parts| >= 2 && parts[0] != []
    ensures acc + Pairs(parts) == acc[parts[0] := parts[1]] + Pairs(parts[2..])
  {}

  /** The loop over the split parts */
  method CollectPairs(parts: seq<seq<Byte>>) returns (params: Params)
    ensures params == Pairs(parts)
  {
    params := map[];
    var i := 0;
    while i + 1 < |parts|
      invariant 0 <= i <= |parts|
      invariant params + Pairs(parts[i..]) == Pairs(parts)
    {
      if parts[i] == [] { return; }
      PairsStep(params, parts[i..]);
      assert parts[i..][2..] == parts[i + 2..];
      params := params[parts[i] := parts[i + 1]];
      i := i + 2;
    }
  }

  method ParseStartupMessage(packet: seq<Byte>) returns (r: Result<StartupMessage, Error>)
    ensures r == Parse(packet)
  {
    if |packet| < 8 { return Err(PacketTooShort); }
    var protocol := ToInt32(U32BE(packet[4..8]));
    var data := packet[8..];
    if |data| > 0 && data[|data| - 1] == 0 {
      data := data[..|data| - 1];
    }
    var params := CollectPairs(Split(data));
    return Ok(StartupMessage(protocol, params));
  }

  // ---- Writing a startup message ----

  /** "database" */
  const DatabaseKey: seq<Byte> := [100, 97, 116, 97, 98, 97, 115, 101]

  function Entry(key: seq<Byte>, value: seq<Byte>): seq<Byte> {
    key + [0] + value + [0]
  }

  /** The parameters, written in the given order of their keys */
  function Body(order: seq<seq<Byte>>, params: Params): seq<Byte>
    requires forall k :: k in order ==> k in params
  {
    if order == [] then [] else Entry(order[0], params[order[0]]) + Body(order[1..], params)
  }

  function Message(protocol: int, body: seq<Byte>): seq<Byte>
    requires -0x8000_0000 <= protocol < 0x8000_0000
  {
    PutU32BE(8 + |body| + 1) + PutU32BE(ToUint32(protocol)) + body + [0]
  }

  /** `order` lists every key once. */
  ghost predicate Enumerates(order: seq<seq<Byte>>, keys: set<seq<Byte>>) {
    && (forall k :: k in order <==> k in keys)
    && (forall i, j :: 0 <= i < j < |order| ==> order[i] != order[j])
  }

  /** `out` is the message with these parameters, in one of the orders in which Go may walk the map. */
  ghost predicate Encodes(out: seq<Byte>, m: StartupMessage) {
    && -0x8000_0000 <= m.protocol < 0x8000_0000
    && exists order :: Enumerates(order, m.params.Keys) && out == Message(m.protocol, Body(order, m.params))
  }

  lemma {:induction false} BodyAppend(order: seq<seq<Byte>>, key: seq<Byte>, params: Params)
    requires key in params && forall k :: k in order ==> k in params
    ensures Body(order + [key], params) == Body(order, params) + Entry(key, params[key])
  {
    if order == [] {
      assert (order + [key])[1..] == [];
    } else {
      assert (order + [key])[1..] == order[1..] + [key];
      BodyAppend(order[1..], key, params);
    }
  }

  /** The loop over the parameter map, which takes the keys in any order */
  method WriteParams(params: Params) returns (body: seq<Byte>, ghost order: seq<seq<Byte>>)
    ensures Enumerates(order, params.Keys) && body == Body(order, params)
  {
    body, order := [], [];
    var keys := params.Keys;
    while keys != {}
      invariant keys <= params.Keys && Enumerates(order, params.Keys - keys)
      invariant body == Body(order, params)
      decreases keys
    {
      var k :| k in keys;
      BodyAppend(order, k, params);
      body := body + k + [0] + params[k] + [0];
      order := order + [k];
      keys := keys - {k};
    }
  }

  /** The message that RewriteDatabase is to write */
  function Target(packet: seq<Byte>, name: seq<Byte>): Result<StartupMessage, Error> {
    if ValidName(name).Err? then Err(ValidName(name).error)
    else
      var m := Parse(packet);
      if m.Err? then m else Ok(m.value.(params := m.value.params[DatabaseKey := name]))
  }

  method RewriteDatabase(packet: seq<Byte>, name: seq<Byte>) returns (r: Result<seq<Byte>, Error>)
    ensures r.Err? <==> Target(packet, name).Err?
    ensures r.Err? ==> r.error == Target(packet, name).error
    ensures r.Ok? ==> Encodes(r.value, Target(packet, name).value)
    ensures r.Ok? <==> |packet| >= 8 && 1 <= |name| <= 63 &&
                       forall i :: 0 <= i < |name| ==> 32 <= name[i] && name[i] !in {127, 47, 92}
  {
    var valid := ValidateDatabaseIdentifier(name);
    if valid.Err? { return Err(valid.error); }
    var msg := ParseStartupMessage(packet);
    if msg.Err? { return Err(msg.error); }
    var params := msg.value.params[DatabaseKey := name];
    var body, order := WriteParams(params);
    r := Ok(Message(msg.value.protocol, body));
    assert Encodes(r.value, StartupMessage(msg.value.protocol, params));
  }

  /** The rewriter has a message to write for every packet of at least eight bytes and every good name. */
  lemma TargetIff(packet: seq<Byte>, name: seq<Byte>)
    ensures Target(packet, name).Ok? <==> |packet| >= 8 && 1 <= |name| <= 63 &&
                                          forall i :: 0 <= i < |name| ==> 32 <= name[i] && name[i] !in {127, 47, 92}
  {}

  // ---- Parsing what was written ----

  predicate Zeroless(s: seq<Byte>) {
    0 !in s
  }

  /** Parameters that survive the zero-terminated format */
  predicate Clean(params: Params) {
    forall k :: k in params ==> k != [] && Zeroless(k) && Zeroless(params[k])
  }

  lemma SplitAtZero(head: seq<Byte>, tail: seq<Byte>)
    requires Zeroless(head)
    ensures Split(head + [0] + tail) == [head] + Split(tail)
  {
    IndexByteAt(head, 0, tail);
    assert (head + [0] + tail)[..|head|] == head && (head + [0] + tail)[|head| + 1..] == tail;
  }

  lemma {:induction false} SplitZeroless(data: seq<Byte>)
    ensures forall i :: 0 <= i < |Split(data)| ==> Zeroless(Split(data)[i])
    decreases |data|
  {
    var i := IndexByte(data, 0);
    if i >= 0 { SplitZeroless(data[i + 1..]); }
  }

  lemma {:induction false} PairsClean(parts: seq<seq<Byte>>)
    requires forall i :: 0 <= i < |parts| ==> Zeroless(parts[i])
    ensures Clean(Pairs(parts))
    decreases |parts|
  {
    if |parts| >= 2 && parts[0] != [] { PairsClean(parts[2..]); }
  }

  lemma ParseClean(packet: seq<Byte>)
    requires |packet| >= 8
    ensures Clean(Parse(packet).value.params)
  {
    var data := StripFinalZero(packet[8..]);
    SplitZeroless(data);
    PairsClean(Split(data));
  }

  /** The parameters named in `order` */
  function Only(order: seq<seq<Byte>>, params: Params): Params {
    map k | k in params && k in order :: params[k]
  }

  lemma SplitEntry(key: seq<Byte>, value: seq<Byte>, rest: seq<Byte>)
    requires Zeroless(key) && Zeroless(value)
    ensures Split(Entry(key, value) + rest) == [key, value] + Split(rest)
  {
    assert Entry(key, value) + rest == key + [0] + (value + [0] + rest);
    SplitAtZero(key, value + [0] + rest);
    SplitAtZero(value, rest);
    assert [key] + ([value] + Split(rest)) == [key, value] + Split(rest);
  }

  lemma PairsCons(key: seq<Byte>, value: seq<Byte>, parts: seq<seq<Byte>>)
    requires key != []
    ensures Pairs([key, value] + parts) == map[key := value] + Pairs(parts)
  {
    assert ([key, value] + parts)[2..] == parts;
  }

  lemma OnlyCons(order: seq<seq<Byte>>, params: Params)
    requires order != [] && order[0] in params
    ensures Only(order, params) == map[order[0] := params[order[0]]] + Only(order[1..], params)
  {
    assert order == [order[0]] + order[1..];
  }

  lemma {:induction false} PairsOfBody(order: seq<seq<Byte>>, params: Params)
    requires Clean(params) && forall k :: k in order ==> k in params
    ensures Pairs(Split(Body(order, params))) == Only(order, params)
  {
    if order == [] {
      assert Split([]) == [[]];
    } else {
      var key, rest := order[0], order[1..];
      var tail := Body(rest, params);
      PairsOfBody(rest, params);
      SplitEntry(key, params[key], tail);
      PairsCons(key, params[key], Split(tail));
      OnlyCons(order, params);
    }
  }

  lemma MessageFields(protocol: int, body: seq<Byte>)
    requires -0x8000_0000 <= protocol < 0x8000_0000
    ensures var out := Message(protocol, body);
            |out| == |body| + 9 && out[..4] == PutU32BE(|out|) && StripFinalZero(out[8..]) == body &&
            out[4..8] == PutU32BE(ToUint32(protocol)) && ToInt32(U32BE(out[4..8])) == protocol
  {
    var out := Message(protocol, body);
    assert out[4..8] == PutU32BE(ToUint32(protocol));
    U32BERoundTrip(ToUint32(protocol));
    assert out[8..] == body + [0];
  }

  lemma VersionField(out: seq<Byte>, m: StartupMessage)
    requires Encodes(out, m)
    ensures |out| >= 9 && out[4..8] == PutU32BE(ToUint32(m.protocol))
  {
    var order :| Enumerates(order, m.params.Keys) && out == Message(m.protocol, Body(order, m.params));
    MessageFields(m.protocol, Body(order, m.params));
  }

  lemma OnlyAll(order: seq<seq<Byte>>, params: Params)
    requires Enumerates(order, params.Keys)
    ensures Only(order, params) == params
  {}

  /** Parsing a written message gives back its protocol version and its parameters, whatever the order. */
  lemma MessageRoundTrip(out: seq<Byte>, m: StartupMessage)
    requires Clean(m.params) && Encodes(out, m)
    ensures Parse(out) == Ok(m)
  {
    var order :| Enumerates(order, m.params.Keys) && out == Message(m.protocol, Body(order, m.params));
    MessageFields(m.protocol, Body(order, m.params));
    PairsOfBody(order, m.params);
    OnlyAll(order, m.params);
  }

  lemma ValidNameZeroless(name: seq<Byte>)
    requires ValidName(name).Ok?
    ensures Zeroless(name)
  {}

  /** The rewritten packet says what the original says, with only the database replaced. */
  lemma RewriteRoundTrip(packet: seq<Byte>, name: seq<Byte>, out: seq<Byte>)
    requires Target(packet, name).Ok? && Encodes(out, Target(packet, name).value)
    ensures Parse(out).Ok?
    ensures Parse(out).value.protocol == Parse(packet).value.protocol
    ensures Parse(out).value.params == Parse(packet).value.params[DatabaseKey := name]
  {
    ParseClean(packet);
    ValidNameZeroless(name);
    assert Zeroless(DatabaseKey);
    MessageRoundTrip(out, Target(packet, name).value);
  }

  // ---- The length of the written packet ----

  function PartsLength(parts: seq<seq<Byte>>): nat {
    if parts == [] then 0 else |parts[0]| + 1 + PartsLength(parts[1..])
  }

  lemma {:induction false} SplitLength(data: seq<Byte>)
    ensures PartsLength(Split(data)) == |data| + 1
    decreases |data|
  {
    var i := IndexByte(data, 0);
    if i >= 0 {
      SplitLength(data[i + 1..]);
      assert Split(data)[1..] == Split(data[i + 1..]);
    }
  }

  function Without(order: seq<seq<Byte>>, i: nat): seq<seq<Byte>>
    requires i < |order|
  {
    order[..i] + order[i + 1..]
  }

  lemma {:induction false} BodyWithout(order: seq<seq<Byte>>, i: nat, params: Params)
    requires i < |order| && forall k :: k in order ==> k in params
    ensures |Body(order, params)| == |Body(Without(order, i), params)| + |Entry(order[i], params[order[i]])|
  {
    if i == 0 {
      assert Without(order, 0) == order[1..];
    } else {
      BodyWithout(order[1..], i - 1, params);
      assert Without(order, i)[1..] == Without(order[1..], i - 1);
    }
  }

  lemma {:induction false} BodyAgrees(order: seq<seq<Byte>>, a: Params, b: Params)
    requires forall k :: k in order ==> k in a && k in b && a[k] == b[k]
    ensures Body(order, a) == Body(order, b)
  {
    if order != [] { BodyAgrees(order[1..], a, b); }
  }

  predicate Distinct(order: seq<seq<Byte>>) {
    forall i, j :: 0 <= i < j < |order| ==> order[i] != order[j]
  }

  lemma WithoutDistinct(order: seq<seq<Byte>>, i: nat)
    requires Distinct(order) && i < |order|
    ensures Distinct(Without(order, i)) && order[i] !in Without(order, i)
    ensures forall k :: k in Without(order, i) ==> k in order
  {}

  /** Writing a key once costs no more than the text it was read from. */
  lemma {:induction false} BodyFits(order: seq<seq<Byte>>, parts: seq<seq<Byte>>)
    requires Distinct(order) && forall k :: k in order ==> k in Pairs(parts)
    ensures |Body(order, Pairs(parts))| <= PartsLength(parts)
    decreases |parts|
  {
    if |parts| < 2 || parts[0] == [] {
      assert order == [] || order[0] in Pairs(parts);
    } else {
      var key, rest := parts[0], parts[2..];
      assert PartsLength(parts) == |key| + |parts[1]| + 2 + PartsLength(rest);
      if key in order && key !in Pairs(rest) {
        var i :| 0 <= i < |order| && order[i] == key;
        BodyWithout(order, i, Pairs(parts));
        WithoutDistinct(order, i);
        BodyAgrees(Without(order, i), Pairs(parts), Pairs(rest));
        BodyFits(Without(order, i), rest);
      } else {
        BodyAgrees(order, Pairs(parts), Pairs(rest));
        BodyFits(order, rest);
      }
    }
  }

  /** Setting one key adds its entry to the entries of the others. */
  lemma BodyOfUpdate(order: seq<seq<Byte>>, base: Params, key: seq<Byte>, value: seq<Byte>, i: nat)
    requires Enumerates(order, base.Keys + {key}) && i < |order| && order[i] == key
    ensures Distinct(Without(order, i)) && forall k :: k in Without(order, i) ==> k in base
    ensures |Body(order, base[key := value])| == |Body(Without(order, i), base)| + |key| + |value| + 2
  {
    WithoutDistinct(order, i);
    BodyWithout(order, i, base[key := value]);
    BodyAgrees(Without(order, i), base[key := value], base);
  }

  /** The other parameters cost at most the packet they come from. */
  lemma BodyLength(order: seq<seq<Byte>>, base: Params, key: seq<Byte>, value: seq<Byte>, data: seq<Byte>)
    requires base == Pairs(Split(data)) && Enumerates(order, base.Keys + {key})
    ensures |key| + |value| + 2 <= |Body(order, base[key := value])| <= |data| + |key| + |value| + 3
  {
    assert key in order;
    var i :| 0 <= i < |order| && order[i] == key;
    BodyOfUpdate(order, base, key, value, i);
    BodyFits(Without(order, i), Split(data));
    SplitLength(data);
  }

  lemma MessageLength(m: StartupMessage, order: seq<seq<Byte>>, base: Params, key: seq<Byte>, value: seq<Byte>, data: seq<Byte>)
    requires -0x8000_0000 <= m.protocol < 0x8000_0000
    requires m.params == base[key := value] && base == Pairs(Split(data)) && Enumerates(order, base.Keys + {key})
    ensures var out := Message(m.protocol, Body(order, m.params));
            && |key| + |value| + 11 <= |out| <= |data| + |key| + |value| + 12
            && out[..4] == PutU32BE(|out|)
  {
    BodyLength(order, base, key, value, data);
    MessageFields(m.protocol, Body(order, m.params));
  }

  lemma KeysOfUpdate(m: Params, base: Params, key: seq<Byte>, value: seq<Byte>)
    requires m == base[key := value]
    ensures m.Keys == base.Keys + {key}
  {}

  /** The length field is the real length, between 20 and 75 more than the packet that came in. */
  lemma RewriteLength(packet: seq<Byte>, name: seq<Byte>, out: seq<Byte>)
    requires Target(packet, name).Ok? && Encodes(out, Target(packet, name).value)
    ensures 20 <= |out| <= |packet| + 75
    ensures |out| < 0x1_0000_0000 ==> U32BE(out[..4]) == |out|
  {
    var m, base := Target(packet, name).value, Parse(packet).value.params;
    var order :| Enumerates(order, m.params.Keys) && out == Message(m.protocol, Body(order, m.params));
    KeysOfUpdate(m.params, base, DatabaseKey, name);
    MessageLength(m, order, base, DatabaseKey, name, StripFinalZero(packet[8..]));
    if |out| < 0x1_0000_0000 {
      U32BERoundTrip(|out|);
    }
  }
}
