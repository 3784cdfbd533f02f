/** internal/proxy/proxy.go, handleConnection: what the backend receives before the connection is piped. */
module Handshake {
  import opened Wrappers
  import opened Bytes
  import Pg = PgWire
  import My = MySqlWire

  /** Which of the client-side operations fail: the answers to GSSENCRequest and SSLRequest, the TLS handshake, SetDeadline. */
  datatype Faults = Faults(gssReply: bool, sslReply: bool, tls: bool, deadline: bool)

  const NoFaults := Faults(false, false, false, false)

  /** How the negotiation ends: with nothing to forward, with a CancelRequest, or with the packet to be rewritten. */
  datatype Outcome = Nothing | Cancel(packet: seq<Byte>) | Startup(packet: seq<Byte>)

  /** The negotiation as handleConnection carries it out. `client` is what the client sends in the clear,
      `decrypted` what it sends through TLS once that is set up. */
  function Negotiate(client: seq<Byte>, decrypted: seq<Byte>, tls: bool, faults: Faults): Outcome {
    var first := Pg.ReadStartupPacket(client);
    if first.Err? then Nothing
    else if Pg.IsCancelRequest(first.value.packet) then Cancel(first.value.packet)
    else if Pg.IsGSSENCRequest(first.value.packet) then
      if faults.gssReply then Nothing
      else
        var second := Pg.ReadStartupPacket(first.value.rest);
        if second.Err? then Nothing else AfterGss(second.value, decrypted, tls, faults)
    else AfterGss(first.value, decrypted, tls, faults)
  }

  /** From the test for an SSLRequest on */
  function AfterGss(read: Pg.Read, decrypted: seq<Byte>, tls: bool, faults: Faults): Outcome {
    if Pg.IsSSLRequest(read.packet) then
      if faults.sslReply || (tls && faults.tls) then Nothing
      else
        var last := Pg.ReadStartupPacket(if tls then decrypted else read.rest);
        if last.Err? || faults.deadline then Nothing else Startup(last.value.packet)
    else if faults.deadline then Nothing
    else Startup(read.packet)
  }

  // ---- The negotiation as a grammar of what the client sends ----

  /** Framed, and a CancelRequest */
  predicate IsCancel(client: seq<Byte>, packet: seq<Byte>) {
    packet <= client && Pg.IsCancelRequest(packet)
  }

  /** `stream` is `head`, then the packet, then anything. */
  predicate Carries(stream: seq<Byte>, head: seq<Byte>, packet: seq<Byte>) {
    head + packet <= stream && Pg.Framed(packet)
  }

  /** `gss` is nothing, or a GSSENCRequest in front of all else. */
  predicate GssPart(gss: seq<Byte>) {
    gss == [] || (|gss| == 8 && Pg.IsGSSENCRequest(gss))
  }

  /** Behind `gss`: a packet, or an SSLRequest and then a packet, which comes through TLS if that is enabled. */
  predicate SslThenPacket(client: seq<Byte>, decrypted: seq<Byte>, tls: bool, gss: seq<Byte>, ssl: seq<Byte>, packet: seq<Byte>) {
    if ssl == [] then Carries(client, gss, packet) && !Pg.IsSSLRequest(packet)
    else
      && |ssl| == 8 && Pg.IsSSLRequest(ssl) && gss + ssl <= client
      && (if tls then Carries(decrypted, [], packet) else Carries(client, gss + ssl, packet))
  }

  /** The client sends an optional GSSENCRequest, an optional SSLRequest and then a packet;
      as the very first packet it is not one of the other requests. */
  ghost predicate Starts(client: seq<Byte>, decrypted: seq<Byte>, tls: bool, packet: seq<Byte>) {
    exists gss, ssl ::
      && GssPart(gss) && SslThenPacket(client, decrypted, tls, gss, ssl, packet)
      && (gss == [] && ssl == [] ==> !Pg.IsCancelRequest(packet) && !Pg.IsGSSENCRequest(packet))
  }

  lemma BehindHead(stream: seq<Byte>, head: seq<Byte>, packet: seq<Byte>, n: nat)
    requires head + packet <= stream && n == |head| + |packet|
    ensures stream[|head|..] == packet + stream[n..]
  {
    var s := head + packet;
    assert stream == s + stream[n..];
    Join3(head, packet, stream[n..]);
  }

  lemma Join3(a: seq<Byte>, b: seq<Byte>, c: seq<Byte>)
    ensures (a + b + c)[|a|..] == b + c
  {}

  lemma ReadNext(stream: seq<Byte>, head: seq<Byte>, packet: seq<Byte>)
    requires Carries(stream, head, packet)
    ensures Pg.ReadStartupPacket(stream[|head|..]) == Ok(Pg.Read(packet, stream[|head + packet|..]))
  {
    var n := |head + packet|;
    BehindHead(stream, head, packet, n);
    Pg.ReadTakesOnePacket(stream[|head|..], packet, stream[n..]);
  }

  lemma ReadCarries(stream: seq<Byte>, head: seq<Byte>, read: Pg.Read)
    requires head <= stream && Pg.ReadStartupPacket(stream[|head|..]) == Ok(read)
    ensures Carries(stream, head, read.packet) && read.rest == stream[|head + read.packet|..]
  {
    Pg.ReadTakesOnePacket(stream[|head|..], read.packet, read.rest);
    ThreeParts(stream, head, read.packet, read.rest);
  }

  lemma ThreeParts(stream: seq<Byte>, head: seq<Byte>, packet: seq<Byte>, rest: seq<Byte>)
    requires head <= stream && stream[|head|..] == packet + rest
    ensures head + packet <= stream && rest == stream[|head + packet|..]
  {
    assert stream == (head + packet) + rest;
  }

  lemma EightBytes(packet: seq<Byte>)
    requires Pg.IsGSSENCRequest(packet) || Pg.IsSSLRequest(packet)
    ensures Pg.Framed(packet) <==> |packet| == 8
    ensures !Pg.IsCancelRequest(packet)
    ensures !(Pg.IsGSSENCRequest(packet) && Pg.IsSSLRequest(packet))
  {
    assert packet[0..4] == packet[..4];
  }

  lemma AfterGssSound(client: seq<Byte>, decrypted: seq<Byte>, tls: bool, gss: seq<Byte>, read: Pg.Read, packet: seq<Byte>)
    returns (ssl: seq<Byte>)
    requires gss <= client && Pg.ReadStartupPacket(client[|gss|..]) == Ok(read)
    requires AfterGss(read, decrypted, tls, NoFaults) == Startup(packet)
    ensures SslThenPacket(client, decrypted, tls, gss, ssl, packet)
    ensures ssl == if Pg.IsSSLRequest(read.packet) then read.packet else []
    ensures ssl == [] ==> packet == read.packet
  {
    ReadCarries(client, gss, read);
    if Pg.IsSSLRequest(read.packet) {
      ssl := read.packet;
      EightBytes(ssl);
      if tls {
        assert decrypted[0..] == decrypted;
        ReadCarries(decrypted, [], Pg.ReadStartupPacket(decrypted).value);
      } else {
        ReadCarries(client, gss + ssl, Pg.ReadStartupPacket(read.rest).value);
      }
    } else {
      ssl := [];
    }
  }

  lemma AfterGssComplete(client: seq<Byte>, decrypted: seq<Byte>, tls: bool, gss: seq<Byte>, packet: seq<Byte>, ssl: seq<Byte>)
    requires SslThenPacket(client, decrypted, tls, gss, ssl, packet)
    ensures gss <= client
    ensures var r := Pg.ReadStartupPacket(client[|gss|..]);
            && r.Ok? && r.value.packet == (if ssl == [] then packet else ssl)
            && AfterGss(r.value, decrypted, tls, NoFaults) == Startup(packet)
  {
    if ssl == [] {
      assert gss == (gss + packet)[..|gss|];
      ReadNext(client, gss, packet);
    } else {
      assert gss == (gss + ssl)[..|gss|];
      EightBytes(ssl);
      ReadNext(client, gss, ssl);
      if tls {
        assert decrypted[0..] == decrypted;
        ReadNext(decrypted, [], packet);
      } else {
        ReadNext(client, gss + ssl, packet);
      }
    }
  }

  /** Without faults, the packet that is rewritten is the one the grammar designates. */
  lemma StartupIffStarts(client: seq<Byte>, decrypted: seq<Byte>, tls: bool, packet: seq<Byte>)
    ensures Negotiate(client, decrypted, tls, NoFaults) == Startup(packet) <==> Starts(client, decrypted, tls, packet)
  {
    assert client[0..] == client;
    if Negotiate(client, decrypted, tls, NoFaults) == Startup(packet) {
      var first := Pg.ReadStartupPacket(client).value;
      ReadCarries(client, [], first);
      if Pg.IsGSSENCRequest(first.packet) {
        EightBytes(first.packet);
        var second := Pg.ReadStartupPacket(first.rest).value;
        var ssl := AfterGssSound(client, decrypted, tls, first.packet, second, packet);
      } else {
        var ssl := AfterGssSound(client, decrypted, tls, [], first, packet);
      }
    }
    forall gss, ssl | GssPart(gss) && SslThenPacket(client, decrypted, tls, gss, ssl, packet)
      && (gss == [] && ssl == [] ==> !Pg.IsCancelRequest(packet) && !Pg.IsGSSENCRequest(packet))
      ensures Negotiate(client, decrypted, tls, NoFaults) == Startup(packet)
    {
      GrammarNegotiates(client, decrypted, tls, gss, ssl, packet);
    }
  }

  lemma GrammarNegotiates(client: seq<Byte>, decrypted: seq<Byte>, tls: bool, gss: seq<Byte>, ssl: seq<Byte>, packet: seq<Byte>)
    requires GssPart(gss) && SslThenPacket(client, decrypted, tls, gss, ssl, packet)
    requires gss == [] && ssl == [] ==> !Pg.IsCancelRequest(packet) && !Pg.IsGSSENCRequest(packet)
    ensures Negotiate(client, decrypted, tls, NoFaults) == Startup(packet)
  {
    assert client[0..] == client;
    AfterGssComplete(client, decrypted, tls, gss, packet, ssl);
    if gss == [] {
      if ssl != [] { EightBytes(ssl); }
    } else {
      EightBytes(gss);
      ReadNext(client, [], gss);
    }
  }

  /** A CancelRequest is forwarded exactly when it is the first thing the client sends; no fault stands in its way. */
  lemma CancelIff(client: seq<Byte>, decrypted: seq<Byte>, tls: bool, faults: Faults, packet: seq<Byte>)
    ensures Negotiate(client, decrypted, tls, faults) == Cancel(packet) <==> IsCancel(client, packet)
  {
    assert client[0..] == client;
    var first := Pg.ReadStartupPacket(client);
    if first.Ok? {
      ReadCarries(client, [], first.value);
    }
    if IsCancel(client, packet) {
      assert packet[0..4] == packet[..4] && [] + packet == packet;
      ReadNext(client, [], packet);
    }
  }

  /** A fault can only end the negotiation; it never changes which packet is taken. */
  lemma FaultsOnlyStop(client: seq<Byte>, decrypted: seq<Byte>, tls: bool, faults: Faults)
    ensures Negotiate(client, decrypted, tls, faults) in {Nothing, Negotiate(client, decrypted, tls, NoFaults)}
  {}

  // ---- What reaches the backend ----

  /** What a connection that breaks after `takes` bytes has taken of a message */
  function Taken(m: seq<Byte>, takes: nat): seq<Byte> {
    if takes < |m| then m[..takes] else m
  }

  /** What is sent to the backend for an outcome, and whether the connection is piped afterwards */
  ghost predicate Forwarded(o: Outcome, target: seq<Byte>, takes: nat, sent: seq<Byte>, piped: bool) {
    match o
    case Nothing => sent == [] && !piped
    case Cancel(p) => sent == Taken(p, takes) && !piped
    case Startup(p) =>
      var t := Pg.Target(p, target);
      if t.Err? then sent == [] && !piped
      else exists m :: Pg.Encodes(m, t.value) && sent == Taken(m, takes) && (piped <==> takes >= |m|)
  }

  /** The PostgreSQL half of handleConnection, from the first read to the piping.
      `takes` says how many bytes the backend takes before writing to it fails. */
  method HandlePostgres(client: seq<Byte>, decrypted: seq<Byte>, tls: bool, faults: Faults, takes: nat, targetDB: seq<Byte>)
    returns (sent: seq<Byte>, piped: bool)
    ensures Forwarded(Negotiate(client, decrypted, tls, faults), targetDB, takes, sent, piped)
  {
    sent, piped := [], false;
    var read := Pg.ReadStartupPacket(client);
    if read.Err? { return; }
    if Pg.IsCancelRequest(read.value.packet) {
      sent := Taken(read.value.packet, takes);
      return;
    }
    if Pg.IsGSSENCRequest(read.value.packet) {
      if faults.gssReply { return; }
      read := Pg.ReadStartupPacket(read.value.rest);
      if read.Err? { return; }
    }
    if Pg.IsSSLRequest(read.value.packet) {
      if faults.sslReply { return; }
      if tls {
        if faults.tls { return; }
        read := Pg.ReadStartupPacket(decrypted);
        if read.Err? { return; }
      } else {
        read := Pg.ReadStartupPacket(read.value.rest);
        if read.Err? { return; }
      }
    }
    if faults.deadline { return; }
    var rewritten := Pg.RewriteDatabase(read.value.packet, targetDB);
    if rewritten.Err? { return; }
    sent := Taken(rewritten.value, takes);
    piped := takes >= |rewritten.value|;
  }

  /** A message in the form of a StartupMessage for `target` that says otherwise what the client's packet says */
  ghost predicate IsStartupFor(m: seq<Byte>, target: seq<Byte>, packet: seq<Byte>) {
    && 20 <= |m| && U32BE(m[..4]) == |m|
    && Pg.Parse(packet).Ok? && Pg.Parse(m).Ok?
    && Pg.Parse(m).value.protocol == Pg.Parse(packet).value.protocol
    && Pg.Parse(m).value.params == Pg.Parse(packet).value.params[Pg.DatabaseKey := target]
  }

  /** Fail closed: the backend gets nothing, a CancelRequest as the client sent it, or, for the packet that the client's bytes
      designate, the same message with the target database, in each case perhaps cut off by a broken connection;
      and never a request of eight bytes to negotiate. */
  ghost predicate Safe(client: seq<Byte>, decrypted: seq<Byte>, tls: bool, target: seq<Byte>, sent: seq<Byte>, piped: bool) {
    && (|| (sent == [] && !piped)
        || (!piped && exists p :: IsCancel(client, p) && sent <= p)
        || (exists m, packet :: Starts(client, decrypted, tls, packet) && IsStartupFor(m, target, packet) && sent <= m &&
                                (piped ==> sent == m)))
    && !Pg.IsSSLRequest(sent) && !Pg.IsGSSENCRequest(sent)
  }

  lemma TakenPrefix(m: seq<Byte>, takes: nat)
    ensures Taken(m, takes) <= m && (takes >= |m| ==> Taken(m, takes) == m)
  {}

  lemma LongerThanEight(m: seq<Byte>, sent: seq<Byte>)
    requires |m| >= 4 && U32BE(m[..4]) > 8 && sent <= m
    ensures !Pg.IsSSLRequest(sent) && !Pg.IsGSSENCRequest(sent)
  {
    if |sent| >= 8 {
      assert sent[0..4] == m[..4];
    }
  }

  lemma StartupSafe(packet: seq<Byte>, target: seq<Byte>, m: seq<Byte>)
    requires |packet| <= Pg.MaxStartupPacket && Pg.Target(packet, target).Ok? && Pg.Encodes(m, Pg.Target(packet, target).value)
    ensures IsStartupFor(m, target, packet)
  {
    Pg.RewriteRoundTrip(packet, target, m);
    Pg.RewriteLength(packet, target, m);
  }

  lemma CancelSafe(client: seq<Byte>, decrypted: seq<Byte>, tls: bool, target: seq<Byte>, p: seq<Byte>, takes: nat)
    requires IsCancel(client, p)
    ensures Safe(client, decrypted, tls, target, Taken(p, takes), false)
  {
    TakenPrefix(p, takes);
    assert p[0..4] == p[..4];
    LongerThanEight(p, Taken(p, takes));
  }

  lemma NegotiatedSize(client: seq<Byte>, decrypted: seq<Byte>, tls: bool, faults: Faults)
    ensures var o := Negotiate(client, decrypted, tls, faults); o.Startup? ==> 8 <= |o.packet| <= Pg.MaxStartupPacket
  {}

  /** Whatever fails, a packet that is rewritten is the one that the client's bytes designate. */
  lemma StartupStarts(client: seq<Byte>, decrypted: seq<Byte>, tls: bool, faults: Faults, packet: seq<Byte>)
    requires Negotiate(client, decrypted, tls, faults) == Startup(packet)
    ensures Starts(client, decrypted, tls, packet)
  {
    FaultsOnlyStop(client, decrypted, tls, faults);
    StartupIffStarts(client, decrypted, tls, packet);
  }

  lemma MessageSafe(client: seq<Byte>, decrypted: seq<Byte>, tls: bool, target: seq<Byte>, packet: seq<Byte>, m: seq<Byte>,
                    sent: seq<Byte>, piped: bool)
    requires Starts(client, decrypted, tls, packet) && IsStartupFor(m, target, packet) && sent <= m && (piped ==> sent == m)
    ensures Safe(client, decrypted, tls, target, sent, piped)
  {
    LongerThanEight(m, sent);
  }

  /** For every script of the client, with or without TLS, whatever fails: what reaches the backend is safe. */
  lemma FailClosed(client: seq<Byte>, decrypted: seq<Byte>, tls: bool, faults: Faults, takes: nat, target: seq<Byte>,
                   sent: seq<Byte>, piped: bool)
    requires Forwarded(Negotiate(client, decrypted, tls, faults), target, takes, sent, piped)
    ensures Safe(client, decrypted, tls, target, sent, piped)
  {
    var o := Negotiate(client, decrypted, tls, faults);
    match o
    case Nothing =>
    case Cancel(p) =>
      CancelIff(client, decrypted, tls, faults, p);
      CancelSafe(client, decrypted, tls, target, p, takes);
    case Startup(p) =>
      NegotiatedSize(client, decrypted, tls, faults);
      if Pg.Target(p, target).Ok? {
        var m :| Pg.Encodes(m, Pg.Target(p, target).value) && sent == Taken(m, takes) && (piped <==> takes >= |m|);
        StartupStarts(client, decrypted, tls, faults, p);
        StartupSafe(p, target, m);
        TakenPrefix(m, takes);
        MessageSafe(client, decrypted, tls, target, p, m, sent, piped);
      }
  }

  /** When nothing fails, a client whose bytes designate a packet is connected: the whole message is sent, for the target
      database and with the packet's other parameters, and the connection is piped. */
  lemma PostgresDelivers(client: seq<Byte>, decrypted: seq<Byte>, tls: bool, takes: nat, target: seq<Byte>,
                         packet: seq<Byte>, sent: seq<Byte>, piped: bool)
    requires Starts(client, decrypted, tls, packet)
    requires 1 <= |target| <= 63 && forall i :: 0 <= i < |target| ==> 32 <= target[i] && target[i] !in {127, 47, 92}
    requires takes >= |packet| + 75
    requires Forwarded(Negotiate(client, decrypted, tls, NoFaults), target, takes, sent, piped)
    ensures piped && Pg.Parse(sent).Ok? && Pg.Parse(packet).Ok?
    ensures Pg.Parse(sent).value.protocol == Pg.Parse(packet).value.protocol
    ensures Pg.Parse(sent).value.params == Pg.Parse(packet).value.params[Pg.DatabaseKey := target]
  {
    StartupIffStarts(client, decrypted, tls, packet);
    NegotiatedSize(client, decrypted, tls, NoFaults);
    Pg.TargetIff(packet, target);
    var m :| Pg.Encodes(m, Pg.Target(packet, target).value) && sent == Taken(m, takes) && (piped <==> takes >= |m|);
    Pg.RewriteLength(packet, target, m);
    Pg.RewriteRoundTrip(packet, target, m);
  }

  /** The version field of the rewritten packet is the client's own, byte for byte; it is not compared with 3.0. */
  lemma VersionKept(packet: seq<Byte>, target: seq<Byte>, m: seq<Byte>)
    requires Pg.Target(packet, target).Ok? && Pg.Encodes(m, Pg.Target(packet, target).value)
    ensures |m| >= 8 && m[4..8] == packet[4..8]
  {
    Pg.VersionField(m, Pg.Target(packet, target).value);
    U32BEBack(packet[4..8]);
  }

  // ---- Request codes in the version field ----

  /** The client's bytes designate a packet with this code where a StartupMessage has its version. */
  ghost predicate StartsWithCode(client: seq<Byte>, decrypted: seq<Byte>, tls: bool, code: seq<Byte>) {
    exists packet :: |packet| >= 8 && Pg.HasCode(packet, code) && Starts(client, decrypted, tls, packet)
  }

  lemma OnePacketStarts(client: seq<Byte>, decrypted: seq<Byte>, tls: bool, a: seq<Byte>, b: seq<Byte>)
    requires Starts(client, decrypted, tls, a) && Starts(client, decrypted, tls, b)
    ensures a == b
  {
    StartupIffStarts(client, decrypted, tls, a);
    StartupIffStarts(client, decrypted, tls, b);
  }

  /** The message that a piped connection begins with carries a code exactly when the client's packet does. */
  lemma CodeReachesBackend(client: seq<Byte>, decrypted: seq<Byte>, tls: bool, faults: Faults, takes: nat, target: seq<Byte>,
                           sent: seq<Byte>, code: seq<Byte>)
    requires Forwarded(Negotiate(client, decrypted, tls, faults), target, takes, sent, true)
    ensures |sent| >= 8 && (Pg.HasCode(sent, code) <==> StartsWithCode(client, decrypted, tls, code))
  {
    var p := Negotiate(client, decrypted, tls, faults).packet;
    var m :| Pg.Encodes(m, Pg.Target(p, target).value) && sent == Taken(m, takes) && takes >= |m|;
    VersionKept(p, target, m);
    StartupStarts(client, decrypted, tls, faults, p);
    forall q | Starts(client, decrypted, tls, q) ensures q == p {
      OnePacketStarts(client, decrypted, tls, p, q);
    }
  }

  /** The three requests, each with the length it must have */
  predicate IsAnyRequest(packet: seq<Byte>) {
    Pg.IsSSLRequest(packet) || Pg.IsGSSENCRequest(packet) || Pg.IsCancelRequest(packet)
  }

  /** The script asks for encryption before it comes to the packet. */
  ghost predicate AsksBefore(client: seq<Byte>, decrypted: seq<Byte>, tls: bool, packet: seq<Byte>) {
    exists gss, ssl ::
      (gss != [] || ssl != []) && GssPart(gss) && SslThenPacket(client, decrypted, tls, gss, ssl, packet)
  }

  /** A request is rewritten like a StartupMessage exactly when it comes behind an answered one: a GSSENCRequest or
      CancelRequest behind a GSSENCRequest or an SSLRequest, an SSLRequest behind an SSLRequest. */
  lemma RequestScripts(client: seq<Byte>, decrypted: seq<Byte>, tls: bool, packet: seq<Byte>)
    requires IsAnyRequest(packet)
    ensures Starts(client, decrypted, tls, packet) <==> AsksBefore(client, decrypted, tls, packet)
  {
    if Starts(client, decrypted, tls, packet) {
      var gss, ssl :|
        && GssPart(gss) && SslThenPacket(client, decrypted, tls, gss, ssl, packet)
        && (gss == [] && ssl == [] ==> !Pg.IsCancelRequest(packet) && !Pg.IsGSSENCRequest(packet));
      assert gss != [] || ssl != [];
    }
  }

  /** The scripts that send a code on: those with a request behind an answered one, and those whose packet has the code but
      not the length of the request. */
  lemma CodeScripts(client: seq<Byte>, decrypted: seq<Byte>, tls: bool, code: seq<Byte>)
    ensures StartsWithCode(client, decrypted, tls, code) <==>
            (|| (exists packet :: IsAnyRequest(packet) && Pg.HasCode(packet, code) && AsksBefore(client, decrypted, tls, packet))
             || (exists packet :: |packet| >= 8 && Pg.HasCode(packet, code) && !IsAnyRequest(packet) && Starts(client, decrypted, tls, packet)))
  {
    forall packet | IsAnyRequest(packet)
      ensures Starts(client, decrypted, tls, packet) <==> AsksBefore(client, decrypted, tls, packet)
    {
      RequestScripts(client, decrypted, tls, packet);
    }
  }

  /** The SSLRequest */
  const SslBytes: seq<Byte> := [0, 0, 0, 8, 4, 210, 22, 47]

  /** Two SSLRequests in a row, without TLS: whatever the order of the parameters, the backend gets a message with the code of an
      SSLRequest where the version belongs. */
  lemma SecondSslRequest(client: seq<Byte>, ssl: seq<Byte>, decrypted: seq<Byte>, target: seq<Byte>, m: seq<Byte>)
    requires ssl == SslBytes && client == ssl + ssl && Pg.ValidName(target).Ok?
    ensures Negotiate(client, decrypted, false, NoFaults) == Startup(ssl) && Pg.Target(ssl, target).Ok?
    ensures Pg.Encodes(m, Pg.Target(ssl, target).value) ==> |m| >= 20 && Pg.HasCode(m, Pg.SSLRequestCode)
  {
    SslIsRequest(ssl);
    EightBytes(ssl);
    assert ssl + ssl <= client && [] + ssl == ssl;
    GrammarNegotiates(client, decrypted, false, [], ssl, ssl);
    if Pg.Encodes(m, Pg.Target(ssl, target).value) {
      VersionKept(ssl, target, m);
      Pg.RewriteLength(ssl, target, m);
    }
  }

  lemma SslIsRequest(ssl: seq<Byte>)
    requires ssl == SslBytes
    ensures Pg.IsSSLRequest(ssl)
  {
    assert ssl[0..4] == [0, 0, 0, 8];
    assert ssl[4..8] == [4, 210, 22, 47];
  }

  // ---- MySQL ----

  /** The packet for the backend, if the handshake gets as far as sending one */
  function MySqlForward(server: seq<Byte>, client: seq<Byte>, clientFails: bool, target: seq<Byte>): Option<My.Read> {
    var greeting := My.ForwardPacket(server);
    var response := My.ReadPacket(client);
    if greeting.Err? || clientFails || response.Err? || My.IsSSLRequest(response.value.payload) then None
    else
      var out := My.Rewritten(response.value.payload, target);
      if out.Err? then None else Some(My.Read(out.value, response.value.seqId, response.value.rest))
  }

  /** The MySQL half of handleConnection. `server` is what the server sends first, `clientFails` whether writing it on fails. */
  method HandleMySql(server: seq<Byte>, client: seq<Byte>, clientFails: bool, takes: nat, targetDB: seq<Byte>)
    returns (sent: seq<Byte>, piped: bool)
    ensures var f := MySqlForward(server, client, clientFails, targetDB);
            if f.None? then sent == [] && !piped
            else var m := My.Frame(f.value.payload, f.value.seqId); sent == Taken(m, takes) && (piped <==> takes >= |m|)
  {
    sent, piped := [], false;
    var greeting := My.ForwardPacket(server);
    if greeting.Err? || clientFails { return; }
    var response := My.ReadPacket(client);
    if response.Err? { return; }
    if My.IsSSLRequest(response.value.payload) { return; }
    var rewritten := My.RewriteHandshakeResponseDatabase(response.value.payload, targetDB);
    if rewritten.Err? { return; }
    var m := My.Frame(rewritten.value, response.value.seqId);
    sent := Taken(m, takes);
    piped := takes >= |m|;
  }

  /** When nothing fails, a client that answers the greeting with a handshake response, without the SSL bit 0x800, is connected:
      the whole response is sent in one frame, for the target database, and the connection is piped. */
  lemma MySqlDelivers(server: seq<Byte>, client: seq<Byte>, target: seq<Byte>, r: My.Response, seqId: Byte, rest: seq<Byte>)
    requires My.ReadPacket(server).Ok?
    requires 1 <= |target| <= 64 && forall i :: 0 <= i < |target| ==> 32 <= target[i] && target[i] !in {47, 59, 92, 127}
    requires My.IsResponse(r) && My.Word(r.flags) / 0x800 % 2 == 0
    requires |My.Encode(r)| <= 1048576 && client == My.Frame(My.Encode(r), seqId) + rest
    ensures MySqlForward(server, client, false, target) == Some(My.Read(My.Encode(My.Route(r, target)), seqId, rest))
  {
    var p := My.Encode(r);
    My.ReadPacketIff(client, p, seqId, rest);
    My.RewriteSucceedsIff(p, target);
    My.FlagBits(r.flags);
    My.EncodeThenParse(r);
    My.EncodedParts(r);
    My.FlagBytesBack(p[..4]);
  }

  lemma NoSslFlag(payload: seq<Byte>, target: seq<Byte>)
    requires My.Rewritten(payload, target).Ok? && !My.IsSSLRequest(payload)
    ensures !My.IsSSLRequest(My.Rewritten(payload, target).value)
  {
    var r := My.Parse(payload).value;
    My.ParseThenEncode(payload);
    My.WithDBFlags(r.flags);
    My.EncodedParts(My.Route(r, target));
  }

  /** The MySQL server gets nothing but one framed handshake response for the target database, without SSL;
      it takes it off its stream whole, whatever the client sends afterwards. */
  lemma MySqlFailClosed(server: seq<Byte>, client: seq<Byte>, clientFails: bool, target: seq<Byte>, later: seq<Byte>)
    requires MySqlForward(server, client, clientFails, target).Some?
    ensures var f := MySqlForward(server, client, clientFails, target).value;
            && My.Deframe(My.Frame(f.payload, f.seqId) + later) == Some(My.Read(f.payload, f.seqId, later))
            && My.Parse(f.payload).Ok? && My.Parse(f.payload).value.body.database == Some(target)
            && !My.IsSSLRequest(f.payload)
  {
    var payload := My.ReadPacket(client).value.payload;
    My.RewrittenFrame(client, target, My.ReadPacket(client).value.seqId, later);
    My.RewriteTouchesOnlyDatabase(payload, target);
    NoSslFlag(payload, target);
  }
}
