/**
 * Connection priming for a reverse proxy: the first packet the proxy sends on
 * a freshly opened backend connection. Three primers exist:
 *  - Passthrough re-sends the client's handshake exactly as received;
 *  - BungeeCord appends NUL, the client's IP and NUL, the player's UUID to
 *    the handshake's server address;
 *  - RealIP inserts "///" and the client's ip:port into the server address,
 *    at the end, or just before the character preceding the first NUL when a
 *    mod loader has appended data after one.
 * Each active primer first refuses an address that already carries its own
 * marker (a NUL for BungeeCord, a '/' for RealIP), before anything is sent.
 *
 * The backend connection is a `Stream` object whose `sent` log records the
 * packets written to it; framing a packet into bytes is outside this model.
 */
module Forwarding {
  import opened Bytes
  import opened Render

  /** The configured forwarding convention of a route. */
  datatype ForwardStrategy = None | BungeeCord | RealIP

  const DEFAULT_STRATEGY: ForwardStrategy := ForwardStrategy.None

  /** The name that selects a strategy in the configuration. */
  function StrategyName(s: ForwardStrategy): (n: string)
    ensures ParseStrategy(n) == Some(s)
  {
    match s
    case None => "none"
    case BungeeCord => "bungeecord"
    case RealIP => "realip"
  }

  /**
   * Reading a configured strategy name: exactly the three names, matched
   * case-sensitively; "none" is the default strategy.
   */
  function ParseStrategy(n: string): (r: Option<ForwardStrategy>)
    ensures r == Some(DEFAULT_STRATEGY) <==> n == "none"
  {
    if n == "none" then Some(ForwardStrategy.None)
    else if n == "bungeecord" then Some(BungeeCord)
    else if n == "realip" then Some(RealIP)
    else Option.None
  }

  /** Every name that reads as a strategy is that strategy's own name. */
  lemma ParseStrategyNames(n: string)
    ensures ParseStrategy(n).Some? ==> StrategyName(ParseStrategy(n).value) == n
  {
  }

  datatype NextState = Status | Login

  /** A decoded handshake; the server address is UTF-8 text kept as its bytes. */
  datatype Handshake = Handshake(
    protocolVersion: int,
    serverAddress: seq<byte>,
    serverPort: u16,
    nextState: NextState)

  /** A handshake as received: its raw packet bytes and their decoding. */
  datatype DecodedHandshake = DecodedHandshake(raw: seq<byte>, data: Handshake)

  /** What a write puts on the wire: a handshake to be serialized, or raw bytes. */
  datatype Packet = Serialized(handshake: Handshake) | Raw(bytes: seq<byte>)

  /** The errors a primer returns: a spoofed address, or a failed write. */
  datatype Error = Invalid | Io

  /** Why a primer's task panics instead of returning. */
  datatype PanicReason =
    | SubtractOverflow   // the first NUL is at offset 0, and `0 - 1` underflows
    | NotCharBoundary    // `insert_str` was given an offset inside a multi-byte character

  datatype Outcome<+T> = Ok(value: T) | Err(error: Error) | Panic(reason: PanicReason)

  /** The outbound connection to the backend. */
  class Stream {
    /** The packets written so far, oldest first. */
    var sent: seq<Packet>
    /** Whether the backend still accepts writes; when not, a write fails with `Io`. */
    const accepting: bool

    constructor (accepting: bool)
      ensures sent == [] && this.accepting == accepting
    {
      sent := [];
      this.accepting := accepting;
    }

    /** Writes one whole packet, or nothing when the connection is broken. */
    method Write(p: Packet) returns (r: Outcome<()>)
      modifies this`sent
      ensures accepting ==> r == Ok(()) && sent == old(sent) + [p]
      ensures !accepting ==> r == Err(Io) && sent == old(sent)
    {
      if accepting {
        sent := sent + [p];
        r := Ok(());
      } else {
        r := Err(Io);
      }
    }
  }

  /** The three primers, each with the state its constructor captured. */
  datatype ConnectionPrimer =
    | Passthrough
    | BungeeCordPrimer(playerAddr: SocketAddr, playerUuid: Uuid)
    | RealIpPrimer(playerAddr: SocketAddr)

  /**
   * `BungeeCord::from_username`: the player's offline UUID is derived once,
   * here, from the name; `offlinePlayer` is that (deterministic) derivation.
   */
  function FromUsername(playerAddr: SocketAddr, playerName: string, offlinePlayer: string -> Uuid): ConnectionPrimer {
    BungeeCordPrimer(playerAddr, offlinePlayer(playerName))
  }

  /** `RealIP::new`. */
  function NewRealIp(playerAddr: SocketAddr): ConnectionPrimer {
    RealIpPrimer(playerAddr)
  }

  // ---- BungeeCord ----

  /** The handshake BungeeCord forwarding sends, or why it sends none. */
  function BungeeCordRewrite(playerAddr: SocketAddr, playerUuid: Uuid, h: Handshake): (r: Outcome<Handshake>)
    ensures r == Err(Invalid) <==> NUL in h.serverAddress
    ensures r.Ok? || r == Err(Invalid)
    ensures r.Ok? ==> r.value.(serverAddress := h.serverAddress) == h
    ensures r.Ok? ==> h.serverAddress <= r.value.serverAddress
  {
    if NUL in h.serverAddress then Err(Invalid)
    else Ok(h.(serverAddress := h.serverAddress + [NUL] + IpText(Ip(playerAddr)) + [NUL] + UuidText(playerUuid)))
  }

  /**
   * A backend splitting the forwarded address on NUL finds exactly three
   * fields: the client's original address, the client's IP and the UUID.
   */
  lemma BungeeCordRoundTrip(playerAddr: SocketAddr, playerUuid: Uuid, h: Handshake)
    requires NUL !in h.serverAddress
    ensures BungeeCordRewrite(playerAddr, playerUuid, h).Ok?
    ensures var a := BungeeCordRewrite(playerAddr, playerUuid, h).value.serverAddress;
            Split(a, NUL) == [h.serverAddress, IpText(Ip(playerAddr)), UuidText(playerUuid)]
            && a == Join([h.serverAddress, IpText(Ip(playerAddr)), UuidText(playerUuid)], NUL)
  {
    var ip, id := IpText(Ip(playerAddr)), UuidText(playerUuid);
    JoinThree(h.serverAddress, ip, id, NUL);
    SplitJoin([h.serverAddress, ip, id], NUL);
  }

  /**
   * What a primer built by `FromUsername` forwards: the original address, the
   * IP without the port, and the UUID derived from the player's name.
   */
  lemma FromUsernameForwards(playerAddr: SocketAddr, playerName: string, offlinePlayer: string -> Uuid, og: DecodedHandshake)
    requires NUL !in og.data.serverAddress
    ensures var p := Planned(FromUsername(playerAddr, playerName, offlinePlayer), og);
            p.Ok? && p.value.Serialized?
            && Split(p.value.handshake.serverAddress, NUL)
               == [og.data.serverAddress, IpText(Ip(playerAddr)), UuidText(offlinePlayer(playerName))]
  {
    var uuid := offlinePlayer(playerName);
    assert Planned(FromUsername(playerAddr, playerName, offlinePlayer), og)
           == Serialize(BungeeCordRewrite(playerAddr, uuid, og.data));
    BungeeCordRoundTrip(playerAddr, uuid, og.data);
  }

  /** Only the IP reaches the backend: two connections differing in port forward the same address. */
  lemma BungeeCordIgnoresPort(a1: SocketAddr, a2: SocketAddr, playerUuid: Uuid, h: Handshake)
    requires Ip(a1) == Ip(a2)
    ensures BungeeCordRewrite(a1, playerUuid, h) == BungeeCordRewrite(a2, playerUuid, h)
  {
  }

  // ---- RealIP ----

  /**
   * Where RealIP inserts its data: the end of the address, or one before the
   * first NUL; a NUL at offset 0 makes `0 - 1` underflow.
   */
  function RealIpInsertIndex(addr: seq<byte>): (r: Outcome<nat>)
    ensures r.Ok? || r == Panic(SubtractOverflow)
    ensures r == Panic(SubtractOverflow) <==> addr != [] && addr[0] == NUL
    ensures r.Ok? && NUL !in addr ==> r.value == |addr|
    ensures r.Ok? && NUL in addr ==> r.value + 1 < |addr| && addr[r.value + 1] == NUL && NUL !in addr[..r.value + 1]
    ensures r.Ok? && NUL in addr ==> Find(addr, NUL) == Some(r.value + 1)
  {
    match Find(addr, NUL)
    case None => Ok(|addr|)
    case Some(a) => if a == 0 then Panic(SubtractOverflow) else Ok(a - 1)
  }

  lemma InsertIndexBeforeNul(addr: seq<byte>, a: nat)
    requires Find(addr, NUL) == Some(a) && a >= 1
    ensures RealIpInsertIndex(addr) == Ok(a - 1)
  {
  }

  /** The text RealIP forwarding inserts: "///" and the client's ip:port. */
  function RealIpData(playerAddr: SocketAddr): (d: seq<byte>)
    ensures NUL !in d
    ensures |d| == 3 + |SocketAddrText(playerAddr)|
    ensures d[..3] == [SLASH, SLASH, SLASH] && d[3..] == SocketAddrText(playerAddr)
  {
    [SLASH, SLASH, SLASH] + SocketAddrText(playerAddr)
  }

  /** The handshake RealIP forwarding sends, or why it sends none. */
  function RealIpRewrite(playerAddr: SocketAddr, h: Handshake): (r: Outcome<Handshake>)
    ensures r == Err(Invalid) <==> SLASH in h.serverAddress
    ensures r.Err? ==> r == Err(Invalid)
    ensures r.Ok? ==> r.value.(serverAddress := h.serverAddress) == h
    ensures r.Ok? ==> |r.value.serverAddress| == |h.serverAddress| + |RealIpData(playerAddr)|
  {
    if SLASH in h.serverAddress then Err(Invalid)
    else
      match RealIpInsertIndex(h.serverAddress)
      case Ok(i) =>
        (match InsertStr(h.serverAddress, i, RealIpData(playerAddr))
         case Some(s) => Ok(h.(serverAddress := s))
         case None => Panic(NotCharBoundary))
      case Err(e) => Err(e)
      case Panic(why) => Panic(why)
  }

  /**
   * When RealIP panics: `0 - 1` on a NUL in first position, and `insert_str`
   * when the byte before the first NUL continues a multi-byte character.
   * Offset 0 is always a char boundary, so a first NUL at offset 1 never
   * panics; from offset 2 on, the byte before the NUL decides.
   */
  lemma RealIpPanics(playerAddr: SocketAddr, h: Handshake)
    ensures var r, s := RealIpRewrite(playerAddr, h), h.serverAddress;
            (r == Panic(SubtractOverflow) <==> SLASH !in s && Find(s, NUL) == Some(0))
            && (r == Panic(NotCharBoundary) <==>
                  SLASH !in s && Find(s, NUL).Some? && Find(s, NUL).value > 1
                  && IsContinuation(s[Find(s, NUL).value - 1]))
  {
    var s, d := h.serverAddress, RealIpData(playerAddr);
    if SLASH !in s {
      match Find(s, NUL)
      case None =>
        InsertAtEnd(s, d);
      case Some(a) =>
        if a > 0 {
          InsertIndexBeforeNul(s, a);
          assert InsertStr(s, a - 1, d).Some? <==> IsCharBoundary(s, a - 1);
        }
    }
  }

  /** RealIP's result when the first NUL is at offset i >= 1 and inserting at i - 1 gives `u`. */
  lemma RealIpInsertsBeforeNul(playerAddr: SocketAddr, h: Handshake, i: nat, u: seq<byte>)
    requires SLASH !in h.serverAddress && Find(h.serverAddress, NUL) == Some(i) && i >= 1
    requires InsertStr(h.serverAddress, i - 1, RealIpData(playerAddr)) == Some(u)
    ensures RealIpRewrite(playerAddr, h) == Ok(h.(serverAddress := u))
  {
    InsertIndexBeforeNul(h.serverAddress, i);
  }

  /** Without a NUL, RealIP appends its data to the address. */
  lemma RealIpWithoutNul(playerAddr: SocketAddr, h: Handshake)
    requires Forwardable(h.serverAddress)
    ensures RealIpRewrite(playerAddr, h) == Ok(h.(serverAddress := h.serverAddress + RealIpData(playerAddr)))
  {
    var s, d := h.serverAddress, RealIpData(playerAddr);
    assert RealIpInsertIndex(s) == Ok(|s|);
    InsertAtEnd(s, d);
  }

  /**
   * A backend splitting a RealIP address without NUL on '/' finds the
   * original address, two empty fields and the client's ip:port.
   */
  lemma RealIpRoundTrip(playerAddr: SocketAddr, h: Handshake)
    requires Forwardable(h.serverAddress)
    ensures RealIpRewrite(playerAddr, h).Ok?
    ensures Split(RealIpRewrite(playerAddr, h).value.serverAddress, SLASH)
            == [h.serverAddress, [], [], SocketAddrText(playerAddr)]
  {
    var s, a := h.serverAddress, SocketAddrText(playerAddr);
    assert RealIpRewrite(playerAddr, h).value.serverAddress == s + ([SLASH, SLASH, SLASH] + a) by {
      RealIpWithoutNul(playerAddr, h);
    }
    SplitMarker(s, a, SLASH);
  }

  /** What a primer built by `NewRealIp` forwards for an address without NUL. */
  lemma NewRealIpForwards(playerAddr: SocketAddr, og: DecodedHandshake)
    requires Forwardable(og.data.serverAddress)
    ensures var p := Planned(NewRealIp(playerAddr), og);
            p.Ok? && p.value.Serialized?
            && Split(p.value.handshake.serverAddress, SLASH)
               == [og.data.serverAddress, [], [], SocketAddrText(playerAddr)]
  {
    assert Planned(NewRealIp(playerAddr), og) == Serialize(RealIpRewrite(playerAddr, og.data));
    RealIpRoundTrip(playerAddr, og.data);
  }

  /**
   * With a first NUL at offset i >= 1 whose preceding byte starts a
   * character (or is the first byte, since offset 0 is always a boundary), RealIP inserts its data at offset i - 1, so that it lands
   * before the last character ahead of the NUL; cutting it out again gives
   * back the original address.
   */
  lemma RealIpWithNul(playerAddr: SocketAddr, h: Handshake, i: nat)
    requires SLASH !in h.serverAddress
    requires 1 <= i < |h.serverAddress| && h.serverAddress[i] == NUL && NUL !in h.serverAddress[..i]
    requires IsCharBoundary(h.serverAddress, i - 1)
    ensures var s := h.serverAddress;
            var d := RealIpData(playerAddr);
            var r := RealIpRewrite(playerAddr, h);
            r == Ok(h.(serverAddress := s[..i - 1] + d + s[i - 1..]))
            && r.value.serverAddress[i - 1..i - 1 + |d|] == d
            && Remove(r.value.serverAddress, i - 1, |d|) == s
            && |r.value.serverAddress| == |s| + 3 + |SocketAddrText(playerAddr)|
  {
    var s, d := h.serverAddress, RealIpData(playerAddr);
    var u := s[..i - 1] + d + s[i - 1..];
    assert InsertStr(s, i - 1, d) == Some(u);
    FindIsFirst(s, NUL, i);
    RealIpInsertsBeforeNul(playerAddr, h, i, u);
  }


  /**
   * For an ASCII address the only way RealIP can panic is a NUL in first
   * position: then every offset is a char boundary.
   */
  lemma RealIpAsciiPanics(playerAddr: SocketAddr, h: Handshake)
    requires forall k | 0 <= k < |h.serverAddress| :: h.serverAddress[k] < 0x80
    ensures RealIpRewrite(playerAddr, h).Panic? <==>
              SLASH !in h.serverAddress && h.serverAddress != [] && h.serverAddress[0] == NUL
  {
    var s := h.serverAddress;
    if SLASH !in s && NUL in s && s[0] != NUL {
      var i := Find(s, NUL).value;
      assert s[i - 1] < 0x80;
    }
  }

  // ---- priming ----

  /** The packet a primer would write for a handshake, or why it writes none. */
  function Planned(primer: ConnectionPrimer, og: DecodedHandshake): (r: Outcome<Packet>)
    ensures primer.Passthrough? ==> r == Ok(Raw(og.raw))
    ensures !primer.Passthrough? && r.Ok? ==>
              r.value.Serialized? && r.value.handshake.(serverAddress := og.data.serverAddress) == og.data
    ensures r.Err? ==> r.error == Invalid
  {
    match primer
    case Passthrough => Ok(Raw(og.raw))
    case BungeeCordPrimer(addr, uuid) => Serialize(BungeeCordRewrite(addr, uuid, og.data))
    case RealIpPrimer(addr) => Serialize(RealIpRewrite(addr, og.data))
  }

  function Serialize(o: Outcome<Handshake>): Outcome<Packet> {
    match o
    case Ok(h) => Ok(Serialized(h))
    case Err(e) => Err(e)
    case Panic(why) => Panic(why)
  }

  /**
   * The primer contract: the planned packet is written whole when the
   * connection accepts it; a refusal, a panic or a failed write sends nothing.
   */
  ghost predicate Delivers(planned: Outcome<Packet>, accepting: bool, before: seq<Packet>, after: seq<Packet>, r: Outcome<()>) {
    match planned
    case Ok(p) => if accepting then r == Ok(()) && after == before + [p] else r == Err(Io) && after == before
    case Err(e) => r == Err(e) && after == before
    case Panic(why) => r == Panic(why) && after == before
  }

  /** Priming appends at most one packet, and exactly one when it succeeds. */
  lemma DeliversAtMostOne(planned: Outcome<Packet>, accepting: bool, before: seq<Packet>, after: seq<Packet>, r: Outcome<()>)
    requires Delivers(planned, accepting, before, after, r)
    ensures before <= after && |after| <= |before| + 1
    ensures r.Ok? <==> |after| == |before| + 1
    ensures r.Ok? ==> planned.Ok? && after[|before|] == planned.value
  {
  }

  /** `BungeeCord::prime_connection`. */
  method BungeeCordPrime(playerAddr: SocketAddr, playerUuid: Uuid, stream: Stream, og: DecodedHandshake)
    returns (r: Outcome<()>)
    modifies stream`sent
    ensures Delivers(Planned(BungeeCordPrimer(playerAddr, playerUuid), og), stream.accepting, old(stream.sent), stream.sent, r)
  {
    var handshake := og.data;
    if NUL in handshake.serverAddress {
      return Err(Invalid);
    }
    handshake := handshake.(serverAddress :=
      handshake.serverAddress + [NUL] + IpText(Ip(playerAddr)) + [NUL] + UuidText(playerUuid));
    r := stream.Write(Serialized(handshake));
  }

  /** `RealIP::prime_connection`. */
  method RealIpPrime(playerAddr: SocketAddr, stream: Stream, og: DecodedHandshake)
    returns (r: Outcome<()>)
    modifies stream`sent
    ensures Delivers(Planned(RealIpPrimer(playerAddr), og), stream.accepting, old(stream.sent), stream.sent, r)
  {
    var handshake := og.data;
    if SLASH in handshake.serverAddress {
      return Err(Invalid);
    }
    var insertIndex: nat;
    match Find(handshake.serverAddress, NUL) {
      case None =>
        insertIndex := |handshake.serverAddress|;
      case Some(a) =>
        if a == 0 {
          RealIpPanics(playerAddr, og.data);
          return Panic(SubtractOverflow);
        }
        insertIndex := a - 1;
    }
    var realipData := [SLASH, SLASH, SLASH] + SocketAddrText(playerAddr);
    RealIpPlanInserts(playerAddr, og, insertIndex);
    match InsertStr(handshake.serverAddress, insertIndex, realipData) {
      case None =>
        return Panic(NotCharBoundary);
      case Some(s) =>
        handshake := handshake.(serverAddress := s);
    }
    r := stream.Write(Serialized(handshake));
  }

  /** The packet RealIP plans once the insertion offset is known. */
  lemma RealIpPlanInserts(playerAddr: SocketAddr, og: DecodedHandshake, i: nat)
    requires SLASH !in og.data.serverAddress
    requires Find(og.data.serverAddress, NUL).None? ==> i == |og.data.serverAddress|
    requires Find(og.data.serverAddress, NUL).Some? ==> i + 1 == Find(og.data.serverAddress, NUL).value
    ensures var ins := InsertStr(og.data.serverAddress, i, [SLASH, SLASH, SLASH] + SocketAddrText(playerAddr));
            Planned(RealIpPrimer(playerAddr), og)
            == if ins.None? then Panic(NotCharBoundary) else Ok(Serialized(og.data.(serverAddress := ins.value)))
  {
    assert RealIpInsertIndex(og.data.serverAddress) == Ok(i);
  }

  /** `Passthrough::prime_connection`: the received bytes, unvalidated and unchanged. */
  method PassthroughPrime(stream: Stream, og: DecodedHandshake) returns (r: Outcome<()>)
    modifies stream`sent
    ensures Delivers(Planned(Passthrough, og), stream.accepting, old(stream.sent), stream.sent, r)
  {
    r := stream.Write(Raw(og.raw));
  }

  /** `ConnectionPrimer::prime_connection`, dispatched on the primer's kind. */
  method PrimeConnection(primer: ConnectionPrimer, stream: Stream, og: DecodedHandshake)
    returns (r: Outcome<()>)
    modifies stream`sent
    ensures Delivers(Planned(primer, og), stream.accepting, old(stream.sent), stream.sent, r)
    ensures old(stream.sent) <= stream.sent && |stream.sent| <= |old(stream.sent)| + 1
    ensures r.Ok? <==> |stream.sent| == |old(stream.sent)| + 1
    ensures primer.BungeeCordPrimer? && NUL in og.data.serverAddress ==> r == Err(Invalid) && stream.sent == old(stream.sent)
    ensures primer.RealIpPrimer? && SLASH in og.data.serverAddress ==> r == Err(Invalid) && stream.sent == old(stream.sent)
    ensures primer.Passthrough? && stream.accepting ==> r == Ok(()) && stream.sent == old(stream.sent) + [Raw(og.raw)]
  {
    match primer {
      case Passthrough =>
        r := PassthroughPrime(stream, og);
      case BungeeCordPrimer(addr, uuid) =>
        r := BungeeCordPrime(addr, uuid, stream, og);
      case RealIpPrimer(addr) =>
        r := RealIpPrime(addr, stream, og);
    }
    DeliversAtMostOne(Planned(primer, og), stream.accepting, old(stream.sent), stream.sent, r);
  }
}
