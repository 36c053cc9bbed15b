/**
 * Worked scenarios: a player connecting from 203.0.113.5:54321 to
 * "mc.example.com", under each forwarding convention.
 */
module ForwardingExamples {
  import opened Bytes
  import opened Render
  import opened Forwarding
  import opened RealIpFindings

  const PEER: SocketAddr := SocketAddrV4(Ipv4Addr(203, 0, 113, 5), 54321)
  const PEER_IP: seq<byte> := Ascii("203.0.113.5")
  const PEER_PORT: seq<byte> := Ascii("54321")
  const MARKER: seq<byte> := [SLASH, SLASH, SLASH]

  /** "mc.example.com", kept as "mc.example.co" and its last character "m". */
  const HOST_FRONT: seq<byte> := Ascii("mc.example.co")
  const HOST_LAST: seq<byte> := Ascii("m")
  const HOST: seq<byte> := HOST_FRONT + HOST_LAST

  /** The Forge mod-loader marker "FML". */
  const FML: seq<byte> := Ascii("FML")

  function Login(address: seq<byte>): Handshake {
    Handshake(765, address, 25565, NextState.Login)
  }

  /** The host name carries neither marker byte and ends in an ASCII character. */
  lemma HostFacts()
    ensures Forwardable(HOST) && |HOST_LAST| == 1 && HOST_LAST[0] < 0x80
    ensures SLASH !in FML
  {
  }

  /** The peer's IP renders as dotted decimal. */
  lemma PeerIpText()
    ensures IpText(Ip(PEER)) == PEER_IP
  {
  }

  /** RealIP sends the marker, the IP, a colon and the port. */
  lemma PeerRealIpData()
    ensures RealIpData(PEER) == MARKER + PEER_IP + [COLON] + PEER_PORT
  {
    PeerIpText();
    assert Numeral(54321, 10) == PEER_PORT;
  }

  /** BungeeCord: "mc.example.com", NUL, "203.0.113.5", NUL, then the offline UUID of the name. */
  lemma BungeeCordScenario(offlinePlayer: string -> Uuid)
    ensures Planned(FromUsername(PEER, "Notch", offlinePlayer), DecodedHandshake([], Login(HOST)))
            == Ok(Serialized(Login(HOST + [NUL] + PEER_IP + [NUL] + UuidText(offlinePlayer("Notch")))))
  {
    HostFacts();
    PeerIpText();
  }

  /** RealIP: "mc.example.com///203.0.113.5:54321". */
  lemma RealIpScenario()
    ensures Planned(NewRealIp(PEER), DecodedHandshake([], Login(HOST)))
            == Ok(Serialized(Login(HOST + MARKER + PEER_IP + [COLON] + PEER_PORT)))
  {
    HostFacts();
    PeerRealIpData();
    RealIpWithoutNul(PEER, Login(HOST));
    AppendFlattens(HOST, MARKER, PEER_IP, PEER_PORT);
  }

  /** The address followed by `///ip:port`, written as one flat sequence. */
  lemma AppendFlattens(host: seq<byte>, marker: seq<byte>, ip: seq<byte>, port: seq<byte>)
    ensures host + (marker + ip + [COLON] + port) == host + marker + ip + [COLON] + port
  {
  }

  /**
   * RealIP with a mod-loader suffix, as written: "mc.example.com\0FML\0"
   * becomes "mc.example.co///203.0.113.5:54321m\0FML\0".
   */
  lemma RealIpModLoaderScenario()
    ensures Planned(NewRealIp(PEER), DecodedHandshake([], Login(HOST + [NUL] + FML + [NUL])))
            == Ok(Serialized(Login(HOST_FRONT + MARKER + PEER_IP + [COLON] + PEER_PORT + HOST_LAST + [NUL] + FML + [NUL])))
  {
    HostFacts();
    PeerRealIpData();
    ModLoaderAsWritten(PEER, Login(HOST + [NUL] + FML + [NUL]), HOST_FRONT, HOST_LAST, FML);
    SpliceFlattens(HOST_FRONT, MARKER, PEER_IP, PEER_PORT, HOST_LAST, FML);
  }

  /** The spliced address `front, ///ip:port, last NUL fml NUL`, written as one flat sequence. */
  lemma SpliceFlattens(front: seq<byte>, marker: seq<byte>, ip: seq<byte>, port: seq<byte>, last: seq<byte>, fml: seq<byte>)
    ensures front + (marker + ip + [COLON] + port) + (last + [NUL] + fml + [NUL])
            == front + marker + ip + [COLON] + port + last + [NUL] + fml + [NUL]
  {
  }

  /** The as-written RealIP result for `front last NUL fml NUL`, with an ASCII `last`. */
  lemma ModLoaderAsWritten(peer: SocketAddr, h: Handshake, front: seq<byte>, last: seq<byte>, fml: seq<byte>)
    requires h.serverAddress == front + last + [NUL] + fml + [NUL]
    requires |last| == 1 && last[0] < 0x80 && Forwardable(front + last)
    requires SLASH !in fml
    ensures RealIpRewrite(peer, h)
            == Ok(h.(serverAddress := front + RealIpData(peer) + (last + [NUL] + fml + [NUL])))
  {
    var d := RealIpData(peer);
    assert SLASH !in fml + [NUL];
    ModLoaderRegroup(front, last, d, fml);
    RealIpModLoaderAsWritten(peer, h, front + last, fml + [NUL]);
  }

  lemma ModLoaderRegroup(front: seq<byte>, last: seq<byte>, d: seq<byte>, fml: seq<byte>)
    requires |last| == 1
    ensures var host, n := front + last, |front|;
            front + last + [NUL] + fml + [NUL] == host + [NUL] + (fml + [NUL])
            && host[|host| - 1] == last[0]
            && host[..n] + d + [host[n]] + [NUL] + (fml + [NUL]) == front + d + (last + [NUL] + fml + [NUL])
  {
    var host, n := front + last, |front|;
    assert host[..n] == front && [host[n]] == last;
  }

  /** A client that already sent a NUL is refused by BungeeCord, and the backend receives nothing. */
  method SpoofedAddressSendsNothing(offlinePlayer: string -> Uuid) {
    var stream := new Stream(true);
    var og := DecodedHandshake([], Login(HOST + [NUL] + PEER_IP));
    var r := PrimeConnection(FromUsername(PEER, "Notch", offlinePlayer), stream, og);
    assert r == Err(Invalid) && stream.sent == [];
  }

  /** Passthrough forwards the received bytes even when they hold both markers. */
  method PassthroughForwardsAnything() {
    var stream := new Stream(true);
    var raw := [NUL, SLASH, 0xFF];
    var og := DecodedHandshake(raw, Login([NUL, SLASH]));
    var r := PrimeConnection(Passthrough, stream, og);
    assert r == Ok(()) && stream.sent == [Raw(raw)];
  }
}
