/**
 * The RealIP insertion point, as written and as evidently intended.
 *
 * For an address carrying a mod-loader suffix after a NUL, the written code
 * inserts the forwarding data at the offset of the first NUL minus one. That
 * splits the host name (its last character ends up after the forwarded
 * ip:port), panics on a NUL in first position, and panics when the character
 * before the NUL is not ASCII. Inserting at the offset of the NUL itself keeps
 * the host intact, puts the forwarded data directly before the suffix, and
 * never panics, because a NUL byte always starts a character.
 */
module RealIpFindings {
  import opened Bytes
  import opened Render
  import opened Forwarding

  /** RealIP forwarding with the data inserted at the first NUL itself (or at the end). */
  function RealIpRewriteAtNul(playerAddr: SocketAddr, h: Handshake): (r: Outcome<Handshake>)
    ensures r == Err(Invalid) <==> SLASH in h.serverAddress
    ensures r.Ok? || r == Err(Invalid)
    ensures r.Ok? ==> r.value.(serverAddress := h.serverAddress) == h
    ensures r.Ok? ==> |r.value.serverAddress| == |h.serverAddress| + |RealIpData(playerAddr)|
  {
    if SLASH in h.serverAddress then Err(Invalid)
    else
      var s := h.serverAddress;
      var i := match Find(s, NUL) case None => |s| case Some(a) => a;
      var inserted := InsertStr(s, i, RealIpData(playerAddr));
      assert inserted.Some?;
      Ok(h.(serverAddress := inserted.value))
  }

  /**
   * The intended format for a mod-loader address `host NUL suffix`: the host,
   * then "///ip:port", then the untouched NUL and suffix; the field before
   * the first NUL is exactly the host followed by the forwarding data.
   */
  lemma {:induction false} RealIpAtNulModLoader(playerAddr: SocketAddr, h: Handshake, host: seq<byte>, suffix: seq<byte>)
    requires h.serverAddress == host + [NUL] + suffix
    requires Forwardable(host) && SLASH !in suffix
    ensures RealIpRewriteAtNul(playerAddr, h)
            == Ok(h.(serverAddress := host + RealIpData(playerAddr) + [NUL] + suffix))
    ensures Split(RealIpRewriteAtNul(playerAddr, h).value.serverAddress, NUL)[0] == host + RealIpData(playerAddr)
  {
    InsertBeforeFirstNul(host, RealIpData(playerAddr), suffix);
  }

  /** Inserting `d` at the first NUL of `host NUL suffix`, with `d` free of NUL. */
  lemma InsertBeforeFirstNul(host: seq<byte>, d: seq<byte>, suffix: seq<byte>)
    requires NUL !in host && NUL !in d
    ensures var s := host + [NUL] + suffix;
            Find(s, NUL) == Some(|host|)
            && InsertStr(s, |host|, d) == Some(host + d + [NUL] + suffix)
            && Split(host + d + [NUL] + suffix, NUL)[0] == host + d
  {
    var s := host + [NUL] + suffix;
    var out := host + d + [NUL] + suffix;
    FirstNulAfter(host, suffix);
    InsertBeforeByte(host, NUL, suffix, d);
    FirstNulAfter(host + d, suffix);
  }

  /** In `pre NUL suffix` with `pre` free of NUL, the first NUL ends `pre`. */
  lemma FirstNulAfter(pre: seq<byte>, suffix: seq<byte>)
    requires NUL !in pre
    ensures var s := pre + [NUL] + suffix;
            Find(s, NUL) == Some(|pre|) && s[..|pre|] == pre
  {
    var s := pre + [NUL] + suffix;
    assert s[..|pre|] == pre;
    FindIsFirst(s, NUL, |pre|);
  }

  /** Without a NUL the two insertion points coincide: both append at the end. */
  lemma RealIpAtNulAgrees(playerAddr: SocketAddr, h: Handshake)
    requires NUL !in h.serverAddress
    ensures RealIpRewriteAtNul(playerAddr, h) == RealIpRewrite(playerAddr, h)
  {
  }

  /**
   * As written, for `host NUL suffix` with an ASCII last host character, the
   * forwarding data lands before that character, so the field before the
   * first NUL no longer starts with the host: the intended result is missed.
   */
  lemma {:induction false} RealIpModLoaderAsWritten(playerAddr: SocketAddr, h: Handshake, host: seq<byte>, suffix: seq<byte>)
    requires h.serverAddress == host + [NUL] + suffix
    requires Forwardable(host) && SLASH !in suffix
    requires |host| >= 1 && host[|host| - 1] < 0x80
    ensures var n := |host| - 1;
            RealIpRewrite(playerAddr, h)
            == Ok(h.(serverAddress := host[..n] + RealIpData(playerAddr) + [host[n]] + [NUL] + suffix))
    ensures RealIpRewrite(playerAddr, h) != RealIpRewriteAtNul(playerAddr, h)
  {
    var d, n := RealIpData(playerAddr), |host| - 1;
    InsertBeforeLastHostByte(host, d, suffix);
    RealIpInsertsBeforeNul(playerAddr, h, |host|, host[..n] + d + [host[n]] + [NUL] + suffix);
    RealIpAtNulModLoader(playerAddr, h, host, suffix);
  }

  /**
   * Inserting `d` one byte before the first NUL of `host NUL suffix`: the
   * result differs from inserting at the NUL wherever `d` starts differently
   * from the last byte of the host.
   */
  lemma InsertBeforeLastHostByte(host: seq<byte>, d: seq<byte>, suffix: seq<byte>)
    requires NUL !in host && |host| >= 1 && !IsContinuation(host[|host| - 1])
    requires |d| >= 1 && d[0] != host[|host| - 1]
    ensures var s, n := host + [NUL] + suffix, |host| - 1;
            Find(s, NUL) == Some(|host|)
            && InsertStr(s, n, d) == Some(host[..n] + d + [host[n]] + [NUL] + suffix)
            && host[..n] + d + [host[n]] + [NUL] + suffix != host + d + [NUL] + suffix
  {
    var s, n := host + [NUL] + suffix, |host| - 1;
    var written := host[..n] + d + [host[n]] + [NUL] + suffix;
    assert Find(s, NUL) == Some(|host|) by {
      assert s[..|host|] == host;
      FindIsFirst(s, NUL, |host|);
    }
    assert InsertStr(s, n, d) == Some(written) by {
      assert s[n] == host[n];
      assert IsCharBoundary(s, n);
      assert s[..n] == host[..n];
      assert s[n..] == [host[n]] + [NUL] + suffix;
      assert s[..n] + d + s[n..] == written;
    }
    assert written[n] == d[0];
    assert (host + d + [NUL] + suffix)[n] == host[n];
  }

  /** As written, an address that starts with NUL panics; at the NUL, the data is simply prepended. */
  lemma RealIpLeadingNulAsWritten(playerAddr: SocketAddr, h: Handshake)
    requires h.serverAddress != [] && h.serverAddress[0] == NUL && SLASH !in h.serverAddress
    ensures RealIpRewrite(playerAddr, h) == Panic(SubtractOverflow)
    ensures RealIpRewriteAtNul(playerAddr, h) == Ok(h.(serverAddress := RealIpData(playerAddr) + h.serverAddress))
  {
    FindIsFirst(h.serverAddress, NUL, 0);
  }

  /**
   * As written, a host ending in a two-byte character such as "é" (0xC3 0xA9)
   * before the NUL panics in `insert_str`; at the NUL, the data is inserted.
   */
  lemma RealIpMultibyteAsWritten(playerAddr: SocketAddr, h: Handshake, suffix: seq<byte>)
    requires h.serverAddress == [0xC3, 0xA9, NUL] + suffix && SLASH !in suffix
    ensures RealIpRewrite(playerAddr, h) == Panic(NotCharBoundary)
    ensures RealIpRewriteAtNul(playerAddr, h)
            == Ok(h.(serverAddress := [0xC3, 0xA9] + RealIpData(playerAddr) + [NUL] + suffix))
  {
    FindIsFirst(h.serverAddress, NUL, 2);
    RealIpAtNulModLoader(playerAddr, h, [0xC3, 0xA9], suffix);
  }
}
