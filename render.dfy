/**
 * The textual forms the primers splice into the server address: the peer's
 * IP address (`IpAddr` Display), its socket address with the port
 * (`SocketAddr` Display) and the player's UUID (`PlayerUuid` Display).
 *
 * The IP and socket-address forms follow the Rust standard library: dotted
 * decimal for IPv4; for IPv6 lowercase hex groups, an IPv4-mapped address as
 * `::ffff:a.b.c.d`, and the first longest run of two or more zero groups
 * written as `::`; `[ip]:port`, or `[ip%scope]:port`, for an IPv6 socket.
 * The UUID is written in the hyphenated lowercase hex form 8-4-4-4-12.
 *
 * What the forwarding formats rely on is that none of these texts contains a
 * NUL or a '/': every byte they produce is a hex digit or one of `: . - [ ] %`.
 */
module Render {
  import opened Bytes

  datatype Ipv4Addr = Ipv4Addr(a: byte, b: byte, c: byte, d: byte)

  type Segments = s: seq<u16> | |s| == 8 witness [0, 0, 0, 0, 0, 0, 0, 0]

  datatype Ipv6Addr = Ipv6Addr(segments: Segments)

  datatype IpAddr = V4(v4: Ipv4Addr) | V6(v6: Ipv6Addr)

  datatype SocketAddr =
    | SocketAddrV4(ip4: Ipv4Addr, port: u16)
    | SocketAddrV6(ip6: Ipv6Addr, port: u16, flowinfo: u32, scopeId: u32)

  type UuidBytes = s: seq<byte> | |s| == 16 witness seq(16, _ => 0 as byte)

  /** A 128-bit player identifier. */
  datatype Uuid = Uuid(bytes: UuidBytes)

  /** `SocketAddr::ip`: the address without the port. */
  function Ip(addr: SocketAddr): IpAddr {
    match addr
    case SocketAddrV4(ip, _) => V4(ip)
    case SocketAddrV6(ip, _, _, _) => V6(ip)
  }

  /** The bytes a rendered address or UUID is made of. */
  predicate IsTextByte(b: byte) {
    0x30 <= b <= 0x39 || 0x61 <= b <= 0x66
    || b == COLON || b == DOT || b == HYPHEN || b == LBRACKET || b == RBRACKET || b == PERCENT
  }

  predicate IsText(s: seq<byte>) {
    forall b | b in s :: IsTextByte(b)
  }

  /** Safe to forward: neither the BungeeCord delimiter nor the RealIP marker byte. */
  predicate Forwardable(s: seq<byte>) {
    NUL !in s && SLASH !in s
  }

  lemma TextIsForwardable(s: seq<byte>)
    requires IsText(s)
    ensures Forwardable(s)
  {
  }

  // ---- numerals ----

  predicate IsDigitOf(b: byte, base: nat) {
    (0x30 <= b <= 0x39 && b as int - 0x30 < base) || (base == 16 && 0x61 <= b <= 0x66)
  }

  function DigitByte(v: nat, base: nat): (b: byte)
    requires base == 10 || base == 16
    requires v < base
    ensures IsDigitOf(b, base) && IsTextByte(b)
  {
    if v < 10 then (0x30 + v) as byte else (0x61 + v - 10) as byte
  }

  function DigitValue(b: byte): int {
    if b <= 0x39 then b as int - 0x30 else b as int - 0x61 + 10
  }

  /**
   * `{}` (base 10) and `{:x}` (base 16) on an unsigned integer: the digits of
   * `n`, most significant first, without leading zeros.
   */
  function Numeral(n: nat, base: nat): (r: seq<byte>)
    requires base == 10 || base == 16
    ensures |r| >= 1 && IsText(r)
    ensures forall k | 0 <= k < |r| :: IsDigitOf(r[k], base)
    ensures r[0] == DigitByte(0, base) ==> n == 0
    decreases n
  {
    if n < base then [DigitByte(n, base)]
    else Numeral(n / base, base) + [DigitByte(n % base, base)]
  }

  /** The value a string of digits denotes. */
  function NumeralValue(s: seq<byte>, base: nat): int {
    if s == [] then 0 else NumeralValue(s[..|s| - 1], base) * base + DigitValue(s[|s| - 1])
  }

  /** Reading a numeral back gives the number that was written. */
  lemma {:induction false} NumeralRoundTrip(n: nat, base: nat)
    requires base == 10 || base == 16
    ensures NumeralValue(Numeral(n, base), base) == n
    decreases n
  {
    if n < base {
      DigitRoundTrip(n, base);
      assert NumeralValue([DigitByte(n, base)], base) == NumeralValue([], base) * base + n;
    } else {
      var front := Numeral(n / base, base);
      var s := front + [DigitByte(n % base, base)];
      assert s[..|s| - 1] == front;
      DigitRoundTrip(n % base, base);
      assert NumeralValue(s, base) == NumeralValue(front, base) * base + n % base;
      NumeralRoundTrip(n / base, base);
    }
  }

  lemma DigitRoundTrip(v: nat, base: nat)
    requires base == 10 || base == 16
    requires v < base
    ensures DigitValue(DigitByte(v, base)) == v
  {
  }

  // ---- IP addresses ----

  /** `Ipv4Addr` Display: four decimal octets separated by dots. */
  function Ipv4Text(ip: Ipv4Addr): (r: seq<byte>)
    ensures IsText(r) && |r| >= 7
  {
    Numeral(ip.a as nat, 10) + [DOT] + Numeral(ip.b as nat, 10) + [DOT]
    + Numeral(ip.c as nat, 10) + [DOT] + Numeral(ip.d as nat, 10)
  }

  datatype Span = Span(start: nat, len: nat)

  predicate IsZeroRun(segs: seq<u16>, z: Span) {
    z.start + z.len <= |segs| && forall k | z.start <= k < z.start + z.len :: segs[k] == 0
  }

  /**
   * The scan for the longest run of zero groups: `cur` is the run that ends
   * at `i` (empty after a non-zero group), `best` the first longest run seen.
   */
  function ZeroRunFrom(segs: seq<u16>, i: nat, cur: Span, best: Span): (r: Span)
    requires i <= |segs|
    requires cur.len == 0 || (cur.start + cur.len == i && IsZeroRun(segs, cur))
    requires best.start + best.len <= i && IsZeroRun(segs, best)
    ensures IsZeroRun(segs, r) && r.len >= best.len
    decreases |segs| - i
  {
    if i == |segs| then best
    else if segs[i] == 0 then
      var c := Span(if cur.len == 0 then i else cur.start, cur.len + 1);
      ZeroRunFrom(segs, i + 1, c, if c.len > best.len then c else best)
    else
      ZeroRunFrom(segs, i + 1, Span(0, 0), best)
  }

  function LongestZeroRun(segs: seq<u16>): (r: Span)
    ensures IsZeroRun(segs, r)
  {
    ZeroRunFrom(segs, 0, Span(0, 0), Span(0, 0))
  }

  /** Hex groups separated by colons. */
  function HexGroups(chunk: seq<u16>): (r: seq<byte>)
    ensures IsText(r)
    ensures |r| >= |chunk|
  {
    if chunk == [] then []
    else if |chunk| == 1 then Numeral(chunk[0] as nat, 16)
    else Numeral(chunk[0] as nat, 16) + [COLON] + HexGroups(chunk[1..])
  }

  /** `Ipv6Addr::to_ipv4_mapped`: the form ::ffff:a.b.c.d. */
  predicate IsIpv4Mapped(segs: Segments) {
    segs[..6] == [0, 0, 0, 0, 0, 0xffff]
  }

  function MappedIpv4(segs: Segments): Ipv4Addr {
    Ipv4Addr((segs[6] / 0x100) as byte, (segs[6] % 0x100) as byte,
             (segs[7] / 0x100) as byte, (segs[7] % 0x100) as byte)
  }

  /** `Ipv6Addr` Display. */
  function Ipv6Text(ip: Ipv6Addr): (r: seq<byte>)
    ensures IsText(r) && |r| >= 2
  {
    var segs := ip.segments;
    if IsIpv4Mapped(segs) then
      [COLON, COLON, 0x66, 0x66, 0x66, 0x66, COLON] + Ipv4Text(MappedIpv4(segs))
    else
      var z := LongestZeroRun(segs);
      if z.len > 1 then
        HexGroups(segs[..z.start]) + [COLON, COLON] + HexGroups(segs[z.start + z.len..])
      else
        HexGroups(segs)
  }

  /** `IpAddr` Display, the text BungeeCord forwarding sends. */
  function IpText(ip: IpAddr): (r: seq<byte>)
    ensures Forwardable(r) && r != []
  {
    var t := match ip
      case V4(v4) => Ipv4Text(v4)
      case V6(v6) => Ipv6Text(v6);
    TextIsForwardable(t);
    t
  }

  /** `SocketAddr` Display, the text RealIP forwarding sends: address and port. */
  function SocketAddrText(addr: SocketAddr): (r: seq<byte>)
    ensures Forwardable(r)
    ensures var p := Numeral(addr.port as nat, 10);
            |r| > |p| + 1 && r[|r| - |p| - 1] == COLON && r[|r| - |p|..] == p
  {
    var host := match addr
      case SocketAddrV4(ip, _) => Ipv4Text(ip)
      case SocketAddrV6(ip, _, _, scope) =>
        if scope == 0 then [LBRACKET] + Ipv6Text(ip) + [RBRACKET]
        else [LBRACKET] + Ipv6Text(ip) + [PERCENT] + Numeral(scope as nat, 10) + [RBRACKET];
    var p := Numeral(addr.port as nat, 10);
    HostAndPort(host, p);
    host + [COLON] + p
  }

  lemma HostAndPort(host: seq<byte>, p: seq<byte>)
    requires IsText(host) && IsText(p) && host != []
    ensures var t := host + [COLON] + p;
            Forwardable(t) && |t| > |p| + 1 && t[|t| - |p| - 1] == COLON && t[|t| - |p|..] == p
  {
    var t := host + [COLON] + p;
    assert IsText(t);
    TextIsForwardable(t);
    assert t[|t| - |p|..] == p;
  }

  // ---- UUIDs ----

  /** Each byte as two lowercase hex digits. */
  function HexBytes(s: seq<byte>): (r: seq<byte>)
    ensures IsText(r) && |r| == 2 * |s|
  {
    if s == [] then []
    else [DigitByte(s[0] as nat / 16, 16), DigitByte(s[0] as nat % 16, 16)] + HexBytes(s[1..])
  }

  /** `PlayerUuid` Display: 8-4-4-4-12 hex digits, the form BungeeCord forwarding sends. */
  function UuidText(u: Uuid): (r: seq<byte>)
    ensures Forwardable(r) && |r| == 36
    ensures r[8] == HYPHEN && r[13] == HYPHEN && r[18] == HYPHEN && r[23] == HYPHEN
  {
    var b := u.bytes;
    var t := HexBytes(b[..4]) + [HYPHEN] + HexBytes(b[4..6]) + [HYPHEN] + HexBytes(b[6..8])
      + [HYPHEN] + HexBytes(b[8..10]) + [HYPHEN] + HexBytes(b[10..]);
    TextIsForwardable(t);
    t
  }
}
