/**
 * Byte-level view of Rust's `String`: the operations the forwarding primers
 * use on `server_address` (`contains`, `find`, `insert_str`, and splitting on
 * a delimiter the way a backend reads the forwarded fields back).
 *
 * A Rust `String` is UTF-8, and `find` answers with a BYTE offset, so the
 * address is modelled as its bytes. Every byte value below 0x80 is exactly one
 * ASCII character in UTF-8, so looking for NUL or '/' byte-wise is the same
 * as looking for the character.
 */
module Bytes {

  newtype byte = b: int | 0 <= b < 0x100
  newtype u16 = n: int | 0 <= n < 0x1_0000
  newtype u32 = n: int | 0 <= n < 0x1_0000_0000

  const NUL: byte := 0x00
  const PERCENT: byte := 0x25
  const HYPHEN: byte := 0x2D
  const DOT: byte := 0x2E
  const SLASH: byte := 0x2F
  const COLON: byte := 0x3A
  const LBRACKET: byte := 0x5B
  const RBRACKET: byte := 0x5D

  datatype Option<+T> = None | Some(value: T)

  /** The bytes of an ASCII text. */
  function Ascii(s: string): (r: seq<byte>)
    requires forall k | 0 <= k < |s| :: s[k] < 128 as char
    ensures |r| == |s| && forall k | 0 <= k < |s| :: r[k] as int == s[k] as int
  {
    seq(|s|, k requires 0 <= k < |s| => s[k] as int as byte)
  }

  /** A UTF-8 continuation byte (0b10xx_xxxx) never starts a character. */
  predicate IsContinuation(b: byte) {
    0x80 <= b < 0xC0
  }

  /**
   * `str::is_char_boundary`: index 0 and the length are boundaries, an index
   * past the end is not, and an index inside the string is one unless the
   * byte there continues a multi-byte character.
   */
  predicate IsCharBoundary(s: seq<byte>, idx: nat) {
    idx == 0 || idx == |s| || (idx < |s| && !IsContinuation(s[idx]))
  }

  /** `str::find` for a one-byte character: the offset of its first occurrence. */
  function Find(s: seq<byte>, d: byte): (r: Option<nat>)
    ensures r.None? <==> d !in s
    ensures r.Some? ==> r.value < |s| && s[r.value] == d && d !in s[..r.value]
  {
    if s == [] then None
    else if s[0] == d then
      assert s[..0] == [];
      Some(0)
    else
      match Find(s[1..], d)
      case None => None
      case Some(i) =>
        assert s[..i + 1] == [s[0]] + s[1..][..i];
        Some(i + 1)
  }

  /** The first occurrence is the one before which `d` does not occur. */
  lemma FindIsFirst(s: seq<byte>, d: byte, k: nat)
    requires k < |s| && s[k] == d && d !in s[..k]
    ensures Find(s, d) == Some(k)
  {
  }

  /**
   * `String::insert_str`: inserts `t` at byte offset `idx`, or panics (None)
   * when `idx` is not a char boundary, which includes every `idx > |s|`.
   */
  function InsertStr(s: seq<byte>, idx: nat, t: seq<byte>): (r: Option<seq<byte>>)
    ensures r.Some? <==> IsCharBoundary(s, idx)
    ensures r.Some? ==> |r.value| == |s| + |t| && r.value[idx..idx + |t|] == t
    ensures r.Some? ==> Remove(r.value, idx, |t|) == s
  {
    if IsCharBoundary(s, idx) then
      var u := s[..idx] + t + s[idx..];
      assert u[..idx] == s[..idx] && u[idx + |t|..] == s[idx..];
      assert u[idx..idx + |t|] == t;
      Some(u)
    else
      None
  }

  /** Inserting at the length appends. */
  lemma InsertAtEnd(s: seq<byte>, t: seq<byte>)
    ensures InsertStr(s, |s|, t) == Some(s + t)
  {
    assert s[..|s|] + t + s[|s|..] == s + t;
  }

  /** Inserting right before a byte that starts a character places the text there. */
  lemma InsertBeforeByte(a: seq<byte>, x: byte, b: seq<byte>, t: seq<byte>)
    requires !IsContinuation(x)
    ensures InsertStr(a + [x] + b, |a|, t) == Some(a + t + [x] + b)
  {
    var s := a + [x] + b;
    assert s[..|a|] == a && s[|a|..] == [x] + b;
    assert s[..|a|] + t + s[|a|..] == a + t + [x] + b;
  }

  /** Deletes the `n` bytes that start at `k`. */
  function Remove(s: seq<byte>, k: nat, n: nat): seq<byte>
    requires k + n <= |s|
  {
    s[..k] + s[k + n..]
  }

  /**
   * `str::split` on a one-byte delimiter: the fields between delimiters,
   * empty ones included, so there is always at least one field.
   */
  function Split(s: seq<byte>, d: byte): (r: seq<seq<byte>>)
    ensures |r| >= 1
    ensures forall k | 0 <= k < |r| :: d !in r[k]
    decreases |s|
  {
    match Find(s, d)
    case None => [s]
    case Some(i) => [s[..i]] + Split(s[i + 1..], d)
  }

  /** The fields joined back with the delimiter between each two. */
  function Join(parts: seq<seq<byte>>, d: byte): seq<byte>
    requires |parts| >= 1
  {
    if |parts| == 1 then parts[0] else parts[0] + [d] + Join(parts[1..], d)
  }

  lemma JoinThree(a: seq<byte>, b: seq<byte>, c: seq<byte>, d: byte)
    ensures Join([a, b, c], d) == a + [d] + b + [d] + c
  {
    assert [a, b, c][1..] == [b, c] && [b, c][1..] == [c];
    assert Join([b, c], d) == b + [d] + c;
    assert Join([a, b, c], d) == a + [d] + (b + [d] + c);
  }

  /** Two fields around a triple delimiter are four fields, the middle two empty. */
  lemma JoinMarker(a: seq<byte>, b: seq<byte>, d: byte)
    ensures Join([a, [], [], b], d) == a + ([d, d, d] + b)
  {
    assert [a, [], [], b][1..] == [[], [], b];
    assert [[], [], b][1..] == [[], b] && [[], b][1..] == [b];
    assert Join([[], b], d) == [d] + b;
    assert Join([[], [], b], d) == [d] + ([d] + b);
    assert a + [d] + ([d] + ([d] + b)) == a + ([d, d, d] + b);
  }

  /** Splitting on a triple delimiter between two fields free of it. */
  lemma SplitMarker(a: seq<byte>, b: seq<byte>, d: byte)
    requires d !in a && d !in b
    ensures Split(a + ([d, d, d] + b), d) == [a, [], [], b]
  {
    var parts: seq<seq<byte>> := [a, [], [], b];
    forall k | 0 <= k < |parts|
      ensures d !in parts[k]
    {
    }
    JoinMarker(a, b, d);
    SplitJoin(parts, d);
  }

  /** Splitting loses nothing: joining the fields rebuilds the string. */
  lemma {:induction false} JoinSplit(s: seq<byte>, d: byte)
    ensures Join(Split(s, d), d) == s
    decreases |s|
  {
    match Find(s, d)
    case None =>
    case Some(i) =>
      var rest := Split(s[i + 1..], d);
      assert Split(s, d) == [s[..i]] + rest;
      assert ([s[..i]] + rest)[1..] == rest;
      JoinSplit(s[i + 1..], d);
      assert Join(Split(s, d), d) == s[..i] + [d] + Join(rest, d);
      assert s == s[..i] + [d] + s[i + 1..];
  }

  /** Fields free of the delimiter are recovered exactly by splitting their join. */
  lemma {:induction false} SplitJoin(parts: seq<seq<byte>>, d: byte)
    requires |parts| >= 1
    requires forall k | 0 <= k < |parts| :: d !in parts[k]
    ensures Split(Join(parts, d), d) == parts
  {
    if |parts| > 1 {
      var s := Join(parts, d);
      var p := parts[0];
      assert s[..|p|] == p;
      FindIsFirst(s, d, |p|);
      assert s[|p| + 1..] == Join(parts[1..], d);
      SplitJoin(parts[1..], d);
    } else {
      assert Find(parts[0], d).None?;
    }
  }
}
