/**
 * The tag identifier the scan loop derives from a card UID:
 * `toHexString(data).replace(' ', '')`, two upper-case hexadecimal digits
 * per byte, concatenated.
 */
module Tags {
  import opened Common

  /** The upper-case hexadecimal digit of a value below 16. */
  function HexDigit(d: int): (c: char)
    requires 0 <= d < 16
    ensures '0' <= c <= '9' || 'A' <= c <= 'F'
  {
    if d < 10 then ('0' as int + d) as char else ('A' as int + d - 10) as char
  }

  /** The two digits of one byte, high nibble first. */
  function HexPair(b: byte): (s: string)
    ensures |s| == 2
  {
    [HexDigit(b as int / 16), HexDigit(b as int % 16)]
  }

  /** The tag identifier of a UID. */
  function TagId(uid: seq<byte>): (s: string)
    ensures |s| == 2 * |uid|
  {
    if uid == [] then "" else HexPair(uid[0]) + TagId(uid[1..])
  }

  lemma HexDigitInjective(d: int, e: int)
    requires 0 <= d < 16 && 0 <= e < 16
    requires HexDigit(d) == HexDigit(e)
    ensures d == e
  {
  }

  lemma HexPairInjective(a: byte, b: byte)
    requires HexPair(a) == HexPair(b)
    ensures a == b
  {
  }

  /**
   * Distinct UIDs give distinct tag identifiers, so comparing identifiers
   * (as the scan loop does) is comparing cards.
   */
  lemma {:induction false} TagIdInjective(u: seq<byte>, v: seq<byte>)
    requires TagId(u) == TagId(v)
    ensures u == v
  {
    if u != [] {
      assert |v| == |u|;
      var tu, tv := TagId(u), TagId(v);
      assert tu[..2] == HexPair(u[0]) && tu[2..] == TagId(u[1..]);
      assert tv[..2] == HexPair(v[0]) && tv[2..] == TagId(v[1..]);
      HexPairInjective(u[0], v[0]);
      TagIdInjective(u[1..], v[1..]);
      assert u == [u[0]] + u[1..] && v == [v[0]] + v[1..];
    }
  }
}
