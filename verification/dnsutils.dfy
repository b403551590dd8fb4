/** The names queried for reverse lookups: the IN-ADDR.ARPA name of an IPv4
    address (section 3.5 of RFC 1035) and the IP6.ARPA name of an IPv6 address
    (section 2.5 of RFC 3596), built as dnsutils.c builds them, together with
    readers for both formats that recover the address. Addresses are their
    octets in network order, as in `struct in_addr` and `struct in6_addr`. */
module DnsUtils {
  import opened Base

  /** snprintf of a plain text into a buffer of `size` characters: the text
      if it fits before the terminating NUL, otherwise as much of it as does. */
  function Snprintf(t: string, size: nat): (r: string)
    requires size > 0
    ensures r <= t
    ensures |r| < size
    ensures |r| < |t| <==> |t| >= size
  {
    if |t| < size then t else t[..size - 1]
  }

  // ---------------------------------------------------------------------
  // IPv4

  const V4Suffix: string := ".in-addr.arpa"

  /** "%u.%u.%u.%u.in-addr.arpa" of the octets from last to first. */
  function V4Text(a: seq<byte>): string
    requires |a| == 4
  {
    Decimal(a[3]) + "." + Decimal(a[2]) + "." + Decimal(a[1]) + "." + Decimal(a[0]) + V4Suffix
  }

  /** build_reverse_lookup_domain_v4: the text printed into a 32-character
      buffer. It is at most 28 characters long, so nothing is ever cut off,
      and it has no trailing dot. */
  function ReverseV4(a: seq<byte>): (name: string)
    requires |a| == 4
    ensures name == V4Text(a)
    ensures |name| <= 28
    ensures name[|name| - 1] != '.'
  {
    Snprintf(V4Text(a), 32)
  }

  /** The fields of a text between its dots. */
  function Split(s: string): (fs: seq<string>)
    ensures |fs| >= 1
  {
    if |s| == 0 then [""]
    else
      var rest := Split(s[1..]);
      if s[0] == '.' then [""] + rest else [[s[0]] + rest[0]] + rest[1..]
  }

  /** The fields joined back with dots. */
  function Join(fs: seq<string>): string
    requires |fs| >= 1
  {
    if |fs| == 1 then fs[0] else fs[0] + "." + Join(fs[1..])
  }

  /** One field written by "%u" for an octet: one to three digits, no
      leading zero, at most 255. */
  function ParseOctet(x: string): (r: Option<byte>)
    ensures r.Some? ==> 1 <= |x| <= 3 && AllDigits(x) && DecimalValue(x) == r.value
  {
    if 1 <= |x| <= 3 && AllDigits(x) && (|x| == 1 || x[0] != '0') && DecimalValue(x) < 256
    then Some(DecimalValue(x))
    else None
  }

  /** The address an IN-ADDR.ARPA name stands for, if it is a name
      ReverseV4 produces. */
  function ParseReverseV4(s: string): (r: Option<seq<byte>>)
    ensures r.Some? ==> |r.value| == 4
  {
    if |s| < |V4Suffix| || s[|s| - |V4Suffix|..] != V4Suffix then None
    else
      var fs := Split(s[..|s| - |V4Suffix|]);
      if |fs| != 4 then None
      else match (ParseOctet(fs[0]), ParseOctet(fs[1]), ParseOctet(fs[2]), ParseOctet(fs[3]))
        case (Some(d), Some(c), Some(b), Some(a)) => Some([a, b, c, d])
        case _ => None
  }

  // ---------------------------------------------------------------------
  // IPv6

  const V6Suffix: string := "ip6.arpa"

  /** The four characters written for one octet: low nibble, dot, high
      nibble, dot (`b & 0x0f` and `(b & 0xf0) >> 4`). */
  function NibblePair(b: byte): string {
    [Hex(b % 16), '.', Hex(b / 16), '.']
  }

  /** The nibble labels of a run of octets, last octet first. */
  function Nibbles(a: seq<byte>): (s: string)
    ensures |s| == 4 * |a|
  {
    if |a| == 0 then [] else NibblePair(a[|a| - 1]) + Nibbles(a[..|a| - 1])
  }

  /** build_reverse_lookup_domain_v6: 32 one-digit labels, lowest nibble
      first, then "ip6.arpa" printed at offset 64 of the 128-character buffer. */
  function ReverseV6(a: seq<byte>): (name: string)
    requires |a| == 16
    ensures |name| == 72
    ensures name[64..] == V6Suffix
    ensures name[|name| - 1] != '.'
  {
    Nibbles(a) + Snprintf(V6Suffix, 128 - 16 * 4)
  }

  /** build_reverse_lookup_domain_v6: the nibble loop, then the suffix. */
  method BuildReverseV6(a: seq<byte>) returns (name: string)
    requires |a| == 16
    ensures name == ReverseV6(a)
  {
    var p := WriteNibbles(a);
    name := p + Snprintf(V6Suffix, 128 - 16 * 4);
  }

  /** The loop of build_reverse_lookup_domain_v6: from the last octet down to
      the first, the low nibble's digit, a dot, the high nibble's digit and a
      dot. */
  method WriteNibbles(a: seq<byte>) returns (p: string)
    ensures p == Nibbles(a)
  {
    p := [];
    var i := |a| - 1;
    assert a[|a|..] == [];
    while i >= 0
      invariant -1 <= i < |a|
      invariant p == Nibbles(a[i + 1..])
    {
      var b := a[i];
      NibblesSuffix(a, i);
      p := p + [Hex(b % 16), '.', Hex(b / 16), '.'];
      i := i - 1;
    }
    assert a[0..] == a;
  }

  /** Prepending an octet appends its pair: the labels run backwards. */
  lemma {:induction false} NibblesCons(b: byte, a: seq<byte>)
    ensures Nibbles([b] + a) == Nibbles(a) + NibblePair(b)
    decreases |a|
  {
    if |a| > 0 {
      var x := [b] + a;
      assert x[..|x| - 1] == [b] + a[..|a| - 1];
      NibblesCons(b, a[..|a| - 1]);
    } else {
      assert [b][..0] == [];
    }
  }

  /** The labels of a suffix of the octets: one more octet at the front adds
      its pair at the back. */
  lemma NibblesSuffix(a: seq<byte>, i: nat)
    requires i < |a|
    ensures Nibbles(a[i..]) == Nibbles(a[i + 1..]) + [Hex(a[i] % 16), '.', Hex(a[i] / 16), '.']
  {
    assert a[i..] == [a[i]] + a[i + 1..];
    NibblesCons(a[i], a[i + 1..]);
  }

  /** The octets a run of nibble labels stands for, last label pair first. */
  function ParseNibbles(s: string): (r: Option<seq<byte>>)
    ensures r.Some? ==> |s| == 4 * |r.value|
    decreases |s|
  {
    if |s| == 0 then Some([])
    else if |s| < 4 || s[1] != '.' || s[3] != '.' then None
    else match (HexValue(s[0]), HexValue(s[2]), ParseNibbles(s[4..]))
      case (Some(lo), Some(hi), Some(rest)) =>
        var b: byte := hi * 16 + lo;
        Some(rest + [b])
      case _ => None
  }

  /** The address an IP6.ARPA name stands for, if it is a name ReverseV6
      produces. */
  function ParseReverseV6(s: string): (r: Option<seq<byte>>)
    ensures r.Some? ==> |r.value| == 16
  {
    if |s| != 72 || s[64..] != V6Suffix then None else ParseNibbles(s[..64])
  }
}
