/** Properties of the reverse-lookup names: each builder is exactly inverted
    by its reader (a name is produced for an address if and only if reading it
    gives that address back), the IPv6 name is made of one-digit lower-case
    hexadecimal labels, and the worked examples of unbound4j.c come out as
    stated there, except for the trailing dot. */
module DnsUtilsProofs {
  import opened Base
  import opened DnsUtils

  // ---------------------------------------------------------------------
  // Decimal fields

  lemma DigitsHaveNoDot(x: string)
    requires AllDigits(x)
    ensures '.' !in x
  {
  }

  /** A digit string without a leading zero denotes at least 1, and at least
      10 when it has two digits or more. */
  lemma {:induction false} DecimalLowerBound(x: string)
    requires 1 <= |x| && AllDigits(x) && x[0] != '0'
    ensures DecimalValue(x) >= 1
    ensures |x| >= 2 ==> DecimalValue(x) >= 10
  {
    if |x| >= 2 {
      var y := x[..|x| - 1];
      assert y[0] == x[0];
      DecimalLowerBound(y);
    }
  }

  /** "%u" of the value of a canonical digit string is that string. */
  lemma {:induction false} DecimalCanonical(x: string)
    requires 1 <= |x| && AllDigits(x) && (|x| == 1 || x[0] != '0')
    ensures Decimal(DecimalValue(x)) == x
    decreases |x|
  {
    var n := DecimalValue(x);
    if |x| == 1 {
      assert x[..|x| - 1] == [];
      assert DecimalValue(x[..|x| - 1]) == 0;
      assert n == DigitValue(x[0]);
      assert Decimal(n) == [x[0]];
    } else {
      var y := x[..|x| - 1];
      var d := DigitValue(x[|x| - 1]);
      DecimalLowerBound(x);
      assert n / 10 == DecimalValue(y) && n % 10 == d;
      assert y[0] == x[0];
      DecimalCanonical(y);
      assert Digit(d) == x[|x| - 1];
      assert x == y + [x[|x| - 1]];
    }
  }

  /** An octet's "%u" field reads back as the octet, and the only field that
      reads as an octet is its "%u" text. */
  lemma OctetRoundTrip(b: byte, x: string)
    ensures ParseOctet(Decimal(b)) == Some(b)
    ensures ParseOctet(x) == Some(b) ==> x == Decimal(b)
  {
    DecimalRoundTrip(b);
    if ParseOctet(x) == Some(b) {
      DecimalCanonical(x);
    }
  }

  // ---------------------------------------------------------------------
  // Fields between dots

  /** A dot-free start of a text belongs to the first field. */
  lemma {:induction false} SplitPrefix(x: string, z: string)
    requires '.' !in x
    ensures Split(x + z) == [x + Split(z)[0]] + Split(z)[1..]
    decreases |x|
  {
    if |x| == 0 {
      assert x + z == z;
      assert x + Split(z)[0] == Split(z)[0];
      assert Split(z) == [Split(z)[0]] + Split(z)[1..];
    } else {
      assert (x + z)[0] == x[0];
      assert (x + z)[1..] == x[1..] + z;
      assert x[0] != '.';
      SplitPrefix(x[1..], z);
      assert [x[0]] + (x[1..] + Split(z)[0]) == x + Split(z)[0];
    }
  }

  lemma SplitField(x: string, y: string)
    requires '.' !in x
    ensures Split(x + "." + y) == [x] + Split(y)
  {
    assert x + "." + y == x + ("." + y);
    SplitPrefix(x, "." + y);
    assert ("." + y)[1..] == y;
    assert Split("." + y) == [""] + Split(y);
    assert x + "" == x;
  }

  lemma SplitLast(x: string)
    requires '.' !in x
    ensures Split(x) == [x]
  {
    assert x + "" == x;
    SplitPrefix(x, "");
  }

  lemma Assoc(h: string, x: string, t: string)
    ensures (h + x) + "." + t == h + (x + "." + t)
  {
  }

  lemma JoinHead(h: string, fs: seq<string>)
    requires |fs| >= 1
    ensures Join([h + fs[0]] + fs[1..]) == h + Join(fs)
  {
    var gs := [h + fs[0]] + fs[1..];
    if |fs| == 1 {
      assert Join(gs) == h + fs[0];
    } else {
      var tail := Join(fs[1..]);
      var x := fs[0];
      assert Join(gs) == (h + x) + "." + tail by {
        assert gs[1..] == fs[1..];
      }
      assert Join(fs) == x + "." + tail;
      Assoc(h, x, tail);
    }
  }

  /** Joining the fields of a text gives the text back. */
  lemma {:induction false} JoinSplit(s: string)
    ensures Join(Split(s)) == s
    decreases |s|
  {
    if |s| > 0 {
      var rest := Split(s[1..]);
      JoinSplit(s[1..]);
      if s[0] == '.' {
        assert ([""] + rest)[1..] == rest;
        assert Join([""] + rest) == "" + "." + Join(rest);
      } else {
        JoinHead([s[0]], rest);
      }
      assert s == [s[0]] + s[1..];
    }
  }

  // ---------------------------------------------------------------------
  // IPv4

  /** The IN-ADDR.ARPA name of 192.0.2.5. */
  lemma ReverseV4Example()
    ensures ReverseV4([192, 0, 2, 5]) == "5.2.0.192.in-addr.arpa"
  {
    assert Decimal(192) == "192";
    assert Decimal(0) == "0";
    assert Decimal(2) == "2";
    assert Decimal(5) == "5";
  }

  lemma SplitV4(a: seq<byte>)
    requires |a| == 4
    ensures var p := Decimal(a[3]) + "." + Decimal(a[2]) + "." + Decimal(a[1]) + "." + Decimal(a[0]);
            Split(p) == [Decimal(a[3]), Decimal(a[2]), Decimal(a[1]), Decimal(a[0])]
  {
    DigitsHaveNoDot(Decimal(a[3]));
    DigitsHaveNoDot(Decimal(a[2]));
    DigitsHaveNoDot(Decimal(a[1]));
    DigitsHaveNoDot(Decimal(a[0]));
    SplitFour(Decimal(a[3]), Decimal(a[2]), Decimal(a[1]), Decimal(a[0]));
  }

  /** Four fields without dots, joined by dots, split back into those fields. */
  lemma SplitFour(d3: string, d2: string, d1: string, d0: string)
    requires '.' !in d3 && '.' !in d2 && '.' !in d1 && '.' !in d0
    ensures Split(d3 + "." + d2 + "." + d1 + "." + d0) == [d3, d2, d1, d0]
  {
    var x1 := d1 + "." + d0;
    var x2 := d2 + "." + x1;
    SplitLast(d0);
    SplitField(d1, d0);
    SplitField(d2, x1);
    SplitField(d3, x2);
    Assoc(d3 + "." + d2 + ".", d1, d0);
    Assoc(d3 + ".", d2, x1);
    assert [d3] + ([d2] + ([d1] + [d0])) == [d3, d2, d1, d0];
  }

  /** Reading the name of an address gives the address. */
  lemma ReverseV4ReadsBack(a: seq<byte>)
    requires |a| == 4
    ensures ParseReverseV4(ReverseV4(a)) == Some(a)
  {
    var s := ReverseV4(a);
    var p := Decimal(a[3]) + "." + Decimal(a[2]) + "." + Decimal(a[1]) + "." + Decimal(a[0]);
    assert s == p + V4Suffix;
    assert s[|s| - |V4Suffix|..] == V4Suffix;
    assert s[..|s| - |V4Suffix|] == p;
    SplitV4(a);
    OctetRoundTrip(a[0], "");
    OctetRoundTrip(a[1], "");
    OctetRoundTrip(a[2], "");
    OctetRoundTrip(a[3], "");
    assert [a[0], a[1], a[2], a[3]] == a;
  }

  lemma JoinFour(fs: seq<string>)
    requires |fs| == 4
    ensures Join(fs) == fs[0] + "." + fs[1] + "." + fs[2] + "." + fs[3]
  {
    assert fs[1..][1..][1..] == [fs[3]];
    assert Join(fs[1..][1..]) == fs[2] + "." + fs[3];
    assert Join(fs[1..]) == fs[1] + "." + (fs[2] + "." + fs[3]);
  }

  /** The only text that reads as an address is the name of that address. */
  lemma ReverseV4Unique(a: seq<byte>, s: string)
    requires |a| == 4 && ParseReverseV4(s) == Some(a)
    ensures s == ReverseV4(a)
  {
    var p := s[..|s| - |V4Suffix|];
    var fs := Split(p);
    assert |fs| == 4;
    OctetRoundTrip(a[3], fs[0]);
    OctetRoundTrip(a[2], fs[1]);
    OctetRoundTrip(a[1], fs[2]);
    OctetRoundTrip(a[0], fs[3]);
    JoinSplit(p);
    JoinFour(fs);
    assert s == p + s[|s| - |V4Suffix|..];
  }

  /** A name that reads as an address is the name of that address, and the
      name of an address reads as that address. */
  lemma ReverseV4Exact(a: seq<byte>, s: string)
    requires |a| == 4
    ensures ParseReverseV4(s) == Some(a) <==> s == ReverseV4(a)
  {
    if s == ReverseV4(a) {
      ReverseV4ReadsBack(a);
    }
    if ParseReverseV4(s) == Some(a) {
      ReverseV4Unique(a, s);
    }
  }

  // ---------------------------------------------------------------------
  // IPv6

  /** Every second character of the nibble labels is a lower-case hexadecimal
      digit, and the others are the dots between them. */
  predicate NibbleShaped(s: string) {
    forall i :: 0 <= i < |s| ==> if i % 2 == 0 then s[i] in HexDigits else s[i] == '.'
  }

  lemma {:induction false} NibblesShape(a: seq<byte>)
    ensures NibbleShaped(Nibbles(a))
    decreases |a|
  {
    if |a| > 0 {
      var pair := NibblePair(a[|a| - 1]);
      var rest := Nibbles(a[..|a| - 1]);
      NibblesShape(a[..|a| - 1]);
      var s := pair + rest;
      forall i | 0 <= i < |s|
        ensures if i % 2 == 0 then s[i] in HexDigits else s[i] == '.'
      {
        if i >= 4 {
          assert s[i] == rest[i - 4];
        }
      }
    }
  }

  /** The IP6.ARPA name is 32 one-digit hexadecimal labels and "ip6.arpa". */
  lemma ReverseV6Shape(a: seq<byte>)
    requires |a| == 16
    ensures NibbleShaped(ReverseV6(a)[..64])
  {
    NibblesShape(a);
    assert ReverseV6(a)[..64] == Nibbles(a);
  }

  /** One octet's pair in front of more labels reads as that octet after
      the octets the rest reads as. */
  lemma PairReads(b: byte, rest: string)
    ensures ParseNibbles(NibblePair(b) + rest)
         == match ParseNibbles(rest) case None => None case Some(r) => Some(r + [b])
  {
    var s := NibblePair(b) + rest;
    HexRoundTrip(b % 16, ' ');
    HexRoundTrip(b / 16, ' ');
    assert s[0] == Hex(b % 16) && s[1] == '.' && s[2] == Hex(b / 16) && s[3] == '.';
    assert s[4..] == rest;
    assert (b / 16) * 16 + b % 16 == b;
  }

  /** Reading the nibble labels of some octets gives the octets back. */
  lemma {:induction false} NibblesReadBack(a: seq<byte>)
    ensures ParseNibbles(Nibbles(a)) == Some(a)
    decreases |a|
  {
    if |a| > 0 {
      var b := a[|a| - 1];
      var init := a[..|a| - 1];
      NibblesReadBack(init);
      PairReads(b, Nibbles(init));
      assert init + [b] == a;
    }
  }

  /** The only text that reads as some octets is their nibble labels. */
  lemma {:induction false} NibblesExact(s: string, a: seq<byte>)
    requires ParseNibbles(s) == Some(a)
    ensures s == Nibbles(a)
    decreases |s|
  {
    if |s| > 0 {
      var lo := HexValue(s[0]).value;
      var hi := HexValue(s[2]).value;
      var rest := ParseNibbles(s[4..]).value;
      var b: byte := hi * 16 + lo;
      assert a == rest + [b];
      assert a[..|a| - 1] == rest && a[|a| - 1] == b;
      NibblesExact(s[4..], rest);
      PairOfLabels(s, lo, hi);
      assert Nibbles(a) == NibblePair(b) + Nibbles(rest);
      assert s == s[..4] + s[4..];
    } else {
      assert a == [];
    }
  }

  /** Four characters that read as a low and a high nibble are that octet's
      pair. */
  lemma PairOfLabels(s: string, lo: int, hi: int)
    requires |s| >= 4 && s[1] == '.' && s[3] == '.'
    requires HexValue(s[0]) == Some(lo) && HexValue(s[2]) == Some(hi)
    ensures hi * 16 + lo < 256
    ensures s[..4] == NibblePair(hi * 16 + lo)
  {
    HexRoundTrip(lo, s[0]);
    HexRoundTrip(hi, s[2]);
    NibbleSplit(lo, hi);
    assert s[..4] == [s[0], s[1], s[2], s[3]];
  }

  lemma NibbleSplit(lo: int, hi: int)
    requires 0 <= lo < 16 && 0 <= hi < 16
    ensures (hi * 16 + lo) % 16 == lo && (hi * 16 + lo) / 16 == hi
  {
  }

  /** A name that reads as an address is the name of that address, and the
      name of an address reads as that address. */
  lemma ReverseV6Exact(a: seq<byte>, s: string)
    requires |a| == 16
    ensures ParseReverseV6(s) == Some(a) <==> s == ReverseV6(a)
  {
    var name := ReverseV6(a);
    assert name[..64] == Nibbles(a);
    if s == name {
      NibblesReadBack(a);
    }
    if ParseReverseV6(s) == Some(a) {
      NibblesExact(s[..64], a);
      assert s == s[..64] + s[64..];
      assert name == name[..64] + name[64..];
    }
  }

  /** The labels of two runs of octets: the second run's labels come first. */
  lemma {:induction false} NibblesAppend(x: seq<byte>, y: seq<byte>)
    ensures Nibbles(x + y) == Nibbles(y) + Nibbles(x)
    decreases |y|
  {
    if |y| == 0 {
      assert x + y == x;
    } else {
      var z := x + y;
      var y' := y[..|y| - 1];
      assert z[..|z| - 1] == x + y';
      assert z[|z| - 1] == y[|y| - 1];
      NibblesAppend(x, y');
      assert Nibbles(z) == NibblePair(y[|y| - 1]) + (Nibbles(y') + Nibbles(x));
      assert Nibbles(y) == NibblePair(y[|y| - 1]) + Nibbles(y');
      StringAssoc(NibblePair(y[|y| - 1]), Nibbles(y'), Nibbles(x));
    }
  }

  lemma StringAssoc(p: string, q: string, r: string)
    ensures p + (q + r) == p + q + r
  {
  }

  lemma NibblesOfRuns(p: seq<byte>, q: seq<byte>, r: seq<byte>, t: seq<byte>)
    ensures Nibbles(p + q + r + t) == Nibbles(t) + Nibbles(r) + Nibbles(q) + Nibbles(p)
  {
    NibblesAppend(p + q + r, t);
    NibblesAppend(p + q, r);
    NibblesAppend(p, q);
  }

  lemma NibblesOfFour(a: seq<byte>)
    requires |a| == 4
    ensures Nibbles(a) == NibblePair(a[3]) + NibblePair(a[2]) + NibblePair(a[1]) + NibblePair(a[0])
  {
    var a3, a2, a1 := a[..3], a[..2], a[..1];
    assert a3[..2] == a2 && a2[..1] == a1 && a1[..0] == [];
    assert Nibbles(a1) == NibblePair(a[0]);
    assert Nibbles(a2) == NibblePair(a[1]) + Nibbles(a1);
    assert Nibbles(a3) == NibblePair(a[2]) + Nibbles(a2);
  }

  lemma ExampleFirstWords()
    ensures Nibbles([0x20, 0x01, 0x0d, 0xb8]) == "8.b.d.0.1.0.0.2."
  {
    NibblesOfFour([0x20, 0x01, 0x0d, 0xb8]);
    assert NibblePair(0x20) == "0.2." && NibblePair(0x01) == "1.0.";
    assert NibblePair(0x0d) == "d.0." && NibblePair(0xb8) == "8.b.";
  }

  lemma ExampleZeroWords()
    ensures Nibbles([0, 0, 0, 0]) == "0.0.0.0.0.0.0.0."
  {
    NibblesOfFour([0, 0, 0, 0]);
    assert NibblePair(0) == "0.0.";
  }

  lemma ExampleLastWords()
    ensures Nibbles([0x05, 0x67, 0x89, 0xab]) == "b.a.9.8.7.6.5.0."
  {
    NibblesOfFour([0x05, 0x67, 0x89, 0xab]);
    assert NibblePair(0x05) == "5.0." && NibblePair(0x67) == "7.6.";
    assert NibblePair(0x89) == "9.8." && NibblePair(0xab) == "b.a.";
  }

  lemma ExampleText()
    ensures "b.a.9.8.7.6.5.0." + "0.0.0.0.0.0.0.0." + "0.0.0.0.0.0.0.0." + "8.b.d.0.1.0.0.2." + "ip6.arpa"
         == "b.a.9.8.7.6.5.0.0.0.0.0.0.0.0.0.0.0.0.0.0.0.0.0.8.b.d.0.1.0.0.2.ip6.arpa"
  {
    assert "b.a.9.8.7.6.5.0." + "0.0.0.0.0.0.0.0." == "b.a.9.8.7.6.5.0.0.0.0.0.0.0.0.0.";
    assert "b.a.9.8.7.6.5.0.0.0.0.0.0.0.0.0." + "0.0.0.0.0.0.0.0."
        == "b.a.9.8.7.6.5.0.0.0.0.0.0.0.0.0.0.0.0.0.0.0.0.0.";
    assert "b.a.9.8.7.6.5.0.0.0.0.0.0.0.0.0.0.0.0.0.0.0.0.0." + "8.b.d.0.1.0.0.2."
        == "b.a.9.8.7.6.5.0.0.0.0.0.0.0.0.0.0.0.0.0.0.0.0.0.8.b.d.0.1.0.0.2.";
  }

  /** The IP6.ARPA name of 2001:db8::567:89ab. */
  lemma ReverseV6Example(a: seq<byte>)
    requires a == [0x20, 0x01, 0x0d, 0xb8, 0, 0, 0, 0, 0, 0, 0, 0, 0x05, 0x67, 0x89, 0xab]
    ensures ReverseV6(a) == "b.a.9.8.7.6.5.0.0.0.0.0.0.0.0.0.0.0.0.0.0.0.0.0.8.b.d.0.1.0.0.2.ip6.arpa"
  {
    var w: seq<byte> := [0x20, 0x01, 0x0d, 0xb8];
    var z: seq<byte> := [0, 0, 0, 0];
    var v: seq<byte> := [0x05, 0x67, 0x89, 0xab];
    assert a == w + z + z + v;
    NibblesOfRuns(w, z, z, v);
    ExampleFirstWords();
    ExampleZeroWords();
    ExampleLastWords();
    ExampleText();
    assert ReverseV6(a) == Nibbles(v) + Nibbles(z) + Nibbles(z) + Nibbles(w) + V6Suffix;
  }
}
