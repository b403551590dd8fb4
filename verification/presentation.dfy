/** The other direction of the decoder, used to state what its output means:
    a reader for the master-file text it produces (section 5.1 of RFC 1035:
    `\DDD` is the octet with decimal value DDD, `\X` is the character X, any
    other character stands for itself) and the wire form of an uncompressed
    domain name (section 3.1 of RFC 1035: each label as a length octet and
    its bytes, ended by the zero-length root label). */
module Presentation {
  import opened Base

  /** Reads one possibly escaped character at the start of `s`: the octet it
      stands for and the number of characters it takes up. */
  function ReadUnit(s: string): (r: Option<(byte, nat)>)
    ensures r.Some? ==> 1 <= r.value.1 <= |s|
  {
    if |s| == 0 then None
    else if s[0] != '\\' then
      if s[0] as int < 256 then Some((s[0] as int, 1)) else None
    else if |s| >= 4 && IsDigit(s[1]) && IsDigit(s[2]) && IsDigit(s[3]) then
      var v := DecimalValue(s[1..4]);
      if v < 256 then Some((v, 4)) else None
    else if |s| >= 2 && !IsDigit(s[1]) && s[1] as int < 256 then Some((s[1] as int, 2))
    else None
  }

  /** The octets a run of possibly escaped characters stands for. */
  function Unescape(s: string): Option<seq<byte>>
    decreases |s|
  {
    if |s| == 0 then Some([])
    else match ReadUnit(s)
      case None => None
      case Some((b, k)) =>
        match Unescape(s[k..])
        case None => None
        case Some(bs) => Some([b] + bs)
  }

  /** Reads one label of a dotted name: the octets up to the first unescaped
      dot, and the text after that dot. */
  function ReadLabel(s: string): (r: Option<(seq<byte>, string)>)
    ensures r.Some? ==> |r.value.1| < |s|
    decreases |s|
  {
    if |s| == 0 then None
    else if s[0] == '.' then Some(([], s[1..]))
    else match ReadUnit(s)
      case None => None
      case Some((b, k)) =>
        match ReadLabel(s[k..])
        case None => None
        case Some((l, rest)) => Some(([b] + l, rest))
  }

  /** The labels of a sequence of dot-terminated, non-empty labels. */
  function ReadLabels(s: string): Option<seq<seq<byte>>>
    decreases |s|
  {
    if |s| == 0 then Some([])
    else match ReadLabel(s)
      case None => None
      case Some((l, rest)) =>
        if |l| == 0 then None
        else match ReadLabels(rest)
          case None => None
          case Some(ls) => Some([l] + ls)
  }

  /** The labels of an absolute domain name in presentation form; "." is the
      root, which has none. */
  function ParseName(s: string): Option<seq<seq<byte>>> {
    if s == "." then Some([]) else ReadLabels(s)
  }

  /** A label of one to 63 octets. */
  predicate ValidLabel(l: seq<byte>) {
    1 <= |l| <= 63
  }

  predicate ValidLabels(ls: seq<seq<byte>>) {
    forall i :: 0 <= i < |ls| ==> ValidLabel(ls[i])
  }

  /** The wire form of a run of labels, without the root label. */
  function LabelsWire(ls: seq<seq<byte>>): seq<byte>
    requires ValidLabels(ls)
  {
    if |ls| == 0 then []
    else
      var len: byte := |ls[0]|;
      [len] + ls[0] + LabelsWire(ls[1..])
  }

  /** The wire form of an uncompressed domain name: its labels and the root. */
  function NameWire(ls: seq<seq<byte>>): seq<byte>
    requires ValidLabels(ls)
  {
    LabelsWire(ls) + [0]
  }
}
