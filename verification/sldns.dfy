/** The wire-to-presentation decoder: character-string scanning, domain-name
    scanning with compression pointers, and the rdata entry points used for PTR
    answers.

    Each scanner is modelled in two layers. The inner layer computes the
    sequence of output operations the C code performs (one Piece per
    sldns_str_print call or direct character store) and how many input bytes
    it consumes; the outer layer runs those operations through the caller's
    window with Writer.Emit. The split is exact because no branch of the C code
    depends on the window: the scanners only ever add up the counts. */
module Sldns {
  import opened Base
  import opened Writer

  // ---------------------------------------------------------------------
  // Character-strings

  /** isprint(c) || c == '\t' in the C locale. */
  predicate StrPrintable(c: byte) {
    c == 0x09 || 0x20 <= c <= 0x7E
  }

  /** str_char_print: printable bytes and tab pass through, except that the
      double quote and the backslash get a backslash; every other byte is
      written as a backslash and three decimal digits. */
  function StrChar(c: byte): Piece {
    if StrPrintable(c) then
      if c == '"' as int || c == '\\' as int then Formatted(['\\', c as char]) else Plain(c as char)
    else
      Formatted(['\\'] + Decimal3(c))
  }

  function StrChars(bs: seq<byte>): seq<Piece> {
    if |bs| == 0 then [] else [StrChar(bs[0])] + StrChars(bs[1..])
  }

  /** The output of a character-string: its escaped bytes between double quotes. */
  function QuotedPieces(bs: seq<byte>): seq<Piece> {
    [Formatted("\"")] + StrChars(bs) + [Formatted("\"")]
  }

  /** What a scanner reports: its return value, how many input bytes it
      advanced past, and the caller's window afterwards. */
  datatype Scanned = Scanned(count: int, consumed: nat, window: Window)

  /** sldns_wire2str_str_scan: a length octet followed by that many bytes.
      Too short an input returns -1 and leaves input and window alone;
      otherwise exactly 1 + length bytes are consumed. */
  function StrScan(d: seq<byte>, win: Window): (r: Scanned)
    ensures r.count == -1 <==> |d| == 0 || |d| < 1 + d[0] as int
    ensures r.count == -1 ==> r.consumed == 0 && r.window == win
    ensures r.count != -1 ==>
              && r.consumed == 1 + d[0] as int
              && r.count == |Render(QuotedPieces(d[1..r.consumed]))|
              && Stores(win, r.window, Render(QuotedPieces(d[1..r.consumed])))
  {
    if |d| < 1 || |d| < 1 + d[0] as int then Scanned(-1, 0, win)
    else
      var len: nat := d[0];
      var (win', n) := Emit(win, QuotedPieces(d[1..1 + len]));
      Scanned(n, 1 + len, win')
  }

  // ---------------------------------------------------------------------
  // Domain names

  /** The label characters that get a plain backslash: . ; ( ) \ */
  predicate DnameSpecial(c: byte) {
    c == '.' as int || c == ';' as int || c == '(' as int || c == ')' as int || c == '\\' as int
  }

  /** isascii(c) && isgraph(c). */
  predicate Graphic(c: byte) {
    0x21 <= c <= 0x7E
  }

  /** dname_char_print. */
  function DnameChar(c: byte): Piece {
    if DnameSpecial(c) then Formatted(['\\', c as char])
    else if !Graphic(c) then Formatted(['\\'] + Decimal3(c))
    else Plain(c as char)
  }

  function LabelPieces(bs: seq<byte>): seq<Piece> {
    if |bs| == 0 then [] else [DnameChar(bs[0])] + LabelPieces(bs[1..])
  }

  /** The loop guard: at most this many compression pointers are followed
      after the first (the counter is tested before it is incremented). */
  const MaxCompr: nat := 1000

  /** The inner result of a name scan. `overread` marks the point where the
      loop as written reads the octet just past the end of the packet. */
  datatype Spooled = Spooled(pieces: seq<Piece>, consumed: nat, overread: bool)

  function PktLen(pkt: Option<seq<byte>>): nat {
    if pkt.Some? then |pkt.value| else 0
  }

  /** "ErrorLABELTYPE%xIsUnknown" of the two top bits of a length octet. */
  function LabelTypeError(len: byte): string
    requires len / 64 == 1 || len / 64 == 2
  {
    if len / 64 == 1 then "ErrorLABELTYPE40IsUnknown" else "ErrorLABELTYPE80IsUnknown"
  }

  /** The count `w` accumulated so far. */
  function Width(w: seq<Piece>): nat {
    |Render(w)|
  }

  /** After the label loop: skip the root octet if still reading the input
      buffer and it has bytes left, and print "." if nothing was counted. */
  function AfterLoop(d: seq<byte>, inBuf: bool, consumed: nat, w: seq<Piece>): (r: Spooled)
    requires consumed <= |d|
    ensures consumed <= r.consumed <= consumed + 1
    ensures !r.overread
    ensures Width(r.pieces) > 0
    ensures r.consumed == consumed + 1 <==> inBuf && consumed < |d|
    ensures Width(w) == 0 ==> Render(r.pieces) == "."
    ensures Width(w) > 0 ==> r.pieces == w
  {
    var consumed' := if inBuf && consumed < |d| then consumed + 1 else consumed;
    if Width(w) == 0 then
      RenderAppend(w, [Formatted(".")]);
      assert Render([Formatted(".")]) == ".";
      Spooled(w + [Formatted(".")], consumed', false)
    else
      Spooled(w, consumed', false)
  }

  /** Where the label loop stands. While `inBuf`, the cursor `pos` reads the
      input `d` and equals the number of input bytes consumed; once a
      compression pointer has been followed, `pos` reads the packet and
      `consumed` no longer moves. `counter` counts the pointers followed. */
  predicate LoopInv(d: seq<byte>, pkt: Option<seq<byte>>, inBuf: bool, pos: nat, consumed: nat, counter: nat) {
    && (inBuf ==> pos == consumed < |d|)
    && (!inBuf ==> pkt.Some? && consumed <= |d| && pos <= |pkt.value|)
    && counter <= MaxCompr + 1
  }

  /** The outcome of one pass through the loop body: either the scan is over
      (a return, a break, or the loop condition failing) or the loop goes on
      from a new position with more output. */
  datatype Iteration =
    | Done(result: Spooled)
    | Continue(inBuf: bool, pos: nat, consumed: nat, counter: nat, w: seq<Piece>)

  /** One pass through the label loop of sldns_wire2str_dname_scan, loop
      condition included. With `checkPktEnd` the condition first tests that
      the packet cursor is still inside the packet; without it (the code as
      written) reading the length octet at the packet's end is an
      out-of-bounds read, reported as `overread`. */
  function Step(d: seq<byte>, pkt: Option<seq<byte>>, checkPktEnd: bool,
                inBuf: bool, pos: nat, consumed: nat, counter: nat, w: seq<Piece>): (it: Iteration)
    requires LoopInv(d, pkt, inBuf, pos, consumed, counter)
    ensures it.Done? ==>
              && consumed <= it.result.consumed <= |d|
              && (inBuf ==> consumed < it.result.consumed)
              && (!inBuf ==> it.result.consumed == consumed)
              && (it.result.overread ==> !checkPktEnd && !inBuf && pos == PktLen(pkt))
    ensures it.Continue? ==>
              && LoopInv(d, pkt, it.inBuf, it.pos, it.consumed, it.counter)
              && (inBuf ==> consumed < it.consumed)
              && (!inBuf ==> !it.inBuf && it.consumed == consumed)
              && (!inBuf ==> counter < it.counter || (counter == it.counter && pos < it.pos))
  {
    if !inBuf && pos == |pkt.value| then
      if checkPktEnd then Done(AfterLoop(d, inBuf, consumed, w)) else Done(Spooled(w, consumed, true))
    else
      var cur: byte := if inBuf then d[pos] else pkt.value[pos];
      if cur == 0 then Done(AfterLoop(d, inBuf, consumed, w))
      else
        var pos1 := pos + 1;
        var consumed1 := if inBuf then consumed + 1 else consumed;
        if cur / 64 == 3 then
          // compression pointer: two top bits set
          if inBuf && consumed1 == |d| then
            Done(Spooled(w + [Formatted("ErrorPartialDname")], consumed1, false))
          else if !inBuf && pos1 + 1 > |pkt.value| then
            Done(Spooled(w + [Formatted("ErrorPartialDname")], consumed1, false))
          else
            var low: byte := if inBuf then d[pos1] else pkt.value[pos1];
            var target := (cur % 64) * 256 + low;
            var consumed2 := if inBuf then consumed1 + 1 else consumed1;
            if pkt.None? || target >= |pkt.value| then
              Done(Spooled(w + [Formatted("ErrorComprPtrOutOfBounds")], consumed2, false))
            else if counter > MaxCompr then
              Done(Spooled(w + [Formatted("ErrorComprPtrLooped")], consumed2, false))
            else
              Continue(false, target, consumed2, counter + 1, w)
        else if cur / 64 != 0 then
          Done(Spooled(w + [Formatted(LabelTypeError(cur))], consumed1, false))
        else
          // an ordinary label, cut short if the bytes run out
          var src := if inBuf then d else pkt.value;
          var n := if cur <= |src| - pos1 then cur else |src| - pos1;
          var w1 := w + LabelPieces(src[pos1..pos1 + n]);
          if inBuf && consumed1 + n == |d| then
            Done(AfterLoop(d, inBuf, consumed1 + n, w1))
          else
            Continue(inBuf, pos1 + n, if inBuf then consumed1 + n else consumed, counter,
                     w1 + [Formatted(".")])
  }

  /** The label loop of sldns_wire2str_dname_scan, run from a given position
      until it returns or breaks. Every pass either consumes input, follows one
      more pointer (at most MaxCompr + 1 of them), or advances in the packet,
      so the loop always ends. */
  function Spool(d: seq<byte>, pkt: Option<seq<byte>>, checkPktEnd: bool,
                 inBuf: bool, pos: nat, consumed: nat, counter: nat, w: seq<Piece>): (r: Spooled)
    requires LoopInv(d, pkt, inBuf, pos, consumed, counter)
    ensures consumed <= r.consumed <= |d|
    ensures inBuf ==> consumed < r.consumed
    ensures !inBuf ==> r.consumed == consumed
    ensures r.overread ==> !checkPktEnd && pkt.Some?
    decreases if inBuf then 1 else 0, |d| - consumed, MaxCompr + 1 - counter, PktLen(pkt) - pos
  {
    match Step(d, pkt, checkPktEnd, inBuf, pos, consumed, counter, w)
    case Done(r) => r
    case Continue(inBuf', pos', consumed', counter', w') =>
      Spool(d, pkt, checkPktEnd, inBuf', pos', consumed', counter', w')
  }

  /** sldns_wire2str_dname_scan without the window: the empty input and a
      leading root octet are handled before the loop. */
  function DnameSpoolWith(d: seq<byte>, pkt: Option<seq<byte>>, checkPktEnd: bool): (r: Spooled)
    ensures r.consumed <= |d|
    ensures |d| > 0 ==> r.consumed > 0
    ensures r.overread ==> !checkPktEnd && pkt.Some?
  {
    if |d| == 0 then Spooled([Formatted("ErrorMissingDname")], 0, false)
    else if d[0] == 0 then Spooled([Formatted(".")], 1, false)
    else Spool(d, pkt, checkPktEnd, true, 0, 0, 0, [])
  }

  /** The name decoder with the end-of-packet test in the loop condition. */
  function DnameSpool(d: seq<byte>, pkt: Option<seq<byte>>): Spooled {
    DnameSpoolWith(d, pkt, true)
  }

  /** The name decoder exactly as written, including its read past the packet. */
  function DnameSpoolAsWritten(d: seq<byte>, pkt: Option<seq<byte>>): Spooled {
    DnameSpoolWith(d, pkt, false)
  }

  /** sldns_wire2str_dname_scan, with the corrected loop (DnameSpool): the
      count returned is the length of the full presentation text whatever the
      window's size, the window holds a prefix of that text, and the input
      advances by at most its length. Without a packet, or whenever the
      overread does not happen, this is also the loop as written
      (SldnsProofs.AsWrittenAgrees). */
  function DnameScan(d: seq<byte>, win: Window, pkt: Option<seq<byte>>): (r: Scanned)
    ensures r.consumed <= |d|
    ensures |d| > 0 ==> r.consumed > 0
    ensures r.count == |Render(DnameSpool(d, pkt).pieces)|
    ensures Stores(win, r.window, Render(DnameSpool(d, pkt).pieces))
  {
    var s := DnameSpool(d, pkt);
    var (win', n) := Emit(win, s.pieces);
    Scanned(n, s.consumed, win')
  }

  /** sldns_wire2str_rdata_scan: every record type is read as a domain name,
      by the corrected loop as in DnameScan. */
  function RdataScan(d: seq<byte>, win: Window, rrtype: int, pkt: Option<seq<byte>>): (r: Scanned)
    ensures r.consumed <= |d|
    ensures r.count == |Render(DnameSpool(d, pkt).pieces)|
    ensures Stores(win, r.window, Render(DnameSpool(d, pkt).pieces))
  {
    DnameScan(d, win, pkt)
  }

  /** sldns_wire2str_rdata_buf: decode rdata into a fresh buffer of `len`
      characters, with no packet to resolve compression pointers against. */
  function RdataBuf(rdata: seq<byte>, len: nat, rrtype: int): (r: Scanned)
    ensures r.consumed <= |rdata|
    ensures r.count == |Render(DnameSpool(rdata, None).pieces)|
    ensures r.window.written <= Render(DnameSpool(rdata, None).pieces)
    ensures r.count < len ==> r.window.written == Render(DnameSpool(rdata, None).pieces)
  {
    RdataScan(rdata, Window([], len), rrtype, None)
  }
}
