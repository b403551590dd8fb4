/** Properties of the decoder in Sldns: every escaped character reads back as
    the octet it came from, an uncompressed name decodes to its dotted
    presentation form and back, truncated names and pointers end the input
    where the C code does, the pointer guard stops loops, and the loop
    condition as written reads past the packet. */
module SldnsProofs {
  import opened Base
  import opened Writer
  import opened Sldns
  import opened Presentation

  lemma RenderCons(p: Piece, ps: seq<Piece>)
    ensures Render([p] + ps) == PieceText(p) + Render(ps)
  {
    assert ([p] + ps)[1..] == ps;
  }

  // ---------------------------------------------------------------------
  // Escaping

  /** dname_char_print: the text of one label octet reads back as that octet
      and never starts with an unescaped dot. The octets . ; ( ) \ are escaped
      with a backslash, other non-graphic octets as a backslash and three
      decimal digits, and every other octet is itself. */
  lemma DnameCharReadsBack(c: byte, rest: string)
    ensures var t := PieceText(DnameChar(c));
            && |t| in {1, 2, 4}
            && t[0] != '.'
            && (|t| == 1 <==> Graphic(c) && !DnameSpecial(c))
            && (DnameSpecial(c) ==> t == ['\\', c as char])
            && (!Graphic(c) ==> |t| == 4 && t[0] == '\\' && t[1..] == Decimal3(c))
            && (Graphic(c) && !DnameSpecial(c) ==> t == [c as char])
            && ReadUnit(t + rest) == Some((c, |t|))
  {
    var t := PieceText(DnameChar(c));
    var s := t + rest;
    if DnameSpecial(c) {
      assert s[1] == c as char && !IsDigit(s[1]);
    } else if !Graphic(c) {
      assert s[1..4] == Decimal3(c);
    } else {
      assert s[0] == c as char;
    }
  }

  /** str_char_print: the text of one octet of a character-string reads back
      as that octet and never starts with an unescaped double quote. The
      double quote and the backslash get a backslash, other octets that are
      neither printable nor a tab get a backslash and three decimal digits,
      and the rest are themselves. */
  lemma StrCharReadsBack(c: byte, rest: string)
    ensures var t := PieceText(StrChar(c));
            && |t| in {1, 2, 4}
            && t[0] != '"'
            && (|t| == 1 <==> StrPrintable(c) && c != '"' as int && c != '\\' as int)
            && (StrPrintable(c) && (c == '"' as int || c == '\\' as int) ==> t == ['\\', c as char])
            && (!StrPrintable(c) ==> t == ['\\'] + Decimal3(c))
            && (StrPrintable(c) && c != '"' as int && c != '\\' as int ==> t == [c as char])
            && ReadUnit(t + rest) == Some((c, |t|))
  {
    var t := PieceText(StrChar(c));
    var s := t + rest;
    if StrPrintable(c) && (c == '"' as int || c == '\\' as int) {
      assert s[1] == c as char && !IsDigit(s[1]);
    } else if !StrPrintable(c) {
      assert s[1..4] == Decimal3(c);
    } else {
      assert s[0] == c as char;
    }
  }

  /** The read-back part of StrCharReadsBack alone. */
  lemma StrCharUnit(c: byte, rest: string)
    ensures var t := PieceText(StrChar(c)); |t| > 0 && ReadUnit(t + rest) == Some((c, |t|))
  {
    StrCharReadsBack(c, rest);
  }

  /** The escaped bytes of a character-string read back as those bytes. */
  lemma {:induction false} StrCharsReadBack(bs: seq<byte>)
    ensures Unescape(Render(StrChars(bs))) == Some(bs)
  {
    if |bs| > 0 {
      var t := PieceText(StrChar(bs[0]));
      var tail := Render(StrChars(bs[1..]));
      RenderCons(StrChar(bs[0]), StrChars(bs[1..]));
      StrCharUnit(bs[0], tail);
      assert (t + tail)[|t|..] == tail;
      StrCharsReadBack(bs[1..]);
      assert [bs[0]] + bs[1..] == bs;
    }
  }

  /** An escaped label followed by a dot reads back as the label, leaving the
      text after the dot. */
  lemma {:induction false} LabelReadsBack(l: seq<byte>, rest: string)
    ensures ReadLabel(Render(LabelPieces(l)) + "." + rest) == Some((l, rest))
  {
    if |l| == 0 {
      assert Render(LabelPieces(l)) + "." + rest == "." + rest;
    } else {
      var t := PieceText(DnameChar(l[0]));
      var tail := Render(LabelPieces(l[1..]));
      RenderCons(DnameChar(l[0]), LabelPieces(l[1..]));
      var s := Render(LabelPieces(l)) + "." + rest;
      assert s == t + (tail + "." + rest);
      DnameCharReadsBack(l[0], tail + "." + rest);
      assert s[|t|..] == tail + "." + rest;
      LabelReadsBack(l[1..], rest);
      assert [l[0]] + l[1..] == l;
    }
  }

  // ---------------------------------------------------------------------
  // Uncompressed names

  /** The output for a run of complete labels: each escaped label and a dot. */
  function DottedPieces(ls: seq<seq<byte>>): seq<Piece> {
    if |ls| == 0 then [] else LabelPieces(ls[0]) + [Formatted(".")] + DottedPieces(ls[1..])
  }

  lemma DottedPiecesNonEmpty(ls: seq<seq<byte>>)
    requires |ls| > 0 && |ls[0]| > 0
    ensures |Render(DottedPieces(ls))| >= 2
  {
    RenderAppend(LabelPieces(ls[0]) + [Formatted(".")], DottedPieces(ls[1..]));
    RenderAppend(LabelPieces(ls[0]), [Formatted(".")]);
    RenderCons(DnameChar(ls[0][0]), LabelPieces(ls[0][1..]));
  }

  /** A dotted run of valid labels reads back as those labels. */
  lemma {:induction false} DottedReadsBack(ls: seq<seq<byte>>)
    requires ValidLabels(ls)
    ensures ReadLabels(Render(DottedPieces(ls))) == Some(ls)
  {
    if |ls| > 0 {
      var rest := Render(DottedPieces(ls[1..]));
      RenderAppend(LabelPieces(ls[0]) + [Formatted(".")], DottedPieces(ls[1..]));
      RenderAppend(LabelPieces(ls[0]), [Formatted(".")]);
      assert Render([Formatted(".")]) == ".";
      LabelReadsBack(ls[0], rest);
      DottedReadsBack(ls[1..]);
      DottedPiecesNonEmpty(ls);
      assert [ls[0]] + ls[1..] == ls;
    }
  }

  // ---------------------------------------------------------------------
  // Single passes through the loop

  lemma SpoolDone(d: seq<byte>, pkt: Option<seq<byte>>, ck: bool,
                  inBuf: bool, pos: nat, consumed: nat, counter: nat, w: seq<Piece>)
    requires LoopInv(d, pkt, inBuf, pos, consumed, counter)
    requires Step(d, pkt, ck, inBuf, pos, consumed, counter, w).Done?
    ensures Spool(d, pkt, ck, inBuf, pos, consumed, counter, w)
         == Step(d, pkt, ck, inBuf, pos, consumed, counter, w).result
  {
  }

  lemma SpoolContinue(d: seq<byte>, pkt: Option<seq<byte>>, ck: bool,
                      inBuf: bool, pos: nat, consumed: nat, counter: nat, w: seq<Piece>)
    requires LoopInv(d, pkt, inBuf, pos, consumed, counter)
    requires Step(d, pkt, ck, inBuf, pos, consumed, counter, w).Continue?
    ensures var it := Step(d, pkt, ck, inBuf, pos, consumed, counter, w);
            Spool(d, pkt, ck, inBuf, pos, consumed, counter, w)
            == Spool(d, pkt, ck, it.inBuf, it.pos, it.consumed, it.counter, it.w)
  {
  }

  /** A label in the input with bytes left after it is printed with its dot
      and the loop goes on right after it. */
  lemma StepOverLabel(d: seq<byte>, pkt: Option<seq<byte>>, ck: bool, k: nat, counter: nat, w: seq<Piece>)
    requires k < |d| && 1 <= d[k] <= 63 && counter <= MaxCompr + 1
    requires k + 1 + d[k] < |d|
    ensures Step(d, pkt, ck, true, k, k, counter, w)
         == Continue(true, k + 1 + d[k], k + 1 + d[k], counter,
                     w + LabelPieces(d[k + 1..k + 1 + d[k]]) + [Formatted(".")])
  {
  }

  /** A label that reaches the end of the input is cut to the bytes that
      remain and the loop breaks. */
  lemma StepOverLastLabel(d: seq<byte>, pkt: Option<seq<byte>>, ck: bool, k: nat, counter: nat, w: seq<Piece>)
    requires k < |d| && 1 <= d[k] <= 63 && counter <= MaxCompr + 1
    requires k + 1 + d[k] >= |d|
    ensures Step(d, pkt, ck, true, k, k, counter, w)
         == Done(AfterLoop(d, true, |d|, w + LabelPieces(d[k + 1..])))
  {
    var n := |d| - (k + 1);
    assert d[k] / 64 == 0 && (if d[k] <= n then d[k] else n) == n;
    assert d[k + 1..k + 1 + n] == d[k + 1..];
  }

  /** The root octet in the input ends the loop. */
  lemma StepAtRoot(d: seq<byte>, pkt: Option<seq<byte>>, ck: bool, k: nat, counter: nat, w: seq<Piece>)
    requires k < |d| && d[k] == 0 && counter <= MaxCompr + 1
    ensures Step(d, pkt, ck, true, k, k, counter, w) == Done(AfterLoop(d, true, k, w))
  {
  }

  /** A pointer in the input with its second octet present: the input advances
      past both octets, and a target outside the packet (or no packet at all)
      is an error. */
  lemma StepPointer(d: seq<byte>, pkt: Option<seq<byte>>, ck: bool, k: nat, counter: nat, w: seq<Piece>)
    requires k + 1 < |d| && d[k] / 64 == 3 && counter <= MaxCompr + 1
    ensures var it := Step(d, pkt, ck, true, k, k, counter, w);
            && (it.Done? ==> it.result.consumed == k + 2)
            && (it.Continue? ==> !it.inBuf && it.consumed == k + 2)
            && (pkt.None? || (d[k] % 64) * 256 + d[k + 1] >= |pkt.value| ==>
                  it == Done(Spooled(w + [Formatted("ErrorComprPtrOutOfBounds")], k + 2, false)))
  {
  }

  /** A pointer octet that is the last octet of the input. */
  lemma StepPartialPointer(d: seq<byte>, pkt: Option<seq<byte>>, ck: bool, k: nat, counter: nat, w: seq<Piece>)
    requires k + 1 == |d| && d[k] / 64 == 3 && counter <= MaxCompr + 1
    ensures Step(d, pkt, ck, true, k, k, counter, w)
         == Done(Spooled(w + [Formatted("ErrorPartialDname")], k + 1, false))
  {
  }

  /** A length octet of an unknown label type. */
  lemma StepLabelType(d: seq<byte>, pkt: Option<seq<byte>>, ck: bool, k: nat, counter: nat, w: seq<Piece>)
    requires k < |d| && (d[k] / 64 == 1 || d[k] / 64 == 2) && counter <= MaxCompr + 1
    ensures Step(d, pkt, ck, true, k, k, counter, w)
         == Done(Spooled(w + [Formatted(LabelTypeError(d[k]))], k + 1, false))
  {
  }

  // ---------------------------------------------------------------------
  // Runs of labels

  /** The parts of a concatenation found at offset `k` of `d`. */
  lemma ConcatSlices(d: seq<byte>, k: nat, x: byte, l: seq<byte>, t: seq<byte>)
    requires k + 1 + |l| + |t| <= |d| && d[k..k + 1 + |l| + |t|] == [x] + l + t
    ensures d[k] == x
    ensures d[k + 1..k + 1 + |l|] == l
    ensures d[k + 1 + |l|..k + 1 + |l| + |t|] == t
  {
    var s := d[k..k + 1 + |l| + |t|];
    assert d[k] == s[0];
    forall i | 0 <= i < |l|
      ensures d[k + 1..k + 1 + |l|][i] == l[i]
    {
      assert s[1 + i] == l[i];
    }
    forall i | 0 <= i < |t|
      ensures d[k + 1 + |l|..k + 1 + |l| + |t|][i] == t[i]
    {
      assert s[1 + |l| + i] == t[i];
    }
  }

  /** The first label of a run of labels sitting in `d` at offset `k`. */
  lemma LabelsWireHead(d: seq<byte>, k: nat, ls: seq<seq<byte>>)
    requires ValidLabels(ls) && |ls| > 0
    requires k + |LabelsWire(ls)| <= |d| && d[k..k + |LabelsWire(ls)|] == LabelsWire(ls)
    ensures ValidLabels(ls[1..])
    ensures d[k] == |ls[0]|
    ensures k + 1 + |ls[0]| + |LabelsWire(ls[1..])| == k + |LabelsWire(ls)|
    ensures d[k + 1..k + 1 + |ls[0]|] == ls[0]
    ensures d[k + 1 + |ls[0]|..k + |LabelsWire(ls)|] == LabelsWire(ls[1..])
  {
    var len: byte := |ls[0]|;
    ConcatSlices(d, k, len, ls[0], LabelsWire(ls[1..]));
  }

  /** The loop over one complete label with input left after it. */
  lemma SpoolOverLabel(d: seq<byte>, pkt: Option<seq<byte>>, ck: bool, k: nat, counter: nat, w: seq<Piece>,
                       l: seq<byte>)
    requires ValidLabel(l) && k + 1 + |l| < |d| && counter <= MaxCompr + 1
    requires d[k] == |l| && d[k + 1..k + 1 + |l|] == l
    ensures Spool(d, pkt, ck, true, k, k, counter, w)
         == Spool(d, pkt, ck, true, k + 1 + |l|, k + 1 + |l|, counter, w + LabelPieces(l) + [Formatted(".")])
  {
    StepOverLabel(d, pkt, ck, k, counter, w);
    SpoolContinue(d, pkt, ck, true, k, k, counter, w);
  }

  lemma DottedAppend(w: seq<Piece>, ls: seq<seq<byte>>)
    requires |ls| > 0
    ensures w + LabelPieces(ls[0]) + [Formatted(".")] + DottedPieces(ls[1..]) == w + DottedPieces(ls)
  {
    PiecesAssoc(w, LabelPieces(ls[0]), [Formatted(".")], DottedPieces(ls[1..]));
  }

  lemma PiecesAssoc(w: seq<Piece>, x: seq<Piece>, y: seq<Piece>, z: seq<Piece>)
    ensures w + x + y + z == w + (x + y + z)
  {
  }

  /** The labels `ls` sit in `d` from offset `k` to offset `k'`, each as its
      length octet followed by its octets. */
  predicate LabelsAt(d: seq<byte>, k: nat, ls: seq<seq<byte>>, k': nat)
    decreases |ls|
  {
    if |ls| == 0 then k == k'
    else
      && ValidLabel(ls[0])
      && k + 1 + |ls[0]| <= k' <= |d|
      && d[k] == |ls[0]|
      && d[k + 1..k + 1 + |ls[0]|] == ls[0]
      && LabelsAt(d, k + 1 + |ls[0]|, ls[1..], k')
  }

  /** The wire form of a run of labels found in `d` places them there. */
  lemma {:induction false} WireLabelsAt(d: seq<byte>, k: nat, ls: seq<seq<byte>>)
    requires ValidLabels(ls)
    requires k + |LabelsWire(ls)| <= |d| && d[k..k + |LabelsWire(ls)|] == LabelsWire(ls)
    ensures LabelsAt(d, k, ls, k + |LabelsWire(ls)|)
    decreases |ls|
  {
    if |ls| > 0 {
      LabelsWireHead(d, k, ls);
      WireLabelsAt(d, k + 1 + |ls[0]|, ls[1..]);
    }
  }

  /** Passes of the loop from offset `k` with output `w` to offset `k'` with
      output `w'`, each pass advancing the input and adding output as the
      corresponding entry of `steps` says. */
  predicate Passes(d: seq<byte>, pkt: Option<seq<byte>>, ck: bool, counter: nat,
                   k: nat, w: seq<Piece>, steps: seq<(nat, seq<Piece>)>, k': nat, w': seq<Piece>)
    decreases |steps|
  {
    if |steps| == 0 then k == k' && w == w'
    else
      var k1 := k + steps[0].0;
      var w1 := w + steps[0].1;
      && k1 <= k' < |d|
      && counter <= MaxCompr + 1
      && Step(d, pkt, ck, true, k, k, counter, w) == Continue(true, k1, k1, counter, w1)
      && Passes(d, pkt, ck, counter, k1, w1, steps[1..], k', w')
  }

  /** The pass over each label: its length octet and octets, its escaped
      text and a dot. */
  function LabelSteps(ls: seq<seq<byte>>): seq<(nat, seq<Piece>)> {
    if |ls| == 0 then [] else [(1 + |ls[0]|, LabelPieces(ls[0]) + [Formatted(".")])] + LabelSteps(ls[1..])
  }

  /** Labels in the input with more input after them are passed over one
      by one. */
  lemma {:induction false} PassesOverLabels(d: seq<byte>, pkt: Option<seq<byte>>, ck: bool,
                                            k: nat, counter: nat, w: seq<Piece>, ls: seq<seq<byte>>,
                                            k': nat, w': seq<Piece>)
    requires LabelsAt(d, k, ls, k') && k' < |d|
    requires w' == w + DottedPieces(ls)
    requires counter <= MaxCompr + 1
    ensures Passes(d, pkt, ck, counter, k, w, LabelSteps(ls), k', w')
    decreases |ls|
  {
    if |ls| == 0 {
      assert w + DottedPieces(ls) == w;
    } else {
      var l := ls[0];
      var k1 := k + 1 + |l|;
      var w1 := w + (LabelPieces(l) + [Formatted(".")]);
      PassOverFirst(d, pkt, ck, k, counter, w, ls, k', w');
      PassesOverLabels(d, pkt, ck, k1, counter, w1, ls[1..], k', w');
      PassesCons(d, pkt, ck, counter, k, w, (1 + |l|, LabelPieces(l) + [Formatted(".")]), LabelSteps(ls[1..]), k', w');
      assert LabelSteps(ls) == [(1 + |l|, LabelPieces(l) + [Formatted(".")])] + LabelSteps(ls[1..]);
    }
  }

  /** The pass over the first of a run of labels, and the run that is left. */
  lemma PassOverFirst(d: seq<byte>, pkt: Option<seq<byte>>, ck: bool,
                      k: nat, counter: nat, w: seq<Piece>, ls: seq<seq<byte>>,
                      k': nat, w': seq<Piece>)
    requires LabelsAt(d, k, ls, k') && k' < |d| && |ls| > 0
    requires w' == w + DottedPieces(ls)
    requires counter <= MaxCompr + 1
    ensures LabelsAt(d, k + 1 + |ls[0]|, ls[1..], k')
    ensures w' == w + (LabelPieces(ls[0]) + [Formatted(".")]) + DottedPieces(ls[1..])
    ensures k + 1 + |ls[0]| <= k'
    ensures Step(d, pkt, ck, true, k, k, counter, w)
         == Continue(true, k + 1 + |ls[0]|, k + 1 + |ls[0]|, counter, w + (LabelPieces(ls[0]) + [Formatted(".")]))
  {
    var x := LabelPieces(ls[0]) + [Formatted(".")];
    assert DottedPieces(ls) == x + DottedPieces(ls[1..]);
    SeqAssoc(w, x, DottedPieces(ls[1..]));
    StepOverGivenLabel(d, pkt, ck, k, counter, w, ls[0]);
  }

  lemma SeqAssoc(a: seq<Piece>, b: seq<Piece>, c: seq<Piece>)
    ensures a + b + c == a + (b + c)
  {
  }

  /** A pass in front of more passes. */
  lemma PassesCons(d: seq<byte>, pkt: Option<seq<byte>>, ck: bool, counter: nat,
                   k: nat, w: seq<Piece>, step: (nat, seq<Piece>), steps: seq<(nat, seq<Piece>)>,
                   k': nat, w': seq<Piece>)
    requires k + step.0 <= k' < |d| && counter <= MaxCompr + 1
    requires Step(d, pkt, ck, true, k, k, counter, w) == Continue(true, k + step.0, k + step.0, counter, w + step.1)
    requires Passes(d, pkt, ck, counter, k + step.0, w + step.1, steps, k', w')
    ensures Passes(d, pkt, ck, counter, k, w, [step] + steps, k', w')
  {
    assert ([step] + steps)[1..] == steps;
  }

  /** The pass over a label with more input after it. */
  lemma StepOverGivenLabel(d: seq<byte>, pkt: Option<seq<byte>>, ck: bool, k: nat, counter: nat,
                           w: seq<Piece>, l: seq<byte>)
    requires ValidLabel(l) && k + 1 + |l| < |d| && counter <= MaxCompr + 1
    requires d[k] == |l| && d[k + 1..k + 1 + |l|] == l
    ensures Step(d, pkt, ck, true, k, k, counter, w)
         == Continue(true, k + 1 + |l|, k + 1 + |l|, counter, w + (LabelPieces(l) + [Formatted(".")]))
  {
    StepOverLabel(d, pkt, ck, k, counter, w);
    PiecesAssoc(w, LabelPieces(l), [Formatted(".")], []);
    assert w + LabelPieces(l) + [Formatted(".")] + [] == w + LabelPieces(l) + [Formatted(".")];
    assert LabelPieces(l) + [Formatted(".")] + [] == LabelPieces(l) + [Formatted(".")];
  }

  /** The loop resumes where its passes leave it. */
  lemma {:induction false} SpoolAfterPasses(d: seq<byte>, pkt: Option<seq<byte>>, ck: bool,
                                            k: nat, counter: nat, w: seq<Piece>,
                                            steps: seq<(nat, seq<Piece>)>, k': nat, w': seq<Piece>)
    requires Passes(d, pkt, ck, counter, k, w, steps, k', w')
    requires k' < |d| && counter <= MaxCompr + 1
    ensures Spool(d, pkt, ck, true, k, k, counter, w) == Spool(d, pkt, ck, true, k', k', counter, w')
    decreases |steps|
  {
    if |steps| > 0 {
      var k1 := k + steps[0].0;
      var w1 := w + steps[0].1;
      PassOnce(d, pkt, ck, k, counter, w, k1, w1);
      SpoolAfterPasses(d, pkt, ck, k1, counter, w1, steps[1..], k', w');
    }
  }

  /** One pass that goes on: the loop from before it is the loop from after. */
  lemma PassOnce(d: seq<byte>, pkt: Option<seq<byte>>, ck: bool,
                 k: nat, counter: nat, w: seq<Piece>, k1: nat, w1: seq<Piece>)
    requires k < |d| && k1 < |d| && counter <= MaxCompr + 1
    requires Step(d, pkt, ck, true, k, k, counter, w) == Continue(true, k1, k1, counter, w1)
    ensures Spool(d, pkt, ck, true, k, k, counter, w) == Spool(d, pkt, ck, true, k1, k1, counter, w1)
  {
    SpoolContinue(d, pkt, ck, true, k, k, counter, w);
  }

  /** The loop consumes a run of complete labels from the input, printing
      each escaped label and a dot, as long as input remains after them: it
      reaches offset `k'` (just past the run) with output `w'`. */
  lemma SpoolOverLabels(d: seq<byte>, pkt: Option<seq<byte>>, ck: bool,
                        k: nat, counter: nat, w: seq<Piece>, ls: seq<seq<byte>>,
                        k': nat, w': seq<Piece>)
    requires LabelsAt(d, k, ls, k') && k' < |d|
    requires w' == w + DottedPieces(ls)
    requires counter <= MaxCompr + 1
    ensures Spool(d, pkt, ck, true, k, k, counter, w) == Spool(d, pkt, ck, true, k', k', counter, w')
  {
    PassesOverLabels(d, pkt, ck, k, counter, w, ls, k', w');
    SpoolAfterPasses(d, pkt, ck, k, counter, w, LabelSteps(ls), k', w');
  }

  /** A name that starts with a run of complete labels, with input left
      after them: the scan is the loop resumed after those labels. */
  lemma NameAfterLabels(d: seq<byte>, pkt: Option<seq<byte>>, ck: bool, ls: seq<seq<byte>>)
    requires ValidLabels(ls)
    requires |LabelsWire(ls)| < |d| && d[..|LabelsWire(ls)|] == LabelsWire(ls)
    requires d[0] != 0
    ensures DnameSpoolWith(d, pkt, ck)
         == Spool(d, pkt, ck, true, |LabelsWire(ls)|, |LabelsWire(ls)|, 0, DottedPieces(ls))
  {
    assert d[0..|LabelsWire(ls)|] == d[..|LabelsWire(ls)|];
    WireLabelsAt(d, 0, ls);
    SpoolOverLabels(d, pkt, ck, 0, 0, [], ls, |LabelsWire(ls)|, [] + DottedPieces(ls));
    assert [] + DottedPieces(ls) == DottedPieces(ls);
  }

  /** A well-formed uncompressed name (section 3.1 of RFC 1035) followed by
      anything: the whole name including the root octet is consumed, nothing
      after it, and the text is each escaped label followed by a dot ("." for
      the root alone). This holds for the loop as written too. */
  lemma WellFormedName(ls: seq<seq<byte>>, rest: seq<byte>, pkt: Option<seq<byte>>, ck: bool)
    requires ValidLabels(ls)
    ensures var r := DnameSpoolWith(NameWire(ls) + rest, pkt, ck);
            && r.consumed == |NameWire(ls)|
            && !r.overread
            && r.pieces == (if |ls| == 0 then [Formatted(".")] else DottedPieces(ls))
            && Render(r.pieces) == if |ls| == 0 then "." else Render(DottedPieces(ls))
  {
    var lw := LabelsWire(ls);
    var d := lw + [0] + rest;
    assert d[|lw|] == 0;
    if |ls| > 0 {
      assert d[0] == lw[0] == |ls[0]|;
      assert d[..|lw|] == lw;
      NameAfterLabels(d, pkt, ck, ls);
      StepAtRoot(d, pkt, ck, |lw|, 0, DottedPieces(ls));
      SpoolDone(d, pkt, ck, true, |lw|, |lw|, 0, DottedPieces(ls));
      DottedPiecesNonEmpty(ls);
    } else {
      assert d[0] == 0;
    }
  }

  /** Decoding the wire form of a name and reading the text back gives the
      original labels: the decoder's output is the presentation form of the
      name it was given. */
  lemma NameRoundTrip(ls: seq<seq<byte>>, rest: seq<byte>, pkt: Option<seq<byte>>)
    requires ValidLabels(ls)
    ensures ParseName(Render(DnameSpool(NameWire(ls) + rest, pkt).pieces)) == Some(ls)
  {
    WellFormedName(ls, rest, pkt, true);
    if |ls| > 0 {
      DottedReadsBack(ls);
      DottedPiecesNonEmpty(ls);
    }
  }

  /** The hostname of a PTR answer: the rdata of a well-formed name decodes,
      through the 256-character buffer, to text that reads back as the name
      whenever the text is shorter than the buffer. */
  lemma HostnameRoundTrip(ls: seq<seq<byte>>)
    requires ValidLabels(ls)
    ensures var r := RdataBuf(NameWire(ls), 256, 12);
            r.count < 256 ==> ParseName(r.window.written) == Some(ls)
  {
    NameRoundTrip(ls, [], None);
    assert NameWire(ls) + [] == NameWire(ls);
  }

  // ---------------------------------------------------------------------
  // Input that ends early, pointers and unknown label types

  /** A name whose last label runs past the end of the input: the label is cut
      to the bytes that remain, every byte is consumed, and the text ends with
      that label without a dot and without an error token ("." when the input
      is a length octet alone, since nothing was counted). A last label that
      just fits but has no root octet after it behaves the same way. */
  lemma TruncatedName(ls: seq<seq<byte>>, len: byte, partial: seq<byte>,
                      pkt: Option<seq<byte>>, ck: bool)
    requires ValidLabels(ls)
    requires 1 <= len <= 63 && |partial| <= len
    ensures var d := LabelsWire(ls) + [len] + partial;
            var r := DnameSpoolWith(d, pkt, ck);
            && r.consumed == |d|
            && !r.overread
            && Render(r.pieces)
               == if |ls| == 0 && |partial| == 0 then "."
                  else Render(DottedPieces(ls) + LabelPieces(partial))
  {
    var lw := LabelsWire(ls);
    var d := lw + [len] + partial;
    var k := |lw|;
    assert d[k] == len;
    assert d[k + 1..] == partial;
    assert d[..k] == lw;
    if |ls| > 0 {
      assert d[0] == lw[0];
    }
    NameAfterLabels(d, pkt, ck, ls);
    var w := DottedPieces(ls);
    StepOverLastLabel(d, pkt, ck, k, 0, w);
    SpoolDone(d, pkt, ck, true, k, k, 0, w);
    RenderAppend(w, LabelPieces(partial));
    if |ls| > 0 {
      DottedPiecesNonEmpty(ls);
    } else if |partial| > 0 {
      RenderCons(DnameChar(partial[0]), LabelPieces(partial[1..]));
    }
  }

  /** An empty input is reported rather than read: the text is
      ErrorMissingDname and nothing is consumed. */
  lemma EmptyNameMissing(win: Window, pkt: Option<seq<byte>>)
    ensures var r := DnameScan([], win, pkt);
            && r.consumed == 0
            && Render(DnameSpool([], pkt).pieces) == "ErrorMissingDname"
            && r.count == |"ErrorMissingDname"|
  {
    assert Render([Formatted("ErrorMissingDname")]) == "ErrorMissingDname";
  }

  /** A leading zero octet is the root name: the text is "." and exactly one
      octet is consumed, whatever follows. */
  lemma RootNameDot(rest: seq<byte>, win: Window, pkt: Option<seq<byte>>)
    ensures var r := DnameScan([0] + rest, win, pkt);
            && r.consumed == 1
            && Render(DnameSpool([0] + rest, pkt).pieces) == "."
            && r.count == 1
  {
    assert Render([Formatted(".")]) == ".";
  }

  /** A compression pointer after a run of labels: the input advances past
      the two pointer octets and no further, whatever the pointer leads to.
      Without a packet, or with a target outside it, the text is the labels so
      far and ErrorComprPtrOutOfBounds. */
  lemma PointerEndsInput(ls: seq<seq<byte>>, hi: byte, lo: byte, rest: seq<byte>,
                         pkt: Option<seq<byte>>, ck: bool)
    requires ValidLabels(ls) && hi / 64 == 3
    ensures var r := DnameSpoolWith(LabelsWire(ls) + [hi, lo] + rest, pkt, ck);
            && r.consumed == |LabelsWire(ls)| + 2
            && (pkt.None? || (hi % 64) * 256 + lo >= |pkt.value| ==>
                  Render(r.pieces) == Render(DottedPieces(ls)) + "ErrorComprPtrOutOfBounds")
  {
    var lw := LabelsWire(ls);
    var d := lw + [hi, lo] + rest;
    var k := |lw|;
    assert d[k] == hi && d[k + 1] == lo;
    assert d[..k] == lw;
    if |ls| > 0 {
      assert d[0] == lw[0];
    }
    NameAfterLabels(d, pkt, ck, ls);
    var w := DottedPieces(ls);
    StepPointer(d, pkt, ck, k, 0, w);
    if Step(d, pkt, ck, true, k, k, 0, w).Done? {
      SpoolDone(d, pkt, ck, true, k, k, 0, w);
    } else {
      SpoolContinue(d, pkt, ck, true, k, k, 0, w);
    }
    RenderAppend(w, [Formatted("ErrorComprPtrOutOfBounds")]);
  }

  /** Every compression pointer in rdata given to sldns_wire2str_rdata_buf is
      reported as out of bounds, because no packet is passed along. */
  lemma RdataBufPointer(ls: seq<seq<byte>>, hi: byte, lo: byte, rest: seq<byte>, len: nat)
    requires ValidLabels(ls) && hi / 64 == 3
    ensures var r := RdataBuf(LabelsWire(ls) + [hi, lo] + rest, len, 12);
            && r.consumed == |LabelsWire(ls)| + 2
            && r.count == |Render(DottedPieces(ls))| + |"ErrorComprPtrOutOfBounds"|
            && r.window.written <= Render(DottedPieces(ls)) + "ErrorComprPtrOutOfBounds"
            && (r.count < len ==> r.window.written == Render(DottedPieces(ls)) + "ErrorComprPtrOutOfBounds")
  {
    PointerEndsInput(ls, hi, lo, rest, None, true);
  }

  /** A pointer octet with nothing after it: ErrorPartialDname. */
  lemma PartialPointer(ls: seq<seq<byte>>, hi: byte, pkt: Option<seq<byte>>, ck: bool)
    requires ValidLabels(ls) && hi / 64 == 3
    ensures var d := LabelsWire(ls) + [hi];
            var r := DnameSpoolWith(d, pkt, ck);
            && r.consumed == |d|
            && Render(r.pieces) == Render(DottedPieces(ls)) + "ErrorPartialDname"
  {
    var lw := LabelsWire(ls);
    var d := lw + [hi];
    var k := |lw|;
    assert d[k] == hi;
    assert d[..k] == lw;
    if |ls| > 0 {
      assert d[0] == lw[0];
    }
    NameAfterLabels(d, pkt, ck, ls);
    var w := DottedPieces(ls);
    StepPartialPointer(d, pkt, ck, k, 0, w);
    SpoolDone(d, pkt, ck, true, k, k, 0, w);
    RenderAppend(w, [Formatted("ErrorPartialDname")]);
  }

  /** A length octet with top bits 01 or 10 (section 4.1.4 of RFC 1035 leaves
      them reserved): the text so far is followed by the label-type error and
      decoding stops right after that octet. */
  lemma UnknownLabelType(ls: seq<seq<byte>>, b: byte, rest: seq<byte>, pkt: Option<seq<byte>>, ck: bool)
    requires ValidLabels(ls) && (b / 64 == 1 || b / 64 == 2)
    ensures var r := DnameSpoolWith(LabelsWire(ls) + [b] + rest, pkt, ck);
            && r.consumed == |LabelsWire(ls)| + 1
            && Render(r.pieces)
               == Render(DottedPieces(ls))
                  + (if b / 64 == 1 then "ErrorLABELTYPE40IsUnknown" else "ErrorLABELTYPE80IsUnknown")
  {
    var lw := LabelsWire(ls);
    var d := lw + [b] + rest;
    var k := |lw|;
    assert d[k] == b;
    assert d[..k] == lw;
    if |ls| > 0 {
      assert d[0] == lw[0];
    }
    NameAfterLabels(d, pkt, ck, ls);
    var w := DottedPieces(ls);
    StepLabelType(d, pkt, ck, k, 0, w);
    SpoolDone(d, pkt, ck, true, k, k, 0, w);
    RenderAppend(w, [Formatted(LabelTypeError(b))]);
  }

  // ---------------------------------------------------------------------
  // The pointer guard

  /** The two-octet packet whose only content is a pointer to itself. */
  const SelfLoop: seq<byte> := [0xC0, 0x00]

  lemma {:induction false} SelfLoopFromCounter(ck: bool, counter: nat)
    requires 1 <= counter <= MaxCompr + 1
    ensures Spool(SelfLoop, Some(SelfLoop), ck, false, 0, 2, counter, [])
         == Spooled([Formatted("ErrorComprPtrLooped")], 2, false)
    decreases MaxCompr + 1 - counter
  {
    var p := Some(SelfLoop);
    if counter <= MaxCompr {
      assert Step(SelfLoop, p, ck, false, 0, 2, counter, []) == Continue(false, 0, 2, counter + 1, []);
      SpoolContinue(SelfLoop, p, ck, false, 0, 2, counter, []);
      SelfLoopFromCounter(ck, counter + 1);
    } else {
      assert Step(SelfLoop, p, ck, false, 0, 2, counter, [])
          == Done(Spooled([Formatted("ErrorComprPtrLooped")], 2, false));
      SpoolDone(SelfLoop, p, ck, false, 0, 2, counter, []);
    }
  }

  /** A pointer that points at itself is followed 1001 times, then decoding
      stops with ErrorComprPtrLooped instead of looping forever. */
  lemma SelfLoopStops(ck: bool)
    ensures DnameSpoolWith(SelfLoop, Some(SelfLoop), ck)
         == Spooled([Formatted("ErrorComprPtrLooped")], 2, false)
  {
    SelfLoopFromCounter(ck, 1);
  }

  // ---------------------------------------------------------------------
  // The read past the end of the packet

  /** The packet of the counterexample: a pointer to offset 2, where the label
      "a" ends exactly at the end of the packet. */
  const OverreadPacket: seq<byte> := [0xC0, 0x02, 0x01, 0x61]

  /** As written, after the label "a" the loop condition reads the octet just
      past the packet; with the end-of-packet test the name is "a.". */
  lemma OverreadWitness()
    ensures DnameSpoolAsWritten(OverreadPacket, Some(OverreadPacket)).overread
    ensures DnameSpool(OverreadPacket, Some(OverreadPacket))
         == Spooled([Plain('a'), Formatted(".")], 2, false)
  {
    var p := OverreadPacket;
    assert LabelPieces(p[3..4]) == [Plain('a')];
  }

  /** Away from the end of the packet, one pass of the loop as written is the
      corrected pass. */
  lemma StepAgrees(d: seq<byte>, pkt: Option<seq<byte>>,
                   inBuf: bool, pos: nat, consumed: nat, counter: nat, w: seq<Piece>)
    requires LoopInv(d, pkt, inBuf, pos, consumed, counter)
    requires !inBuf ==> pos < |pkt.value|
    ensures Step(d, pkt, false, inBuf, pos, consumed, counter, w)
         == Step(d, pkt, true, inBuf, pos, consumed, counter, w)
  {
  }

  /** Wherever the loop as written stays inside the packet, the corrected
      loop does exactly the same. */
  lemma {:induction false} SpoolAgrees(d: seq<byte>, pkt: Option<seq<byte>>,
                                       inBuf: bool, pos: nat, consumed: nat, counter: nat, w: seq<Piece>)
    requires LoopInv(d, pkt, inBuf, pos, consumed, counter)
    ensures !Spool(d, pkt, false, inBuf, pos, consumed, counter, w).overread ==>
              Spool(d, pkt, false, inBuf, pos, consumed, counter, w)
              == Spool(d, pkt, true, inBuf, pos, consumed, counter, w)
    decreases if inBuf then 1 else 0, |d| - consumed, MaxCompr + 1 - counter, PktLen(pkt) - pos
  {
    if !inBuf && pos == |pkt.value| {
      SpoolDone(d, pkt, false, inBuf, pos, consumed, counter, w);
    } else {
      StepAgrees(d, pkt, inBuf, pos, consumed, counter, w);
      var it := Step(d, pkt, true, inBuf, pos, consumed, counter, w);
      if it.Done? {
        SpoolDone(d, pkt, false, inBuf, pos, consumed, counter, w);
        SpoolDone(d, pkt, true, inBuf, pos, consumed, counter, w);
      } else {
        SpoolContinue(d, pkt, false, inBuf, pos, consumed, counter, w);
        SpoolContinue(d, pkt, true, inBuf, pos, consumed, counter, w);
        SpoolAgrees(d, pkt, it.inBuf, it.pos, it.consumed, it.counter, it.w);
      }
    }
  }

  /** The corrected decoder differs from the code as written only where the
      latter reads past the packet; without a packet (the rdata_buf path) the
      read never happens. */
  lemma AsWrittenAgrees(d: seq<byte>, pkt: Option<seq<byte>>)
    ensures !DnameSpoolAsWritten(d, pkt).overread ==> DnameSpoolAsWritten(d, pkt) == DnameSpool(d, pkt)
    ensures pkt.None? ==> !DnameSpoolAsWritten(d, pkt).overread
  {
    if |d| > 0 && d[0] != 0 {
      SpoolAgrees(d, pkt, true, 0, 0, 0, []);
    }
  }

  // ---------------------------------------------------------------------
  // Character-strings

  /** sldns_wire2str_str_scan on a complete character-string: the text is the
      escaped bytes between double quotes, and the inside reads back as the
      string's bytes. */
  lemma StrScanReadsBack(d: seq<byte>, win: Window)
    requires |d| >= 1 && |d| >= 1 + d[0] as int
    ensures var t := Render(QuotedPieces(d[1..1 + d[0] as int]));
            && StrScan(d, win).count == |t|
            && |t| >= 2 && t[0] == '"' && t[|t| - 1] == '"'
            && Unescape(t[1..|t| - 1]) == Some(d[1..1 + d[0] as int])
  {
    var bs := d[1..1 + d[0] as int];
    var inner := Render(StrChars(bs));
    RenderAppend([Formatted("\"")] + StrChars(bs), [Formatted("\"")]);
    RenderAppend([Formatted("\"")], StrChars(bs));
    var t := Render(QuotedPieces(bs));
    assert t == "\"" + inner + "\"";
    assert t[1..|t| - 1] == inner;
    StrCharsReadBack(bs);
  }
}
