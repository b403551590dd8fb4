/** The hostname buffer of ub_reverse_lookup_callback: when the string handed
    to the caller is terminated, and a well-formed name for which it is not. */
module CallbackProofs {
  import opened Base
  import opened Writer
  import opened Sldns
  import opened Presentation
  import opened SldnsProofs
  import opened Unbound4j

  /** The text of a run of complete labels ends with the dot after the last. */
  lemma {:induction false} DottedEndsWithDot(ls: seq<seq<byte>>)
    requires |ls| > 0
    ensures var ps := DottedPieces(ls); |ps| > 0 && ps[|ps| - 1] == Formatted(".")
    decreases |ls|
  {
    var head := LabelPieces(ls[0]) + [Formatted(".")];
    assert DottedPieces(ls) == head + DottedPieces(ls[1..]);
    if |ls| > 1 {
      DottedEndsWithDot(ls[1..]);
    } else {
      assert DottedPieces(ls[1..]) == [];
    }
  }

  /** A well-formed name whose text is shorter than the buffer is handed over
      terminated, so as written the caller gets exactly the decoded name. */
  lemma ShortNameTerminated(ls: seq<seq<byte>>, qtype: int)
    requires ValidLabels(ls)
    requires |Render(DnameSpool(NameWire(ls), None).pieces)| < 256
    ensures HostnameAsWritten(NameWire(ls), qtype).1
    ensures HostnameAsWritten(NameWire(ls), qtype).0 == Render(DnameSpool(NameWire(ls), None).pieces)
  {
    WellFormedName(ls, [], None, true);
    assert NameWire(ls) + [] == NameWire(ls);
    if |ls| > 0 {
      DottedEndsWithDot(ls);
    }
    TerminatedByLast(Window([], 256), DnameSpool(NameWire(ls), None).pieces, false);
  }

  /** A label of `n` zero octets prints as `n` four-character escapes. */
  lemma {:induction false} ZeroLabelText(n: nat)
    ensures |Render(LabelPieces(seq(n, _ => 0 as byte)))| == 4 * n
  {
    var z := seq(n, _ => 0 as byte);
    if n > 0 {
      assert z[1..] == seq(n - 1, _ => 0 as byte);
      RenderCons(DnameChar(0), LabelPieces(z[1..]));
      ZeroLabelText(n - 1);
    }
  }

  /** A label of 63 zero octets and then the label "abc". */
  function WitnessLabels(): (ls: seq<seq<byte>>)
    ensures ValidLabels(ls)
  {
    var ls: seq<seq<byte>> := [seq(63, _ => 0 as byte), [0x61, 0x62, 0x63]];
    assert ValidLabel(ls[0]) && ValidLabel(ls[1]);
    ls
  }

  /** The decoder's output for the witness: the first label's escapes and a
      dot, then "ab" (255 characters so far), then "c" and the final dot. */
  lemma WitnessPieces()
    ensures DnameSpool(NameWire(WitnessLabels()), None).pieces
         == (LabelPieces(seq(63, _ => 0 as byte)) + [Formatted("."), Plain('a'), Plain('b')])
            + [Plain('c'), Formatted(".")]
  {
    var ls := WitnessLabels();
    WellFormedName(ls, [], None, true);
    assert NameWire(ls) + [] == NameWire(ls);
    WitnessDotted();
  }

  lemma WitnessDotted()
    ensures DottedPieces(WitnessLabels())
         == (LabelPieces(seq(63, _ => 0 as byte)) + [Formatted("."), Plain('a'), Plain('b')])
            + [Plain('c'), Formatted(".")]
  {
    var ls: seq<seq<byte>> := WitnessLabels();
    var z := seq(63, _ => 0 as byte);
    var abc: seq<byte> := [0x61, 0x62, 0x63];
    assert |ls[1..][1..]| == 0;
    assert LabelPieces(abc) == [Plain('a'), Plain('b'), Plain('c')] by {
      assert abc[1..][1..][1..] == [];
    }
    assert DottedPieces(ls[1..]) == LabelPieces(abc) + [Formatted(".")] + DottedPieces(ls[1..][1..]);
    assert DottedPieces(ls) == LabelPieces(z) + [Formatted(".")] + DottedPieces(ls[1..]);
  }

  /** The witness's wire form: 1 + 63 octets, 1 + 3 octets and the root. */
  lemma WitnessWire()
    ensures |NameWire(WitnessLabels())| == 69
  {
    var ls: seq<seq<byte>> := WitnessLabels();
    assert |ls[1..][1..]| == 0;
    assert |LabelsWire(ls[1..])| == 4;
  }

  /** The first 255 characters of the witness's text fit with room to spare. */
  lemma WitnessPrefix()
    ensures var pre := LabelPieces(seq(63, _ => 0 as byte)) + [Formatted("."), Plain('a'), Plain('b')];
            var w := Emit(Window([], 256), pre).0;
            |w.written| == 255 && w.room == 1
  {
    ZeroLabelText(63);
    RenderAppend(LabelPieces(seq(63, _ => 0 as byte)), [Formatted("."), Plain('a'), Plain('b')]);
  }

  /** The witness's name: 69 octets of wire form, 257 characters of text. Its
      "c" goes into the buffer's last byte by a direct store, the final dot no
      longer fits, and no NUL is ever written, so the caller reads past the
      256 bytes. With the last byte kept for the NUL the caller gets the
      first 255 characters instead. */
  lemma UnterminatedHostname()
    ensures |NameWire(WitnessLabels())| == 69
    ensures !HostnameAsWritten(NameWire(WitnessLabels()), 12).1
    ensures |HostnameAsWritten(NameWire(WitnessLabels()), 12).0| == 256
    ensures |Hostname(NameWire(WitnessLabels()), 12)| == 255
  {
    var pre := LabelPieces(seq(63, _ => 0 as byte)) + [Formatted("."), Plain('a'), Plain('b')];
    var post := [Plain('c'), Formatted(".")];
    WitnessPieces();
    WitnessWire();
    WitnessPrefix();
    var win := Window([], 256);
    TerminatedAppend(win, pre, post, false);
    EmitAppend(win, pre, post);
    var w := Emit(win, pre).0;
    var w1 := Put(w, Plain('c')).0;
    assert w1.room == 0 && |w1.written| == 256;
    assert post[1..] == [Formatted(".")] && post[1..][1..] == [];
  }

  /** A label cut short by the end of the rdata: "ab" goes in by direct
      stores and no NUL follows it. Keeping the buffer's last byte for the
      NUL does not help here; only a cleared buffer does, and Hostname is
      "ab". */
  lemma CutLabelUnterminated()
    ensures !HostnameAsWritten([3, 0x61, 0x62], 12).1
    ensures HostnameAsWritten([3, 0x61, 0x62], 12).0 == "ab"
    ensures Hostname([3, 0x61, 0x62], 12) == "ab"
  {
    var ps := DnameSpool([3, 0x61, 0x62], None).pieces;
    CutLabelPieces();
    var w1 := Put(Window([], 256), Plain('a')).0;
    assert w1 == Window(['a'], 255);
    assert Put(w1, Plain('b')).0 == Window(['a', 'b'], 254);
    assert ps[1..] == [Plain('b')] && ps[1..][1..] == [];
  }

  /** The label 3 'a' 'b' is cut to the two octets that remain: two direct
      stores, no dot. */
  lemma CutLabelPieces()
    ensures DnameSpool([3, 0x61, 0x62], None).pieces == [Plain('a'), Plain('b')]
  {
    var d: seq<byte> := [3, 0x61, 0x62];
    var ab: seq<byte> := [0x61, 0x62];
    assert d[1..3] == ab && ab[1..] == [0x62] && ab[1..][1..] == [];
    assert DnameChar(0x61) == Plain('a') && DnameChar(0x62) == Plain('b');
    assert LabelPieces(ab[1..]) == [Plain('b')];
    assert LabelPieces(d[1..3]) == [Plain('a'), Plain('b')];
    assert Step(d, None, true, true, 0, 0, 0, []) == Done(Spooled([Plain('a'), Plain('b')], 3, false));
  }
}
