/** The bounded output writer of the decoder (sldns_str_vprint, sldns_str_print
    and the direct single-character stores of the escaping routines).

    The caller's destination is a window: the characters stored in it so far
    and the room that remains. A write that does not fit stores what vsnprintf
    keeps of it (all but the last byte of the room, which holds the NUL) and
    leaves the window as (NULL, 0). Whatever is stored, every write reports the
    full length of its text, so the sum of the reported counts is the length
    the complete output would have had. Whether a NUL follows the stored text
    is tracked separately by Terminated. */
module Writer {

  datatype Window = Window(written: string, room: nat)

  /** One output operation: a formatted write through sldns_str_print, or a
      character stored directly when there is room ("plain printout"). */
  datatype Piece = Formatted(text: string) | Plain(c: char)

  function PieceText(p: Piece): string {
    match p
    case Formatted(t) => t
    case Plain(c) => [c]
  }

  /** The complete text a sequence of output operations stands for. */
  function Render(ps: seq<Piece>): string {
    if |ps| == 0 then [] else PieceText(ps[0]) + Render(ps[1..])
  }

  /** Window `after` is window `before` with a prefix of `t` stored into it:
      never more than the room allowed, the room never grows, all of `t` when
      it fits with room to spare, and an exhausted window whenever part of `t`
      was dropped. */
  predicate Stores(before: Window, after: Window, t: string) {
    && after.room <= before.room
    && |before.written| <= |after.written|
    && var k := |after.written| - |before.written|;
       && k <= |t|
       && after.written == before.written + t[..k]
       && k + after.room <= before.room
       && (k < |t| ==> after.room == 0)
       && (|t| < before.room ==> k == |t| && after.room == before.room - |t|)
  }

  /** sldns_str_vprint: vsnprintf into the window, then either advance past the
      text or, when it did not fit, set the window to (NULL, 0). */
  function StrPrint(win: Window, t: string): (r: (Window, nat))
    ensures r.1 == |t|
    ensures Stores(win, r.0, t)
    ensures |t| >= win.room ==> r.0.room == 0
  {
    if |t| >= win.room then
      var kept := if win.room == 0 then 0 else win.room - 1;
      (Window(win.written + t[..kept], 0), |t|)
    else
      (Window(win.written + t, win.room - |t|), |t|)
  }

  /** The "plain printout" branch: store one character if any room is left;
      the count is 1 either way. */
  function PutChar(win: Window, c: char): (r: (Window, nat))
    ensures r.1 == 1
    ensures Stores(win, r.0, [c])
  {
    if win.room > 0 then (Window(win.written + [c], win.room - 1), 1) else (win, 1)
  }

  function Put(win: Window, p: Piece): (r: (Window, nat))
    ensures r.1 == |PieceText(p)|
    ensures Stores(win, r.0, PieceText(p))
  {
    match p
    case Formatted(t) => StrPrint(win, t)
    case Plain(c) => PutChar(win, c)
  }

  lemma StoresTrans(a: Window, b: Window, c: Window, s: string, t: string)
    requires Stores(a, b, s) && Stores(b, c, t)
    ensures Stores(a, c, s + t)
  {
    var k1 := |b.written| - |a.written|;
    var k2 := |c.written| - |b.written|;
    if k1 < |s| {
      assert b.room == 0 && k2 == 0;
      assert (s + t)[..k1 + k2] == s[..k1];
    } else {
      assert (s + t)[..k1 + k2] == s + t[..k2];
    }
  }

  /** Runs a sequence of output operations through the window and sums their
      counts, as the scanners do with `w +=`. The sum is the length of the
      complete text whatever the window's size, and the window holds a prefix
      of that text (all of it when the room exceeded its length). */
  function Emit(win: Window, ps: seq<Piece>): (r: (Window, nat))
    ensures r.1 == |Render(ps)|
    ensures Stores(win, r.0, Render(ps))
    ensures |Render(ps)| > win.room ==> r.0.room == 0
    decreases |ps|
  {
    if |ps| == 0 then (win, 0)
    else
      var (w1, n1) := Put(win, ps[0]);
      var (w2, n2) := Emit(w1, ps[1..]);
      assert Render(ps) == PieceText(ps[0]) + Render(ps[1..]);
      StoresTrans(win, w1, w2, PieceText(ps[0]), Render(ps[1..]));
      assert |Render(ps)| > win.room ==> w2.room == 0 by {
        if |Render(ps)| > win.room {
          StoresExhausts(win, w2, Render(ps));
        }
      }
      (w2, n1 + n2)
  }

  /** A text longer than the room always leaves the window exhausted. */
  lemma StoresExhausts(before: Window, after: Window, t: string)
    requires Stores(before, after, t) && |t| > before.room
    ensures after.room == 0
  {
  }

  lemma {:induction false} RenderAppend(a: seq<Piece>, b: seq<Piece>)
    ensures Render(a + b) == Render(a) + Render(b)
  {
    if |a| > 0 {
      assert (a + b)[1..] == a[1..] + b;
      RenderAppend(a[1..], b);
    } else {
      assert a + b == b;
    }
  }

  /** Whether a NUL follows the stored text once the operations have run
      (`t` says whether one did before). vsnprintf ends what it stores with a
      NUL whenever it has room; a direct store overwrites that NUL and writes
      none after its character; with no room left nothing is written at all. */
  function Terminated(win: Window, ps: seq<Piece>, t: bool): bool
    decreases |ps|
  {
    if |ps| == 0 then t
    else Terminated(Put(win, ps[0]).0, ps[1..], if win.room == 0 then t else ps[0].Formatted?)
  }

  /** Running two sequences of operations one after the other. */
  lemma {:induction false} TerminatedAppend(win: Window, a: seq<Piece>, b: seq<Piece>, t: bool)
    ensures Terminated(win, a + b, t) == Terminated(Emit(win, a).0, b, Terminated(win, a, t))
    decreases |a|
  {
    if |a| > 0 {
      assert (a + b)[0] == a[0];
      assert (a + b)[1..] == a[1..] + b;
      TerminatedAppend(Put(win, a[0]).0, a[1..], b, if win.room == 0 then t else a[0].Formatted?);
    } else {
      assert a + b == b;
    }
  }

  /** In a buffer of `cap` characters a NUL can only follow text shorter than
      the buffer: a text that fills every byte was ended by a direct store. */
  lemma {:induction false} TerminatedBound(win: Window, ps: seq<Piece>, t: bool, cap: nat)
    requires |win.written| + win.room <= cap
    requires t ==> |win.written| < cap
    ensures Terminated(win, ps, t) ==> |Emit(win, ps).0.written| < cap
    decreases |ps|
  {
    if |ps| > 0 {
      var w1 := Put(win, ps[0]).0;
      var t1 := if win.room == 0 then t else ps[0].Formatted?;
      assert t1 ==> |w1.written| < cap by {
        if win.room > 0 && ps[0].Formatted? && |ps[0].text| >= win.room {
          assert |w1.written| == |win.written| + win.room - 1;
        }
      }
      TerminatedBound(w1, ps[1..], t1, cap);
    }
  }

  /** Operations that end with a formatted write made while room remains
      leave the text terminated. */
  lemma TerminatedByLast(win: Window, ps: seq<Piece>, t: bool)
    requires |ps| > 0 && ps[|ps| - 1].Formatted?
    requires |Render(ps)| < win.room
    ensures Terminated(win, ps, t)
  {
    var n := |ps| - 1;
    assert ps == ps[..n] + [ps[n]];
    RenderAppend(ps[..n], [ps[n]]);
    TerminatedAppend(win, ps[..n], [ps[n]], t);
    var w := Emit(win, ps[..n]).0;
    assert w.room > 0;
    assert [ps[n]][1..] == [];
  }

  /** Running two sequences of operations one after the other leaves the
      window where running them together does. */
  lemma {:induction false} EmitAppend(win: Window, a: seq<Piece>, b: seq<Piece>)
    ensures Emit(win, a + b).0 == Emit(Emit(win, a).0, b).0
    decreases |a|
  {
    if |a| > 0 {
      assert (a + b)[0] == a[0];
      assert (a + b)[1..] == a[1..] + b;
      EmitAppend(Put(win, a[0]).0, a[1..], b);
    } else {
      assert a + b == b;
    }
  }
}
