/**
  parse_string with its two scans: the first sizes the output buffer, the second fills
  it, and the two may split the same bytes into escapes differently.
 */
module CJsonString {
  import opened Options
  import opened Bytes
  import opened CJson

  // The escapes the first scan passes from p to the closing quote.
  function Skipped(c: bytes, p: nat): nat
    requires p <= |c| && FindEnd(c, p).Some?
    decreases |c| - p
  {
    if c[p] == QUOTE then 0
    else if c[p] == BACKSLASH then 1 + Skipped(c, p + 2)
    else Skipped(c, p + 1)
  }

  // The bytes the second scan writes from p on, until it ends or gives up.
  function Written(c: bytes, p: nat, end: nat): nat
    requires p <= end + 1 && end < |c|
    decreases end + 1 - p
  {
    if p >= end then 0
    else match DecodeTurn(c, p, end)
         case None => 0
         case Some((out, used)) => |out| + Written(c, p + used, end)
  }

  // The first scan, standing at s, has a boundary at or just behind any later point, and
  // passes at most one escape for every two bytes on the way.
  lemma {:induction false} Boundary(c: bytes, s: nat, target: nat, end: nat) returns (s': nat)
    requires s <= |c| && FindEnd(c, s) == Some(end) && target <= end && s <= target + 1
    ensures s <= s' && target <= s' <= target + 1 && s' <= |c| && FindEnd(c, s') == Some(end)
    ensures Skipped(c, s') <= Skipped(c, s) && 2 * (Skipped(c, s) - Skipped(c, s')) <= s' - s
    decreases |c| - s
  {
    if s >= target {
      s' := s;
    } else if c[s] == BACKSLASH {
      s' := Boundary(c, s + 2, target, end);
    } else {
      s' := Boundary(c, s + 1, target, end);
    }
  }

  lemma CodePointWrites(c: bytes, p: nat, end: nat, out: bytes, used: nat)
    requires p <= end < |c| && Utf16(c, p, end) == Some((out, used))
    ensures (used == 6 && |out| <= 3) || (used == 12 && |out| <= 4)
  {
  }

  // A turn uses one byte, two, or the six or twelve of a code point, and writes at most half
  // of an escape.
  lemma TurnWrites(c: bytes, p: nat, end: nat, out: bytes, used: nat)
    requires p < end < |c| && DecodeTurn(c, p, end) == Some((out, used))
    ensures used == 1 ==> c[p] != BACKSLASH && |out| == 1
    ensures used > 1 ==> c[p] == BACKSLASH && 2 * |out| <= used
    ensures used > 1 ==> used % 2 == 0 && (p + used > end ==> used == 2)
  {
    if c[p] == BACKSLASH && c[p + 1] == Code('u') {
      assert Utf16(c, p, end) == Some((out, used));
      CodePointWrites(c, p, end, out, used);
    }
  }

  // A byte that stands for itself is no escape to the first scan either.
  lemma RawTurn(c: bytes, p: nat, s: nat, end: nat)
    requires p < end < |c| && p <= s <= p + 1 && FindEnd(c, s) == Some(end) && c[p] != BACKSLASH
    ensures FindEnd(c, p + 1) == Some(end) && Skipped(c, p + 1) == Skipped(c, s)
  {
  }

  lemma SkippedFew(c: bytes, s: nat, end: nat)
    requires s <= |c| && FindEnd(c, s) == Some(end)
    ensures 2 * Skipped(c, s) <= end - s
  {
    var s' := Boundary(c, s, end, end);
  }

  // An escape that takes the closing quote ends the second scan.
  lemma LastTurn(c: bytes, p: nat, s: nat, end: nat)
    requires p + 1 == end < |c| && p <= s <= p + 1 && FindEnd(c, s) == Some(end) && c[p] == BACKSLASH
    ensures s == end && Skipped(c, s) == 0
  {
  }

  // From wherever the second scan stands, at a boundary of the first scan or inside one
  // of its escapes, it writes no more than the first scan has counted.
  lemma {:induction false} WrittenWithinCount(c: bytes, p: nat, s: nat, end: nat)
    requires p <= end < |c| && p <= s <= p + 1 && FindEnd(c, s) == Some(end)
    ensures Written(c, p, end) <= end - p - Skipped(c, s)
    decreases end - p
  {
    SkippedFew(c, s, end);
    if p < end && DecodeTurn(c, p, end).Some? {
      var (out, used) := DecodeTurn(c, p, end).value;
      TurnWrites(c, p, end, out, used);
      if used == 1 {
        RawTurn(c, p, s, end);
        WrittenWithinCount(c, p + 1, p + 1, end);
      } else if p + used <= end {
        var s' := Boundary(c, s, p + used, end);
        WrittenWithinCount(c, p + used, s', end);
      } else {
        LastTurn(c, p, s, end);
      }
    }
  }

  // What parse_string allocates for a string opening at off and closing at end.
  function Allocated(c: bytes, off: nat, end: nat): int
    requires off < |c| && FindEnd(c, off + 1).Some?
  {
    end - off - Skipped(c, off + 1) + 1
  }

  // Main theorem: for every input the estimate covers every byte written and the
  // terminator, with a byte to spare.
  lemma EstimateCovers(c: bytes, off: nat, end: nat)
    requires off < |c| && FindEnd(c, off + 1) == Some(end)
    ensures Written(c, off + 1, end) + 1 < Allocated(c, off, end)
  {
    WrittenWithinCount(c, off + 1, off + 1, end);
  }

  // From p on both scans see the same escapes, none of them a code point's.
  predicate OnlyShort(c: bytes, p: nat, end: nat) {
    end < |c| && forall i :: p <= i < end ==> !(c[i] == BACKSLASH && c[i + 1] == Code('u'))
  }

  lemma {:induction false} InStep(c: bytes, p: nat, end: nat)
    requires p <= end < |c| && FindEnd(c, p) == Some(end) && OnlyShort(c, p, end) && DecodeText(c, p, end).Some?
    ensures Written(c, p, end) == end - p - Skipped(c, p)
    decreases end - p
  {
    if p < end {
      var (out, used) := DecodeTurn(c, p, end).value;
      if c[p] == BACKSLASH {
        assert used == 2 && |out| == 1;
        InStep(c, p + 2, end);
      } else {
        InStep(c, p + 1, end);
      }
    }
  }

  // The estimate is tight: without code points it is what is written, the terminator and one
  // byte more.
  lemma EstimateTight(c: bytes, off: nat, end: nat)
    requires off < |c| && FindEnd(c, off + 1) == Some(end)
    requires OnlyShort(c, off + 1, end) && DecodeText(c, off + 1, end).Some?
    ensures Allocated(c, off, end) == Written(c, off + 1, end) + 2
  {
    InStep(c, off + 1, end);
  }

  // parse_string.  Every store lands inside the buffer of the estimated size.
  method ParseStringBuffered(c: bytes, off: nat) returns (r: Parsed<bytes>)
    requires Terminated(c) && off < |c|
    ensures r == ParseString(c, off)
  {
    if c[off] != QUOTE {
      return Fail;
    }
    var found, inputEnd, skippedBytes := ScanLength(c, off + 1);
    if !found {
      return Fail;
    }
    EstimateCovers(c, off, inputEnd);
    var output := new byte[inputEnd - off - skippedBytes + 1];
    var ok, length := FillOutput(c, off + 1, inputEnd, output);
    if !ok {
      return Fail;
    }
    output[length] := NUL;
    r := Ok(CString(output[..length]), inputEnd + 1);
  }

  // The first scan.
  method ScanLength(c: bytes, start: nat) returns (found: bool, inputEnd: nat, skippedBytes: nat)
    requires start <= |c|
    ensures found <==> FindEnd(c, start).Some?
    ensures found ==> FindEnd(c, start) == Some(inputEnd) && skippedBytes == Skipped(c, start)
  {
    inputEnd, skippedBytes := start, 0;
    while inputEnd < |c| && c[inputEnd] != QUOTE
      invariant inputEnd <= |c| && FindEnd(c, start) == FindEnd(c, inputEnd)
      invariant FindEnd(c, start).Some? ==> Skipped(c, start) == skippedBytes + Skipped(c, inputEnd)
      decreases |c| - inputEnd
    {
      if c[inputEnd] == BACKSLASH {
        if inputEnd + 1 >= |c| {
          return false, inputEnd, skippedBytes;
        }
        skippedBytes := skippedBytes + 1;
        inputEnd := inputEnd + 1;
      }
      inputEnd := inputEnd + 1;
    }
    found := inputEnd < |c|;
  }

  // A turn of the second scan moves its bytes from what is left to what is done.
  lemma FillTurn(c: bytes, p: nat, end: nat, done: bytes, text: Option<bytes>)
    requires p < end < |c| && text == Prepend(done, DecodeText(c, p, end))
    ensures match DecodeTurn(c, p, end)
            case None => text == None
            case Some((out, used)) =>
              && text == Prepend(done + out, DecodeText(c, p + used, end))
              && Written(c, p, end) == |out| + Written(c, p + used, end)
  {
    if DecodeTurn(c, p, end).Some? {
      var (out, used) := DecodeTurn(c, p, end).value;
      PrependTwice(done, out, DecodeText(c, p + used, end));
    }
  }

  // One turn of the second scan.
  method FillOne(c: bytes, p: nat, inputEnd: nat, output: array<byte>, length: nat, ghost text: Option<bytes>)
    returns (ok: bool, p': nat, length': nat)
    requires p < inputEnd < |c| && length + Written(c, p, inputEnd) < output.Length
    requires text == Prepend(output[..length], DecodeText(c, p, inputEnd))
    modifies output
    ensures !ok ==> text == None
    ensures ok ==> p < p' <= inputEnd + 1 && length' + Written(c, p', inputEnd) < output.Length
    ensures ok ==> text == Prepend(output[..length'], DecodeText(c, p', inputEnd))
  {
    FillTurn(c, p, inputEnd, output[..length], text);
    var turn := DecodeTurn(c, p, inputEnd);
    if turn.None? {
      return false, p, length;
    }
    var (out, used) := turn.value;
    Put(output, length, out);
    return true, p + used, length + |out|;
  }

  // The second scan.
  method FillOutput(c: bytes, start: nat, inputEnd: nat, output: array<byte>) returns (ok: bool, length: nat)
    requires start <= inputEnd < |c| && Written(c, start, inputEnd) < output.Length
    modifies output
    ensures ok <==> DecodeText(c, start, inputEnd).Some?
    ensures ok ==> length < output.Length && DecodeText(c, start, inputEnd) == Some(output[..length])
  {
    var p := start;
    length := 0;
    ghost var text := DecodeText(c, p, inputEnd);
    PrependTwice([], [], text);
    while p < inputEnd
      invariant start <= p <= inputEnd + 1
      invariant length + Written(c, p, inputEnd) < output.Length
      invariant text == Prepend(output[..length], DecodeText(c, p, inputEnd))
      decreases inputEnd + 1 - p
    {
      ok, p, length := FillOne(c, p, inputEnd, output, length, text);
      if !ok {
        return;
      }
    }
    assert output[..length] + [] == output[..length];
    ok := true;
  }

  method Put(output: array<byte>, at: nat, out: bytes)
    requires at + |out| <= output.Length
    modifies output
    ensures output[..at + |out|] == old(output[..at]) + out
  {
    var i := 0;
    while i < |out|
      invariant 0 <= i <= |out| && output[..at + i] == old(output[..at]) + out[..i]
    {
      output[at + i] := out[i];
      i := i + 1;
    }
  }
}
