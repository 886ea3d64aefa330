/**
 The protocol list of the command line tools (next_protos_parse in apps.c): names separated
 by commas become names each preceded by its length, in one pass over one buffer.
 */
module NextProtos {
  import opened Sequences
  import opened Wrappers

  type Byte = x: nat | x < 256

  const COMMA: Byte := 44

  /** The pieces between the commas; there is always one. */
  function Pieces(s: seq<Byte>): (p: seq<seq<Byte>>)
    ensures |p| > 0
  {
    if |s| == 0 then [[]]
    else
      var rest := Pieces(s[1..]);
      if s[0] == COMMA then [[]] + rest else [[s[0]] + rest[0]] + rest[1..]
  }

  function Joined(pieces: seq<seq<Byte>>): seq<Byte>
    requires |pieces| > 0
  {
    if |pieces| == 1 then pieces[0] else pieces[0] + [COMMA] + Joined(pieces[1..])
  }

  /** Each piece with its length before it; a length is stored in a byte. */
  function Encoded(pieces: seq<seq<Byte>>): seq<Byte> {
    if |pieces| == 0 then [] else [|pieces[0]| % 256] + pieces[0] + Encoded(pieces[1..])
  }

  function Decoded(b: seq<Byte>): Option<seq<seq<Byte>>>
    decreases |b|
  {
    if |b| == 0 then Some([])
    else if b[0] + 1 > |b| then None
    else
      var rest := Decoded(b[b[0] + 1..]);
      if rest.None? then None else Some([b[1..b[0] + 1]] + rest.value)
  }

  predicate Short(pieces: seq<seq<Byte>>) {
    forall k | 0 <= k < |pieces| :: |pieces[k]| <= 255
  }

  // ----- What the encoding is for

  /** Short pieces are read back from their encoding. */
  lemma {:induction false} DecodeEncoded(pieces: seq<seq<Byte>>)
    requires Short(pieces)
    ensures Decoded(Encoded(pieces)) == Some(pieces)
    decreases |pieces|
  {
    if |pieces| > 0 {
      var p, rest := pieces[0], pieces[1..];
      var b := Encoded(pieces);
      DecodeEncoded(rest);
      assert b[1..|p| + 1] == p;
      assert b[|p| + 1..] == Encoded(rest);
      assert [p] + rest == pieces;
    }
  }

  /** The list is cut at its commas and nowhere else. */
  lemma {:induction false} PiecesCut(a: seq<Byte>, b: seq<Byte>)
    requires ',' as nat !in a
    ensures Pieces(a) == [a] && Pieces(a + [',' as nat] + b) == [a] + Pieces(b)
  {
    var s := a + [COMMA] + b;
    if |a| == 0 {
      assert s[1..] == b;
    } else {
      PiecesCut(a[1..], b);
      assert s[1..] == a[1..] + [COMMA] + b;
      assert [a[0]] + a[1..] == a;
      assert ([a[1..]] + Pieces(b))[1..] == Pieces(b);
    }
  }

  /** The commas cut the list into the names it was made of. */
  lemma {:induction false} PiecesOfJoined(pieces: seq<seq<Byte>>)
    requires |pieces| > 0 && forall k | 0 <= k < |pieces| :: COMMA !in pieces[k]
    ensures Pieces(Joined(pieces)) == pieces
    decreases |pieces|
  {
    if |pieces| == 1 {
      PiecesCut(pieces[0], []);
    } else {
      PiecesOfJoined(pieces[1..]);
      PiecesCut(pieces[0], Joined(pieces[1..]));
      assert [pieces[0]] + pieces[1..] == pieces;
    }
  }

  /** Nothing is lost by cutting: the pieces joined are the input. */
  lemma {:induction false} JoinedPieces(s: seq<Byte>)
    ensures Joined(Pieces(s)) == s
    ensures forall k | 0 <= k < |Pieces(s)| :: COMMA !in Pieces(s)[k]
  {
    if |s| > 0 {
      var rest := Pieces(s[1..]);
      JoinedPieces(s[1..]);
      assert [s[0]] + s[1..] == s;
      if s[0] == COMMA {
        assert ([[]] + rest)[1..] == rest;
      } else {
        assert Pieces(s)[1..] == rest[1..];
        if |rest| > 1 {
          ConcatAssoc([s[0]], rest[0], [COMMA]);
          ConcatAssoc([s[0]], rest[0] + [COMMA], Joined(rest[1..]));
        }
      }
    }
  }

  lemma {:induction false} EncodedLength(pieces: seq<seq<Byte>>)
    requires |pieces| > 0
    ensures |Encoded(pieces)| == |Joined(pieces)| + 1
    decreases |pieces|
  {
    if |pieces| > 1 {
      EncodedLength(pieces[1..]);
    } else {
      assert Encoded(pieces[1..]) == [];
    }
  }

  lemma {:induction false} EncodedAppend(pieces: seq<seq<Byte>>, p: seq<Byte>)
    ensures Encoded(pieces + [p]) == Encoded(pieces) + [|p| % 256] + p
    decreases |pieces|
  {
    if |pieces| == 0 {
      assert pieces + [p] == [p];
      assert Encoded([]) == [];
    } else {
      EncodedAppend(pieces[1..], p);
      assert (pieces + [p])[1..] == pieces[1..] + [p];
    }
  }

  // ----- The loop

  /** The pieces cut off so far, and those of the rest. */
  ghost predicate CutTo(input: seq<Byte>, start: nat, done: seq<seq<Byte>>) {
    start <= |input| && Pieces(input) == done + Pieces(input[start..])
  }

  lemma PieceLast(input: seq<Byte>, start: nat, done: seq<seq<Byte>>)
    requires CutTo(input, start, done) && COMMA !in input[start..]
    ensures Pieces(input) == done + [input[start..]]
  {
    PiecesCut(input[start..], []);
  }

  lemma PieceDone(input: seq<Byte>, start: nat, i: nat, done: seq<seq<Byte>>)
    requires start <= i < |input| && CutTo(input, start, done) && COMMA !in input[start..i] && input[i] == COMMA
    ensures CutTo(input, i + 1, done + [input[start..i]])
  {
    var piece, rest := input[start..i], input[i + 1..];
    assert input[start..] == piece + [COMMA] + rest;
    PiecesCut(piece, rest);
    ConcatAssoc(done, [piece], Pieces(rest));
  }

  /** What the end of a piece, at a comma or at the end of the input, says of the pieces. */
  lemma PieceEnds(input: seq<Byte>, start: nat, i: nat, done: seq<seq<Byte>>)
    requires start <= i <= |input| && CutTo(input, start, done) && (i == |input| || input[i] == COMMA)
    requires forall k | start <= k < i :: input[k] != COMMA
    ensures i < |input| ==> CutTo(input, i + 1, done + [input[start..i]])
    ensures i == |input| ==> Pieces(input) == done + [input[start..i]]
    ensures i - start > 255 ==> exists piece <- Pieces(input) :: |piece| > 255
  {
    if i == |input| {
      assert input[start..i] == input[start..];
      PieceLast(input, start, done);
    } else {
      PieceDone(input, start, i, done);
    }
    assert Pieces(input)[|done|] == input[start..i];
  }

  /** A piece is written with its length before it. */
  lemma PieceWritten(b: seq<Byte>, start: nat, done: seq<seq<Byte>>, piece: seq<Byte>)
    requires start + |piece| < |b| && b[..start] == Encoded(done) && b[start] == |piece| % 256
    requires b[start + 1..start + 1 + |piece|] == piece
    ensures b[..start + 1 + |piece|] == Encoded(done + [piece])
  {
    EncodedAppend(done, piece);
    assert b[..start + 1 + |piece|] == b[..start] + [b[start]] + b[start + 1..start + 1 + |piece|];
  }

  /** The length of a piece goes where the comma before it was. */
  method StoreLength(buf: array<Byte>, start: nat, i: nat, ghost done: seq<seq<Byte>>, ghost piece: seq<Byte>)
    requires start <= i < buf.Length && i - start == |piece| <= 255
    requires buf[..start] == Encoded(done) && buf[start + 1..i + 1] == piece
    modifies buf
    ensures buf[..i + 1] == Encoded(done + [piece])
  {
    buf[start] := i - start;
    ghost var b := buf[..];
    assert b[..start] == buf[..start] && b[..i + 1] == buf[..i + 1];
    assert b[start + 1..i + 1] == buf[start + 1..i + 1];
    PieceWritten(b, start, done, piece);
  }

  method NextProtosParse(input: seq<Byte>) returns (out: array?<Byte>, outlen: nat)
    requires 0 !in input
    ensures out == null <==> |input| >= 65535 || exists piece <- Pieces(input) :: |piece| > 255
    ensures out != null ==> fresh(out) && out[..] == Encoded(Pieces(input))
    ensures out != null ==> outlen == out.Length == |input| + 1 <= 65535
  {
    outlen := 0;
    var len := |input|;
    if len >= 65535 {
      return null, 0;
    }
    var buf := new Byte[len + 1];
    var start := 0;
    ghost var done: seq<seq<Byte>> := [];
    for i := 0 to len + 1
      invariant start <= i
      invariant i <= len ==> CutTo(input, start, done) && forall k | start <= k < i :: input[k] != COMMA
      invariant i == len + 1 ==> start == len + 1 && Pieces(input) == done
      invariant Short(done)
      invariant buf[..start] == Encoded(done)
      invariant forall k | start <= k < i :: buf[k + 1] == input[k]
    {
      if i == len || input[i] == COMMA {
        ghost var piece := input[start..i];
        PieceEnds(input, start, i, done);
        if i - start > 255 {
          return null, 0;
        }
        StoreLength(buf, start, i, done, piece);
        start := i + 1;
        done := done + [piece];
      } else {
        buf[i + 1] := input[i];
      }
    }
    assert buf[..] == buf[..start];
    out, outlen := buf, len + 1;
  }
}
