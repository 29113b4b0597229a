/** The chunked line splitter `_bounded_lines` of backend/app/logging/adapters.py. */
module BoundedLines {
  import opened Common

  const NEWLINE: Byte := 10

  /** One yielded tuple. */
  datatype Line = Line(prefix: seq<Byte>, truncated: bool, originalSize: nat)

  /** stream.split(b"\n"): the last piece is what follows the last newline. */
  function Pieces(stream: seq<Byte>): (r: seq<seq<Byte>>)
    ensures |r| >= 1
  {
    if stream == [] then [[]]
    else
      var rest := Pieces(stream[1..]);
      if stream[0] == NEWLINE then [[]] + rest else [[stream[0]] + rest[0]] + rest[1..]
  }

  /** Put the newlines back. */
  function Rejoin(pieces: seq<seq<Byte>>): seq<Byte> {
    if pieces == [] then []
    else if |pieces| == 1 then pieces[0]
    else pieces[0] + [NEWLINE] + Rejoin(pieces[1..])
  }

  lemma PiecesStep(c: Byte, stream: seq<Byte>)
    ensures var rest := Pieces(stream);
            Pieces([c] + stream) == if c == NEWLINE then [[]] + rest else [[c] + rest[0]] + rest[1..]
  {
    assert ([c] + stream)[1..] == stream;
  }

  lemma RejoinStep(c: Byte, rest: seq<seq<Byte>>)
    requires rest != []
    ensures Rejoin([[]] + rest) == [NEWLINE] + Rejoin(rest)
    ensures Rejoin([[c] + rest[0]] + rest[1..]) == [c] + Rejoin(rest)
  {
    assert ([[]] + rest)[1..] == rest;
    assert ([[c] + rest[0]] + rest[1..])[1..] == rest[1..];
    if |rest| > 1 {
      assert [c] + rest[0] + [NEWLINE] + Rejoin(rest[1..]) == [c] + (rest[0] + [NEWLINE] + Rejoin(rest[1..]));
    }
  }

  /** Splitting loses nothing and leaves no newline inside a piece. */
  lemma {:induction false} PiecesAreTheSplit(stream: seq<Byte>)
    ensures Rejoin(Pieces(stream)) == stream
    ensures forall i :: 0 <= i < |Pieces(stream)| ==> NEWLINE !in Pieces(stream)[i]
  {
    if stream == [] {
    } else {
      var c, tail := stream[0], stream[1..];
      assert stream == [c] + tail;
      PiecesAreTheSplit(tail);
      PiecesStep(c, tail);
      RejoinStep(c, Pieces(tail));
    }
  }

  /** The pieces after one more byte. */
  function Extended(pieces: seq<seq<Byte>>, b: Byte): seq<seq<Byte>>
    requires pieces != []
  {
    if b == NEWLINE then pieces + [[]] else pieces[..|pieces| - 1] + [pieces[|pieces| - 1] + [b]]
  }

  /** Extending the last piece and prefixing the first do not disturb each other. */
  lemma ExtendedStep(c: Byte, rest: seq<seq<Byte>>, b: Byte)
    requires rest != []
    ensures [[]] + Extended(rest, b) == Extended([[]] + rest, b)
    ensures [[c] + Extended(rest, b)[0]] + Extended(rest, b)[1..] == Extended([[c] + rest[0]] + rest[1..], b)
  {
    if b != NEWLINE {
      if |rest| == 1 {
        assert rest == [rest[0]] && [[c] + rest[0]] + rest[1..] == [[c] + rest[0]];
        assert [c] + (rest[0] + [b]) == [c] + rest[0] + [b];
      } else {
        var middle, last := rest[1..|rest| - 1], rest[|rest| - 1];
        assert rest == [rest[0]] + middle + [last];
        LastIsExtended(rest[0], middle, last, b);
        LastIsExtended([c] + rest[0], middle, last, b);
        assert [[c] + rest[0]] + rest[1..] == [[c] + rest[0]] + middle + [last];
      }
    }
  }

  lemma LastIsExtended(first: seq<Byte>, middle: seq<seq<Byte>>, last: seq<Byte>, b: Byte)
    requires b != NEWLINE
    ensures Extended([first] + middle + [last], b) == [first] + middle + [last + [b]]
  {
  }

  lemma {:induction false} PiecesSnoc(stream: seq<Byte>, b: Byte)
    ensures Pieces(stream + [b]) == Extended(Pieces(stream), b)
  {
    if stream == [] {
      assert stream + [b] == [b] + [];
      PiecesStep(b, []);
    } else {
      var c, tail := stream[0], stream[1..];
      assert stream == [c] + tail && stream + [b] == [c] + (tail + [b]);
      PiecesSnoc(tail, b);
      PiecesStep(c, tail);
      PiecesStep(c, tail + [b]);
      ExtendedStep(c, Pieces(tail), b);
    }
  }

  /** A piece as it is yielded. */
  function Cut(piece: seq<Byte>, maxBytes: nat): Line {
    Line(if |piece| <= maxBytes then piece else piece[..maxBytes], |piece| > maxBytes, |piece|)
  }

  function CutAll(pieces: seq<seq<Byte>>, maxBytes: nat): seq<Line> {
    seq(|pieces|, i requires 0 <= i < |pieces| => Cut(pieces[i], maxBytes))
  }

  /** The lines of a whole stream: a final empty segment is no line. */
  function LinesOf(stream: seq<Byte>, maxBytes: nat): seq<Line> {
    var pieces := Pieces(stream);
    CutAll(if pieces[|pieces| - 1] == [] then pieces[..|pieces| - 1] else pieces, maxBytes)
  }

  lemma CutAllSnoc(pieces: seq<seq<Byte>>, piece: seq<Byte>, maxBytes: nat)
    ensures CutAll(pieces + [piece], maxBytes) == CutAll(pieces, maxBytes) + [Cut(piece, maxBytes)]
  {
  }

  /** The state of the generator after it consumed a stream. */
  ghost predicate Consumed(
    stream: seq<Byte>, maxBytes: nat, yielded: seq<Line>, prefix: seq<Byte>, originalSize: nat, truncated: bool)
  {
    var pieces := Pieces(stream);
    && yielded == CutAll(pieces[..|pieces| - 1], maxBytes)
    && Line(prefix, truncated, originalSize) == Cut(pieces[|pieces| - 1], maxBytes)
  }

  lemma ConsumeNewline(stream: seq<Byte>, maxBytes: nat, yielded: seq<Line>, prefix: seq<Byte>, size: nat, truncated: bool)
    requires Consumed(stream, maxBytes, yielded, prefix, size, truncated)
    ensures Consumed(stream + [NEWLINE], maxBytes, yielded + [Line(prefix, truncated, size)], [], 0, false)
  {
    PiecesSnoc(stream, NEWLINE);
    var pieces := Pieces(stream);
    CutAllSnoc(pieces[..|pieces| - 1], pieces[|pieces| - 1], maxBytes);
    assert pieces == pieces[..|pieces| - 1] + [pieces[|pieces| - 1]];
    assert (pieces + [[]])[..|pieces|] == pieces;
  }

  /** One more byte in a piece: kept while there is room, and counted. */
  lemma CutGrows(piece: seq<Byte>, b: Byte, maxBytes: nat)
    ensures var line := Cut(piece, maxBytes);
            Cut(piece + [b], maxBytes)
            == Line(if |line.prefix| < maxBytes then line.prefix + [b] else line.prefix,
                    line.truncated || |line.prefix| >= maxBytes, line.originalSize + 1)
  {
    if |piece| >= maxBytes {
      assert (piece + [b])[..maxBytes] == piece[..maxBytes];
    }
  }

  lemma ConsumeByte(stream: seq<Byte>, b: Byte, maxBytes: nat, yielded: seq<Line>, prefix: seq<Byte>, size: nat, truncated: bool)
    requires b != NEWLINE && Consumed(stream, maxBytes, yielded, prefix, size, truncated)
    ensures Consumed(stream + [b], maxBytes, yielded, if |prefix| < maxBytes then prefix + [b] else prefix, size + 1,
                     truncated || |prefix| >= maxBytes)
  {
    PiecesSnoc(stream, b);
    var pieces := Pieces(stream);
    var front, last := pieces[..|pieces| - 1], pieces[|pieces| - 1];
    assert (front + [last + [b]])[..|pieces| - 1] == front;
    CutGrows(last, b, maxBytes);
  }

  /** _bounded_lines over the chunks that stream.read returned before the empty one. */
  method Split(chunks: seq<seq<Byte>>, maxBytes: nat) returns (yielded: seq<Line>)
    requires forall c :: c in chunks ==> c != []
    ensures yielded == LinesOf(Flatten(chunks), maxBytes)
    // One line for each piece but an empty last one: its first maxBytes bytes, its size, and whether it was cut.
    ensures var pieces := Pieces(Flatten(chunks));
            && |yielded| == (if pieces[|pieces| - 1] == [] then |pieces| - 1 else |pieces|)
            && forall i :: 0 <= i < |yielded| ==>
                 && yielded[i].prefix <= pieces[i] && |yielded[i].prefix| == (if |pieces[i]| < maxBytes then |pieces[i]| else maxBytes)
                 && yielded[i].originalSize == |pieces[i]| && yielded[i].truncated == (|pieces[i]| > maxBytes)
  {
    var prefix: seq<Byte>, originalSize, truncated := [], 0, false;
    yielded := [];
    for k := 0 to |chunks|
      invariant Consumed(Flatten(chunks[..k]), maxBytes, yielded, prefix, originalSize, truncated)
    {
      var chunk := chunks[k];
      ghost var before := Flatten(chunks[..k]);
      assert before + chunk[..0] == before;
      for i := 0 to |chunk|
        invariant Consumed(before + chunk[..i], maxBytes, yielded, prefix, originalSize, truncated)
      {
        assert before + chunk[..i + 1] == before + chunk[..i] + [chunk[i]];
        if chunk[i] == NEWLINE {
          ConsumeNewline(before + chunk[..i], maxBytes, yielded, prefix, originalSize, truncated);
          yielded := yielded + [Line(prefix, truncated, originalSize)];
          prefix, originalSize, truncated := [], 0, false;
          continue;
        }
        ConsumeByte(before + chunk[..i], chunk[i], maxBytes, yielded, prefix, originalSize, truncated);
        originalSize := originalSize + 1;
        if |prefix| < maxBytes {
          prefix := prefix + [chunk[i]];
        } else {
          truncated := true;
        }
      }
      assert chunk[..|chunk|] == chunk && chunks[..k + 1] == chunks[..k] + [chunk];
      FlattenSnoc(chunks[..k], chunk);
    }
    assert chunks[..|chunks|] == chunks;
    ghost var pieces := Pieces(Flatten(chunks));
    CutAllSnoc(pieces[..|pieces| - 1], pieces[|pieces| - 1], maxBytes);
    assert pieces == pieces[..|pieces| - 1] + [pieces[|pieces| - 1]];
    if originalSize != 0 {
      yielded := yielded + [Line(prefix, truncated, originalSize)];
    }
  }
}
