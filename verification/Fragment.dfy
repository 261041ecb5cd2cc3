/** Cutting a serialised message into the pieces that become its frames. */
module Fragment {
  import opened VarLength

  /** Bytes a buffer holds. */
  const MESSAGE_SIZE: nat := 1024

  /** Session id, type and two length bytes. */
  const PADDING: nat := 5

  const MAX_PIECE: nat := MESSAGE_SIZE - PADDING

  function Pieces(data: seq<byte>): seq<seq<byte>>
    decreases |data|
  {
    if |data| <= MAX_PIECE then [data] else [data[..MAX_PIECE]] + Pieces(data[MAX_PIECE..])
  }

  function Join(pieces: seq<seq<byte>>): seq<byte> {
    if pieces == [] then [] else pieces[0] + Join(pieces[1..])
  }

  /** A cut of data into full pieces and one last piece, which is empty only for empty data. */
  ghost predicate IsCut(data: seq<byte>, pieces: seq<seq<byte>>) {
    && pieces != []
    && Join(pieces) == data
    && (forall i :: 0 <= i < |pieces| - 1 ==> |pieces[i]| == MAX_PIECE)
    && |pieces[|pieces| - 1]| <= MAX_PIECE
    && (data != [] ==> pieces[|pieces| - 1] != [])
  }

  lemma {:induction false} PiecesIsCut(data: seq<byte>)
    ensures IsCut(data, Pieces(data))
    decreases |data|
  {
    var p := Pieces(data);
    if |data| <= MAX_PIECE {
      assert Join(p[1..]) == [];
      assert Join(p) == data + [];
    } else {
      var rest := data[MAX_PIECE..];
      PiecesIsCut(rest);
      assert p[1..] == Pieces(rest);
      assert data == data[..MAX_PIECE] + rest;
      forall i | 0 <= i < |p| - 1 ensures |p[i]| == MAX_PIECE {
        if i > 0 { assert p[i] == Pieces(rest)[i - 1]; }
      }
    }
  }

  /** There is only one such cut, so the properties say all there is to say about it. */
  lemma {:induction false} CutIsUnique(data: seq<byte>, pieces: seq<seq<byte>>)
    requires IsCut(data, pieces)
    ensures pieces == Pieces(data)
    decreases |pieces|
  {
    var tail := pieces[1..];
    if tail == [] {
      assert Join(tail) == [];
      assert data == pieces[0];
    } else {
      assert pieces[0] == data[..MAX_PIECE] && Join(tail) == data[MAX_PIECE..];
      assert forall i :: 0 <= i < |tail| ==> tail[i] == pieces[i + 1];
      assert tail[|tail| - 1] == pieces[|pieces| - 1];
      JoinLength(tail);
      CutIsUnique(data[MAX_PIECE..], tail);
      assert |data| > MAX_PIECE;
    }
  }

  lemma {:induction false} JoinLength(pieces: seq<seq<byte>>)
    requires pieces != []
    ensures |Join(pieces)| >= |pieces[|pieces| - 1]|
  {
    if |pieces| > 1 {
      JoinLength(pieces[1..]);
      assert pieces[1..][|pieces| - 2] == pieces[|pieces| - 1];
    }
  }

  /** The number of pieces is the size over the piece size, rounded up, and at least one. */
  lemma {:induction false} PieceCount(data: seq<byte>)
    ensures |Pieces(data)| == if data == [] then 1 else (|data| + MAX_PIECE - 1) / MAX_PIECE
    decreases |data|
  {
    if |data| > MAX_PIECE {
      PieceCount(data[MAX_PIECE..]);
    }
  }

  /** A piece of a single byte comes up exactly for sizes one above a multiple of the piece size. */
  lemma {:induction false} OneByteLeft(data: seq<byte>)
    requires data != []
    ensures (exists p :: p in Pieces(data) && |p| < 2) <==> |data| % MAX_PIECE == 1
    decreases |data|
  {
    if |data| > MAX_PIECE {
      OneByteLeft(data[MAX_PIECE..]);
      OnePieceMore(data);
      SameLast(|data|);
    } else {
      assert Pieces(data) == [data];
      assert data in Pieces(data);
    }
  }

  lemma SameLast(n: nat)
    requires n >= MAX_PIECE
    ensures n % MAX_PIECE == (n - MAX_PIECE) % MAX_PIECE
  {
  }

  lemma OnePieceMore(data: seq<byte>)
    requires |data| > MAX_PIECE
    ensures var rest := Pieces(data[MAX_PIECE..]);
            (exists p :: p in Pieces(data) && |p| < 2) <==> exists p :: p in rest && |p| < 2
  {
    var head, rest := data[..MAX_PIECE], data[MAX_PIECE..];
    assert Pieces(data) == [head] + Pieces(rest);
    assert forall p :: p in Pieces(data) <==> p == head || p in Pieces(rest);
  }

  /** std::string::substr: at most length bytes from pos. */
  function Substr(data: seq<byte>, pos: nat, length: nat): seq<byte>
    requires pos <= |data|
  {
    if pos + length <= |data| then data[pos..pos + length] else data[pos..]
  }
}
