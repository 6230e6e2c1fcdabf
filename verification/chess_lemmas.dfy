/**
 * What the rules of js/chess-logic.js guarantee: the rejections and shape rules
 * of `isValidMove`, the castling preconditions, the bookkeeping and special
 * effects of `makeMove`, the exactness of `getLegalMoves` and the relation
 * between `isCheckmate` and `isStalemate`.
 */
module ChessLemmas {
  import opened Wrappers
  import opened ChessRules

  // ---------------------------------------------------------------------------
  // isValidMove

  /** A move is rejected when the origin is empty or holds a piece of the side
      not to move, or when the destination holds a piece of the mover's colour. */
  lemma ValidMoveRejects(g: Game, from: Sq, to: Sq)
    ensures At(g.board, from).None? ==> !IsValidMove(g, from, to)
    ensures At(g.board, from).Some? && At(g.board, from).value.color != g.turn
            ==> !IsValidMove(g, from, to)
    ensures && At(g.board, from).Some? && At(g.board, to).Some?
            && At(g.board, to).value.color == At(g.board, from).value.color
            ==> !IsValidMove(g, from, to)
  {
  }

  /** An accepted move never leaves the mover's king attacked once the moving
      piece stands on `to` and `from` is empty. */
  lemma ValidMoveNoSelfCheck(g: Game, from: Sq, to: Sq)
    requires IsValidMove(g, from, to)
    ensures At(g.board, from).Some?
    ensures var b := Relocate(g.board, from, to);
      && At(b, to) == At(g.board, from)
      && At(b, from) == None
      && !IsInCheck(b, At(g.board, from).value.color)
  {
  }

  /** The pawn rules: one step forward onto an empty square; two steps from the
      start rank over an empty square onto an empty square; one step diagonally
      onto an enemy or onto the en-passant target. */
  lemma PawnMoveRules(g: Game, from: Sq, to: Sq)
    requires IsValidMove(g, from, to)
    requires At(g.board, from).value.kind == Pawn
    ensures var p := At(g.board, from).value;
      var dir := Forward(p.color);
      || (&& to.file == from.file && At(g.board, to).None?
          && to.rank == from.rank + dir)
      || (&& to.file == from.file && At(g.board, to).None?
          && from.rank == PawnStartRank(p.color) && to.rank == from.rank + 2 * dir
          && At(g.board, Square(from.file, from.rank + dir)) == None)
      || (&& Abs(to.file - from.file) == 1 && to.rank == from.rank + dir
          && (At(g.board, to).Some? || g.enPassant == Some(to)))
  {
    var p := At(g.board, from).value;
    assert ShapeOk(g, p, from, to);
    PawnShape(g, p, from, to);
  }

  lemma PawnShape(g: Game, p: Piece, from: Sq, to: Sq)
    requires p.kind == Pawn && ShapeOk(g, p, from, to)
    ensures var dir := Forward(p.color);
      || (&& to.file == from.file && At(g.board, to).None?
          && to.rank == from.rank + dir)
      || (&& to.file == from.file && At(g.board, to).None?
          && from.rank == PawnStartRank(p.color) && to.rank == from.rank + 2 * dir
          && At(g.board, Square(from.file, from.rank + dir)) == None)
      || (&& Abs(to.file - from.file) == 1 && to.rank == from.rank + dir
          && (At(g.board, to).Some? || g.enPassant == Some(to)))
  {
  }

  /** Bishops, rooks and queens only move over empty squares. */
  lemma SlidingMoveNeedsClearPath(g: Game, from: Sq, to: Sq, k: int)
    requires IsValidMove(g, from, to)
    requires At(g.board, from).value.kind in {Bishop, Rook, Queen}
    requires 0 < k < Dist(from, to)
    ensures Aligned(from, to) && OnBoard(Step(from, to, k))
    ensures At(g.board, Step(from, to, k)) == None
  {
    StepOnBoard(from, to, k);
  }

  /** A knight's move shape depends only on the two squares: blockers are ignored. */
  lemma KnightIgnoresBlockers(g: Game, h: Game, p: Piece, from: Sq, to: Sq)
    requires p.kind == Knight
    ensures ShapeOk(g, p, from, to) == ShapeOk(h, p, from, to)
    ensures ShapeOk(g, p, from, to) <==>
      (Abs(to.file - from.file) == 2 && Abs(to.rank - from.rank) == 1) ||
      (Abs(to.file - from.file) == 1 && Abs(to.rank - from.rank) == 2)
  {
  }

  /** `canPieceAttack` agrees with the capture shapes of `isValidMove`: onto an
      occupied square every piece other than the king attacks exactly where its move
      shape lets it capture, and the king attacks only squares its move shape reaches
      (castling adds the two-file step). A pawn attacks the two squares diagonally
      forward whether or not they are occupied, and never the square straight ahead. */
  lemma AttackIsCaptureShape(g: Game, from: Sq, to: Sq)
    requires At(g.board, from).Some?
    ensures At(g.board, to).Some? && At(g.board, from).value.kind != King ==>
      (CanPieceAttack(g.board, from, to) <==> ShapeOk(g, At(g.board, from).value, from, to))
    ensures At(g.board, from).value.kind == King && CanPieceAttack(g.board, from, to) ==>
      ShapeOk(g, At(g.board, from).value, from, to)
    ensures At(g.board, from).value.kind == Pawn ==>
      (CanPieceAttack(g.board, from, to) <==>
        Abs(to.file - from.file) == 1 && to.rank == from.rank + Forward(At(g.board, from).value.color))
  {
  }

  /** A king moving two files along its rank is accepted only when the king and
      the corner rook are unmoved, the squares between them are empty and none of
      the king's start, transit and destination squares is attacked. */
  lemma CastlingRequirements(g: Game, from: Sq, to: Sq)
    requires IsValidMove(g, from, to)
    requires At(g.board, from).value.kind == King
    requires to.rank == from.rank && Abs(to.file - from.file) == 2
    ensures var k := At(g.board, from).value;
      var rookSq := CastlingRookSquare(from, to);
      var enemy := Opponent(k.color);
      && !k.moved
      && At(g.board, rookSq).Some? && At(g.board, rookSq).value.kind == Rook
      && !At(g.board, rookSq).value.moved
      && (forall f | Min(from.file, rookSq.file) < f < Max(from.file, rookSq.file) ::
            At(g.board, Square(f, from.rank)) == None)
      && !IsInCheck(g.board, k.color)
      && !Attacked(g.board, from, enemy)
      && !Attacked(g.board, Square(Toward(from.file, to.file, 1), from.rank), enemy)
      && !Attacked(g.board, to, enemy)
  {
    var k := At(g.board, from).value;
    assert ShapeOk(g, k, from, to);
    assert CanCastle(g.board, from, to);
    var enemy := Opponent(k.color);
    assert CastlingPathSafe(g.board, from, to, enemy, 3);
    assert Toward(from.file, to.file, 0) == from.file;
    assert Toward(from.file, to.file, 2) == to.file;
  }

  /** Conversely, a castling king move meeting those conditions is accepted
      exactly when the relocated king is not attacked. */
  lemma CastlingAccepted(g: Game, from: Sq, to: Sq)
    requires At(g.board, from).Some?
    requires var k := At(g.board, from).value; k.kind == King && k.color == g.turn && !k.moved
    requires to.rank == from.rank && Abs(to.file - from.file) == 2
    requires !(At(g.board, to).Some? && At(g.board, to).value.color == g.turn)
    requires CanCastle(g.board, from, to)
    ensures IsValidMove(g, from, to) <==> !WouldBeInCheck(g.board, from, to, g.turn)
  {
  }

  // ---------------------------------------------------------------------------
  // makeMove

  /** The turn passes to the other side, `board.turn` follows it, and the move
      is appended to the history. */
  lemma MakeMoveTogglesTurn(g: Game, from: Sq, to: Sq, promotion: Option<Kind>)
    requires At(g.board, from).Some? && EnPassantInRange(g)
    ensures var (g', r) := MakeMove(g, from, to, promotion);
      && g'.turn == Opponent(g.turn) && g'.boardTurn == g'.turn
      && |g'.history| == |g.history| + 1 && g'.history[..|g.history|] == g.history
      && g'.history[|g.history|].from == from && g'.history[|g.history|].to == to
  {
  }

  /** The en-passant target is set exactly after a pawn moved two ranks, and it
      is then the square the pawn skipped. */
  lemma MakeMoveEnPassantTarget(g: Game, from: Sq, to: Sq, promotion: Option<Kind>)
    requires At(g.board, from).Some? && EnPassantInRange(g)
    ensures var (g', r) := MakeMove(g, from, to, promotion);
      && (g'.enPassant.Some? <==> r.piece.kind == Pawn && Abs(to.rank - from.rank) == 2)
      && (g'.enPassant.Some? ==>
            && g'.enPassant.value.file == from.file
            && Abs(g'.enPassant.value.rank - from.rank) == 1
            && Abs(to.rank - g'.enPassant.value.rank) == 1)
      && EnPassantInRange(g')
  {
  }

  /** The moving piece ends on `to`, marked as moved and otherwise unchanged
      unless it is promoted; `needsPromotion` holds exactly when a pawn reaches
      its last rank. */
  lemma MakeMovePromotion(g: Game, from: Sq, to: Sq, promotion: Option<Kind>)
    requires At(g.board, from).Some? && EnPassantInRange(g)
    ensures var (g', r) := MakeMove(g, from, to, promotion);
      var p := At(g.board, from).value;
      && (r.needsPromotion <==> p.kind == Pawn && to.rank == PromotionRank(p.color))
      && r.piece.moved && r.piece.color == p.color && r.piece.name == p.name
      && r.piece.kind == (if r.needsPromotion && promotion.Some? then promotion.value else p.kind)
      && (from != to ==> At(g'.board, to) == Some(r.piece) && At(g'.board, from) == None)
  {
  }

  /** An ordinary move (neither en passant nor castling) changes the board only
      on `from` and `to`, reports what stood on `to`, and moves the identity
      recorded for `from` to `to`. */
  lemma MakeMoveOrdinary(g: Game, from: Sq, to: Sq, promotion: Option<Kind>)
    requires At(g.board, from).Some? && EnPassantInRange(g) && from != to
    requires !IsEnPassant(g, At(g.board, from).value, to)
    requires !IsCastling(At(g.board, from).value, from, to)
    ensures var (g', r) := MakeMove(g, from, to, promotion);
      && At(g'.board, from) == None
      && At(g'.board, to) == Some(r.piece)
      && (forall s: Sq :: s != from && s != to ==> At(g'.board, s) == At(g.board, s))
      && r.captured == At(g.board, to)
      && r.capturedPieceName == (if At(g.board, to).Some? then Lookup(g.names, to) else None)
      && r.pieceName == Lookup(g.names, from)
      && r.enPassantCapture.None? && r.castlingRookMove.None?
      && g'.names == (if from in g.names && g.names[from] != ""
                      then (g.names - {from})[to := g.names[from]] else g.names)
  {
  }

  /** A pawn landing on the empty en-passant target removes the piece one rank
      behind the destination, on the destination's file, and its identity. */
  lemma MakeMoveEnPassant(g: Game, from: Sq, to: Sq, promotion: Option<Kind>)
    requires At(g.board, from).Some? && EnPassantInRange(g) && from != to
    requires IsEnPassant(g, At(g.board, from).value, to)
    ensures var (g', r) := MakeMove(g, from, to, promotion);
      var victim := EnPassantVictim(At(g.board, from).value.color, to);
      && victim.file == to.file && victim.rank == to.rank - Forward(r.piece.color)
      && At(g'.board, victim) == None
      && victim !in g'.names
      && At(g'.board, to) == Some(r.piece)
      && r.capturedPieceName == Lookup(g.names, victim)
      && r.enPassantCapture == At(g.board, victim)
      && r.enPassantCaptureSquare == (if r.enPassantCapture.Some? then Some(victim) else None)
  {
  }

  /** A king moving two files also moves the corner rook on its side to the
      square the king passed over (`toFile - direction`), with its identity. */
  lemma MakeMoveCastling(g: Game, from: Sq, to: Sq, promotion: Option<Kind>)
    requires At(g.board, from).Some? && EnPassantInRange(g)
    requires IsCastling(At(g.board, from).value, from, to)
    ensures var (g', r) := MakeMove(g, from, to, promotion);
      var rookFrom := CastlingRookSquare(from, to);
      var rookTo := CastlingRookTarget(from, to);
      var dir := if to.file > from.file then 1 else -1;
      && rookTo.file == to.file - dir && rookTo.rank == from.rank
      && rookFrom.file == (if dir > 0 then 7 else 0)
      && At(g'.board, rookTo) == At(g.board, rookFrom)
      && (rookFrom != to ==> At(g'.board, rookFrom) == None)
      && At(g'.board, to) == Some(r.piece)
      && Lookup(g'.names, rookTo) == Lookup(g.names, rookFrom)
      && r.castlingRookMove == Some(RookMove(rookFrom, rookTo, Lookup(g.names, rookFrom)))
  {
  }

  /** `makeMove` keeps every piece's identity recorded under the square it stands
      on: captured pieces lose theirs, the castling rook and the promoted pawn
      keep theirs. Two calls that validation never makes are excluded: a move
      onto its own square, and a pawn stepping straight onto the en-passant
      target from the square of the pawn it would capture. */
  lemma MakeMoveKeepsIdentities(g: Game, from: Sq, to: Sq, promotion: Option<Kind>)
    requires At(g.board, from).Some? && EnPassantInRange(g) && from != to
    requires NamesConsistent(g)
    requires IsEnPassant(g, At(g.board, from).value, to)
             ==> EnPassantVictim(At(g.board, from).value.color, to) != from
    ensures NamesConsistent(MakeMove(g, from, to, promotion).0)
  {
    var p := At(g.board, from).value;
    if IsEnPassant(g, p, to) {
      KeepsIdentitiesEnPassant(g, from, to, promotion);
    } else if IsCastling(p, from, to) {
      KeepsIdentitiesCastling(g, from, to, promotion);
    } else {
      KeepsIdentitiesOrdinary(g, from, to, promotion);
    }
  }

  /** Moving whatever stands on `a` to `c`, with the identity recorded for `a`,
      keeps identities consistent, provided the piece keeps its name. */
  lemma TransferKeepsIdentities(b: Board, names: map<Sq, string>, a: Sq, c: Sq, x: Option<Piece>)
    requires Consistent(b, names) && a != c
    requires x.Some? <==> At(b, a).Some?
    requires x.Some? ==> x.value.name == At(b, a).value.name
    ensures Consistent(Put(Put(b, c, x), a, None), SetName(names - {a}, c, Lookup(names, a)))
  {
    var b' := Put(Put(b, c, x), a, None);
    var names' := SetName(names - {a}, c, Lookup(names, a));
    forall s: Sq
      ensures (s in names' <==> At(b', s).Some?)
      ensures s in names' ==> names'[s] == At(b', s).value.name
      ensures At(b', s).Some? ==> At(b', s).value.name != ""
    {
      if s == a {
        assert At(b', s) == None && s !in names';
      } else if s == c {
        assert At(b', s) == x;
      } else {
        assert At(b', s) == At(b, s);
        assert (s in names' <==> s in names) && (s in names ==> names'[s] == names[s]);
      }
    }
  }

  /** Emptying a square and forgetting its identity keeps identities consistent. */
  lemma RemoveKeepsIdentities(b: Board, names: map<Sq, string>, a: Sq)
    requires Consistent(b, names)
    ensures Consistent(Put(b, a, None), names - {a})
  {
    var b' := Put(b, a, None);
    forall s: Sq
      ensures (s in names - {a} <==> At(b', s).Some?)
      ensures s in names - {a} ==> (names - {a})[s] == At(b', s).value.name
      ensures At(b', s).Some? ==> At(b', s).value.name != ""
    {
      if s != a {
        assert At(b', s) == At(b, s);
      }
    }
  }

  lemma KeepsIdentitiesOrdinary(g: Game, from: Sq, to: Sq, promotion: Option<Kind>)
    requires At(g.board, from).Some? && EnPassantInRange(g) && from != to
    requires NamesConsistent(g)
    requires !IsEnPassant(g, At(g.board, from).value, to)
    requires !IsCastling(At(g.board, from).value, from, to)
    ensures NamesConsistent(MakeMove(g, from, to, promotion).0)
  {
    var (g', r) := MakeMove(g, from, to, promotion);
    TransferKeepsIdentities(g.board, g.names, from, to, Some(r.piece));
    var name := Lookup(g.names, from);
    assert name.Some? && name.value != "";
    assert g'.names == (g.names - {from})[to := name.value];
  }

  lemma KeepsIdentitiesEnPassant(g: Game, from: Sq, to: Sq, promotion: Option<Kind>)
    requires At(g.board, from).Some? && EnPassantInRange(g) && from != to
    requires NamesConsistent(g)
    requires IsEnPassant(g, At(g.board, from).value, to)
    requires EnPassantVictim(At(g.board, from).value.color, to) != from
    ensures NamesConsistent(MakeMove(g, from, to, promotion).0)
  {
    var (g', r) := MakeMove(g, from, to, promotion);
    var p := At(g.board, from).value;
    var victim := EnPassantVictim(p.color, to);
    var b1 := Put(g.board, victim, None);
    var names1 := g.names - {victim};
    RemoveKeepsIdentities(g.board, g.names, victim);
    TransferKeepsIdentities(b1, names1, from, to, Some(r.piece));
    var name := Lookup(names1, from);
    assert name.Some? && name.value != "";
    assert g'.names == (names1 - {from})[to := name.value];
  }

  lemma KeepsIdentitiesCastling(g: Game, from: Sq, to: Sq, promotion: Option<Kind>)
    requires At(g.board, from).Some? && EnPassantInRange(g) && from != to
    requires NamesConsistent(g)
    requires IsCastling(At(g.board, from).value, from, to)
    ensures NamesConsistent(MakeMove(g, from, to, promotion).0)
  {
    var (g', r) := MakeMove(g, from, to, promotion);
    assert !IsEnPassant(g, At(g.board, from).value, to);
    var rookFrom := CastlingRookSquare(from, to);
    var rookTo := CastlingRookTarget(from, to);
    var b2 := Put(Put(g.board, rookTo, At(g.board, rookFrom)), rookFrom, None);
    var names2 := SetName(g.names - {rookFrom}, rookTo, Lookup(g.names, rookFrom));
    TransferKeepsIdentities(g.board, g.names, rookFrom, rookTo, At(g.board, rookFrom));
    assert rookTo != from && rookFrom != from;
    assert At(b2, from) == At(g.board, from) && Lookup(names2, from) == Lookup(g.names, from);
    TransferKeepsIdentities(b2, names2, from, to, Some(r.piece));
    var name := Lookup(names2, from);
    assert name.Some? && name.value != "";
    assert g'.names == (names2 - {from})[to := name.value];
  }

  lemma InitialGameConsistent()
    ensures NamesConsistent(InitialGame())
    ensures EnPassantInRange(InitialGame())
  {
    forall s: Sq | At(InitialBoard, s).Some?
      ensures At(InitialBoard, s).value.name != ""
    {
      InitialRowNamed(s.rank);
    }
  }

  /** Every piece of a rank of the initial position has a non-empty name. */
  lemma InitialRowNamed(rank: int)
    requires 0 <= rank < 8
    ensures forall f | 0 <= f < 8 :: InitialBoard[rank][f].Some? ==> InitialBoard[rank][f].value.name != ""
  {
    var row := InitialBoard[rank];
    if rank == 0 || rank == 1 || rank == 6 || rank == 7 {
      assert forall f | 0 <= f < 8 :: row[f].Some? && |row[f].value.name| > 0;
    } else {
      assert row == EmptyRow;
    }
  }

  // ---------------------------------------------------------------------------
  // getLegalMoves, isCheckmate, isStalemate

  /** The scan lists each target visited before the position, and nothing else. */
  lemma {:induction false} ScanUpToExact(targets: set<Sq>, rank: int, file: int, to: Sq)
    requires ScanPos(rank, file) && (rank == 8 ==> file == 0)
    ensures to in ScanUpTo(targets, rank, file) <==> Before(to, Square(file, rank)) && to in targets
    decreases rank, file
  {
    if file == 0 {
      if rank > 0 {
        ScanUpToExact(targets, rank - 1, 8, to);
      }
    } else {
      ScanUpToExact(targets, rank, file - 1, to);
    }
  }

  /** The scan lists squares in strictly increasing scan order, so without repeats. */
  lemma {:induction false} ScanUpToOrdered(targets: set<Sq>, rank: int, file: int)
    requires ScanPos(rank, file) && (rank == 8 ==> file == 0)
    ensures ScanOrdered(ScanUpTo(targets, rank, file))
    decreases rank, file
  {
    if file == 0 {
      if rank > 0 {
        assert ScanUpTo(targets, rank, 0) == ScanUpTo(targets, rank - 1, 8);
        ScanUpToOrdered(targets, rank - 1, 8);
      }
    } else {
      ScanUpToOrdered(targets, rank, file - 1);
      var prefix := ScanUpTo(targets, rank, file - 1);
      var s: Sq := Square(file - 1, rank);
      var r := ScanUpTo(targets, rank, file);
      assert r == prefix + (if s in targets then [s] else []);
      forall i, j | 0 <= i < j < |r|
        ensures Before(r[i], r[j])
      {
        assert r[i] == prefix[i];
        if j < |prefix| {
          assert r[j] == prefix[j];
          assert Before(prefix[i], prefix[j]);
        } else {
          assert r[j] == s;
          assert prefix[i] in prefix;
          ScanUpToExact(targets, rank, file - 1, prefix[i]);
          assert Before(prefix[i], s);
        }
      }
    }
  }

  /** `getLegalMoves(from)` lists exactly the squares `to` with `isValidMove(from, to)`. */
  lemma LegalMovesExact(g: Game, from: Sq, to: Sq)
    ensures to in LegalMoves(g, from) <==> IsValidMove(g, from, to)
  {
    ValidTargetsMember(g, from, to);
    if At(g.board, from).Some? && At(g.board, from).value.color == g.turn {
      ScanUpToExact(ValidTargets(g, from), 8, 0, to);
    }
  }

  /** `getLegalMoves` lists its squares in scan order, so each at most once. */
  lemma LegalMovesOrdered(g: Game, from: Sq)
    ensures ScanOrdered(LegalMoves(g, from))
  {
    match At(g.board, from)
    case None =>
    case Some(p) =>
      if p.color == g.turn {
        ScanUpToOrdered(ValidTargets(g, from), 8, 0);
      }
  }

  /** There is no legal move exactly when no pair of squares passes `isValidMove`. */
  lemma NoLegalMoveMeansNoValidMove(g: Game)
    ensures NoLegalMove(g) <==> forall from: Sq, to: Sq :: !IsValidMove(g, from, to)
  {
    if NoLegalMove(g) {
      forall from: Sq, to: Sq
        ensures !IsValidMove(g, from, to)
      {
        LegalMovesExact(g, from, to);
      }
    } else {
      var from: Sq :| LegalMoves(g, from) != [];
      var to := LegalMoves(g, from)[0];
      LegalMovesExact(g, from, to);
    }
  }

  /** Checkmate and stalemate both mean the side to move has no legal move; they
      differ only on check, so exactly one holds when there is no legal move. */
  lemma CheckmateStalemateExclusive(g: Game)
    ensures !(IsCheckmate(g) && IsStalemate(g))
    ensures IsCheckmate(g) || IsStalemate(g) <==> NoLegalMove(g)
    ensures IsCheckmate(g) || IsStalemate(g) ==> forall from: Sq, to: Sq :: !IsValidMove(g, from, to)
  {
    NoLegalMoveMeansNoValidMove(g);
  }
}
