/**
 * `ChessGame` from js/chess-logic.js as a class: the board and the game fields
 * are updated in place, the queries are the engine's rank/file loops, and each
 * method is proved to compute the rule of the same name in `ChessRules`.
 */
module ChessEngine {
  import opened Wrappers
  import opened ChessRules
  import ChessLemmas

  /** `Math.sign` on integers. */
  function Sign(x: int): (s: int)
    ensures x > 0 ==> s == 1
    ensures x < 0 ==> s == -1
    ensures x == 0 ==> s == 0
  {
    if x > 0 then 1 else if x < 0 then -1 else 0
  }

  /** `MakeMove` written in terms of the board and name map as they stand after
      its en-passant and castling steps, the form in which the method below
      reaches them. */
  lemma MakeMoveSteps(g: Game, from: Sq, to: Sq, promotion: Option<Kind>,
                      b2: Board, names2: map<Sq, string>, epCapture: Option<Piece>,
                      capturedName: Option<string>, rookMove: Option<RookMove>,
                      st: Game, r: MoveResult)
    requires At(g.board, from).Some? && EnPassantInRange(g)
    requires var p := At(g.board, from).value;
      var isEp := IsEnPassant(g, p, to);
      var victim: Sq := if isEp then EnPassantVictim(p.color, to) else to;
      var b1 := if isEp then Put(g.board, victim, None) else g.board;
      var names1 := if isEp then g.names - {victim} else g.names;
      var rookFrom := CastlingRookSquare(from, to);
      var rookTo: Sq := if IsCastling(p, from, to) then CastlingRookTarget(from, to) else rookFrom;
      && epCapture == (if isEp then At(g.board, victim) else None)
      && capturedName == (if isEp then Lookup(g.names, victim)
                          else if At(g.board, to).Some? then Lookup(g.names, to) else None)
      && b2 == (if IsCastling(p, from, to) then Put(Put(b1, rookTo, At(b1, rookFrom)), rookFrom, None) else b1)
      && names2 == (if IsCastling(p, from, to)
                    then SetName(names1 - {rookFrom}, rookTo, Lookup(names1, rookFrom)) else names1)
      && rookMove == (if IsCastling(p, from, to)
                      then Some(RookMove(rookFrom, rookTo, Lookup(names1, rookFrom))) else None)
    requires var p := At(g.board, from).value;
      var final := MovedPiece(p, to, promotion);
      var pieceName := Lookup(names2, from);
      var turn := Opponent(g.turn);
      (st, r) ==
        (Game(Put(Put(b2, to, Some(final)), from, None), turn, turn,
              if final.kind == Pawn && Abs(to.rank - from.rank) == 2
              then Some(Square(from.file, (from.rank + to.rank) / 2)) else None,
              if pieceName.Some? && pieceName.value != ""
              then (names2 - {from})[to := pieceName.value] else names2,
              g.history + [HistoryEntry(from, to, final, At(g.board, to), epCapture)]),
         MoveResult(final, At(g.board, to), from, to, pieceName, capturedName, epCapture,
                    if epCapture.Some? then Some(EnPassantVictim(p.color, to)) else None,
                    rookMove, p.kind == Pawn && to.rank == PromotionRank(p.color)))
    ensures (st, r) == MakeMove(g, from, to, promotion)
  {
  }

  class ChessGame {
    var board: Board
    var currentTurn: Color
    /** `board.turn`, the property the engine keeps equal to `currentTurn`. */
    var boardTurn: Color
    var enPassantTarget: Option<Sq>
    var squareToPieceName: map<Sq, string>
    var moveHistory: seq<HistoryEntry>

    function State(): Game
      reads this
    {
      Game(board, currentTurn, boardTurn, enPassantTarget, squareToPieceName, moveHistory)
    }

    ghost predicate Valid()
      reads this
    {
      EnPassantInRange(State())
    }

    /** The constructor: the initial position, white to move, every piece's
        identity recorded under its square. */
    constructor()
      ensures State() == InitialGame()
      ensures Valid() && NamesConsistent(State())
    {
      squareToPieceName := NameMapFrom(InitialBoard, 0, 0);
      board := InitialBoard;
      currentTurn := White;
      boardTurn := White;
      moveHistory := [];
      enPassantTarget := None;
      ChessLemmas.InitialGameConsistent();
    }

    /** `findKing(color)`: the first king of `color` in rank-major scan order. */
    method FindKing(color: Color) returns (king: Option<Sq>)
      ensures king == ChessRules.FindKing(board, color)
    {
      for rank := 0 to 8
        invariant ChessRules.FindKing(board, color) == FindKingFrom(board, color, rank, 0)
      {
        for file := 0 to 8
          invariant ChessRules.FindKing(board, color) == FindKingFrom(board, color, rank, file)
        {
          var piece := board[rank][file];
          if piece.Some? && piece.value.color == color && piece.value.kind == King {
            return Some(Square(file, rank));
          }
        }
      }
      return None;
    }

    /** `isSquareUnderAttack(square, byColor)`. */
    method IsSquareUnderAttack(square: Sq, byColor: Color) returns (attacked: bool)
      ensures attacked == Attacked(board, square, byColor)
    {
      for rank := 0 to 8
        invariant forall s: Sq :: Before(s, Square(0, rank)) ==> !AttacksFrom(board, s, square, byColor)
      {
        for file := 0 to 8
          invariant forall s: Sq :: Before(s, Square(file, rank)) ==> !AttacksFrom(board, s, square, byColor)
        {
          var piece := board[rank][file];
          if piece.Some? && piece.value.color == byColor {
            var can := CanPieceAttack(Square(file, rank), square);
            if can {
              assert AttacksFrom(board, Square(file, rank), square, byColor);
              return true;
            }
          }
        }
      }
      return false;
    }

    /** `canPieceAttack(from, to)`: the move shape of the piece on `from`,
        with pawns attacking diagonally forward. */
    method CanPieceAttack(from: Sq, to: Sq) returns (can: bool)
      ensures can == ChessRules.CanPieceAttack(board, from, to)
    {
      var piece := board[from.rank][from.file];
      if piece.None? {
        return false;
      }
      var df := Abs(to.file - from.file);
      var dr := Abs(to.rank - from.rank);
      match piece.value.kind {
        case Pawn =>
          can := df == 1 && to.rank == from.rank + Forward(piece.value.color);
        case Knight =>
          can := (df == 2 && dr == 1) || (df == 1 && dr == 2);
        case Bishop =>
          can := df == dr && df > 0;
          if can {
            can := IsPathClear(from, to);
          }
        case Rook =>
          can := (df == 0 || dr == 0) && df + dr > 0;
          if can {
            can := IsPathClear(from, to);
          }
        case Queen =>
          can := (df == dr || df == 0 || dr == 0) && df + dr > 0;
          if can {
            can := IsPathClear(from, to);
          }
        case King =>
          can := df <= 1 && dr <= 1 && df + dr > 0;
      }
    }

    /** `isPathClear`: walk from `from` toward `to` one step at a time and
        report whether every square strictly between them is empty. */
    method IsPathClear(from: Sq, to: Sq) returns (clear: bool)
      requires Aligned(from, to)
      ensures clear == PathClear(board, from, to)
    {
      var df := Sign(to.file - from.file);
      var dr := Sign(to.rank - from.rank);
      var f := from.file + df;
      var r := from.rank + dr;
      ghost var k := 1;
      while f != to.file || r != to.rank
        invariant 1 <= k && (from != to ==> k <= Dist(from, to))
        invariant f == Toward(from.file, to.file, k) && r == Toward(from.rank, to.rank, k)
        invariant forall j | 0 < j < k ::
          OnBoard(Step(from, to, j)) && At(board, Step(from, to, j)) == None
        decreases Dist(from, to) - k
      {
        assert from != to && k < Dist(from, to);
        StepOnBoard(from, to, k);
        if board[r][f].Some? {
          return false;
        }
        f := f + df;
        r := r + dr;
        k := k + 1;
      }
      if from != to {
        assert k == Dist(from, to);
      }
      return true;
    }

    /** `isInCheck(color)`: the king of `color` is attacked by the other side;
        false when there is no such king. */
    method IsInCheck(color: Color) returns (inCheck: bool)
      ensures inCheck == ChessRules.IsInCheck(board, color)
    {
      var kingSquare := FindKing(color);
      if kingSquare.None? {
        return false;
      }
      inCheck := IsSquareUnderAttack(kingSquare.value, Opponent(color));
    }

    /** `wouldBeInCheck(from, to, color)`: put the moving piece on `to`, empty
        `from`, ask `isInCheck`, then put both squares back. */
    method WouldBeInCheck(from: Sq, to: Sq, color: Color) returns (inCheck: bool)
      modifies this
      ensures unchanged(this)
      ensures inCheck == ChessRules.WouldBeInCheck(board, from, to, color)
    {
      var movingPiece := At(board, from);
      var capturedPiece := At(board, to);
      board := Put(board, to, movingPiece);
      board := Put(board, from, None);
      inCheck := IsInCheck(color);
      board := Put(board, from, movingPiece);
      board := Put(board, to, capturedPiece);
      BoardExt(board, old(board));
    }

    /** `canCastle(kingFrom, kingTo)`, reached for an unmoved king moving two
        files along its rank. */
    method CanCastle(kingFrom: Sq, kingTo: Sq) returns (ok: bool)
      requires kingTo.rank == kingFrom.rank && Abs(kingTo.file - kingFrom.file) == 2
      ensures ok == ChessRules.CanCastle(board, kingFrom, kingTo)
    {
      var piece := At(board, kingFrom);
      if piece.None? || piece.value.moved {
        return false;
      }
      var kingInCheck := IsInCheck(piece.value.color);
      if kingInCheck {
        return false;
      }
      var rookSquare := CastlingRookSquare(kingFrom, kingTo);
      var rook := At(board, rookSquare);
      if rook.None? || rook.value.kind != Rook || rook.value.moved {
        return false;
      }
      var empty := IsCastlingPathEmpty(kingFrom, kingTo);
      if !empty {
        return false;
      }
      ok := IsCastlingPathSafe(kingFrom, kingTo, Opponent(piece.value.color));
    }

    /** The emptiness scan of `canCastle`: every square strictly between the
        king and the rook. */
    method IsCastlingPathEmpty(kingFrom: Sq, kingTo: Sq) returns (empty: bool)
      requires kingTo.rank == kingFrom.rank && Abs(kingTo.file - kingFrom.file) == 2
      ensures empty == CastlingPathEmpty(board, kingFrom, kingTo)
    {
      var rank := kingFrom.rank;
      var rookSquare := CastlingRookSquare(kingFrom, kingTo);
      var start := Min(kingFrom.file, rookSquare.file) + 1;
      var end := Max(kingFrom.file, rookSquare.file);
      for f := start to end
        invariant forall g | start <= g < f :: At(board, Square(g, rank)) == None
      {
        if board[rank][f].Some? {
          assert At(board, Square(f, rank)).Some?;
          return false;
        }
      }
      return true;
    }

    /** The attack scan of `canCastle`: the king's start, transit and
        destination squares, walked from the king toward its target. */
    method IsCastlingPathSafe(kingFrom: Sq, kingTo: Sq, enemy: Color) returns (safe: bool)
      requires kingTo.rank == kingFrom.rank && Abs(kingTo.file - kingFrom.file) == 2
      ensures safe == CastlingPathSafe(board, kingFrom, kingTo, enemy, 3)
    {
      var rank := kingFrom.rank;
      var direction := if kingTo.file > kingFrom.file then 1 else -1;
      var f := kingFrom.file;
      ghost var k := 0;
      while f != kingTo.file + direction
        invariant 0 <= k <= 3 && f == Toward(kingFrom.file, kingTo.file, k)
        invariant CastlingPathSafe(board, kingFrom, kingTo, enemy, k)
        decreases 3 - k
      {
        var sq: Sq := Square(f, rank);
        var attacked := IsSquareUnderAttack(sq, enemy);
        if attacked {
          return false;
        }
        f := f + direction;
        k := k + 1;
      }
      return true;
    }

    /** `isValidMove(from, to)`: colour and target checks, the move shape of
        the piece, and the self-check filter. */
    method IsValidMove(from: Sq, to: Sq) returns (valid: bool)
      modifies this
      ensures unchanged(this)
      ensures valid == ChessRules.IsValidMove(State(), from, to)
    {
      var piece := At(board, from);
      if piece.None? || piece.value.color != currentTurn {
        return false;
      }
      var target := At(board, to);
      if target.Some? && target.value.color == piece.value.color {
        return false;
      }
      var p := piece.value;
      var df := Abs(to.file - from.file);
      var dr := Abs(to.rank - from.rank);
      var basic := false;
      match p.kind {
        case Pawn =>
          var direction := Forward(p.color);
          var startRank := PawnStartRank(p.color);
          if to.file == from.file && target.None? {
            if to.rank == from.rank + direction {
              basic := true;
            } else if from.rank == startRank && to.rank == from.rank + 2 * direction {
              var between: Sq := Square(from.file, from.rank + direction);
              if At(board, between).None? {
                basic := true;
              }
            }
          } else if df == 1 && to.rank == from.rank + direction {
            if target.Some? {
              basic := true;
            } else if enPassantTarget == Some(to) {
              basic := true;
            }
          }
        case Knight =>
          basic := (df == 2 && dr == 1) || (df == 1 && dr == 2);
        case Bishop =>
          if df == dr && df > 0 {
            basic := IsPathClear(from, to);
          }
        case Rook =>
          if (df == 0 || dr == 0) && df + dr > 0 {
            basic := IsPathClear(from, to);
          }
        case Queen =>
          if (df == dr || df == 0 || dr == 0) && df + dr > 0 {
            basic := IsPathClear(from, to);
          }
        case King =>
          if df <= 1 && dr <= 1 && df + dr > 0 {
            basic := true;
          } else if !p.moved && dr == 0 && df == 2 {
            basic := CanCastle(from, to);
          }
      }
      assert basic == ShapeOk(State(), p, from, to);
      if !basic {
        return false;
      }
      var inCheck := WouldBeInCheck(from, to, p.color);
      valid := !inCheck;
    }

    /** The first half of `makeMove`: the captured piece's name, the en-passant
        capture and the castling rook move, applied to copies of the board and
        the name map. */
    method CaptureAndCastle(from: Sq, to: Sq) returns (b: Board, names: map<Sq, string>,
        enPassantCapture: Option<Piece>, capturedPieceName: Option<string>,
        castlingRookMove: Option<RookMove>)
      requires Valid() && At(board, from).Some?
      ensures var g := State();
        var piece := At(board, from).value;
        var isEp := IsEnPassant(g, piece, to);
        var victim: Sq := if isEp then EnPassantVictim(piece.color, to) else to;
        var b1 := if isEp then Put(board, victim, None) else board;
        var names1 := if isEp then squareToPieceName - {victim} else squareToPieceName;
        var rookFrom := CastlingRookSquare(from, to);
        var rookTo: Sq := if IsCastling(piece, from, to) then CastlingRookTarget(from, to) else rookFrom;
        && enPassantCapture == (if isEp then At(board, victim) else None)
        && capturedPieceName == (if isEp then Lookup(squareToPieceName, victim)
                                 else if At(board, to).Some? then Lookup(squareToPieceName, to) else None)
        && b == (if IsCastling(piece, from, to) then Put(Put(b1, rookTo, At(b1, rookFrom)), rookFrom, None) else b1)
        && names == (if IsCastling(piece, from, to)
                     then SetName(names1 - {rookFrom}, rookTo, Lookup(names1, rookFrom)) else names1)
        && castlingRookMove == (if IsCastling(piece, from, to)
                                then Some(RookMove(rookFrom, rookTo, Lookup(names1, rookFrom))) else None)
    {
      b, names := board, squareToPieceName;
      var piece := At(b, from).value;
      var captured := At(b, to);
      capturedPieceName := None;
      if captured.Some? {
        capturedPieceName := Lookup(names, to);
      }

      // en passant
      enPassantCapture := None;
      if piece.kind == Pawn && enPassantTarget == Some(to) && captured.None? {
        var captureSquare := EnPassantVictim(piece.color, to);
        enPassantCapture := At(b, captureSquare);
        capturedPieceName := Lookup(names, captureSquare);
        b := Put(b, captureSquare, None);
        names := names - {captureSquare};
      }

      // castling
      castlingRookMove := None;
      if piece.kind == King && Abs(to.file - from.file) == 2 {
        var rookFrom := CastlingRookSquare(from, to);
        var rookTo := CastlingRookTarget(from, to);
        var rook := At(b, rookFrom);
        b := Put(b, rookTo, rook);
        b := Put(b, rookFrom, None);
        var rookName := Lookup(names, rookFrom);
        names := SetName(names - {rookFrom}, rookTo, rookName);
        castlingRookMove := Some(RookMove(rookFrom, rookTo, rookName));
      }
    }

    /** The second half of `makeMove`: the piece is marked moved (and promoted
        when a kind is supplied for a pawn on the last rank), moved from `from`
        to `to`, the en-passant target is reset or set, and the piece's name
        follows it. */
    static method PlacePiece(b: Board, names: map<Sq, string>, piece: Piece, from: Sq, to: Sq,
                             promotion: Option<Kind>)
      returns (b': Board, names': map<Sq, string>, moved: Piece, needsPromotion: bool,
               target: Option<Sq>, pieceName: Option<string>)
      ensures moved == MovedPiece(piece, to, promotion)
      ensures needsPromotion == (piece.kind == Pawn && to.rank == PromotionRank(piece.color))
      ensures b' == Put(Put(b, to, Some(moved)), from, None)
      ensures target == if moved.kind == Pawn && Abs(to.rank - from.rank) == 2
                        then Some(Square(from.file, (from.rank + to.rank) / 2)) else None
      ensures target.Some? ==> 1 <= target.value.rank <= 6
      ensures pieceName == Lookup(names, from)
      ensures names' == if pieceName.Some? && pieceName.value != ""
                        then (names - {from})[to := pieceName.value] else names
    {
      moved := piece.(moved := true);
      needsPromotion := false;
      if piece.kind == Pawn {
        if to.rank == PromotionRank(piece.color) {
          needsPromotion := true;
          if promotion.Some? {
            moved := moved.(kind := promotion.value);
          }
        }
      }
      b' := Put(b, to, Some(moved));
      b' := Put(b', from, None);

      // en-passant target
      target := None;
      if moved.kind == Pawn && Abs(to.rank - from.rank) == 2 {
        target := Some(Square(from.file, (from.rank + to.rank) / 2));
      }

      names' := names;
      pieceName := Lookup(names, from);
      if pieceName.Some? && pieceName.value != "" {
        names' := (names - {from})[to := pieceName.value];
      }
    }

    /** `makeMove(from, to, promotionPiece)`: performs the move and returns its record. */
    method MakeMove(from: Sq, to: Sq, promotion: Option<Kind>) returns (result: MoveResult)
      requires Valid() && At(board, from).Some?
      modifies this
      ensures Valid()
      ensures (State(), result) == ChessRules.MakeMove(old(State()), from, to, promotion)
    {
      ghost var g := State();
      var piece := At(board, from).value;
      var captured := At(board, to);
      var b2, names2, enPassantCapture, capturedPieceName, castlingRookMove := CaptureAndCastle(from, to);
      var b, names, moved, needsPromotion, target, pieceName := PlacePiece(b2, names2, piece, from, to, promotion);
      var history := moveHistory + [HistoryEntry(from, to, moved, captured, enPassantCapture)];
      var turn := Opponent(currentTurn);
      var enPassantCaptureSquare: Option<Sq> := None;
      if enPassantCapture.Some? {
        enPassantCaptureSquare := Some(EnPassantVictim(piece.color, to));
      }
      result := MoveResult(moved, captured, from, to, pieceName, capturedPieceName,
                           enPassantCapture, enPassantCaptureSquare, castlingRookMove, needsPromotion);
      MakeMoveSteps(g, from, to, promotion, b2, names2, enPassantCapture, capturedPieceName,
                    castlingRookMove, Game(b, turn, turn, target, names, history), result);
      board, squareToPieceName, enPassantTarget, moveHistory := b, names, target, history;
      currentTurn, boardTurn := turn, turn;
    }

    /** `getLegalMoves(square)`: every destination passing `isValidMove`, in scan order. */
    method GetLegalMoves(square: Sq) returns (moves: seq<Sq>)
      modifies this
      ensures unchanged(this)
      ensures moves == LegalMoves(State(), square)
    {
      moves := [];
      var piece := At(board, square);
      if piece.None? || piece.value.color != currentTurn {
        return;
      }
      ghost var g := State();
      ghost var targets := ValidTargets(g, square);
      for rank := 0 to 8
        invariant unchanged(this)
        invariant moves == ScanUpTo(targets, rank, 0)
      {
        for file := 0 to 8
          invariant unchanged(this)
          invariant moves == ScanUpTo(targets, rank, file)
        {
          var to: Sq := Square(file, rank);
          var valid := IsValidMove(square, to);
          ValidTargetsMember(g, square, to);
          if valid {
            moves := moves + [to];
          }
        }
      }
    }

    /** `isCheckmate()`: in check, and no piece of the side to move has a legal move. */
    method IsCheckmate() returns (mate: bool)
      modifies this
      ensures unchanged(this)
      ensures mate == ChessRules.IsCheckmate(State())
    {
      var inCheck := IsInCheck(currentTurn);
      if !inCheck {
        return false;
      }
      ghost var g := State();
      for rank := 0 to 8
        invariant unchanged(this)
        invariant NoLegalMoveBefore(g, rank, 0)
      {
        for file := 0 to 8
          invariant unchanged(this)
          invariant NoLegalMoveBefore(g, rank, file)
        {
          var square: Sq := Square(file, rank);
          var piece := board[rank][file];
          if piece.Some? && piece.value.color == currentTurn {
            var legalMoves := GetLegalMoves(square);
            if |legalMoves| > 0 {
              return false;
            }
          }
          NoLegalMoveBeforeStep(g, rank, file);
        }
        NoLegalMoveBeforeNextRank(g, rank);
      }
      return true;
    }

    /** `isStalemate()`: not in check, and no piece of the side to move has a legal move. */
    method IsStalemate() returns (stale: bool)
      modifies this
      ensures unchanged(this)
      ensures stale == ChessRules.IsStalemate(State())
    {
      var inCheck := IsInCheck(currentTurn);
      if inCheck {
        return false;
      }
      ghost var g := State();
      for rank := 0 to 8
        invariant unchanged(this)
        invariant NoLegalMoveBefore(g, rank, 0)
      {
        for file := 0 to 8
          invariant unchanged(this)
          invariant NoLegalMoveBefore(g, rank, file)
        {
          var square: Sq := Square(file, rank);
          var piece := board[rank][file];
          if piece.Some? && piece.value.color == currentTurn {
            var legalMoves := GetLegalMoves(square);
            if |legalMoves| > 0 {
              return false;
            }
          }
          NoLegalMoveBeforeStep(g, rank, file);
        }
        NoLegalMoveBeforeNextRank(g, rank);
      }
      return true;
    }
  }
}
