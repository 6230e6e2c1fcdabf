/**
 * The browser move selector, `ChessAIBrowser` in js/chess-ai-browser.js: the
 * `loaded`/`loading` flags of its asynchronous load, the feature vector it
 * fills, the ranked candidate scan of `getBestMove` and the random fallback.
 * The network is a parameter `run` from the feature vector to its outputs
 * (`None` when inference throws); `Math.random` is a nondeterministic choice.
 */
module ChessAI {
  import opened Wrappers
  import opened ChessRules
  import opened MoveSelection
  import ChessEngine

  /** The game handle the selector receives, `null` when there is none. */
  function GameOf(game: ChessEngine.ChessGame?): Option<Game>
    reads game
  {
    if game == null then None else Some(game.State())
  }

  class ChessAIBrowser {
    var loaded: bool
    var loading: bool

    /** At most one load is in flight, and none once the model is loaded. */
    predicate Valid()
      reads this
    {
      !(loaded && loading)
    }

    constructor()
      ensures Valid() && !loaded && !loading
    {
      loaded := false;
      loading := false;
    }

    /** The synchronous start of `load()`: a no-op when the model is loaded or
        loading, and otherwise marks a load in flight. */
    method BeginLoad() returns (started: bool)
      requires Valid()
      modifies this
      ensures Valid()
      ensures started <==> !old(loaded) && !old(loading)
      ensures loaded == old(loaded)
      ensures loading == (old(loading) || started)
    {
      if loaded || loading {
        return false;
      }
      loading := true;
      return true;
    }

    /** The continuation of `load()` once creating the session succeeded
        (`created`) or threw: `loaded` is set only on success, and `loading`
        is cleared either way. The result is `load()`'s return value. */
    method FinishLoad(created: bool) returns (ok: bool)
      requires Valid() && loading
      modifies this
      ensures Valid()
      ensures ok == created && loaded == created && !loading
    {
      if created {
        loaded := true;
        loading := false;
        return true;
      }
      loading := false;
      return false;
    }

    /** `boardToFeatureVector(board)` for a board whose `turn` is `turn`. */
    method BoardToFeatureVector(board: Board, turn: Color) returns (features: array<real>)
      ensures fresh(features)
      ensures features[..] == Features(board, turn)
    {
      features := new real[FeatureCount](_ => 0.0);
      FillPlanes(features, board);
      ghost var target := Features(board, turn);
      PlanesDone(features[..], board, turn);
      FeatureFlags(board, turn);

      // side to move, castling rights, then two zero slots; each write
      // extends the fill by one slot (FilledStep)
      var idx := PlaneSlots;
      var side := if turn == White then 1.0 else 0.0;
      FilledStep(features[..], target, idx, side);
      features[idx] := side;
      idx := idx + 1;
      FilledStep(features[..], target, idx, 1.0);
      features[idx] := 1.0;
      idx := idx + 1;
      FilledStep(features[..], target, idx, 1.0);
      features[idx] := 1.0;
      idx := idx + 1;
      FilledStep(features[..], target, idx, 1.0);
      features[idx] := 1.0;
      idx := idx + 1;
      FilledStep(features[..], target, idx, 1.0);
      features[idx] := 1.0;
      idx := idx + 1;
      FilledStep(features[..], target, idx, 0.0);
      features[idx] := 0.0;
      idx := idx + 1;
      FilledStep(features[..], target, idx, 0.0);
      features[idx] := 0.0;
      idx := idx + 1;

      FeatureCountSlots(board, turn);
      FillCounts(features, board, target);
      idx := idx + 12;

      // the closing constants
      FilledStep(features[..], target, idx, 0.5);
      features[idx] := 0.5;
      idx := idx + 1;
      FilledStep(features[..], target, idx, 0.5);
      features[idx] := 0.5;
      idx := idx + 1;
      FilledStep(features[..], target, idx, 0.0);
      features[idx] := 0.0;
      idx := idx + 1;
      FilledStep(features[..], target, idx, 0.0);
      features[idx] := 0.0;
      idx := idx + 1;
      assert features[..] == target;
    }

    /** The one-hot loop of `boardToFeatureVector` over a zeroed vector. */
    static method FillPlanes(features: array<real>, board: Board)
      requires features.Length == FeatureCount
      requires forall j | 0 <= j < FeatureCount :: features[j] == 0.0
      modifies features
      ensures PlanesFilled(features[..], board, 64)
    {
      PlanesStart(features[..], board);
      for square := 0 to 64
        invariant PlanesFilled(features[..], board, square)
      {
        var rank := square / 8;
        var file := square % 8;
        var piece := board[rank][file];
        ghost var before := features[..];
        PlanesStep(before, board, square);
        if piece.Some? {
          var pieceIdx := PieceIndex(piece.value);
          features[pieceIdx * 64 + square] := 1.0;
        }
      }
    }

    /** The count loops of `boardToFeatureVector`: slots 775..786 receive the
        twelve piece counts over 8. */
    static method FillCounts(features: array<real>, board: Board, ghost target: seq<real>)
      requires FilledTo(features[..], target, 775) && |target| == FeatureCount
      requires forall n | 0 <= n < 12 :: target[775 + n] == CountSlot(board, n)
      modifies features
      ensures FilledTo(features[..], target, 787)
    {
      // the piece counts, white then black, kinds in P..K order
      for c := 0 to 2
        invariant FilledTo(features[..], target, 775 + c * 6)
      {
        FillColorCounts(features, board, target, c);
      }
    }

    /** One turn of the outer count loop: colour `c`'s six counts, kinds in
        P..K order, go to slots `775 + c * 6` onwards. */
    static method FillColorCounts(features: array<real>, board: Board, ghost target: seq<real>, c: int)
      requires 0 <= c < 2 && FilledTo(features[..], target, 775 + c * 6) && |target| == FeatureCount
      requires forall n | 0 <= n < 12 :: target[775 + n] == CountSlot(board, n)
      modifies features
      ensures FilledTo(features[..], target, 775 + c * 6 + 6)
    {
      var color := ColorAt(c);
      var idx := 775 + c * 6;
      for k := 0 to 6
        invariant idx == 775 + c * 6 + k && FilledTo(features[..], target, idx)
      {
        var count := CountPieces(board, color, KindAt(k));
        var value := count as real / 8.0;
        CountTarget(board, target, c, k);
        FilledStep(features[..], target, idx, value);
        features[idx] := value;
        idx := idx + 1;
      }
    }

    /** The count the loops compute for colour `c` and kind `k` is the slot
        the fill writes next. */
    static lemma CountTarget(board: Board, target: seq<real>, c: int, k: int)
      requires |target| == FeatureCount && 0 <= c < 2 && 0 <= k < 6
      requires forall n | 0 <= n < 12 :: target[775 + n] == CountSlot(board, n)
      ensures target[775 + c * 6 + k] == Count(board, ColorAt(c), KindAt(k)) as real / 8.0
    {
      CountSlotOf(board, c, k);
      assert target[775 + (c * 6 + k)] == CountSlot(board, c * 6 + k);
    }

    /** The inner count loops of `boardToFeatureVector`: the pieces of colour
        `color` and kind `kind`, square by square. */
    static method CountPieces(board: Board, color: Color, kind: Kind) returns (count: nat)
      ensures count == Count(board, color, kind)
    {
      count := 0;
      for rank := 0 to 8
        invariant count == CountUpTo(board, color, kind, rank, 0)
      {
        for file := 0 to 8
          invariant count == CountUpTo(board, color, kind, rank, file)
        {
          var piece := board[rank][file];
          if piece.Some? && piece.value.color == color && piece.value.kind == kind {
            count := count + 1;
          }
        }
      }
    }

    /** `getBestMove(board, chessGame)`: without a loaded model, the random
        fallback; otherwise the first acceptable candidate among the top
        `min(500, n)` ranked network outputs, and the fallback when inference
        throws, a candidate index lies past the board or no candidate is
        accepted. `run` is the network, `random` the fallback's draw. */
    method GetBestMove(board: Board, turn: Color, game: ChessEngine.ChessGame?,
                       run: seq<real> -> Option<Inference>, random: real) returns (m: Option<AIMove>)
      requires 0.0 <= random < 1.0
      modifies game
      ensures game != null ==> unchanged(game)
      ensures m == BestMove(loaded, board, GameOf(game), run(Features(board, turn)), random)
    {
      ghost var g := GameOf(game);
      if !loaded {
        m := GetRandomLegalMove(board, game, random);
        return;
      }
      var features := BoardToFeatureVector(board, turn);
      var out := run(features[..]);
      assert out == run(Features(board, turn));
      assert GameOf(game) == g;
      if out.None? {
        m := GetRandomLegalMove(board, game, random);
        return;
      }
      var evalScore := out.value.evalScore * 100.0;
      var ranked := Ranked(out.value.moveLogits);
      var end := ScanCandidates(board, game, ranked, Min(500, |ranked|));
      assert end == RankedChoice(board, g, out.value);
      if end.Found? {
        return Some(AIMove(end.from, end.to, evalScore));
      }
      m := GetRandomLegalMove(board, game, random);
    }

    /** The candidate loop of `getBestMove` over `ranked[..limit]`: the first
        candidate with a black piece on its origin that the game accepts, or
        `Threw` at the first index past the board. */
    static method ScanCandidates(board: Board, game: ChessEngine.ChessGame?, ranked: seq<int>, limit: int)
      returns (end: ScanEnd)
      requires 0 <= limit <= |ranked| && forall j | 0 <= j < |ranked| :: ranked[j] >= 0
      modifies game
      ensures game != null ==> unchanged(game)
      ensures end == ScanFrom(board, GameOf(game), ranked, 0, limit)
    {
      ghost var g := GameOf(game);
      var i := 0;
      while i < limit
        invariant 0 <= i <= limit
        invariant game != null ==> unchanged(game)
        invariant ScanFrom(board, g, ranked, i, limit) == ScanFrom(board, g, ranked, 0, limit)
      {
        var moveIdx := ranked[i];
        if moveIdx >= 4096 {
          // `board[fromRank]` is undefined and reading a square of it throws
          return Threw;
        }
        var fromSquare := moveIdx / 64;
        var toSquare := moveIdx % 64;
        var from := Square(fromSquare % 8, fromSquare / 8);
        var to := Square(toSquare % 8, toSquare / 8);
        assert (from, to) == DecodeMove(moveIdx);
        var piece := board[from.rank][from.file];
        if piece.Some? && piece.value.color == Black && game != null {
          var valid := game.IsValidMove(from, to);
          if valid {
            return Found(from, to);
          }
        }
        i := i + 1;
      }
      return Exhausted;
    }

    /** `getRandomLegalMove(board, chessGame)`: every legal move of every
        black piece of `board`, in square order, then the one at
        `Math.floor(random * moves.length)`. */
    method GetRandomLegalMove(board: Board, game: ChessEngine.ChessGame?, random: real)
      returns (m: Option<AIMove>)
      requires 0.0 <= random < 1.0
      modifies game
      ensures game != null ==> unchanged(game)
      ensures m == RandomMove(board, GameOf(game), random)
    {
      if game == null {
        return None;
      }
      var moves := CollectBlackMoves(board, game);
      if |moves| > 0 {
        m := Some(moves[PickIndex(random, |moves|)]);
      } else {
        m := None;
      }
    }

    /** The square loops of `getRandomLegalMove`: for each black piece of
        `board` in square order, the game's legal moves from its square. */
    static method CollectBlackMoves(board: Board, game: ChessEngine.ChessGame) returns (moves: seq<AIMove>)
      modifies game
      ensures unchanged(game)
      ensures moves == BlackMoves(board, game.State())
    {
      ghost var legal := LegalMovesOf(game.State());
      moves := [];
      for rank := 0 to 8
        invariant unchanged(game)
        invariant moves == BlackMovesUpTo(board, legal, rank, 0)
      {
        moves := CollectRank(board, game, legal, rank, moves);
      }
    }

    /** One pass of the file loop of `getRandomLegalMove`, over rank `rank`. */
    static method CollectRank(board: Board, game: ChessEngine.ChessGame, ghost legal: Sq -> seq<Sq>, rank: int, moves: seq<AIMove>)
      returns (moves': seq<AIMove>)
      requires 0 <= rank < 8 && legal == LegalMovesOf(game.State())
      requires moves == BlackMovesUpTo(board, legal, rank, 0)
      modifies game
      ensures unchanged(game)
      ensures moves' == BlackMovesUpTo(board, legal, rank + 1, 0)
    {
      moves' := moves;
      for file := 0 to 8
        invariant unchanged(game)
        invariant moves' == BlackMovesUpTo(board, legal, rank, file)
      {
        moves' := CollectSquare(board, game, legal, rank, file, moves');
      }
    }

    /** The body of the file loop: the moves of the piece on (file, rank), if it is black. */
    static method CollectSquare(board: Board, game: ChessEngine.ChessGame, ghost legal: Sq -> seq<Sq>, rank: int, file: int,
                                moves: seq<AIMove>) returns (moves': seq<AIMove>)
      requires 0 <= rank < 8 && 0 <= file < 8 && legal == LegalMovesOf(game.State())
      requires moves == BlackMovesUpTo(board, legal, rank, file)
      modifies game
      ensures unchanged(game)
      ensures moves' == BlackMovesUpTo(board, legal, rank, file + 1)
    {
      moves' := moves;
      var piece := board[rank][file];
      if piece.Some? && piece.value.color == Black {
        var from := Square(file, rank);
        var legalMoves := game.GetLegalMoves(from);
        assert legalMoves == legal(from);
        moves' := PushMoves(moves', from, legalMoves);
      }
    }

    /** `legalMoves.forEach(to => moves.push({from, to, evaluation: 0}))`. */
    static method PushMoves(moves: seq<AIMove>, from: Sq, legalMoves: seq<Sq>) returns (moves': seq<AIMove>)
      ensures moves' == moves + MovesFrom(from, legalMoves)
    {
      moves' := moves;
      for j := 0 to |legalMoves|
        invariant moves' == moves + MovesFrom(from, legalMoves[..j])
      {
        assert legalMoves[..j + 1][..j] == legalMoves[..j];
        moves' := moves' + [AIMove(from, legalMoves[j], 0.0)];
      }
      assert legalMoves[..|legalMoves|] == legalMoves;
    }
  }
}
