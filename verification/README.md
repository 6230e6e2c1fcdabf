# A verified model of the game logic of a 3D portfolio site

The site shows an interactive room with a playable chess board, a TV console
with mini-games and a laptop desktop. This project models, in Dafny, the
parts of it that are pure game and window logic:

- **The chess rules engine** (`ChessGame`, js/chess-logic.js).
  - Data: an 8 x 8 board of `{type, color, name, moved}` records, the side to move,
    the en-passant target, the square-to-identity map and the move history.
  - Queries: square labels, king search, attack detection, path clearing,
    check, move validation with the self-check filter, castling, legal-move
    enumeration, checkmate and stalemate.
  - `makeMove`, with en passant, castling, promotion, the en-passant target,
    the identity map and the turn toggle.
  - `chess_rules.dfy` states these rules as functions over board values.
  - `chess_game.dfy` is the engine as a class. Its fields are updated in
    place and its queries are the engine's own rank/file loops. Each method is
    proved to compute the rule of the same name.
  - `chess_lemmas.dfy` proves what the rules guarantee.
- **The move selector** (`ChessAIBrowser`, js/chess-ai-browser.js).
  - The `loaded`/`loading` flags of `load`.
  - The 791-slot feature vector, filled into an array by the selector's
    loops.
  - The ranked candidate scan of `getBestMove`: decode a flat index into two
    squares, rank by logit, and accept the first of at most 500 candidates
    whose origin holds a black piece and which the engine accepts.
  - The random fallback `getRandomLegalMove`.
  - `move_selection.dfy` holds the specification functions and lemmas, and
    `chess_ai.dfy` the class.
- **The TV console** (js/tv-screen.js).
  - The game menu's wrap-around selection (`tv_menu.dfy`).
  - The snake game: its direction filter and its step rule (`snake.dfy`).
  - The Tetris game: collision, moving, rotating, locking and line clearing
    on a 20 x 10 grid. `tetris_grid.dfy` holds the specification functions
    and lemmas, and `tetris.dfy` the imperative game.
- **The laptop window manager** (js/laptop-screen.js, `window_manager.dfy`).
  - Five windows in a dictionary that open, close, minimise, maximise and
    come to the front.
  - Wheel scrolling of the topmost window under the pointer.
  - Window dragging, clamped to the canvas.

JavaScript's `null`/`undefined` is `Option` (`wrappers.dfy`).

Squares are `(file, rank)` values. The engine's labels (`"e4"`) are related to
them by `IndicesToSquare`/`SquareToIndices`, which are proved to be mutually
inverse on the board. Comparing squares therefore means the same as comparing
labels.

Pieces are values. The board never holds the same record twice, so updating a
record in place and replacing the value in its square are the same thing.

## Where the description of the system and its code differ

The model follows the code in each of these cases:

- **Side used by the move selector.** The selector hard-codes black as the
  side it plays (js/chess-ai-browser.js:117, 137). It never consults the
  side to move. `BlackMovesNeedBlackTurn` shows that with white to move the
  fallback list is empty.
- **How the self-check test simulates a move.** `wouldBeInCheck` does not
  simulate the move on a scratch copy. It mutates the board and restores it
  afterwards. It relocates only the moving piece: a pawn taken en passant
  stays on the board, and a castling rook stays where it is
  (js/chess-logic.js:176-194). `ChessEngine.ChessGame.WouldBeInCheck` mutates
  and restores the board the same way. It is proved to leave the object
  unchanged.
- **Promotion.** `makeMove` applies `promotionPiece` when one is given
  (js/chess-logic.js:384-386). The pawn's kind is left unfinalized only when
  none is given.
- **En passant.** `makeMove` treats any pawn landing on the empty en-passant
  target as an en-passant capture. It does not check that the move is
  diagonal (js/chess-logic.js:343).
- **Double step.** A pawn's double step is gated by its start rank, not by
  its `moved` flag (js/chess-logic.js:215, 221).

## Model

| member | source | states |
|---|---|---|
| ChessRules.Opponent | js/chess-logic.js:171 | the opponent of a colour is the other colour |
| ChessRules.Put | js/chess-logic.js:93-96 | `setPieceAt` changes exactly the one square it writes |
| ChessRules.IndicesToSquare | js/chess-logic.js:84-86 | a label is a file letter a..h followed by a rank digit 1..8 |
| ChessRules.IndicesRoundTrip | js/chess-logic.js:78-86 | `squareToIndices(indicesToSquare(f, r)) == [f, r]` on the board |
| ChessRules.LabelRoundTrip | js/chess-logic.js:78-86 | every well-formed label decodes to board indices that encode back to it |
| ChessRules.LabelInjective | js/chess-logic.js:84-86 | distinct squares have distinct labels, so label equality is square equality |
| ChessRules.StepOnBoard | js/chess-logic.js:315-327 | the walk of `isPathClear` between aligned squares stays on the board and ends on the destination |
| ChessRules.FindKingFrom | js/chess-logic.js:99-109 | the scan from a position returns a king of that colour at or after it, and no such king lies between the position and the result |
| ChessRules.ValidTargetsMember | js/chess-logic.js:196-276 | a square is a valid target exactly when `isValidMove` accepts the move |
| ChessRules.NoLegalMoveBeforeStep | js/chess-logic.js:443-454 | the "no legal move so far" state of the status loops survives a square without moves |
| ChessRules.NoLegalMoveBeforeNextRank | js/chess-logic.js:443-454 | the same state carries from the end of a rank to the start of the next |
| ChessRules.NameMapFrom | js/chess-logic.js:44-47 | the identity map holds a square exactly when a piece stands there, mapped to that piece's name |
| ChessEngine.Sign | js/chess-logic.js:316-317 | `Math.sign` is 1, -1 or 0 by the sign of its argument |
| ChessEngine.MakeMoveSteps | js/chess-logic.js:329-420 | the two halves of the imperative `makeMove` compose to the `MakeMove` rule |
| ChessEngine.ChessGame.constructor | js/chess-logic.js:5-76 | the initial position with white to move, no en-passant target, an empty history, and every piece's identity recorded under its square |
| ChessEngine.ChessGame.FindKing | js/chess-logic.js:99-109 | returns the first king of the colour in rank-major scan order, or none |
| ChessEngine.ChessGame.IsSquareUnderAttack | js/chess-logic.js:112-127 | true exactly when some piece of the attacking colour can attack the square |
| ChessEngine.ChessGame.CanPieceAttack | js/chess-logic.js:130-164 | the attack shape of each kind: pawn diagonals forward, knight L, sliding pieces along a clear line, king one step |
| ChessEngine.ChessGame.IsPathClear | js/chess-logic.js:315-327 | true exactly when every square strictly between the two aligned squares is empty |
| ChessEngine.ChessGame.IsInCheck | js/chess-logic.js:167-173 | the colour's king is attacked by the opponent; false when it has no king |
| ChessEngine.ChessGame.WouldBeInCheck | js/chess-logic.js:176-194 | the check test on the board with only the moving piece relocated; the object is left exactly as it was |
| ChessEngine.ChessGame.CanCastle | js/chess-logic.js:279-313 | the `canCastle` rule: unmoved king not in check, unmoved rook in the corner, empty path, no attacked square on the king's way |
| ChessEngine.ChessGame.IsCastlingPathEmpty | js/chess-logic.js:297-302 | every square strictly between king and rook is empty |
| ChessEngine.ChessGame.IsCastlingPathSafe | js/chess-logic.js:305-310 | none of the king's start, transit and destination squares is attacked |
| ChessEngine.ChessGame.IsValidMove | js/chess-logic.js:196-276 | computes the `IsValidMove` rule and leaves the object unchanged |
| ChessEngine.ChessGame.CaptureAndCastle | js/chess-logic.js:336-371 | the board and identity map after the en-passant removal and the rook move, with the captured name and rook record |
| ChessEngine.ChessGame.PlacePiece | js/chess-logic.js:373-401 | the piece is marked moved and promoted if asked; `needsPromotion` exactly for a pawn reaching the last rank; the en-passant target is the skipped square exactly after a two-rank pawn move; the name moves from `from` to `to` |
| ChessEngine.ChessGame.MakeMove | js/chess-logic.js:329-420 | the new state and the returned record are those of the `MakeMove` rule |
| ChessEngine.ChessGame.GetLegalMoves | js/chess-logic.js:422-437 | returns the `LegalMoves` list and leaves the object unchanged |
| ChessEngine.ChessGame.IsCheckmate | js/chess-logic.js:439-457 | in check and no piece of the side to move has a legal move |
| ChessEngine.ChessGame.IsStalemate | js/chess-logic.js:459-477 | not in check and no piece of the side to move has a legal move |
| ChessLemmas.ValidMoveRejects | js/chess-logic.js:196-201 | a move is rejected when the origin is empty, holds a piece of the other side, or the target holds a piece of the mover's colour |
| ChessLemmas.ValidMoveNoSelfCheck | js/chess-logic.js:176-194 | an accepted move leaves the mover's king unattacked once the moving piece is relocated |
| ChessLemmas.PawnMoveRules | js/chess-logic.js:213-236 | an accepted pawn move is one step forward onto an empty square, two steps from the start rank over two empty squares, or a diagonal step onto an enemy or onto the en-passant target |
| ChessLemmas.PawnShape | js/chess-logic.js:213-236 | the pawn case of the shape check allows exactly those three moves |
| ChessLemmas.SlidingMoveNeedsClearPath | js/chess-logic.js:242-258 | an accepted bishop, rook or queen move has every square strictly between origin and destination empty |
| ChessLemmas.KnightIgnoresBlockers | js/chess-logic.js:238-240 | a knight's shape depends only on the two squares, and is the L shape |
| ChessLemmas.AttackIsCaptureShape | js/chess-logic.js:130-164 | onto an occupied square every piece but the king attacks exactly where `isValidMove`'s shape lets it capture, and the king only where its shape reaches; a pawn attacks exactly the two squares diagonally forward, occupied or not |
| ChessLemmas.CastlingRequirements | js/chess-logic.js:266-268 | an accepted two-file king move has an unmoved king and corner rook, an empty path and no attacked square on the king's way |
| ChessLemmas.CastlingAccepted | js/chess-logic.js:266-275 | conversely, such a castling move is accepted exactly when it passes the self-check filter |
| ChessLemmas.MakeMoveTogglesTurn | js/chess-logic.js:403-406 | the turn passes to the opponent, `board.turn` follows it, and one history entry is appended |
| ChessLemmas.MakeMoveEnPassantTarget | js/chess-logic.js:390-395 | the en-passant target is set exactly after a pawn moved two ranks, to the skipped square |
| ChessLemmas.MakeMovePromotion | js/chess-logic.js:378-388 | the piece lands marked as moved; `needsPromotion` exactly for a pawn reaching the last rank; the promotion kind is applied only then |
| ChessLemmas.MakeMoveOrdinary | js/chess-logic.js:373-376 | an ordinary move empties the origin, puts the piece on the destination and changes no other square |
| ChessLemmas.MakeMoveEnPassant | js/chess-logic.js:341-350 | an en-passant move also removes the pawn one rank behind the destination, and reports it and its name |
| ChessLemmas.MakeMoveCastling | js/chess-logic.js:352-371 | a two-file king move puts the corner rook on `toFile - direction`, and its name travels with it |
| ChessLemmas.MakeMoveKeepsIdentities | js/chess-logic.js:336-401 | `makeMove` keeps every piece's identity recorded under the square it stands on |
| ChessLemmas.TransferKeepsIdentities | js/chess-logic.js:397-401 | moving a piece together with its map entry keeps identities consistent |
| ChessLemmas.RemoveKeepsIdentities | js/chess-logic.js:348-349 | removing a piece together with its map entry keeps identities consistent |
| ChessLemmas.KeepsIdentitiesOrdinary | js/chess-logic.js:373-401 | the identity invariant holds across an ordinary move |
| ChessLemmas.KeepsIdentitiesEnPassant | js/chess-logic.js:341-350 | the identity invariant holds across an en-passant capture |
| ChessLemmas.KeepsIdentitiesCastling | js/chess-logic.js:352-371 | the identity invariant holds across castling |
| ChessLemmas.InitialGameConsistent | js/chess-logic.js:5-76 | the initial position records every piece's identity under its square, and its (absent) en-passant target is in range |
| ChessLemmas.InitialRowNamed | js/chess-logic.js:6-42 | every piece of the initial position has a non-empty name |
| ChessLemmas.ScanUpToExact | js/chess-logic.js:427-434 | the rank/file loop lists each target visited so far, and nothing else |
| ChessLemmas.ScanUpToOrdered | js/chess-logic.js:427-434 | the loop lists squares in strictly increasing scan order |
| ChessLemmas.LegalMovesExact | js/chess-logic.js:422-437 | `getLegalMoves(from)` lists exactly the `to` with `isValidMove(from, to)` |
| ChessLemmas.LegalMovesOrdered | js/chess-logic.js:422-437 | `getLegalMoves` lists its squares in scan order, each once |
| ChessLemmas.NoLegalMoveMeansNoValidMove | js/chess-logic.js:443-456 | no square has a legal move exactly when no pair of squares passes `isValidMove` |
| ChessLemmas.CheckmateStalemateExclusive | js/chess-logic.js:439-477 | checkmate and stalemate are never both true; either holds exactly when the side to move has no legal move |
| MoveSelection.KindIndex | js/chess-ai-browser.js:38 | the piece map sends P..K to 0..5 |
| MoveSelection.PieceIndex | js/chess-ai-browser.js:46-48 | a piece's plane is in 0..11 |
| MoveSelection.PlaneOf | js/chess-ai-browser.js:46-48 | the plane of a colour and kind is in 0..11 |
| MoveSelection.PieceIndexInjective | js/chess-ai-browser.js:46-48 | two pieces share a plane exactly when they share kind and colour |
| MoveSelection.CountUpTo | js/chess-ai-browser.js:64-72 | the count over the squares visited so far is at most their number |
| MoveSelection.Count | js/chess-ai-browser.js:64-72 | a piece count is at most 64 |
| MoveSelection.Features | js/chess-ai-browser.js:34-83 | the feature vector has 791 slots |
| MoveSelection.SlotInjective | js/chess-ai-browser.js:49 | slot `plane*64 + rank*8 + file` is below 768 and names one (plane, square) pair |
| MoveSelection.FeaturePlanes | js/chess-ai-browser.js:40-51 | slot `plane*64 + rank*8 + file` is 1 exactly when that square holds a piece of that plane, else 0 |
| MoveSelection.PlanesDecode | js/chess-ai-browser.js:40-51 | each square is set in at most one plane, in exactly one when it is occupied, and in the plane of its piece |
| MoveSelection.FeatureFlags | js/chess-ai-browser.js:52-80 | slot 768 is 1 exactly for white to move; slots 769-772 are 1, 773-774 are 0, and 787-790 are 0.5, 0.5, 0, 0 |
| MoveSelection.FeatureCounts | js/chess-ai-browser.js:62-75 | slot `775 + colour*6 + kind` is that colour's count of that kind over 8 |
| MoveSelection.CountSlotOf | js/chess-ai-browser.js:62-75 | count slot `colour*6 + kind` is that colour's count of that kind over 8 |
| MoveSelection.CountSlotWhite | js/chess-ai-browser.js:62-75 | the first six count slots are white's |
| MoveSelection.CountSlotBlack | js/chess-ai-browser.js:62-75 | the next six count slots are black's |
| MoveSelection.FeatureCountSlots | js/chess-ai-browser.js:62-75 | slots 775..786 of the vector are the twelve count slots |
| MoveSelection.PlanesStart | js/chess-ai-browser.js:35 | the zeroed vector has no square filled in |
| MoveSelection.PlanesStep | js/chess-ai-browser.js:40-51 | one turn of the one-hot loop sets the slot of the square's piece, if any |
| MoveSelection.PlaneSlotIsFeature | js/chess-ai-browser.js:40-51 | after the loop, each plane slot is its feature |
| MoveSelection.PlanesDone | js/chess-ai-browser.js:40-52 | after 64 squares the first 768 slots are those of the feature vector |
| MoveSelection.FilledStep | js/chess-ai-browser.js:54-80 | each `features[idx++] = v` extends the filled prefix by one slot |
| MoveSelection.AllHits | js/chess-ai-browser.js:40-51 | a vector whose plane slots are the board's hits has them on every square visited so far |
| MoveSelection.CountIsPlaneSumUpTo | js/chess-ai-browser.js:40-75 | the count loops and the one-hot plane agree square by square |
| MoveSelection.PlaneSumStep | js/chess-ai-browser.js:64-72 | one more square adds the same to the count and to the plane sum |
| MoveSelection.SquareCounted | js/chess-ai-browser.js:40-51 | a square's slot in a plane is 1 exactly when the count loop counts it |
| MoveSelection.CountIsPlaneSum | js/chess-ai-browser.js:40-75 | each of the twelve counts equals the sum of its one-hot plane |
| MoveSelection.SquareNumber | js/chess-ai-browser.js:105-111 | a square's number is in 0..63 |
| MoveSelection.EncodeMove | js/chess-ai-browser.js:104-106 | a move's flat index is in 0..4095 |
| MoveSelection.DecodeEncode | js/chess-ai-browser.js:104-111 | decoding the flat index of a move gives back its two squares |
| MoveSelection.EncodeDecode | js/chess-ai-browser.js:104-111 | every index in 0..4095 is the flat index of the move it decodes to |
| MoveSelection.DecodedLabels | js/chess-ai-browser.js:104-114 | the labels built for a decoded index decode back to its squares, which is what `isValidMove` reads |
| MoveSelection.Insert | js/chess-ai-browser.js:99-100 | inserting an index into a ranking adds exactly that index |
| MoveSelection.RankFirst | js/chess-ai-browser.js:99-100 | ranking the first `n` candidates lists `n` candidate indices |
| MoveSelection.Ranked | js/chess-ai-browser.js:99-100 | the ranking lists as many indices as there are logits |
| MoveSelection.InsertRanks | js/chess-ai-browser.js:99-100 | insertion keeps the order: larger logit first, ties by index |
| MoveSelection.RankFirstRanks | js/chess-ai-browser.js:99-100 | the ranking of the first `n` candidates is ordered and holds exactly indices 0..n-1 |
| MoveSelection.RankedIsSortedPermutation | js/chess-ai-browser.js:99-100 | the stable descending sort is a permutation of the candidate indices, ordered by logit, ties by index |
| MoveSelection.ScanFoundIsFirst | js/chess-ai-browser.js:103-120 | a move found by the candidate loop is acceptable, is the first candidate not turned down, and is the decoded candidate |
| MoveSelection.RankedChoiceAcceptable | js/chess-ai-browser.js:99-119 | a move from the ranked path has a black piece on its origin, is accepted by `isValidMove`, and is among the top `min(500, n)` |
| MoveSelection.MovesFrom | js/chess-ai-browser.js:141-143 | one move `{from, to, evaluation: 0}` per legal destination, in order |
| MoveSelection.BlackMovesUpToExact | js/chess-ai-browser.js:134-146 | the list collected so far holds exactly the moves of black pieces visited so far to their legal destinations, with evaluation 0 |
| MoveSelection.BlackMovesRowExact | js/chess-ai-browser.js:134 | the same holds from the end of a rank to the start of the next |
| MoveSelection.BlackMovesStepExact | js/chess-ai-browser.js:135-145 | the same holds across one square |
| MoveSelection.BlackMovesStep | js/chess-ai-browser.js:135-145 | one square further appends that square's moves if it holds a black piece |
| MoveSelection.MovesFromExact | js/chess-ai-browser.js:141-143 | the moves pushed for a square are those from it to its legal destinations, with evaluation 0 |
| MoveSelection.BlackMovesExact | js/chess-ai-browser.js:129-146 | the fallback list holds exactly the moves from black pieces that `isValidMove` accepts, with evaluation 0 |
| MoveSelection.BlackMovesNeedBlackTurn | js/chess-ai-browser.js:137 | with white to move the fallback list is empty, because only black pieces are collected |
| MoveSelection.PickIndex | js/chess-ai-browser.js:149 | `Math.floor(random * n)` is a valid index for `random` in [0, 1) |
| MoveSelection.RandomMoveIsOk | js/chess-ai-browser.js:129-154 | the fallback returns null exactly without a game or without a move, and otherwise a move of its list |
| MoveSelection.BestMoveIsOk | js/chess-ai-browser.js:85-127 | the ranked move with evaluation `evalScore * 100` when the model is loaded, inference succeeds and a candidate qualifies; otherwise the fallback's result |
| MoveSelection.BestMoveIsLegal | js/chess-ai-browser.js:85-154 | on every path, a returned move has a black piece on its origin and passes `isValidMove` |
| ChessAI.ChessAIBrowser.constructor | js/chess-ai-browser.js:4-8 | neither loaded nor loading |
| ChessAI.ChessAIBrowser.BeginLoad | js/chess-ai-browser.js:10-13 | a no-op when loaded or loading; otherwise loading starts |
| ChessAI.ChessAIBrowser.FinishLoad | js/chess-ai-browser.js:24-31 | `loaded` becomes true only if the session was created; `loading` is cleared either way; the result says which |
| ChessAI.ChessAIBrowser.BoardToFeatureVector | js/chess-ai-browser.js:34-83 | the returned array is fresh and holds the feature vector |
| ChessAI.ChessAIBrowser.FillPlanes | js/chess-ai-browser.js:40-51 | the one-hot loop fills the 768 plane slots |
| ChessAI.ChessAIBrowser.FillCounts | js/chess-ai-browser.js:62-75 | the count loops write slots 775..786 |
| ChessAI.ChessAIBrowser.FillColorCounts | js/chess-ai-browser.js:63-74 | one colour's six counts, kinds in P..K order |
| ChessAI.ChessAIBrowser.CountTarget | js/chess-ai-browser.js:62-75 | the slot each count loop writes is that colour's count of that kind over 8 |
| ChessAI.ChessAIBrowser.CountPieces | js/chess-ai-browser.js:64-72 | the inner loops count the pieces of that colour and kind |
| ChessAI.ChessAIBrowser.GetBestMove | js/chess-ai-browser.js:85-127 | returns `BestMove` for the network's answer and the random draw, and leaves the game unchanged |
| ChessAI.ChessAIBrowser.ScanCandidates | js/chess-ai-browser.js:103-120 | the candidate loop ends with the first acceptable move, with none, or with the exception of reading past the board |
| ChessAI.ChessAIBrowser.GetRandomLegalMove | js/chess-ai-browser.js:129-154 | returns `RandomMove`: null without a game or a move, else the drawn move of the list |
| ChessAI.ChessAIBrowser.CollectBlackMoves | js/chess-ai-browser.js:132-146 | collects the fallback list and leaves the game unchanged |
| ChessAI.ChessAIBrowser.CollectRank | js/chess-ai-browser.js:135-145 | one rank of the collecting loops |
| ChessAI.ChessAIBrowser.CollectSquare | js/chess-ai-browser.js:136-144 | one square of the collecting loops |
| ChessAI.ChessAIBrowser.PushMoves | js/chess-ai-browser.js:141-143 | appends one move per legal destination |
| TVMenu.Prev | js/tv-screen.js:110 | `(s - 1 + n) % n` stays in range and is the previous game, wrapping from the first to the last |
| TVMenu.Next | js/tv-screen.js:117 | `(s + 1) % n` stays in range and is the next game, wrapping from the last to the first |
| TVMenu.PrevNextInverse | js/tv-screen.js:109-121 | left undoes right and right undoes left |
| TVMenu.NextTimes | js/tv-screen.js:116-121 | any number of right presses keeps the selection in range |
| TVMenu.NextTimesIsShift | js/tv-screen.js:116-121 | `k` right presses land on `(s + k) mod n` |
| TVMenu.FullCycle | js/tv-screen.js:116-121 | `n` right presses return to the start, and no fewer do |
| TVMenu.Menu.constructor | js/tv-screen.js:101-102 | inactive, first game selected, scroll target on it |
| TVMenu.Menu.HandleKey | js/tv-screen.js:105-126 | ignored while inactive; left/A and right/D step the selection with wrap-around and move the scroll target with it; Enter launches the selected game |
| TVMenu.Menu.Activate | js/tv-screen.js:188-189 | the console takes keys from now on; the selection and scroll target are kept |
| TVMenu.Menu.Deactivate | js/tv-screen.js:229-230 | the console ignores keys from now on; the selection and scroll target are kept |
| Snake.WellFormedIsShaped | js/tv-screen.js:575-599 | the segment-by-segment and the whole-body descriptions of a snake body agree |
| Snake.Advanced | js/tv-screen.js:584-596 | the new head is pushed on the front; the body grows by one on food and keeps its length otherwise |
| Snake.AdvanceKeepsShape | js/tv-screen.js:575-599 | an unblocked step keeps the body on the grid, free of repeats and connected |
| Snake.KeyOf | js/tv-screen.js:540-549 | w/s/a/d and the arrow keys name a direction, Escape leaves the game, any other key is ignored, and the match is case-sensitive |
| Snake.Turn | js/tv-screen.js:539-551 | a key sets a perpendicular direction or leaves the queued direction as it was |
| Snake.TurnNeverReverses | js/tv-screen.js:540-547 | no key makes the queued direction the reverse of the current one |
| Snake.NeverIntoNeck | js/tv-screen.js:540-547 | the next step never runs the head into the segment right behind it |
| Snake.StepKeepsInv | js/tv-screen.js:571-599 | an unblocked step keeps the game's invariant |
| Snake.NeverOwnOpposite | js/tv-screen.js:540-547 | no direction is its own reverse |
| Snake.CrashKeepsInv | js/tv-screen.js:580-582 | a blocked step ends the game and keeps the invariant |
| Snake.SnakeGame.constructor | js/tv-screen.js:526-537 | one segment at (10, 10) heading right, food at (15, 15), no score |
| Snake.SnakeGame.HandleKey | js/tv-screen.js:539-551 | only the queued direction changes, by the filter; Escape leaves the game |
| Snake.SnakeGame.Frame | js/tv-screen.js:571-599 | every 8th frame of a running game takes a step and resets the counter; other frames only count |
| Snake.SnakeGame.Step | js/tv-screen.js:573-599 | the direction becomes the queued one; a head off the grid or on the body ends the game with the body unchanged; otherwise the body advances, and eating scores a point and moves the food |
| Snake.SnakeGame.Crash | js/tv-screen.js:580-582 | the blocked step: the game ends, nothing else but the direction changes |
| Snake.SnakeGame.Advance | js/tv-screen.js:584-596 | the unblocked step: the body advances, and eating scores a point and moves the food |
| TetrisGrid.Spawn | js/tv-screen.js:884-902 | a spawned piece is one of the seven shapes, coloured 1..7, at column 3, row 0 |
| TetrisGrid.NoCollisionInBounds | js/tv-screen.js:933-946 | a piece that does not collide has every filled cell inside the columns, above the bottom, and on an empty cell when inside the grid |
| TetrisGrid.EmptyRow | js/tv-screen.js:976 | a fresh row is 10 zero cells |
| TetrisGrid.EmptyRows | js/tv-screen.js:857 | `k` fresh rows |
| TetrisGrid.EmptyGrid | js/tv-screen.js:857 | the starting grid is 20 x 10 |
| TetrisGrid.SpawnFitsEmptyGrid | js/tv-screen.js:884-902 | every spawned piece fits on the empty grid |
| TetrisGrid.Column | js/tv-screen.js:923 | a shape column read top to bottom |
| TetrisGrid.Reverse | js/tv-screen.js:923 | `reverse()` reverses |
| TetrisGrid.Rotate | js/tv-screen.js:923 | the rotated shape swaps rows and columns and is the clockwise quarter turn |
| TetrisGrid.RotateTwiceAt | js/tv-screen.js:923 | two quarter turns send each cell to the opposite corner position |
| TetrisGrid.RotateTwice | js/tv-screen.js:923 | two quarter turns make a half turn |
| TetrisGrid.HalfTurnTwice | js/tv-screen.js:923 | two half turns give back the shape |
| TetrisGrid.RotateFourTimes | js/tv-screen.js:920-931 | four rotations give back the original shape |
| TetrisGrid.Stamp | js/tv-screen.js:948-961 | the grid with the piece's colour written into exactly the cells it covers |
| TetrisGrid.StampPlacesPiece | js/tv-screen.js:948-961 | locking a piece that fits writes its colour into each of its cells, all of which were empty |
| TetrisGrid.StampedStart | js/tv-screen.js:950-951 | the lock loop starts with nothing written |
| TetrisGrid.StampedWrite | js/tv-screen.js:953-959 | writing one filled cell moves the loop on by one |
| TetrisGrid.StampedSkip | js/tv-screen.js:952 | an empty shape cell changes nothing |
| TetrisGrid.StampedNextRow | js/tv-screen.js:950-951 | the end of a shape row moves the loop to the next row |
| TetrisGrid.StampedDone | js/tv-screen.js:950-961 | after the loops the grid is the stamped grid |
| TetrisGrid.StampedNothing | js/tv-screen.js:955-958 | a cell above the top is met before any cell is written, so the grid is untouched when the game ends there |
| TetrisGrid.KeptCons | js/tv-screen.js:972-981 | clearing one more row from the bottom keeps it when it is not full and drops and counts it when it is |
| TetrisGrid.ClearingStart | js/tv-screen.js:973 | the clearing loop starts at the bottom row with nothing cleared |
| TetrisGrid.ClearingRow | js/tv-screen.js:974 | the row looked at is the next unscanned row, or an empty row pushed on top, which is never full |
| TetrisGrid.ClearingCut | js/tv-screen.js:974-979 | cutting a full row and pushing an empty one on top keeps the loop's position |
| TetrisGrid.ClearingPass | js/tv-screen.js:973-974 | passing a row that is not full moves the loop up one row |
| TetrisGrid.ClearingDone | js/tv-screen.js:972-981 | when the loop ends the grid is the cleared grid and the number of cuts is the number of full rows |
| TetrisGrid.KeptRows | js/tv-screen.js:972-981 | kept rows and removed rows add up to the grid, and each kept row is a row of the grid that is not full |
| TetrisGrid.KeptInOrder | js/tv-screen.js:972-981 | the surviving rows keep their relative order |
| TetrisGrid.NonFullRowsKept | js/tv-screen.js:972-981 | every row that is not full survives |
| TetrisGrid.NothingToClear | js/tv-screen.js:972-981 | a grid without full rows is left alone |
| TetrisGrid.ClearedShape | js/tv-screen.js:972-981 | after clearing, the grid is still 20 x 10 and no row is full |
| TetrisGrid.ClearedIdempotent | js/tv-screen.js:972-981 | clearing twice is clearing once |
| Tetris.TetrisGame.constructor | js/tv-screen.js:854-866 | an empty grid, no score, not over, and a freshly spawned piece |
| Tetris.TetrisGame.SpawnTetromino | js/tv-screen.js:884-902 | only the current piece changes, to the spawned one |
| Tetris.TetrisGame.CheckCollision | js/tv-screen.js:933-946 | true exactly when some filled cell lands outside the columns, below the bottom, or on an occupied cell of the grid |
| Tetris.TetrisGame.MoveTetromino | js/tv-screen.js:904-918 | a no-op once over; a move onto free cells is taken; a blocked move is undone, and a blocked downward move locks the piece |
| Tetris.TetrisGame.RotateTetromino | js/tv-screen.js:920-931 | the piece turns a quarter clockwise unless the turned piece collides or the game is over |
| Tetris.TetrisGame.LockTetromino | js/tv-screen.js:948-970 | a piece above the top ends the game and writes nothing; otherwise its colour is written, full rows are cleared at 100 points each, a new piece is spawned, and the game ends if it does not fit |
| Tetris.TetrisGame.ClearLines | js/tv-screen.js:972-981 | the grid becomes the cleared grid and the score rises by 100 per full row |
| Tetris.TetrisGame.Frame | js/tv-screen.js:995-1002 | while the game runs, every 30th frame moves the piece one row down and resets the counter |
| WindowManager.IndexOf | js/laptop-screen.js:25-51 | every window has a place in the declaration order |
| WindowManager.Clamp | js/laptop-screen.js:247-248 | `Math.max(lo, Math.min(hi, v))` lies in [lo, hi] and leaves values already there alone |
| WindowManager.ClampIdempotent | js/laptop-screen.js:247-248 | clamping a clamped value changes nothing |
| WindowManager.MaxZIsMax | js/laptop-screen.js:922 | no window lies above `maxZ` |
| WindowManager.MaxZAttained | js/laptop-screen.js:922 | `maxZ` is the zIndex of some window |
| WindowManager.ToggleMax | js/laptop-screen.js:901-916 | maximising saves the geometry and fills the screen below the top bar; restoring brings the saved geometry back; nothing else changes |
| WindowManager.MaximizeThenRestore | js/laptop-screen.js:901-916 | maximising then restoring gives back the window exactly |
| WindowManager.RestoreThenMaximize | js/laptop-screen.js:901-916 | restoring then maximising gives back a full-screen maximised window and its saved geometry exactly |
| WindowManager.TopmostUnique | js/laptop-screen.js:338-354 | at most one window is the topmost under the pointer |
| WindowManager.FrontedAbove | js/laptop-screen.js:921-925 | `bringToFront` puts the window strictly above every other one and touches no other window |
| WindowManager.FrontedDistinct | js/laptop-screen.js:921-925 | after `bringToFront` open windows have distinct zIndex values |
| WindowManager.FrontedShaped | js/laptop-screen.js:921-925 | `bringToFront` keeps every window in order |
| WindowManager.ReplaceWindow | js/laptop-screen.js:827-920 | updating one window keeps the dictionaries in shape |
| WindowManager.Desktop.constructor | js/laptop-screen.js:25-67 | the dictionary is exactly the five declared windows with their titles and geometry: closed, at zIndex 1, neither maximised nor minimised, scroll offset and scroll limit 0, each original geometry recorded |
| WindowManager.Desktop.BringToFront | js/laptop-screen.js:921-925 | the window's zIndex becomes the maximum plus one |
| WindowManager.Desktop.ToggleWindow | js/laptop-screen.js:827-846 | a closed window opens unminimised and unscrolled; a minimised one is restored; in every case it comes to the front and ends visible above every other window |
| WindowManager.Desktop.FinishClose | js/laptop-screen.js:857-871 | the window is closed, unminimised and unscrolled, and a maximised one gets its saved geometry back and is no longer maximised |
| WindowManager.Desktop.MinimizeWindow | js/laptop-screen.js:873-888 | only the window's `minimized` flag is set |
| WindowManager.Desktop.RestoreWindow | js/laptop-screen.js:889-900 | the window is unminimised and brought to the front |
| WindowManager.Desktop.ToggleMaximize | js/laptop-screen.js:901-920 | the maximise toggle with its saved geometry, then `bringToFront` |
| WindowManager.Desktop.TopmostUnder | js/laptop-screen.js:339-346 | finds the visible window under the pointer with the largest zIndex, and none exactly when no visible window is under the pointer |
| WindowManager.Desktop.Wheel | js/laptop-screen.js:338-354 | whenever a visible window is under the pointer there is a topmost one; only that window scrolls, by half the delta, clamped to [0, maxScrollY], and only if it has something to scroll |
| WindowManager.Desktop.MeasureContent | js/laptop-screen.js:1366-1368 | `maxScrollY` becomes the content height beyond the visible `h - 140`, or 0; it is positive exactly when the content does not fit, and no other field or window changes |
| WindowManager.Desktop.Drag | js/laptop-screen.js:241-249 | a window neither maximised nor minimised follows the pointer, clamped to [0, width - 100] x [0, height - 100]; others do not move |

## Left out

- Drawing, animations, redraw flags, tooltips, audio and the Three.js scene are not modelled. The one window field that drawing writes, `maxScrollY`, is modelled by `WindowManager.Desktop.MeasureContent`.
- js/main.js is not part of this model. It is the caller that finalises promotions, pokes the board and runs the turns.
- The other fields of `ChessGame` are not modelled: `gameOver`, `aiThinking`, `lastEval`, `promotionCallback` and `pieceNameMap` after construction. No core operation reads them.
- ChessLemmas.MakeMoveKeepsIdentities: excludes two calls that validation never makes. One is a move onto its own square. The other is a pawn stepping straight onto the en-passant target from the square of the pawn it would capture.
- `getPieceAt`/`setPieceAt` are folded into `ChessRules.At`/`ChessRules.Put`. They are direct indexing of the board.
- ChessEngine.ChessGame.MakeMove: requires a piece on `from`. Without one, `makeMove` throws on `piece.type`. Beyond that it trusts its caller and does not re-validate, as in the source.
- ChessEngine.ChessGame.MakeMove: the history entry and the result are value snapshots. In the source they share the piece record with the board, so later changes to the piece show through them (aliasing).
- ChessAI.ChessAIBrowser.BeginLoad: `load` is split at its `await`. `BeginLoad` is the synchronous start and `FinishLoad` the continuation. Creating the ONNX session is the parameter `created`, and concurrent callers are not modelled.
- ChessAI.ChessAIBrowser.GetBestMove: the ONNX inference is a parameter `run` from the feature vector to the move logits and evaluation, or `None` when it throws. `Math.random` is the parameter `random` in [0, 1).
- ChessAI.ChessAIBrowser.BoardToFeatureVector: the count slots are exact rationals (count / 8), not Float32 values. The evaluation `evalScore * 100` is likewise a real product without rounding.
- Snake.SnakeGame.HandleKey: takes the key already classified by `Snake.KeyOf` (w/s/a/d, the arrows, Escape, anything else) rather than the event's key string. What Escape does after leaving the game is not modelled.
- Snake.SnakeGame.Frame: the food's new cell is the parameter `newFood`, any cell of the grid, standing for the two `Math.random` draws. The step also treats the current tail cell as occupied, as the source does.
- Tetris.TetrisGame.SpawnTetromino: the two random picks are parameters (`shapeIndex`, `colorIndex`).
- The Tetris key handler (js/tv-screen.js:867-878) is not modelled. It only calls `moveTetromino` and `rotateTetromino`.
- Escape in the menu and the games (`exitGame`), and the launch of a game after Enter, are not modelled. `TVMenu.Menu.HandleKey` returns the game to launch.
- Pong and Space Invaders are not modelled. Their state is floating-point ball and alien physics driven by random fire.
- WindowManager.Desktop.FinishClose: `closeWindow` runs its body after a 250 ms `setTimeout`. The model is that body as its own step. The closing animation before it changes no window field.
- Dragging the scroll bar, hover hit-testing, the clipboard and `window.open` calls of the desktop are not modelled.
- WindowManager.Desktop.Wheel: `scrollY` and `maxScrollY` are reals. JavaScript's floating-point rounding of the addition `scrollY + deltaY * 0.5` is not modelled. The same holds for the real-valued geometry of `Drag` and `ToggleMax`.
- WindowManager.Desktop.MeasureContent: the content height is the parameter `totalHeight`. In the source each window's drawing computes it from its own layout, mostly the length of its item list (js/laptop-screen.js:1366, 1396, 1490, 1555, 1609).
- TVMenu.Menu.Activate: models only the `isActive` flag. The material swap, redraw and background music of `activate` and `deactivate` are drawing and audio.
