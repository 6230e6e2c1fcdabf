/**
 * The rules of the chess engine (`ChessGame` in js/chess-logic.js) stated as
 * pure functions over board values. The class `ChessEngine.ChessGame` runs the
 * same rules with the engine's loops and in-place updates, and each of its
 * methods is proved to compute the function of the same name here.
 *
 * Board coordinates follow the engine: `board[rank][file]`, files 0..7 are
 * 'a'..'h' and ranks 0..7 are '1'..'8'; the engine's loops scan squares rank
 * by rank, file by file.
 */
module ChessRules {
  import opened Wrappers

  datatype Color = White | Black

  function Opponent(c: Color): (o: Color)
    ensures o != c
  {
    if c == White then Black else White
  }

  /** The six piece letters P, N, B, R, Q, K (lower case for black in the engine). */
  datatype Kind = Pawn | Knight | Bishop | Rook | Queen | King

  /** A board record `{type, color, name, moved}`; `name` is the stable identity. */
  datatype Piece = Piece(kind: Kind, color: Color, name: string, moved: bool)

  datatype Square = Square(file: int, rank: int)

  predicate OnBoard(s: Square) {
    0 <= s.file < 8 && 0 <= s.rank < 8
  }

  type Sq = s: Square | OnBoard(s) witness Square(0, 0)

  type Row = r: seq<Option<Piece>> | |r| == 8
    witness [None, None, None, None, None, None, None, None]

  const EmptyRow: Row := [None, None, None, None, None, None, None, None]

  type Board = b: seq<Row> | |b| == 8
    witness [EmptyRow, EmptyRow, EmptyRow, EmptyRow, EmptyRow, EmptyRow, EmptyRow, EmptyRow]

  function At(b: Board, s: Sq): Option<Piece> {
    b[s.rank][s.file]
  }

  /** `board[rank][file] = x`. */
  function Put(b: Board, s: Sq, x: Option<Piece>): (b': Board)
    ensures At(b', s) == x
    ensures forall t: Sq :: t != s ==> At(b', t) == At(b, t)
  {
    b[s.rank := b[s.rank][s.file := x]]
  }

  lemma PutSame(b: Board, s: Sq)
    ensures Put(b, s, At(b, s)) == b
  {
    assert b[s.rank][s.file := b[s.rank][s.file]] == b[s.rank];
  }

  lemma BoardExt(b: Board, c: Board)
    requires forall t: Sq :: At(b, t) == At(c, t)
    ensures b == c
  {
    forall r | 0 <= r < 8
      ensures b[r] == c[r]
    {
      forall f | 0 <= f < 8
        ensures b[r][f] == c[r][f]
      {
        assert At(b, Square(f, r)) == At(c, Square(f, r));
      }
    }
  }

  // ---------------------------------------------------------------------------
  // Square labels ("e4") and scan indices

  /** `indicesToSquare`: the letter 'a' + file followed by the digit rank + 1. */
  function IndicesToSquare(file: int, rank: int): (text: string)
    requires 0 <= file < 8 && 0 <= rank < 8
    ensures |text| == 2 && 'a' <= text[0] <= 'h' && '1' <= text[1] <= '8'
  {
    [(97 + file) as char, (49 + rank) as char]
  }

  /** `squareToIndices`: (char code - 'a', parseInt(second char) - 1). */
  function SquareToIndices(text: string): (int, int)
    requires |text| >= 2 && '0' <= text[1] <= '9'
  {
    (text[0] as int - 97, text[1] as int - 48 - 1)
  }

  lemma IndicesRoundTrip(file: int, rank: int)
    requires 0 <= file < 8 && 0 <= rank < 8
    ensures SquareToIndices(IndicesToSquare(file, rank)) == (file, rank)
  {
  }

  lemma LabelRoundTrip(text: string)
    requires |text| == 2 && 'a' <= text[0] <= 'h' && '1' <= text[1] <= '8'
    ensures var (f, r) := SquareToIndices(text);
      0 <= f < 8 && 0 <= r < 8 && IndicesToSquare(f, r) == text
  {
    var (f, r) := SquareToIndices(text);
    assert IndicesToSquare(f, r)[0] == text[0] && IndicesToSquare(f, r)[1] == text[1];
  }

  /** Distinct squares have distinct labels, so comparing labels (as the engine
      does for `enPassantTarget`) is comparing squares. */
  lemma LabelInjective(s: Sq, t: Sq)
    requires IndicesToSquare(s.file, s.rank) == IndicesToSquare(t.file, t.rank)
    ensures s == t
  {
    IndicesRoundTrip(s.file, s.rank);
    IndicesRoundTrip(t.file, t.rank);
  }

  /** Scan order: `s` is visited before `t` by the rank/file loops. */
  predicate Before(s: Square, t: Square) {
    s.rank < t.rank || (s.rank == t.rank && s.file < t.file)
  }

  /** Squares listed in strictly increasing scan order. */
  predicate ScanOrdered(r: seq<Sq>) {
    forall i, j | 0 <= i < j < |r| :: Before(r[i], r[j])
  }

  /** The position (rank, file) of a rank/file loop, with (rank, 8) standing for
      the end of that rank. */
  predicate ScanPos(rank: int, file: int) {
    0 <= rank <= 8 && 0 <= file <= 8
  }

  // ---------------------------------------------------------------------------
  // Geometry

  function Abs(x: int): nat {
    if x < 0 then -x else x
  }

  /** Rank direction of a pawn: +1 for white, -1 for black. */
  function Forward(c: Color): int {
    if c == White then 1 else -1
  }

  function PawnStartRank(c: Color): int {
    if c == White then 1 else 6
  }

  function PromotionRank(c: Color): int {
    if c == White then 7 else 0
  }

  /** Coordinate `k` steps from `a` toward `b` (the `Math.sign` walk of `isPathClear`). */
  function Toward(a: int, b: int, k: int): int {
    if a < b then a + k else if b < a then a - k else a
  }

  function Dist(from: Square, to: Square): nat {
    var df := Abs(to.file - from.file);
    var dr := Abs(to.rank - from.rank);
    if df < dr then dr else df
  }

  /** Same file, same rank or same diagonal: the walk of `isPathClear` reaches `to`. */
  predicate Aligned(from: Square, to: Square) {
    var df := Abs(to.file - from.file);
    var dr := Abs(to.rank - from.rank);
    df == dr || df == 0 || dr == 0
  }

  function Step(from: Square, to: Square, k: int): Square {
    Square(Toward(from.file, to.file, k), Toward(from.rank, to.rank, k))
  }

  lemma StepOnBoard(from: Sq, to: Sq, k: int)
    requires Aligned(from, to) && 0 <= k <= Dist(from, to)
    ensures OnBoard(Step(from, to, k))
    ensures k == Dist(from, to) ==> Step(from, to, k) == to
  {
  }

  /** Every square strictly between `from` and `to` is empty. */
  predicate PathClear(b: Board, from: Sq, to: Sq)
    requires Aligned(from, to)
  {
    forall k | 0 < k < Dist(from, to) ::
      StepOnBoard(from, to, k); At(b, Step(from, to, k)) == None
  }

  // ---------------------------------------------------------------------------
  // Attacks

  /** `canPieceAttack`: the piece on `from` could capture on `to`, ignoring pins. */
  predicate CanPieceAttack(b: Board, from: Sq, to: Sq) {
    match At(b, from)
    case None => false
    case Some(p) =>
      var df := Abs(to.file - from.file);
      var dr := Abs(to.rank - from.rank);
      match p.kind
      case Pawn => df == 1 && to.rank == from.rank + Forward(p.color)
      case Knight => (df == 2 && dr == 1) || (df == 1 && dr == 2)
      case Bishop => df == dr && df > 0 && PathClear(b, from, to)
      case Rook => (df == 0 || dr == 0) && df + dr > 0 && PathClear(b, from, to)
      case Queen => (df == dr || df == 0 || dr == 0) && df + dr > 0 && PathClear(b, from, to)
      case King => df <= 1 && dr <= 1 && df + dr > 0
  }

  predicate AttacksFrom(b: Board, s: Sq, target: Sq, attacker: Color) {
    At(b, s).Some? && At(b, s).value.color == attacker && CanPieceAttack(b, s, target)
  }

  /** `isSquareUnderAttack(target, attacker)`. */
  ghost predicate Attacked(b: Board, target: Sq, attacker: Color) {
    exists s: Sq :: AttacksFrom(b, s, target, attacker)
  }

  predicate IsKingOf(b: Board, s: Sq, c: Color) {
    At(b, s).Some? && At(b, s).value.color == c && At(b, s).value.kind == King
  }

  /** The first king of colour `c` at position (rank, file) of the scan or later. */
  function FindKingFrom(b: Board, c: Color, rank: int, file: int): (r: Option<Sq>)
    requires ScanPos(rank, file)
    ensures r.Some? ==> IsKingOf(b, r.value, c) && !Before(r.value, Square(file, rank))
    ensures forall s: Sq ::
              !Before(s, Square(file, rank)) && (r.None? || Before(s, r.value)) ==> !IsKingOf(b, s, c)
    decreases 8 - rank, 8 - file
  {
    if rank == 8 then None
    else if file == 8 then FindKingFrom(b, c, rank + 1, 0)
    else if IsKingOf(b, Square(file, rank), c) then Some(Square(file, rank))
    else FindKingFrom(b, c, rank, file + 1)
  }

  /** `findKing`: the first king of that colour in scan order, or none. */
  function FindKing(b: Board, c: Color): Option<Sq> {
    FindKingFrom(b, c, 0, 0)
  }

  /** `isInCheck`: the king of colour `c` is attacked; false when there is no king. */
  ghost predicate IsInCheck(b: Board, c: Color) {
    match FindKing(b, c)
    case None => false
    case Some(k) => Attacked(b, k, Opponent(c))
  }

  /** The board as `wouldBeInCheck` sees it: only the moving piece is relocated. */
  function Relocate(b: Board, from: Sq, to: Sq): Board {
    Put(Put(b, to, At(b, from)), from, None)
  }

  ghost predicate WouldBeInCheck(b: Board, from: Sq, to: Sq, c: Color) {
    IsInCheck(Relocate(b, from, to), c)
  }

  // ---------------------------------------------------------------------------
  // Game state and move validation

  /** A `moveHistory` entry: `{from, to, piece, captured, enPassantCapture}`. */
  datatype HistoryEntry = HistoryEntry(from: Sq, to: Sq, piece: Piece,
                                       captured: Option<Piece>, enPassantCapture: Option<Piece>)

  /** The fields of `ChessGame` the rules read and write; `boardTurn` is `board.turn`. */
  datatype Game = Game(board: Board, turn: Color, boardTurn: Color, enPassant: Option<Sq>,
                       names: map<Sq, string>, history: seq<HistoryEntry>)

  /** An en-passant target is the square skipped by a two-rank pawn move, so it
      is never on the first or last rank. */
  predicate EnPassantInRange(g: Game) {
    g.enPassant.Some? ==> 1 <= g.enPassant.value.rank <= 6
  }

  function Min(a: int, b: int): int { if a < b then a else b }
  function Max(a: int, b: int): int { if a < b then b else a }

  /** The rook square used by castling toward `kingTo`. */
  function CastlingRookSquare(kingFrom: Sq, kingTo: Sq): Sq {
    Square(if kingTo.file > kingFrom.file then 7 else 0, kingFrom.rank)
  }

  /** `canCastle(kingFrom, kingTo)`, called for a king moving two files along its rank. */
  ghost predicate CanCastle(b: Board, kingFrom: Sq, kingTo: Sq)
    requires kingTo.rank == kingFrom.rank && Abs(kingTo.file - kingFrom.file) == 2
  {
    match At(b, kingFrom)
    case None => false
    case Some(k) =>
      var rookSq := CastlingRookSquare(kingFrom, kingTo);
      var rank := kingFrom.rank;
      var enemy := Opponent(k.color);
      && !k.moved
      && !IsInCheck(b, k.color)
      && At(b, rookSq).Some?
      && At(b, rookSq).value.kind == Rook
      && !At(b, rookSq).value.moved
      && CastlingPathEmpty(b, kingFrom, kingTo)
      && CastlingPathSafe(b, kingFrom, kingTo, enemy, 3)
  }

  /** Every square strictly between the king and the castling rook is empty. */
  predicate CastlingPathEmpty(b: Board, kingFrom: Sq, kingTo: Sq)
    requires kingTo.rank == kingFrom.rank && Abs(kingTo.file - kingFrom.file) == 2
  {
    var rookSq := CastlingRookSquare(kingFrom, kingTo);
    forall f | Min(kingFrom.file, rookSq.file) < f < Max(kingFrom.file, rookSq.file) ::
      At(b, Square(f, kingFrom.rank)) == None
  }

  /** None of the first `n` squares the castling king stands on or crosses
      (its start, transit and destination squares) is attacked by `enemy`. */
  ghost predicate CastlingPathSafe(b: Board, kingFrom: Sq, kingTo: Sq, enemy: Color, n: int)
    requires kingTo.rank == kingFrom.rank && Abs(kingTo.file - kingFrom.file) == 2
  {
    forall k | 0 <= k < n && k <= 2 ::
      var s: Sq := Square(Toward(kingFrom.file, kingTo.file, k), kingFrom.rank);
      !Attacked(b, s, enemy)
  }

  /** The per-kind move shape of `isValidMove`, for the piece `p` standing on `from`. */
  ghost predicate ShapeOk(g: Game, p: Piece, from: Sq, to: Sq) {
    var b := g.board;
    var target := At(b, to);
    var df := Abs(to.file - from.file);
    var dr := Abs(to.rank - from.rank);
    match p.kind
    case Pawn =>
      var dir := Forward(p.color);
      if to.file == from.file && target.None? then
        || to.rank == from.rank + dir
        || (&& from.rank == PawnStartRank(p.color)
            && to.rank == from.rank + 2 * dir
            && At(b, Square(from.file, from.rank + dir)) == None)
      else
        df == 1 && to.rank == from.rank + dir && (target.Some? || g.enPassant == Some(to))
    case Knight => (df == 2 && dr == 1) || (df == 1 && dr == 2)
    case Bishop => df == dr && df > 0 && PathClear(b, from, to)
    case Rook => (df == 0 || dr == 0) && df + dr > 0 && PathClear(b, from, to)
    case Queen => (df == dr || df == 0 || dr == 0) && df + dr > 0 && PathClear(b, from, to)
    case King =>
      || (df <= 1 && dr <= 1 && df + dr > 0)
      || (!p.moved && dr == 0 && df == 2 && CanCastle(b, from, to))
  }

  /** `isValidMove(from, to)`. */
  ghost predicate IsValidMove(g: Game, from: Sq, to: Sq) {
    match At(g.board, from)
    case None => false
    case Some(p) =>
      && p.color == g.turn
      && !(At(g.board, to).Some? && At(g.board, to).value.color == p.color)
      && ShapeOk(g, p, from, to)
      && !WouldBeInCheck(g.board, from, to, p.color)
  }

  // ---------------------------------------------------------------------------
  // Move execution

  datatype RookMove = RookMove(from: Sq, to: Sq, name: Option<string>)

  /** The record returned by `makeMove`. */
  datatype MoveResult = MoveResult(
    piece: Piece,
    captured: Option<Piece>,
    from: Sq,
    to: Sq,
    pieceName: Option<string>,
    capturedPieceName: Option<string>,
    enPassantCapture: Option<Piece>,
    enPassantCaptureSquare: Option<Sq>,
    castlingRookMove: Option<RookMove>,
    needsPromotion: bool)

  function Lookup(m: map<Sq, string>, s: Sq): Option<string> {
    if s in m then Some(m[s]) else None
  }

  /** `m[s] = v`; assigning `undefined` reads back like deleting the key. */
  function SetName(m: map<Sq, string>, s: Sq, v: Option<string>): map<Sq, string> {
    if v.Some? then m[s := v.value] else m - {s}
  }

  /** The square of the pawn taken en passant by a pawn of colour `c` landing on `to`. */
  function EnPassantVictim(c: Color, to: Sq): Sq
    requires 1 <= to.rank <= 6
  {
    Square(to.file, to.rank - Forward(c))
  }

  predicate IsEnPassant(g: Game, p: Piece, to: Sq) {
    p.kind == Pawn && g.enPassant == Some(to) && At(g.board, to).None?
  }

  predicate IsCastling(p: Piece, from: Sq, to: Sq) {
    p.kind == King && Abs(to.file - from.file) == 2
  }

  /** Where the rook lands when the king castles to `to`: `toFile - direction`. */
  function CastlingRookTarget(from: Sq, to: Sq): Sq
    requires Abs(to.file - from.file) == 2
  {
    Square(if to.file > from.file then to.file - 1 else to.file + 1, from.rank)
  }

  /** The moving piece as it stands after `makeMove`: marked moved, and given the
      promotion kind when one is supplied for a pawn reaching the last rank. */
  function MovedPiece(p: Piece, to: Sq, promotion: Option<Kind>): Piece {
    var promote := p.kind == Pawn && to.rank == PromotionRank(p.color) && promotion.Some?;
    p.(moved := true, kind := if promote then promotion.value else p.kind)
  }

  /** `makeMove(from, to, promotionPiece)`: the new game state and the result record.
      Pieces are values here, so `captured` and `enPassantCapture` are the
      records as they stood before the move. */
  function MakeMove(g: Game, from: Sq, to: Sq, promotion: Option<Kind>): (Game, MoveResult)
    requires At(g.board, from).Some?
    requires EnPassantInRange(g)
  {
    var piece := At(g.board, from).value;
    var final := MovedPiece(piece, to, promotion);
    var captured := At(g.board, to);
    var capturedName0 := if At(g.board, to).Some? then Lookup(g.names, to) else None;
    // en passant
    var isEp := IsEnPassant(g, piece, to);
    var victim: Sq := if isEp then EnPassantVictim(piece.color, to) else to;
    var epCapture := if isEp then At(g.board, victim) else None;
    var capturedName := if isEp then Lookup(g.names, victim) else capturedName0;
    var b1 := if isEp then Put(g.board, victim, None) else g.board;
    var names1 := if isEp then g.names - {victim} else g.names;
    // castling
    var isCastle := IsCastling(piece, from, to);
    var rookFrom := CastlingRookSquare(from, to);
    var rookTo: Sq := if isCastle then CastlingRookTarget(from, to) else rookFrom;
    var rookName := Lookup(names1, rookFrom);
    var b2 := if isCastle then Put(Put(b1, rookTo, At(b1, rookFrom)), rookFrom, None) else b1;
    var names2 := if isCastle then SetName(names1 - {rookFrom}, rookTo, rookName) else names1;
    var rookMove := if isCastle then Some(RookMove(rookFrom, rookTo, rookName)) else None;
    // the move itself
    var b3 := Put(Put(b2, to, Some(final)), from, None);
    var needsPromotion := piece.kind == Pawn && to.rank == PromotionRank(piece.color);
    var skipped: Sq := if Abs(to.rank - from.rank) == 2 then Square(from.file, (from.rank + to.rank) / 2) else from;
    var ep: Option<Sq> := if final.kind == Pawn && Abs(to.rank - from.rank) == 2 then Some(skipped) else None;
    var pieceName := Lookup(names2, from);
    var names3 := if pieceName.Some? && pieceName.value != ""
                  then (names2 - {from})[to := pieceName.value] else names2;
    var entry := HistoryEntry(from, to, final, captured, epCapture);
    var turn := Opponent(g.turn);
    var epSquare := if epCapture.Some? then Some(victim) else None;
    (Game(b3, turn, turn, ep, names3, g.history + [entry]),
     MoveResult(final, captured, from, to, pieceName, capturedName, epCapture, epSquare,
                rookMove, needsPromotion))
  }

  // ---------------------------------------------------------------------------
  // Legal moves and game status

  /** The squares `to` with `isValidMove(from, to)`. */
  ghost function ValidTargets(g: Game, from: Sq): set<Sq> {
    set file, rank | 0 <= file < 8 && 0 <= rank < 8 && IsValidMove(g, from, Square(file, rank))
      :: Square(file, rank)
  }

  lemma ValidTargetsMember(g: Game, from: Sq, to: Sq)
    ensures to in ValidTargets(g, from) <==> IsValidMove(g, from, to)
  {
    if IsValidMove(g, from, to) {
      assert to == Square(to.file, to.rank);
    }
  }

  /** The squares of `targets` that the rank/file loops visit before position
      (rank, file), in the order visited; (8, 0) is the end of the scan. */
  function ScanUpTo(targets: set<Sq>, rank: int, file: int): seq<Sq>
    requires ScanPos(rank, file) && (rank == 8 ==> file == 0)
    decreases rank, file
  {
    if file == 0 then (if rank == 0 then [] else ScanUpTo(targets, rank - 1, 8))
    else
      var s: Sq := Square(file - 1, rank);
      ScanUpTo(targets, rank, file - 1) + (if s in targets then [s] else [])
  }

  /** `getLegalMoves(square)`: the valid destinations in scan order, none for an
      empty square or a piece of the side not to move. */
  ghost function LegalMoves(g: Game, from: Sq): seq<Sq> {
    match At(g.board, from)
    case None => []
    case Some(p) => if p.color != g.turn then [] else ScanUpTo(ValidTargets(g, from), 8, 0)
  }

  /** No square visited before position (rank, file) of the scan has a legal move. */
  ghost predicate NoLegalMoveBefore(g: Game, rank: int, file: int) {
    forall s: Sq :: Before(s, Square(file, rank)) ==> LegalMoves(g, s) == []
  }

  lemma NoLegalMoveBeforeStep(g: Game, rank: int, file: int)
    requires 0 <= rank < 8 && 0 <= file < 8
    requires NoLegalMoveBefore(g, rank, file) && LegalMoves(g, Square(file, rank)) == []
    ensures NoLegalMoveBefore(g, rank, file + 1)
  {
    forall s: Sq | Before(s, Square(file + 1, rank))
      ensures LegalMoves(g, s) == []
    {
      if s != Square(file, rank) {
        assert Before(s, Square(file, rank));
      }
    }
  }

  lemma NoLegalMoveBeforeNextRank(g: Game, rank: int)
    requires NoLegalMoveBefore(g, rank, 8)
    ensures NoLegalMoveBefore(g, rank + 1, 0)
  {
  }

  ghost predicate NoLegalMove(g: Game) {
    forall s: Sq :: LegalMoves(g, s) == []
  }

  /** `isCheckmate()`. */
  ghost predicate IsCheckmate(g: Game) {
    IsInCheck(g.board, g.turn) && NoLegalMove(g)
  }

  /** `isStalemate()`. */
  ghost predicate IsStalemate(g: Game) {
    !IsInCheck(g.board, g.turn) && NoLegalMove(g)
  }

  // ---------------------------------------------------------------------------
  // The initial position

  function P(k: Kind, c: Color, name: string): Option<Piece> {
    Some(Piece(k, c, name, false))
  }

  /** The board built by `initializeBoard` from `pieceNameMap`. */
  const InitialBoard: Board := [
    [P(Rook, White, "White_rook2"), P(Knight, White, "White_knight2"), P(Bishop, White, "White_bishop2"),
     P(Queen, White, "White_queen"), P(King, White, "White_king"), P(Bishop, White, "White_bishop1"),
     P(Knight, White, "White_knight1"), P(Rook, White, "White_rook1")],
    [P(Pawn, White, "wp8"), P(Pawn, White, "wp7"), P(Pawn, White, "wp6"), P(Pawn, White, "wp5"),
     P(Pawn, White, "wp4"), P(Pawn, White, "wp3"), P(Pawn, White, "wp2"), P(Pawn, White, "wp1")],
    EmptyRow, EmptyRow, EmptyRow, EmptyRow,
    [P(Pawn, Black, "bp8"), P(Pawn, Black, "bp7"), P(Pawn, Black, "bp6"), P(Pawn, Black, "bp5"),
     P(Pawn, Black, "bp4"), P(Pawn, Black, "bp3"), P(Pawn, Black, "bp2"), P(Pawn, Black, "bp1")],
    [P(Rook, Black, "Black_rook_2"), P(Knight, Black, "Black_knight_2"), P(Bishop, Black, "Black_elephant2"),
     P(Queen, Black, "Black_queen"), P(King, Black, "Black_king"), P(Bishop, Black, "Black_bishop_1"),
     P(Knight, Black, "Black_knight_1"), P(Rook, Black, "Black_rook_1")]
  ]

  /** `squareToPieceName` for the squares at position (rank, file) of the scan
      or later: each occupied square maps to the name of the piece on it. */
  function NameMapFrom(b: Board, rank: int, file: int): (m: map<Sq, string>)
    requires ScanPos(rank, file)
    ensures forall s: Sq :: s in m <==> !Before(s, Square(file, rank)) && At(b, s).Some?
    ensures forall s: Sq :: s in m ==> m[s] == At(b, s).value.name
    decreases 8 - rank, 8 - file
  {
    if rank == 8 then map[]
    else if file == 8 then NameMapFrom(b, rank + 1, 0)
    else
      var rest := NameMapFrom(b, rank, file + 1);
      var s: Sq := Square(file, rank);
      match At(b, s)
      case None => rest
      case Some(p) => rest[s := p.name]
  }

  /** The state the `ChessGame` constructor builds. */
  function InitialGame(): Game {
    Game(InitialBoard, White, White, None, NameMapFrom(InitialBoard, 0, 0), [])
  }

  /** Every piece's identity is recorded under its square, and no identity is empty. */
  ghost predicate Consistent(b: Board, names: map<Sq, string>) {
    && (forall s: Sq :: s in names <==> At(b, s).Some?)
    && (forall s: Sq :: s in names ==> names[s] == At(b, s).value.name)
    && (forall s: Sq :: At(b, s).Some? ==> At(b, s).value.name != "")
  }

  ghost predicate NamesConsistent(g: Game) {
    Consistent(g.board, g.names)
  }
}
