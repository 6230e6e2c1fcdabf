/**
 * What the browser move selector (`ChessAIBrowser` in js/chess-ai-browser.js)
 * computes, stated as functions over board values: the 791-slot feature
 * vector handed to the network, the decoding of a flat move index into two
 * squares, the ranking of the network's move logits, the scan for the first
 * acceptable ranked move, and the list the random fallback draws from.
 * The class `ChessAI.ChessAIBrowser` computes these with the selector's own
 * loops and is proved against them.
 */
module MoveSelection {
  import opened Wrappers
  import opened ChessRules
  import ChessLemmas

  // ---------------------------------------------------------------------------
  // The feature vector

  const FeatureCount := 791
  const PlaneSlots := 768

  /** The selector's piece map P, N, B, R, Q, K -> 0..5. */
  function KindIndex(k: Kind): (i: int)
    ensures 0 <= i < 6
  {
    match k
    case Pawn => 0
    case Knight => 1
    case Bishop => 2
    case Rook => 3
    case Queen => 4
    case King => 5
  }

  /** The inverse of `KindIndex`, also the order of the count slots. */
  function KindAt(i: int): Kind
    requires 0 <= i < 6
  {
    if i == 0 then Pawn else if i == 1 then Knight else if i == 2 then Bishop
    else if i == 3 then Rook else if i == 4 then Queen else King
  }

  /** The count slots list white before black. */
  function ColorAt(i: int): Color
    requires 0 <= i < 2
  {
    if i == 0 then White else Black
  }

  /** The plane of a piece: its kind index, plus 6 for black. */
  function PieceIndex(p: Piece): (i: int)
    ensures 0 <= i < 12
  {
    PlaneOf(p.color, p.kind)
  }

  /** The plane of colour `c` and kind `k`. */
  function PlaneOf(c: Color, k: Kind): (i: int)
    ensures 0 <= i < 12
  {
    KindIndex(k) + (if c == Black then 6 else 0)
  }

  /** Two pieces share a plane exactly when they share kind and colour. */
  lemma PieceIndexInjective(p: Piece, q: Piece)
    ensures PieceIndex(p) == PieceIndex(q) <==> p.kind == q.kind && p.color == q.color
  {
  }

  /** Slot `k*64 + rank*8 + file` of the vector is set: the square holds a piece of plane `k`. */
  predicate OneHot(b: Board, k: int, rank: int, file: int)
    requires 0 <= rank < 8 && 0 <= file < 8
  {
    var x := At(b, Square(file, rank));
    x.Some? && PieceIndex(x.value) == k
  }

  /** The pieces of colour `c` and kind `k` on the squares the count loops
      visit before position (rank, file). */
  function CountUpTo(b: Board, c: Color, k: Kind, rank: int, file: int): (n: nat)
    requires ScanPos(rank, file) && (rank == 8 ==> file == 0)
    ensures n <= rank * 8 + file
    decreases rank, file
  {
    if file == 0 then (if rank == 0 then 0 else CountUpTo(b, c, k, rank - 1, 8))
    else
      var x := At(b, Square(file - 1, rank));
      CountUpTo(b, c, k, rank, file - 1) + (if x.Some? && x.value.color == c && x.value.kind == k then 1 else 0)
  }

  /** The number of pieces of colour `c` and kind `k` on the board. */
  function Count(b: Board, c: Color, k: Kind): (n: nat)
    ensures n <= 64
  {
    CountUpTo(b, c, k, 8, 0)
  }

  /** Slot `i` of `boardToFeatureVector(board)` for a board whose `turn` is `turn`. */
  function FeatureAt(b: Board, turn: Color, i: int): real
    requires 0 <= i < FeatureCount
  {
    if i < PlaneSlots then
      var square := i % 64;
      if OneHot(b, i / 64, square / 8, square % 8) then 1.0 else 0.0
    else if i == 768 then (if turn == White then 1.0 else 0.0)
    else if i < 773 then 1.0
    else if i < 775 then 0.0
    else if i < 787 then CountSlot(b, i - 775)
    else if i < 789 then 0.5
    else 0.0
  }

  /** Count slot `n` (slot `775 + n` of the vector): white's six kinds in
      P..K order, then black's, each count over 8. */
  function CountSlot(b: Board, n: int): real
    requires 0 <= n < 12
  {
    if n < 6 then Count(b, White, KindAt(n)) as real / 8.0
    else Count(b, Black, KindAt(n - 6)) as real / 8.0
  }

  function Features(b: Board, turn: Color): (f: seq<real>)
    ensures |f| == FeatureCount
  {
    seq(FeatureCount, i requires 0 <= i < FeatureCount => FeatureAt(b, turn, i))
  }

  /** Square (file, rank) of plane `k` has its own slot below 768. */
  lemma SlotInjective(k: int, rank: int, file: int, k': int, rank': int, file': int)
    requires 0 <= k < 12 && 0 <= rank < 8 && 0 <= file < 8
    requires 0 <= k' < 12 && 0 <= rank' < 8 && 0 <= file' < 8
    ensures 0 <= k * 64 + rank * 8 + file < PlaneSlots
    ensures k * 64 + rank * 8 + file == k' * 64 + rank' * 8 + file' <==>
            k == k' && rank == rank' && file == file'
  {
  }

  /** The one-hot planes: slot `k*64 + rank*8 + file` is 1 exactly when that
      square holds a piece of plane `k`, and 0 otherwise. */
  lemma FeaturePlanes(b: Board, turn: Color, k: int, rank: int, file: int)
    requires 0 <= k < 12 && 0 <= rank < 8 && 0 <= file < 8
    ensures Features(b, turn)[k * 64 + rank * 8 + file] == if OneHot(b, k, rank, file) then 1.0 else 0.0
  {
    var i := k * 64 + rank * 8 + file;
    assert i / 64 == k && i % 64 == rank * 8 + file;
    assert (i % 64) / 8 == rank && (i % 64) % 8 == file;
  }

  /** Each square is set in at most one plane, in one exactly when it is
      occupied, and the plane gives back the piece's kind and colour. */
  lemma PlanesDecode(b: Board, rank: int, file: int, k: int)
    requires 0 <= rank < 8 && 0 <= file < 8 && 0 <= k < 12
    ensures OneHot(b, k, rank, file) <==>
      var x := At(b, Square(file, rank));
      x.Some? && x.value.kind == KindAt(k % 6) && x.value.color == (if k < 6 then White else Black)
  {
    var x := At(b, Square(file, rank));
    if x.Some? {
      match x.value.kind
      case Pawn =>
      case Knight =>
      case Bishop =>
      case Rook =>
      case Queen =>
      case King =>
    }
  }

  /** The fixed tail slots: the side to move, four castling-rights slots fixed
      at 1, two zero slots, and the closing constants 0.5, 0.5, 0, 0. */
  lemma FeatureFlags(b: Board, turn: Color)
    ensures var f := Features(b, turn);
      && f[768] == (if turn == White then 1.0 else 0.0)
      && f[769] == 1.0 && f[770] == 1.0 && f[771] == 1.0 && f[772] == 1.0
      && f[773] == 0.0 && f[774] == 0.0
      && f[787] == 0.5 && f[788] == 0.5 && f[789] == 0.0 && f[790] == 0.0
  {
  }

  /** The count slots: the twelve piece counts over 8, white first, kinds in
      P..K order. */
  lemma FeatureCounts(b: Board, turn: Color, c: int, k: int)
    requires 0 <= c < 2 && 0 <= k < 6
    ensures Features(b, turn)[775 + c * 6 + k] == Count(b, ColorAt(c), KindAt(k)) as real / 8.0
  {
    var i := 775 + c * 6 + k;
    CountSlotOf(b, c, k);
    assert FeatureAt(b, turn, i) == CountSlot(b, i - 775);
    assert Features(b, turn)[i] == FeatureAt(b, turn, i);
  }

  /** Count slot `c * 6 + k` is colour `c` and kind `k`. */
  lemma CountSlotOf(b: Board, c: int, k: int)
    requires 0 <= c < 2 && 0 <= k < 6
    ensures CountSlot(b, c * 6 + k) == Count(b, ColorAt(c), KindAt(k)) as real / 8.0
  {
    if c == 0 {
      assert c * 6 + k == k;
      CountSlotWhite(b, k);
    } else {
      assert c * 6 + k == 6 + k;
      CountSlotBlack(b, k);
    }
  }

  lemma CountSlotWhite(b: Board, k: int)
    requires 0 <= k < 6
    ensures CountSlot(b, k) == Count(b, White, KindAt(k)) as real / 8.0
  {
  }

  lemma CountSlotBlack(b: Board, k: int)
    requires 0 <= k < 6
    ensures CountSlot(b, 6 + k) == Count(b, Black, KindAt(k)) as real / 8.0
  {
  }

  /** The count slots of `Features`. */
  lemma FeatureCountSlots(b: Board, turn: Color)
    ensures forall n | 0 <= n < 12 :: Features(b, turn)[775 + n] == CountSlot(b, n)
  {
    forall n | 0 <= n < 12
      ensures Features(b, turn)[775 + n] == CountSlot(b, n)
    {
      assert Features(b, turn)[775 + n] == FeatureAt(b, turn, 775 + n);
    }
  }

  /** Slot `k*64 + rank*8 + file` once the one-hot loop has visited squares 0..n-1. */
  function PlaneValue(b: Board, k: int, rank: int, file: int, n: int): real
    requires 0 <= rank < 8 && 0 <= file < 8
  {
    if rank * 8 + file < n && OneHot(b, k, rank, file) then 1.0 else 0.0
  }

  /** A vector whose planes hold the one-hot encoding of squares 0..n-1 and
      whose tail is still zero. */
  ghost predicate PlanesFilled(f: seq<real>, b: Board, n: int) {
    && |f| == FeatureCount
    && (forall k, rank, file | 0 <= k < 12 && 0 <= rank < 8 && 0 <= file < 8 ::
          f[k * 64 + rank * 8 + file] == PlaneValue(b, k, rank, file, n))
    && (forall j | PlaneSlots <= j < FeatureCount :: f[j] == 0.0)
  }

  /** The zero vector has no square filled. */
  lemma PlanesStart(f: seq<real>, b: Board)
    requires |f| == FeatureCount && forall j | 0 <= j < FeatureCount :: f[j] == 0.0
    ensures PlanesFilled(f, b, 0)
  {
  }

  /** One turn of the one-hot loop: square `square` sets the slot of its
      piece's plane, when it holds a piece. */
  lemma PlanesStep(f: seq<real>, b: Board, square: int)
    requires 0 <= square < 64 && PlanesFilled(f, b, square)
    ensures var x := At(b, SquareOf(square));
      PlanesFilled(if x.Some? then f[PieceIndex(x.value) * 64 + square := 1.0] else f, b, square + 1)
  {
    var x := At(b, SquareOf(square));
    var f' := if x.Some? then f[PieceIndex(x.value) * 64 + square := 1.0] else f;
    var n := square + 1;
    var r0, c0 := square / 8, square % 8;
    assert square == r0 * 8 + c0 && SquareOf(square) == Square(c0, r0);
    forall k, rank, file | 0 <= k < 12 && 0 <= rank < 8 && 0 <= file < 8
      ensures f'[k * 64 + rank * 8 + file] == PlaneValue(b, k, rank, file, n)
    {
      var i := k * 64 + rank * 8 + file;
      assert f[i] == PlaneValue(b, k, rank, file, square);
      if x.Some? {
        var p := PieceIndex(x.value);
        SlotInjective(k, rank, file, p, r0, c0);
        if i == p * 64 + square {
          assert OneHot(b, k, rank, file);
        } else {
          assert !(rank == r0 && file == c0 && OneHot(b, k, rank, file));
        }
      } else {
        assert !(rank == r0 && file == c0 && OneHot(b, k, rank, file));
      }
    }
    assert forall j | PlaneSlots <= j < FeatureCount :: f'[j] == 0.0;
  }

  /** A plane slot of a vector whose 64 squares are filled is its feature. */
  lemma PlaneSlotIsFeature(planes: seq<real>, b: Board, turn: Color, i: int)
    requires PlanesFilled(planes, b, 64) && 0 <= i < PlaneSlots
    ensures planes[i] == FeatureAt(b, turn, i)
  {
    var k, square := i / 64, i % 64;
    var rank, file := square / 8, square % 8;
    assert i == k * 64 + rank * 8 + file;
    assert planes[k * 64 + rank * 8 + file] == PlaneValue(b, k, rank, file, 64);
    assert FeatureAt(b, turn, i) == if OneHot(b, k, rank, file) then 1.0 else 0.0;
  }

  /** A vector whose first `n` slots are those of `target` and whose other
      slots are still zero: the state of a fill after `n` writes. */
  ghost predicate FilledTo(f: seq<real>, target: seq<real>, n: int) {
    && |f| == |target| && 0 <= n <= |target|
    && (forall j | 0 <= j < n :: f[j] == target[j])
    && (forall j | n <= j < |f| :: f[j] == 0.0)
  }

  /** Once the one-hot loop has visited all 64 squares, the planes are done. */
  lemma PlanesDone(f: seq<real>, b: Board, turn: Color)
    requires PlanesFilled(f, b, 64)
    ensures FilledTo(f, Features(b, turn), PlaneSlots)
  {
    forall j | 0 <= j < PlaneSlots
      ensures f[j] == Features(b, turn)[j]
    {
      PlaneSlotIsFeature(f, b, turn, j);
    }
  }

  /** Writing slot `n` of the target extends the fill by one slot. */
  lemma FilledStep(f: seq<real>, target: seq<real>, n: int, v: real)
    requires FilledTo(f, target, n) && n < |target| && v == target[n]
    ensures FilledTo(f[n := v], target, n + 1)
  {
  }

  /** The slot of square (file, rank) in plane `plane`. */
  function Slot(plane: int, rank: int, file: int): int {
    plane * 64 + rank * 8 + file
  }

  /** The sum of plane `plane` of `f` over the squares visited before (rank, file). */
  function PlaneSumUpTo(f: seq<real>, plane: int, rank: int, file: int): real
    requires |f| == FeatureCount && 0 <= plane < 12
    requires ScanPos(rank, file) && (rank == 8 ==> file == 0)
    decreases rank, file
  {
    if file == 0 then (if rank == 0 then 0.0 else PlaneSumUpTo(f, plane, rank - 1, 8))
    else PlaneSumUpTo(f, plane, rank, file - 1) + f[Slot(plane, rank, file - 1)]
  }

  /** What square (file, rank) adds to the count of colour `c` and kind `k`. */
  function Hit(b: Board, c: Color, k: Kind, rank: int, file: int): real
    requires 0 <= rank < 8 && 0 <= file < 8
  {
    var x := At(b, Square(file, rank));
    if x.Some? && x.value.color == c && x.value.kind == k then 1.0 else 0.0
  }

  /** Each slot of the plane of colour `c` and kind `k` visited before (rank, file)
      holds that square's hit. */
  ghost predicate HitsUpTo(f: seq<real>, b: Board, c: Color, k: Kind, rank: int, file: int)
    requires |f| == FeatureCount
    requires ScanPos(rank, file) && (rank == 8 ==> file == 0)
    decreases rank, file
  {
    if file == 0 then rank == 0 || HitsUpTo(f, b, c, k, rank - 1, 8)
    else HitsUpTo(f, b, c, k, rank, file - 1) && f[Slot(PlaneOf(c, k), rank, file - 1)] == Hit(b, c, k, rank, file - 1)
  }

  lemma {:induction false} AllHits(f: seq<real>, b: Board, c: Color, k: Kind, rank: int, file: int)
    requires |f| == FeatureCount
    requires forall r, fl | 0 <= r < 8 && 0 <= fl < 8 :: f[Slot(PlaneOf(c, k), r, fl)] == Hit(b, c, k, r, fl)
    requires ScanPos(rank, file) && (rank == 8 ==> file == 0)
    ensures HitsUpTo(f, b, c, k, rank, file)
    decreases rank, file
  {
    if file == 0 {
      if rank > 0 {
        AllHits(f, b, c, k, rank - 1, 8);
      }
    } else {
      AllHits(f, b, c, k, rank, file - 1);
    }
  }

  /** The count loops and a plane agree, square by square: when each slot of
      the plane of colour `c` and kind `k` holds that square's hit, the running
      count is the running sum of the plane. */
  lemma {:induction false} CountIsPlaneSumUpTo(f: seq<real>, b: Board, c: Color, k: Kind, rank: int, file: int)
    requires |f| == FeatureCount
    requires ScanPos(rank, file) && (rank == 8 ==> file == 0)
    requires HitsUpTo(f, b, c, k, rank, file)
    ensures CountUpTo(b, c, k, rank, file) as real == PlaneSumUpTo(f, PlaneOf(c, k), rank, file)
    decreases rank, file
  {
    if file == 0 {
      if rank > 0 {
        CountIsPlaneSumUpTo(f, b, c, k, rank - 1, 8);
        assert CountUpTo(b, c, k, rank, file) as real == PlaneSumUpTo(f, PlaneOf(c, k), rank, file);
      } else {
        assert CountUpTo(b, c, k, rank, file) as real == PlaneSumUpTo(f, PlaneOf(c, k), rank, file);
      }
    } else {
      CountIsPlaneSumUpTo(f, b, c, k, rank, file - 1);
      PlaneSumStep(f, b, c, k, rank, file);
    }
  }

  lemma PlaneSumStep(f: seq<real>, b: Board, c: Color, k: Kind, rank: int, file: int)
    requires |f| == FeatureCount && 0 <= rank < 8 && 0 < file <= 8
    requires f[Slot(PlaneOf(c, k), rank, file - 1)] == Hit(b, c, k, rank, file - 1)
    requires CountUpTo(b, c, k, rank, file - 1) as real == PlaneSumUpTo(f, PlaneOf(c, k), rank, file - 1)
    ensures CountUpTo(b, c, k, rank, file) as real == PlaneSumUpTo(f, PlaneOf(c, k), rank, file)
  {
  }

  /** A square's slot in the plane of colour `c` and kind `k` is its hit. */
  lemma SquareCounted(b: Board, turn: Color, c: Color, k: Kind, rank: int, file: int)
    requires 0 <= rank < 8 && 0 <= file < 8
    ensures Features(b, turn)[Slot(PlaneOf(c, k), rank, file)] == Hit(b, c, k, rank, file)
  {
    var plane := PlaneOf(c, k);
    FeaturePlanes(b, turn, plane, rank, file);
    var x := At(b, Square(file, rank));
    if x.Some? {
      PieceIndexInjective(x.value, Piece(k, c, "", false));
    }
  }

  /** The twelve counts agree with the planes: the count of colour `c` and
      kind `k` is the sum of that piece's plane of the feature vector. */
  lemma CountIsPlaneSum(b: Board, turn: Color, c: Color, k: Kind)
    ensures Count(b, c, k) as real == PlaneSumUpTo(Features(b, turn), PlaneOf(c, k), 8, 0)
  {
    var f := Features(b, turn);
    forall r, fl | 0 <= r < 8 && 0 <= fl < 8
      ensures f[Slot(PlaneOf(c, k), r, fl)] == Hit(b, c, k, r, fl)
    {
      SquareCounted(b, turn, c, k, r, fl);
    }
    AllHits(f, b, c, k, 8, 0);
    CountIsPlaneSumUpTo(f, b, c, k, 8, 0);
  }

  // ---------------------------------------------------------------------------
  // Move indices

  /** Square number `s` (0..63) is file `s % 8`, rank `s / 8`. */
  function SquareOf(s: int): (sq: Sq)
    requires 0 <= s < 64
  {
    Square(s % 8, s / 8)
  }

  function SquareNumber(sq: Sq): (s: int)
    ensures 0 <= s < 64
  {
    sq.rank * 8 + sq.file
  }

  /** Network output `i` is the move from square `i / 64` to square `i % 64`. */
  function DecodeMove(i: int): (Sq, Sq)
    requires 0 <= i < 4096
  {
    (SquareOf(i / 64), SquareOf(i % 64))
  }

  function EncodeMove(from: Sq, to: Sq): (i: int)
    ensures 0 <= i < 4096
  {
    SquareNumber(from) * 64 + SquareNumber(to)
  }

  lemma DecodeEncode(from: Sq, to: Sq)
    ensures DecodeMove(EncodeMove(from, to)) == (from, to)
  {
    var i := EncodeMove(from, to);
    assert i / 64 == SquareNumber(from) && i % 64 == SquareNumber(to);
    assert SquareOf(SquareNumber(from)) == from;
    assert SquareOf(SquareNumber(to)) == to;
  }

  lemma EncodeDecode(i: int)
    requires 0 <= i < 4096
    ensures var (from, to) := DecodeMove(i); EncodeMove(from, to) == i
  {
  }

  /** The labels the selector builds, `'a'+file` followed by `rank+1`, name the
      decoded squares: the engine's `squareToIndices` reads them back. */
  lemma DecodedLabels(i: int)
    requires 0 <= i < 4096
    ensures var (from, to) := DecodeMove(i);
      && SquareToIndices(IndicesToSquare(from.file, from.rank)) == (from.file, from.rank)
      && SquareToIndices(IndicesToSquare(to.file, to.rank)) == (to.file, to.rank)
  {
    var (from, to) := DecodeMove(i);
    IndicesRoundTrip(from.file, from.rank);
    IndicesRoundTrip(to.file, to.rank);
  }

  // ---------------------------------------------------------------------------
  // Ranking the logits

  /** Candidate `i` comes before candidate `j`: a larger logit, or an equal
      logit and a smaller index (the sort is stable). */
  predicate Outranks(logits: seq<real>, i: int, j: int)
    requires 0 <= i < |logits| && 0 <= j < |logits|
  {
    logits[i] > logits[j] || (logits[i] == logits[j] && i < j)
  }

  predicate InRange(logits: seq<real>, s: seq<int>) {
    forall j | 0 <= j < |s| :: 0 <= s[j] < |logits|
  }

  predicate Ranks(logits: seq<real>, s: seq<int>)
    requires InRange(logits, s)
  {
    forall i, j | 0 <= i < j < |s| :: Outranks(logits, s[i], s[j])
  }

  function Insert(logits: seq<real>, x: int, s: seq<int>): (r: seq<int>)
    requires 0 <= x < |logits| && InRange(logits, s)
    ensures |r| == |s| + 1 && InRange(logits, r)
    ensures forall y :: y in r <==> y == x || y in s
  {
    if s == [] then [x]
    else if Outranks(logits, x, s[0]) then [x] + s
    else [s[0]] + Insert(logits, x, s[1..])
  }

  /** Candidates 0..n-1 in rank order. */
  function RankFirst(logits: seq<real>, n: int): (r: seq<int>)
    requires 0 <= n <= |logits|
    ensures |r| == n && InRange(logits, r)
  {
    if n == 0 then [] else Insert(logits, n - 1, RankFirst(logits, n - 1))
  }

  /** `indexed.sort((a, b) => b.val - a.val)`, read back as the list of indices. */
  function Ranked(logits: seq<real>): (r: seq<int>)
    ensures |r| == |logits| && InRange(logits, r)
  {
    RankFirst(logits, |logits|)
  }

  lemma {:induction false} InsertRanks(logits: seq<real>, x: int, s: seq<int>)
    requires 0 <= x < |logits| && InRange(logits, s) && Ranks(logits, s) && x !in s
    ensures Ranks(logits, Insert(logits, x, s))
  {
    if s != [] && !Outranks(logits, x, s[0]) {
      var t := Insert(logits, x, s[1..]);
      assert Ranks(logits, s[1..]) by {
        forall i, j | 0 <= i < j < |s[1..]| ensures Outranks(logits, s[1..][i], s[1..][j]) {
          assert s[1..][i] == s[i + 1] && s[1..][j] == s[j + 1];
        }
      }
      InsertRanks(logits, x, s[1..]);
      var r := [s[0]] + t;
      forall i, j | 0 <= i < j < |r| ensures Outranks(logits, r[i], r[j]) {
        if i == 0 {
          assert r[j] in t;
          if r[j] != x {
            var m :| 0 <= m < |s[1..]| && s[1..][m] == r[j];
            assert s[m + 1] == r[j];
          }
        } else {
          assert r[i] == t[i - 1] && r[j] == t[j - 1];
        }
      }
    } else if s != [] {
      var r := [x] + s;
      forall i, j | 0 <= i < j < |r| ensures Outranks(logits, r[i], r[j]) {
        if i == 0 {
          assert r[j] == s[j - 1];
          if j > 1 {
            assert Outranks(logits, s[0], s[j - 1]);
          }
        } else {
          assert r[i] == s[i - 1] && r[j] == s[j - 1];
        }
      }
    }
  }

  /** The ranking is a strict descending order by logit, ties by index. */
  lemma {:induction false} RankFirstRanks(logits: seq<real>, n: int)
    requires 0 <= n <= |logits|
    ensures Ranks(logits, RankFirst(logits, n))
    ensures forall y :: y in RankFirst(logits, n) <==> 0 <= y < n
  {
    if n > 0 {
      RankFirstRanks(logits, n - 1);
      InsertRanks(logits, n - 1, RankFirst(logits, n - 1));
    }
  }

  /** `Ranked` is a permutation of the candidate indices, ordered by logit
      (highest first) with ties in index order. */
  lemma RankedIsSortedPermutation(logits: seq<real>)
    ensures var r := Ranked(logits);
      && |r| == |logits|
      && (forall y :: y in r <==> 0 <= y < |logits|)
      && (forall i, j | 0 <= i < j < |r| :: r[i] != r[j])
      && (forall i, j | 0 <= i < j < |r| :: logits[r[i]] >= logits[r[j]])
      && (forall i, j | 0 <= i < j < |r| && logits[r[i]] == logits[r[j]] :: r[i] < r[j])
  {
    RankFirstRanks(logits, |logits|);
  }

  // ---------------------------------------------------------------------------
  // The candidate scan of getBestMove

  /** The network's outputs: the move logits and `eval_score.data[0]`. */
  datatype Inference = Inference(moveLogits: seq<real>, evalScore: real)

  /** A selected move: `{from, to, evaluation}`, with squares for labels. */
  datatype AIMove = AIMove(from: Sq, to: Sq, evaluation: real)

  /** How the ranked scan ends: with a move, with no acceptable candidate, or
      with the exception raised by reading a row past the board. */
  datatype ScanEnd = Found(from: Sq, to: Sq) | Exhausted | Threw

  /** The selector's gate: a black piece on `from` in `board`, a game, and the
      game's `isValidMove(from, to)`. */
  ghost predicate Acceptable(b: Board, g: Option<Game>, from: Sq, to: Sq) {
    && At(b, from).Some? && At(b, from).value.color == Black
    && g.Some? && IsValidMove(g.value, from, to)
  }

  /** The scan over ranked candidates `i .. limit-1`. */
  ghost function ScanFrom(b: Board, g: Option<Game>, ranked: seq<int>, i: int, limit: int): ScanEnd
    requires 0 <= i <= limit <= |ranked| && forall j | 0 <= j < |ranked| :: ranked[j] >= 0
    decreases limit - i
  {
    if i == limit then Exhausted
    else if ranked[i] >= 4096 then Threw
    else
      var move := DecodeMove(ranked[i]);
      if Acceptable(b, g, move.0, move.1) then Found(move.0, move.1) else ScanFrom(b, g, ranked, i + 1, limit)
  }

  /** The outcome of the ranked path for the network's outputs. */
  ghost function RankedChoice(b: Board, g: Option<Game>, out: Inference): ScanEnd {
    var ranked := Ranked(out.moveLogits);
    ScanFrom(b, g, ranked, 0, Min(500, |ranked|))
  }

  /** Ranked candidate `m` is a move on the board that the gate turns down. */
  ghost predicate Rejected(b: Board, g: Option<Game>, ranked: seq<int>, m: int)
    requires 0 <= m < |ranked| && ranked[m] >= 0
  {
    ranked[m] < 4096 && !Acceptable(b, g, DecodeMove(ranked[m]).0, DecodeMove(ranked[m]).1)
  }

  /** A scan that finds a move finds an acceptable one, at the position `n`
      of the first candidate not rejected. */
  lemma {:induction false} ScanFoundIsFirst(b: Board, g: Option<Game>, ranked: seq<int>, i: int, limit: int)
    returns (n: int)
    requires 0 <= i <= limit <= |ranked| && forall j | 0 <= j < |ranked| :: ranked[j] >= 0
    requires ScanFrom(b, g, ranked, i, limit).Found?
    ensures var r := ScanFrom(b, g, ranked, i, limit);
      && Acceptable(b, g, r.from, r.to)
      && i <= n < limit && ranked[n] == EncodeMove(r.from, r.to)
      && forall m | i <= m < n :: Rejected(b, g, ranked, m)
    decreases limit - i
  {
    var move := DecodeMove(ranked[i]);
    if Acceptable(b, g, move.0, move.1) {
      EncodeDecode(ranked[i]);
      n := i;
    } else {
      assert ScanFrom(b, g, ranked, i, limit) == ScanFrom(b, g, ranked, i + 1, limit);
      n := ScanFoundIsFirst(b, g, ranked, i + 1, limit);
      assert Rejected(b, g, ranked, i);
      forall m | i <= m < n
        ensures Rejected(b, g, ranked, m)
      {
        if m > i {
          assert i + 1 <= m < n;
        }
      }
    }
  }

  /** A move taken from the ranked path is the first acceptable one among the
      top `min(500, n)` candidates: a black piece stands on its origin and the
      game accepts it. */
  lemma RankedChoiceAcceptable(b: Board, g: Option<Game>, out: Inference)
    requires RankedChoice(b, g, out).Found?
    ensures var r := RankedChoice(b, g, out);
      && At(b, r.from).Some? && At(b, r.from).value.color == Black
      && g.Some? && IsValidMove(g.value, r.from, r.to)
      && exists n | 0 <= n < Min(500, |out.moveLogits|) ::
           Ranked(out.moveLogits)[n] == EncodeMove(r.from, r.to)
  {
    var ranked := Ranked(out.moveLogits);
    var n := ScanFoundIsFirst(b, g, ranked, 0, Min(500, |ranked|));
  }

  // ---------------------------------------------------------------------------
  // The random fallback

  /** The moves `{from, to, evaluation: 0}` for each destination in `tos`. */
  function MovesFrom(from: Sq, tos: seq<Sq>): (r: seq<AIMove>)
    ensures |r| == |tos|
    ensures forall j | 0 <= j < |tos| :: r[j] == AIMove(from, tos[j], 0.0)
  {
    if tos == [] then [] else MovesFrom(from, tos[..|tos| - 1]) + [AIMove(from, tos[|tos| - 1], 0.0)]
  }

  predicate BlackAt(b: Board, s: Sq) {
    At(b, s).Some? && At(b, s).value.color == Black
  }

  /** The game's `getLegalMoves`, as a function of the square. */
  ghost function LegalMovesOf(g: Game): Sq -> seq<Sq> {
    s => LegalMoves(g, s)
  }

  /** The moves collected by `getRandomLegalMove` from the squares visited
      before position (rank, file): for each black piece of `board`, the moves
      `legal` lists from its square. */
  function BlackMovesUpTo(b: Board, legal: Sq -> seq<Sq>, rank: int, file: int): seq<AIMove>
    requires ScanPos(rank, file) && (rank == 8 ==> file == 0)
    decreases rank, file
  {
    if file == 0 then (if rank == 0 then [] else BlackMovesUpTo(b, legal, rank - 1, 8))
    else
      var s: Sq := Square(file - 1, rank);
      BlackMovesUpTo(b, legal, rank, file - 1) + (if BlackAt(b, s) then MovesFrom(s, legal(s)) else [])
  }

  ghost function BlackMoves(b: Board, g: Game): seq<AIMove> {
    BlackMovesUpTo(b, LegalMovesOf(g), 8, 0)
  }

  lemma {:induction false} BlackMovesUpToExact(b: Board, legal: Sq -> seq<Sq>, rank: int, file: int, m: AIMove)
    requires ScanPos(rank, file) && (rank == 8 ==> file == 0)
    ensures m in BlackMovesUpTo(b, legal, rank, file) <==>
      Before(m.from, Square(file, rank)) && BlackAt(b, m.from) && m.to in legal(m.from) && m.evaluation == 0.0
    decreases rank, file
  {
    if file == 0 {
      if rank > 0 {
        BlackMovesUpToExact(b, legal, rank - 1, 8, m);
        BlackMovesRowExact(b, legal, rank, m);
      } else {
        assert BlackMovesUpTo(b, legal, 0, 0) == [];
        assert !Before(m.from, Square(0, 0));
      }
    } else {
      BlackMovesUpToExact(b, legal, rank, file - 1, m);
      BlackMovesStepExact(b, legal, rank, file, m);
    }
  }

  lemma BlackMovesRowExact(b: Board, legal: Sq -> seq<Sq>, rank: int, m: AIMove)
    requires 0 < rank <= 8
    requires m in BlackMovesUpTo(b, legal, rank - 1, 8) <==>
      Before(m.from, Square(8, rank - 1)) && BlackAt(b, m.from) && m.to in legal(m.from) && m.evaluation == 0.0
    ensures m in BlackMovesUpTo(b, legal, rank, 0) <==>
      Before(m.from, Square(0, rank)) && BlackAt(b, m.from) && m.to in legal(m.from) && m.evaluation == 0.0
  {
    assert BlackMovesUpTo(b, legal, rank, 0) == BlackMovesUpTo(b, legal, rank - 1, 8);
    assert Before(m.from, Square(0, rank)) <==> Before(m.from, Square(8, rank - 1));
  }

  lemma BlackMovesStepExact(b: Board, legal: Sq -> seq<Sq>, rank: int, file: int, m: AIMove)
    requires 0 <= rank < 8 && 0 < file <= 8
    requires m in BlackMovesUpTo(b, legal, rank, file - 1) <==>
      Before(m.from, Square(file - 1, rank)) && BlackAt(b, m.from) && m.to in legal(m.from) && m.evaluation == 0.0
    ensures m in BlackMovesUpTo(b, legal, rank, file) <==>
      Before(m.from, Square(file, rank)) && BlackAt(b, m.from) && m.to in legal(m.from) && m.evaluation == 0.0
  {
    var s: Sq := Square(file - 1, rank);
    var prefix := BlackMovesUpTo(b, legal, rank, file - 1);
    var added := if BlackAt(b, s) then MovesFrom(s, legal(s)) else [];
    BlackMovesStep(b, legal, rank, file);
    assert m in prefix + added <==> m in prefix || m in added;
    MovesFromExact(s, legal(s), m);
    assert Before(m.from, Square(file, rank)) <==> Before(m.from, s) || m.from == s;
  }

  /** One square further in the scan appends that square's moves, if it holds a black piece. */
  lemma BlackMovesStep(b: Board, legal: Sq -> seq<Sq>, rank: int, file: int)
    requires 0 <= rank < 8 && 0 < file <= 8
    ensures var s: Sq := Square(file - 1, rank);
      BlackMovesUpTo(b, legal, rank, file) ==
      BlackMovesUpTo(b, legal, rank, file - 1) + (if BlackAt(b, s) then MovesFrom(s, legal(s)) else [])
  {
  }

  /** The moves pushed for one square: its legal destinations, each with evaluation 0. */
  lemma MovesFromExact(s: Sq, tos: seq<Sq>, m: AIMove)
    ensures m in MovesFrom(s, tos) <==> m.from == s && m.to in tos && m.evaluation == 0.0
  {
    var r := MovesFrom(s, tos);
    if m in r {
      var j :| 0 <= j < |r| && r[j] == m;
      assert tos[j] == m.to;
    }
    if m.from == s && m.to in tos && m.evaluation == 0.0 {
      var j :| 0 <= j < |tos| && tos[j] == m.to;
      assert r[j] == m;
    }
  }

  /** The fallback's list holds exactly the moves of black pieces of `board`
      that the game accepts, each with evaluation 0. */
  lemma BlackMovesExact(b: Board, g: Game, m: AIMove)
    ensures m in BlackMoves(b, g) <==>
      BlackAt(b, m.from) && IsValidMove(g, m.from, m.to) && m.evaluation == 0.0
  {
    BlackMovesUpToExact(b, LegalMovesOf(g), 8, 0, m);
    assert LegalMovesOf(g)(m.from) == LegalMoves(g, m.from);
    ChessLemmas.LegalMovesExact(g, m.from, m.to);
  }

  /** The side to move is never consulted: when it is white's turn in the
      game, the fallback on the game's own board finds nothing, black pieces
      notwithstanding. */
  lemma BlackMovesNeedBlackTurn(g: Game)
    requires g.turn == White
    ensures BlackMoves(g.board, g) == []
  {
    if BlackMoves(g.board, g) != [] {
      var m := BlackMoves(g.board, g)[0];
      BlackMovesExact(g.board, g, m);
      ChessLemmas.ValidMoveRejects(g, m.from, m.to);
      assert false;
    }
  }

  /** What the fallback may return: nothing without a game or without a move
      in its list, and otherwise some move of that list. */
  ghost predicate RandomMoveOk(b: Board, g: Option<Game>, m: Option<AIMove>) {
    && (m.None? <==> g.None? || BlackMoves(b, g.value) == [])
    && (m.Some? ==> g.Some? && m.value in BlackMoves(b, g.value))
  }

  /** `Math.floor(random * n)`, the index the fallback draws when
      `Math.random()` yields `random`. */
  function PickIndex(random: real, n: int): (i: int)
    requires 0.0 <= random < 1.0 && n > 0
    ensures 0 <= i < n
  {
    var x := random * n as real;
    assert x < n as real by {
      assert (1.0 - random) * n as real > 0.0;
    }
    x.Floor
  }

  /** What `getRandomLegalMove` returns when `Math.random()` yields `random`. */
  ghost function RandomMove(b: Board, g: Option<Game>, random: real): Option<AIMove>
    requires 0.0 <= random < 1.0
  {
    if g.None? then None
    else
      var moves := BlackMoves(b, g.value);
      if |moves| > 0 then Some(moves[PickIndex(random, |moves|)]) else None
  }

  /** Whatever `Math.random()` yields, the fallback's move is one it may return. */
  lemma RandomMoveIsOk(b: Board, g: Option<Game>, random: real)
    requires 0.0 <= random < 1.0
    ensures RandomMoveOk(b, g, RandomMove(b, g, random))
  {
  }

  /** What `getBestMove` returns for a selector that is or is not loaded, a
      network that answers `out` (`None` when inference throws) and a draw
      `random` of `Math.random()`. */
  ghost function BestMove(loaded: bool, b: Board, g: Option<Game>, out: Option<Inference>, random: real): Option<AIMove>
    requires 0.0 <= random < 1.0
  {
    if loaded && out.Some? && RankedChoice(b, g, out.value).Found? then
      var r := RankedChoice(b, g, out.value);
      Some(AIMove(r.from, r.to, out.value.evalScore * 100.0))
    else RandomMove(b, g, random)
  }

  lemma BestMoveIsOk(loaded: bool, b: Board, g: Option<Game>, out: Option<Inference>, random: real)
    requires 0.0 <= random < 1.0
    ensures BestMoveOk(loaded, b, g, out, BestMove(loaded, b, g, out, random))
  {
    RandomMoveIsOk(b, g, random);
  }

  /** What `getBestMove` may return for a selector that is or is not loaded
      and a network that answers `out` (`None` when inference throws). */
  ghost predicate BestMoveOk(loaded: bool, b: Board, g: Option<Game>, out: Option<Inference>, m: Option<AIMove>) {
    if loaded && out.Some? && RankedChoice(b, g, out.value).Found? then
      var r := RankedChoice(b, g, out.value);
      m == Some(AIMove(r.from, r.to, out.value.evalScore * 100.0))
    else RandomMoveOk(b, g, m)
  }

  /** Whatever path produced it, a move returned by `getBestMove` has a black
      piece of `board` on its origin and is accepted by the game. */
  lemma BestMoveIsLegal(loaded: bool, b: Board, g: Option<Game>, out: Option<Inference>, m: Option<AIMove>)
    requires BestMoveOk(loaded, b, g, out, m) && m.Some?
    ensures BlackAt(b, m.value.from) && g.Some? && IsValidMove(g.value, m.value.from, m.value.to)
  {
    if loaded && out.Some? && RankedChoice(b, g, out.value).Found? {
      RankedChoiceAcceptable(b, g, out.value);
    } else {
      BlackMovesExact(b, g.value, m.value);
    }
  }
}
