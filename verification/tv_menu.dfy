// The game-selection menu of the TV console (js/tv-screen.js, keyHandler).
// Left / A steps the selection back and right / D steps it forward, both
// wrapping around the list of games; Enter launches the selected game.

module TVMenu {
  import opened Wrappers

  /** Number of entries in the console's game list (snake, pong, tetris, invaders). */
  const GameCount: int := 4

  predicate IsLeftKey(key: string)
  {
    key == "a" || key == "A" || key == "ArrowLeft"
  }

  predicate IsRightKey(key: string)
  {
    key == "d" || key == "D" || key == "ArrowRight"
  }

  /** The previous selection, as the handler computes it: `(s - 1 + n) % n`.
    * The dividend is never negative, so the remainder agrees with JavaScript's. */
  function Prev(s: int): (r: int)
    requires 0 <= s < GameCount
    ensures 0 <= r < GameCount
    ensures r == if s == 0 then GameCount - 1 else s - 1
  {
    (s - 1 + GameCount) % GameCount
  }

  /** The next selection: `(s + 1) % n`. */
  function Next(s: int): (r: int)
    requires 0 <= s < GameCount
    ensures 0 <= r < GameCount
    ensures r == if s == GameCount - 1 then 0 else s + 1
  {
    (s + 1) % GameCount
  }

  /** Stepping forward then back (or back then forward) returns to the start. */
  lemma PrevNextInverse(s: int)
    requires 0 <= s < GameCount
    ensures Prev(Next(s)) == s
    ensures Next(Prev(s)) == s
  {
  }

  /** `k` presses of right, starting from `s`. */
  function NextTimes(s: int, k: nat): (r: int)
    requires 0 <= s < GameCount
    ensures 0 <= r < GameCount
  {
    if k == 0 then s else Next(NextTimes(s, k - 1))
  }

  /** `k` presses of right land on `(s + k) mod n`. */
  lemma {:induction false} NextTimesIsShift(s: int, k: nat)
    requires 0 <= s < GameCount
    ensures NextTimes(s, k) == (s + k) % GameCount
  {
    if k > 0 {
      NextTimesIsShift(s, k - 1);
    }
  }

  /** Pressing right once per game cycles back to the starting selection. */
  lemma FullCycle(s: int)
    requires 0 <= s < GameCount
    ensures NextTimes(s, GameCount) == s
    ensures forall k | 0 < k < GameCount :: NextTimes(s, k) != s
  {
    forall k | 0 <= k <= GameCount
      ensures NextTimes(s, k) == (s + k) % GameCount
    {
      NextTimesIsShift(s, k);
    }
  }

  class Menu {
    var isActive: bool
    var selectedGame: int
    var targetScroll: int

    ghost predicate Valid()
      reads this
    {
      0 <= selectedGame < GameCount && targetScroll == selectedGame
    }

    constructor ()
      ensures Valid() && !isActive && selectedGame == 0
    {
      isActive := false;
      selectedGame := 0;
      targetScroll := 0;
    }

    /** activate: the console starts taking keys; the selection is kept. */
    method Activate()
      requires Valid()
      modifies this
      ensures Valid() && isActive
      ensures selectedGame == old(selectedGame) && targetScroll == old(targetScroll)
    {
      isActive := true;
    }

    /** deactivate: the console stops taking keys; the selection is kept. */
    method Deactivate()
      requires Valid()
      modifies this
      ensures Valid() && !isActive
      ensures selectedGame == old(selectedGame) && targetScroll == old(targetScroll)
    {
      isActive := false;
    }

    /** One key press. Returns the game to launch when the key is Enter. */
    method HandleKey(key: string) returns (launch: Option<int>)
      requires Valid()
      modifies this
      ensures Valid() && isActive == old(isActive)
      ensures !old(isActive) ==> launch == None && selectedGame == old(selectedGame)
      ensures old(isActive) && IsLeftKey(key) ==> selectedGame == Prev(old(selectedGame)) && launch == None
      ensures old(isActive) && !IsLeftKey(key) && IsRightKey(key) ==>
                selectedGame == Next(old(selectedGame)) && launch == None
      ensures old(isActive) && !IsLeftKey(key) && !IsRightKey(key) ==>
                selectedGame == old(selectedGame) &&
                launch == (if key == "Enter" then Some(selectedGame) else None)
    {
      launch := None;
      if !isActive {
        return;
      }
      if IsLeftKey(key) {
        selectedGame := (selectedGame - 1 + GameCount) % GameCount;
        targetScroll := selectedGame;
      } else if IsRightKey(key) {
        selectedGame := (selectedGame + 1) % GameCount;
        targetScroll := selectedGame;
      } else if key == "Enter" {
        launch := Some(selectedGame);
      }
    }
  }
}
