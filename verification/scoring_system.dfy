/** Score, clear-streak multiplier and high score (ScoringSystem.js). */
module Scoring {

  /** Base points for clearing that many lines at once. */
  const COMBO_POINTS: map<int, nat> := map[1 := 10, 2 := 30, 3 := 60, 4 := 100, 5 := 150, 6 := 250]

  /** `COMBO_POINTS[lineCount] || 0`: a count missing from the table earns nothing. */
  function ComboPoints(lineCount: int): (points: nat)
    ensures points > 0 <==> 1 <= lineCount <= 6
  {
    if lineCount in COMBO_POINTS then COMBO_POINTS[lineCount] else 0
  }

  /** A turn ends after every third placement. The source's `%` truncates towards zero, but whether the
      remainder is zero does not depend on the rounding. */
  predicate IsTurnBoundary(piecesPlaced: int)
  {
    piecesPlaced % 3 == 0
  }

  class ScoringSystem {
    var score: int
    var streakMultiplier: int
    var lineClearedThisTurn: bool
    /** Read from the persistent store at construction; the store itself is not modelled. */
    var highScore: int

    ghost predicate Valid()
      reads this
    {
      streakMultiplier >= 1
    }

    constructor (storedHighScore: int)
      ensures Valid()
      ensures score == 0 && streakMultiplier == 1 && !lineClearedThisTurn
      ensures highScore == storedHighScore
    {
      score := 0;
      streakMultiplier := 1;
      highScore := storedHighScore;
      lineClearedThisTurn := false;
    }

    method Reset()
      modifies this
      ensures Valid()
      ensures score == 0 && streakMultiplier == 1 && !lineClearedThisTurn
      ensures highScore == old(highScore)
    {
      score := 0;
      streakMultiplier := 1;
      lineClearedThisTurn := false;
    }

    method AddPiecePlacementScore(blockCount: int)
      requires Valid()
      modifies this
      ensures Valid()
      ensures score == old(score) + blockCount
      ensures blockCount >= 0 ==> score >= old(score)
      ensures streakMultiplier == old(streakMultiplier) && lineClearedThisTurn == old(lineClearedThisTurn)
      ensures highScore == old(highScore)
    {
      score := score + blockCount;
    }

    method AddLineClearScore(lineCount: int)
      requires Valid()
      modifies this
      ensures Valid()
      ensures lineCount <= 0 ==> unchanged(this)
      ensures lineCount > 0 ==>
        && score == old(score) + ComboPoints(lineCount) * old(streakMultiplier)
        && lineClearedThisTurn
        && streakMultiplier == old(streakMultiplier)
        && highScore == old(highScore)
      ensures score >= old(score)
    {
      if lineCount > 0 {
        var basePoints := ComboPoints(lineCount);
        var totalPoints := basePoints * streakMultiplier;
        score := score + totalPoints;
        lineClearedThisTurn := true;
      }
    }

    method EndOfTurn(piecesPlaced: int)
      requires Valid()
      modifies this
      ensures Valid()
      ensures !IsTurnBoundary(piecesPlaced) ==> unchanged(this)
      ensures IsTurnBoundary(piecesPlaced) ==>
        && streakMultiplier == (if old(lineClearedThisTurn) then old(streakMultiplier) + 1 else 1)
        && !lineClearedThisTurn
      ensures score == old(score) && highScore == old(highScore)
    {
      if piecesPlaced % 3 == 0 {
        if lineClearedThisTurn {
          streakMultiplier := streakMultiplier + 1;
        } else {
          streakMultiplier := 1;
        }
        lineClearedThisTurn := false;
      }
    }

    function GetScore(): int
      reads this
    {
      score
    }

    function GetHighScore(): int
      reads this
    {
      highScore
    }

    function GetStreak(): int
      reads this
    {
      streakMultiplier
    }

    /** Commits the score as the new high score when it beats it; the write to the store is not modelled. */
    method CheckAndSaveHighScore() returns (isNewHighScore: bool)
      modifies this
      ensures isNewHighScore <==> old(score) > old(highScore)
      ensures highScore == if isNewHighScore then score else old(highScore)
      ensures highScore >= old(highScore)
      ensures score == old(score) && streakMultiplier == old(streakMultiplier)
      ensures lineClearedThisTurn == old(lineClearedThisTurn)
    {
      if score > highScore {
        highScore := score;
        return true;
      }
      return false;
    }
  }
}
