/**
 * The program-wide state of state.rs: the scores, the board size, the seed
 * and the game in progress, if any.
 */
module State {
  import opened MachineInts
  import opened Maybe
  import Labyrinth

  datatype ScoreEntry = ScoreEntry(player: string, score: u32)

  datatype Score = Score(entries: seq<ScoreEntry>)

  /** `Score::new`: a table with no entries. */
  function NewScore(): (s: Score)
    ensures |s.entries| == 0
  {
    Score([])
  }

  /**
   * What this model sees of a game: the maze cells and the player's
   * position. How a game is built, ticked and judged finished are
   * parameters of the operations that use them.
   */
  datatype Game = Game(field: Labyrinth.Grid, player: Labyrinth.Point)

  /** `Game::new(width, height, seed)`. */
  type GameBuilder = (nat, nat, u16) -> Game

  const DefaultWidth: nat := 70
  const DefaultHeight: nat := 30

  class ProgramState {
    var game: Option<Game>
    var score: Score
    var width: nat
    var height: nat
    var seed: Option<u16>

    /** The state `ProgramState::new` builds: no game, no scores, a 70 by 30 board and no seed. */
    ghost predicate Initial()
      reads this
    {
      game == None && score.entries == [] && width == DefaultWidth && height == DefaultHeight && seed == None
    }

    /** `ProgramState::new`. */
    constructor ()
      ensures Initial()
    {
      game := None;
      score := NewScore();
      width := DefaultWidth;
      height := DefaultHeight;
      seed := None;
    }

    /** `new_game`: starts a game of the configured size, with seed 0 when none is set; nothing else changes. */
    method NewGame(build: GameBuilder)
      modifies this
      ensures game == Some(build(width, height, if seed.Some? then seed.value else 0))
      ensures score == old(score) && width == old(width) && height == old(height) && seed == old(seed)
    {
      game := Some(build(width, height, seed.UnwrapOr(0)));
    }
  }
}
