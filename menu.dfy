/** The menu screen of menu.rs, which works on the program state it borrows. */
module Menu {
  import opened Maybe
  import opened Inputs
  import opened State

  class MenuScreen {
    /** The borrowed `&mut ProgramState`. */
    const state: ProgramState

    /** `MenuScreen::new`. */
    constructor (state: ProgramState)
      ensures this.state == state
    {
      this.state := state;
    }

    /**
     * `tick`: `Accept` starts a new game; every other input, and no input,
     * leaves the state as it was. The menu never hands over to another screen.
     */
    method Tick(input: Option<Input>, build: GameBuilder) returns (next: Option<MenuScreen>)
      modifies state
      ensures next == None
      ensures input == Some(Accept) ==>
        state.game == Some(build(old(state.width), old(state.height), old(state.seed).UnwrapOr(0)))
      ensures input == Some(Accept) ==>
        state.score == old(state.score) && state.width == old(state.width) &&
        state.height == old(state.height) && state.seed == old(state.seed)
      ensures input != Some(Accept) ==> unchanged(state)
    {
      if input.Some? {
        match input.value {
          case Accept => state.NewGame(build);
          case Cancel =>
          case Direction(_) =>
          case Menu =>
        }
      }
      next := None;
    }
  }
}
