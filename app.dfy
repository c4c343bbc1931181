/** The application shell: which screen is showing and the one game state the
    screens share.  Each handler is called by exactly one screen, which is why
    each requires the screen it is reachable from. */
module Session {
  import opened Types
  import GamePhase

  class App {
    var screen: Screen
    var game: Option<GameState>

    /** The menu holds no game; every other screen has one within the
        configuration bounds; the game and reveal screens have a dealt round;
        the reveal screen is reached only after everybody has looked. */
    ghost predicate Valid()
      reads this
    {
      && (screen == Menu <==> game.None?)
      && (game.Some? ==> ValidConfig(game.value))
      && (screen == Game || screen == Reveal ==> game.Some? && InRound(game.value))
      && (screen == Reveal ==> game.Some? && GamePhase.AllPlayersChecked(game.value.players))
    }

    constructor ()
      ensures Valid() && screen == Menu && game == None
    {
      screen := Menu;
      game := None;
    }

    /** A mode button on the menu: a fresh configuration, then the setup screen. */
    method HandleModeSelect(mode: GameMode)
      requires Valid() && screen == Menu
      modifies this
      ensures Valid() && screen == Setup && game == Some(InitialState(mode))
    {
      game := Some(InitialState(mode));
      screen := Setup;
    }

    /** The setup screen's start button hands over the dealt round. */
    method HandleStartGame(updated: GameState)
      requires Valid() && screen == Setup && InRound(updated)
      modifies this
      ensures Valid() && screen == Game && game == Some(updated)
    {
      game := Some(updated);
      screen := Game;
    }

    /** The game screen writes back the roster after a player closes their overlay. */
    method SetGameState(updated: GameState)
      requires Valid() && screen == Game && InRound(updated)
      modifies this
      ensures Valid() && screen == Game && game == Some(updated)
    {
      game := Some(updated);
    }

    /** The Reveal button, offered only once every player has looked. */
    method HandleReveal()
      requires Valid() && screen == Game
      requires game.Some? && GamePhase.AllPlayersChecked(game.value.players)
      modifies this
      ensures Valid() && screen == Reveal && game == old(game)
    {
      screen := Reveal;
    }

    /** The back button of the setup screen and the menu button of the reveal
        screen: the game is discarded. */
    method HandleReturnToMenu()
      requires Valid()
      modifies this
      ensures Valid() && screen == Menu && game == None
    {
      screen := Menu;
      game := None;
    }

    /** The reveal screen's "play again" hands over the newly dealt round. */
    method HandlePlayAgain(updated: GameState)
      requires Valid() && screen == Reveal && InRound(updated)
      modifies this
      ensures Valid() && screen == Game && game == Some(updated)
    {
      game := Some(updated);
      screen := Game;
    }
  }
}
