/** The game screen: the grid of player tiles, each opened once to see one's
    role, and the Reveal button that appears once everybody has looked. */
module GamePhase {
  import opened Types

  /** The roster after the player at `i` closes their role overlay. */
  function Acknowledge(ps: seq<Player>, i: nat): (r: seq<Player>)
    requires i < |ps|
    ensures |r| == |ps|
    ensures r[i].hasChecked && r[i].name == ps[i].name && r[i].isImposter == ps[i].isImposter
    ensures forall j :: 0 <= j < |ps| && j != i ==> r[j] == ps[j]
  {
    ps[i := ps[i].(hasChecked := true)]
  }

  /** How many players have looked at their role. */
  function CheckedCount(ps: seq<Player>): (n: nat)
    ensures n <= |ps|
  {
    if ps == [] then 0 else CheckedCount(ps[..|ps| - 1]) + (if ps[|ps| - 1].hasChecked then 1 else 0)
  }

  /** Whether the Reveal button is offered: exactly when closing any player's
      overlay would change nothing more. */
  predicate AllPlayersChecked(ps: seq<Player>): (all: bool)
    ensures all <==> forall i :: 0 <= i < |ps| ==> Acknowledge(ps, i) == ps
  {
    assert forall i :: 0 <= i < |ps| ==> (Acknowledge(ps, i) == ps <==> ps[i].hasChecked) by {
      forall i | 0 <= i < |ps| && ps[i].hasChecked
        ensures Acknowledge(ps, i) == ps
      {
        assert ps[i].(hasChecked := true) == ps[i];
      }
    }
    forall i :: 0 <= i < |ps| ==> ps[i].hasChecked
  }

  /** Everybody has looked exactly when the checked count reaches the roster size. */
  lemma {:induction false} AllCheckedIffCount(ps: seq<Player>)
    ensures AllPlayersChecked(ps) <==> CheckedCount(ps) == |ps|
  {
    if ps != [] {
      var init := ps[..|ps| - 1];
      AllCheckedIffCount(init);
      assert AllPlayersChecked(ps) <==> AllPlayersChecked(init) && ps[|ps| - 1].hasChecked;
    }
  }

  /** Closing an overlay raises the checked count by one if that player had not
      looked yet, and leaves it as it was otherwise. */
  lemma {:induction false} AcknowledgeCount(ps: seq<Player>, i: nat)
    requires i < |ps|
    ensures CheckedCount(Acknowledge(ps, i)) == CheckedCount(ps) + (if ps[i].hasChecked then 0 else 1)
  {
    var r := Acknowledge(ps, i);
    var last := |ps| - 1;
    assert r[..last] == if i == last then ps[..last] else Acknowledge(ps[..last], i);
    if i < last {
      AcknowledgeCount(ps[..last], i);
    }
  }

  /** No player's `hasChecked` goes back from true to false. */
  lemma AcknowledgeMonotone(ps: seq<Player>, i: nat)
    requires i < |ps|
    ensures forall j :: 0 <= j < |ps| && ps[j].hasChecked ==> Acknowledge(ps, i)[j].hasChecked
    ensures ImposterIndices(Acknowledge(ps, i)) == ImposterIndices(ps)
  {
  }

  /** Closing an overlay keeps a dealt round dealt: the roster, its imposters
      and the first speaker stay as they were. */
  lemma AcknowledgeKeepsRound(g: GameState, i: nat)
    requires InRound(g) && i < |g.players|
    ensures InRound(g.(players := Acknowledge(g.players, i)))
  {
    AcknowledgeMonotone(g.players, i);
  }

  /** The roster after the players at `order` close their overlays in turn. */
  function AcknowledgeEach(ps: seq<Player>, order: seq<nat>): (r: seq<Player>)
    requires forall k :: 0 <= k < |order| ==> order[k] < |ps|
    ensures |r| == |ps|
    decreases |order|
  {
    if order == [] then ps else AcknowledgeEach(Acknowledge(ps, order[0]), order[1..])
  }

  /** Once every player has opened and closed their tile, in any order, the
      Reveal button is offered. */
  lemma {:induction false} EveryoneLookedThenReveal(ps: seq<Player>, order: seq<nat>)
    requires forall k :: 0 <= k < |order| ==> order[k] < |ps|
    requires forall i :: 0 <= i < |ps| && !ps[i].hasChecked ==> i in order
    ensures AllPlayersChecked(AcknowledgeEach(ps, order))
    decreases |order|
  {
    if order != [] {
      var next := Acknowledge(ps, order[0]);
      forall i | 0 <= i < |next| && !next[i].hasChecked
        ensures i in order[1..]
      {
        assert i != order[0] && i in order;
      }
      EveryoneLookedThenReveal(next, order[1..]);
    }
  }

  /** The name on the speaker card: the current speaker's name, or "Player 1"
      when the index is off the roster or the name is empty. */
  function SpeakerName(g: GameState): (name: string)
    ensures name != ""
    ensures 0 <= g.currentSpeaker < |g.players| && g.players[g.currentSpeaker].name != "" ==>
              name == g.players[g.currentSpeaker].name
    ensures !(0 <= g.currentSpeaker < |g.players|) || g.players[g.currentSpeaker].name == "" ==>
              name == "Player 1"
  {
    if 0 <= g.currentSpeaker < |g.players| && g.players[g.currentSpeaker].name != "" then
      g.players[g.currentSpeaker].name
    else
      "Player 1"
  }

  /** The category line of the game info panel. */
  function InfoCategory(g: GameState): (c: string)
    ensures g.mode == Classic ==> c == g.category
    ensures g.mode == Sports ==> c == "Sports"
  {
    if g.mode == Classic then g.category else "Sports"
  }

  /** The game screen's state: the game (owned by the app and written back
      through its setter) and which tile's overlay is open. */
  class GameScreen {
    var game: GameState
    var selected: Option<nat>

    ghost predicate Valid()
      reads this
    {
      selected.Some? ==> selected.value < |game.players|
    }

    constructor (g: GameState)
      ensures Valid() && game == g && selected == None
    {
      game := g;
      selected := None;
    }

    /** A tap on tile `index`: opens its overlay unless that player has
        already looked. */
    method HandlePlayerClick(index: nat)
      requires Valid() && index < |game.players|
      modifies this
      ensures Valid() && game == old(game)
      ensures old(game.players[index].hasChecked) ==> selected == old(selected)
      ensures !old(game.players[index].hasChecked) ==> selected == Some(index)
    {
      if game.players[index].hasChecked {
        return;
      }
      selected := Some(index);
    }

    /** "GOT IT!": marks the open tile's player as having looked and closes the
        overlay; with no overlay open nothing happens. */
    method HandleCloseOverlay()
      requires Valid()
      modifies this
      ensures Valid() && selected == None
      ensures old(selected).None? ==> game == old(game)
      ensures old(selected).Some? ==>
                game == old(game).(players := Acknowledge(old(game.players), old(selected).value))
      ensures CheckedCount(game.players) <= CheckedCount(old(game.players)) + 1
    {
      if selected.None? {
        return;
      }
      var i := selected.value;
      AcknowledgeCount(game.players, i);
      game := game.(players := Acknowledge(game.players, i));
      selected := None;
    }
  }
}
