/** The reveal screen: the word, the hint, the imposters' names, a summary of
    the configuration, and the "play again" button that deals a new round. */
module RevealPhase {
  import opened Types
  import Round

  /** The players who are imposters, in seat order. */
  function Imposters(ps: seq<Player>): (r: seq<Player>)
    ensures |r| <= |ps|
    ensures forall p :: p in r ==> p in ps && p.isImposter
    ensures forall i :: 0 <= i < |ps| && ps[i].isImposter ==> ps[i] in r
  {
    if ps == [] then []
    else Imposters(ps[..|ps| - 1]) + (if ps[|ps| - 1].isImposter then [ps[|ps| - 1]] else [])
  }

  /** The list is built seat by seat: the imposters of a roster split in two
      are those of its first part followed by those of its second part. */
  lemma {:induction false} ImpostersAppend(a: seq<Player>, b: seq<Player>)
    ensures Imposters(a + b) == Imposters(a) + Imposters(b)
  {
    if b == [] {
      assert a + b == a;
    } else {
      var init := b[..|b| - 1];
      assert (a + b)[..|a + b| - 1] == a + init;
      var last := b[|b| - 1];
      assert (a + b)[|a + b| - 1] == last;
      var tail := if last.isImposter then [last] else [];
      assert Imposters(a + b) == Imposters(a + init) + tail;
      ImpostersAppend(a, init);
      assert Imposters(b) == Imposters(init) + tail;
    }
  }

  /** A single seat is listed exactly when it is an imposter; with the append
      law this fixes the list as one entry per imposter seat, in seat order. */
  lemma ImpostersOne(p: Player)
    ensures Imposters([p]) == if p.isImposter then [p] else []
  {
    assert [p][..0] == [];
  }

  /** The imposter seats of a non-empty roster: those of all but its last
      seat, plus the last seat when it holds an imposter. */
  lemma ImposterIndicesDropLast(ps: seq<Player>)
    requires ps != []
    ensures ImposterIndices(ps) ==
              ImposterIndices(ps[..|ps| - 1]) + (if ps[|ps| - 1].isImposter then {|ps| - 1} else {})
  {
    var init, last := ps[..|ps| - 1], |ps| - 1;
    forall i
      ensures i in ImposterIndices(ps) <==> i in ImposterIndices(init) || (i == last && ps[last].isImposter)
    {
      if 0 <= i < last {
        assert init[i] == ps[i];
      }
    }
  }

  /** The imposter list has one entry per imposter seat. */
  lemma {:induction false} ImpostersCount(ps: seq<Player>)
    ensures |Imposters(ps)| == |ImposterIndices(ps)|
  {
    if ps != [] {
      var init, last := ps[..|ps| - 1], |ps| - 1;
      ImpostersCount(init);
      ImposterIndicesDropLast(ps);
      assert last !in ImposterIndices(init);
    }
  }

  function Names(ps: seq<Player>): (names: seq<string>)
    ensures |names| == |ps| && forall i :: 0 <= i < |ps| ==> names[i] == ps[i].name
  {
    seq(|ps|, i requires 0 <= i < |ps| => ps[i].name)
  }

  /** Everything the reveal screen shows about the round. */
  datatype Summary = Summary(
    word: string,
    hint: Option<string>,
    imposterNames: seq<string>,
    category: string,
    playerCount: int,
    imposterCount: int,
    hardMode: bool,
    heading: string)

  function Summarize(g: GameState): (s: Summary)
    ensures s.word == g.currentWord
    ensures s.hint == if g.currentHint == "" then None else Some(g.currentHint)
    ensures s.category == if g.mode == Classic then g.category else "Professional Athletes"
    ensures s.playerCount == g.playerCount && s.imposterCount == g.imposterCount
    ensures s.hardMode == g.settings.hardMode
    ensures s.imposterNames == Names(Imposters(g.players))
    ensures s.heading == if |s.imposterNames| > 1 then "IMPOSTERS" else "IMPOSTER"
    ensures forall x :: x in s.imposterNames <==> exists i :: 0 <= i < |g.players| && g.players[i].isImposter && g.players[i].name == x
  {
    var imposters := Imposters(g.players);
    var names := Names(imposters);
    assert forall x :: x in names ==> exists p :: p in imposters && p.name == x;
    Summary(
      word := g.currentWord,
      hint := if g.currentHint == "" then None else Some(g.currentHint),
      imposterNames := names,
      category := if g.mode == Classic then g.category else "Professional Athletes",
      playerCount := g.playerCount,
      imposterCount := g.imposterCount,
      hardMode := g.settings.hardMode,
      heading := "IMPOSTER" + (if |imposters| > 1 then "S" else ""))
  }

  /** In a dealt round the summary names exactly as many imposters as were
      configured. */
  lemma SummaryImposterCount(g: GameState)
    requires InRound(g)
    ensures |Summarize(g).imposterNames| == g.imposterCount
    ensures Summarize(g).heading == if g.imposterCount >= 2 then "IMPOSTERS" else "IMPOSTER"
  {
    ImpostersCount(g.players);
  }

  /** The "play again" button: every player keeps their name and seat, nobody
      has looked, a new word is drawn from the pool (`pool`), asked with the
      round's own query, and imposters and
      first speaker are dealt afresh from `draws`. */
  method HandlePlayAgain(g: GameState, pool: Round.PoolQuery -> Entry, draws: seq<int>) returns (r: Option<GameState>)
    requires ValidConfig(g) && |g.players| == g.playerCount
    requires forall k :: 0 <= k < |draws| ==> 0 <= draws[k] < g.playerCount
    ensures r.Some? <==> Round.DrawsSuffice(draws, g.imposterCount, g.settings.randomFirstSpeaker)
    ensures r.Some? ==> InRound(r.value)
    ensures r.Some? ==> |r.value.players| == |g.players|
    ensures r.Some? ==> forall i :: 0 <= i < |g.players| ==>
                          r.value.players[i].name == g.players[i].name && !r.value.players[i].hasChecked
    ensures r.Some? ==> |ImposterIndices(r.value.players)| == g.imposterCount
    ensures r.Some? ==> && r.value.mode == g.mode && r.value.playerCount == g.playerCount
                        && r.value.imposterCount == g.imposterCount && r.value.settings == g.settings
                        && r.value.selectedSports == g.selectedSports
    ensures r.Some? ==> r.value.currentWord == pool(Round.Query(g)).word && r.value.currentHint == pool(Round.Query(g)).hint
    ensures r.Some? ==> r.value.category == if g.mode == Classic then pool(Round.Query(g)).category else AthleteCategory
    ensures r.Some? ==> Round.Query(r.value) ==
                          if g.mode == Classic then Round.ByCategory(pool(Round.Query(g)).category) else Round.Query(g)
    ensures r.Some? && !g.settings.randomFirstSpeaker ==> r.value.currentSpeaker == 0
    ensures r.Some? ==> exists d :: Round.DealtFrom(d, Names(g.players), g.imposterCount, g.settings.randomFirstSpeaker, draws)
                                    && r.value.players == d.players && r.value.currentSpeaker == d.firstSpeaker
  {
    r := Round.NewRound(g, Names(g.players), pool, draws);
  }
}
