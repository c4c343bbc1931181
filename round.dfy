/** Dealing a round: the imposter draw and the first-speaker draw that both the
    setup screen and the "play again" button perform.  The random number source
    is a parameter: `draws` is the sequence of seat indices that successive
    calls of the random generator would produce, each in [0, playerCount). */
module Round {
  import opened Types

  /** The distinct seats that occur among some draws. */
  function Drawn(draws: seq<int>): set<int> {
    set d | d in draws
  }

  /** A set of seats numbered 0 .. n-1. */
  function Seats(n: nat): (s: set<int>)
    ensures forall i :: i in s <==> 0 <= i < n
  {
    if n == 0 then {} else Seats(n - 1) + {n - 1}
  }

  /** Drawing one more seat adds exactly that seat to the drawn set. */
  lemma DrawnExtend(draws: seq<int>, k: nat)
    requires k < |draws|
    ensures Drawn(draws[..k + 1]) == Drawn(draws[..k]) + {draws[k]}
  {
    assert draws[..k + 1] == draws[..k] + [draws[k]];
  }

  lemma NonEmptyHasMember(s: set<int>)
    requires s != {}
    ensures exists x :: x in s
  {
    if forall x :: x !in s {
      assert false;
    }
  }

  lemma SubsetCardinality(a: set<int>, b: set<int>)
    requires a <= b
    ensures |a| <= |b|
  {
    assert b == a + (b - a);
  }

  lemma {:induction false} SeatsCardinality(n: nat)
    ensures |Seats(n)| == n
  {
    if n > 0 {
      SeatsCardinality(n - 1);
    }
  }

  /** Leaving the last draw out loses at most one distinct seat. */
  lemma DrawnDropLast(draws: seq<int>)
    requires |draws| > 0
    ensures |Drawn(draws)| <= |Drawn(draws[..|draws| - 1])| + 1
  {
    DrawnExtend(draws, |draws| - 1);
    assert draws[..|draws|] == draws;
  }

  /** The draws are enough to finish the rejection loop and, when the first
      speaker is random, to draw the first speaker after it. */
  predicate DrawsSuffice(draws: seq<int>, imposterCount: nat, randomFirstSpeaker: bool) {
    if randomFirstSpeaker then |draws| > 0 && |Drawn(draws[..|draws| - 1])| >= imposterCount
    else |Drawn(draws)| >= imposterCount
  }

  /** The rejection loop: add drawn seats to a set until it holds
      `imposterCount` of them.  `used` is how many draws it consumed; the loop
      gives up only when the draws run out. */
  method PickImposters(imposterCount: nat, draws: seq<int>) returns (chosen: set<int>, used: nat)
    ensures used <= |draws| && chosen == Drawn(draws[..used])
    ensures |chosen| == imposterCount <==> |Drawn(draws)| >= imposterCount
    ensures |chosen| == imposterCount || (used == |draws| && |chosen| < imposterCount)
    ensures forall k :: 0 <= k < used ==> |Drawn(draws[..k])| < imposterCount
  {
    chosen, used := {}, 0;
    while |chosen| < imposterCount && used < |draws|
      invariant used <= |draws| && chosen == Drawn(draws[..used])
      invariant |chosen| <= imposterCount
      invariant forall k :: 0 <= k < used ==> |Drawn(draws[..k])| < imposterCount
      decreases |draws| - used
    {
      DrawnExtend(draws, used);
      chosen := chosen + {draws[used]};
      used := used + 1;
    }
    assert draws[..|draws|] == draws;
    SubsetCardinality(chosen, Drawn(draws));
  }

  /** Builds the roster with nobody an imposter and nobody checked, then marks
      every chosen seat as an imposter, one seat at a time. */
  method MarkImposters(names: seq<string>, chosen: set<int>) returns (players: seq<Player>)
    requires forall i :: i in chosen ==> 0 <= i < |names|
    ensures |players| == |names|
    ensures forall i :: 0 <= i < |names| ==> players[i] == Player(names[i], i in chosen, false)
    ensures ImposterIndices(players) == chosen
  {
    var roster := new Player[|names|](i requires 0 <= i < |names| => Player(names[i], false, false));
    var pending := chosen;
    while pending != {}
      invariant pending <= chosen
      invariant forall i :: 0 <= i < roster.Length ==> roster[i] == Player(names[i], i in chosen - pending, false)
      decreases pending
    {
      NonEmptyHasMember(pending);
      var index :| index in pending;
      roster[index] := roster[index].(isImposter := true);
      pending := pending - {index};
    }
    players := roster[..];
  }

  /** One dealt round: the roster, the first speaker and how many draws the
      imposter loop consumed. */
  datatype Deal = Deal(players: seq<Player>, firstSpeaker: int, imposterDraws: nat)

  /** What a deal from `draws` looks like: names kept in order, nobody checked,
      exactly the first distinct draws are the imposters, and the first speaker
      is seat 0 or the draw that follows the imposter loop. */
  predicate DealtFrom(d: Deal, names: seq<string>, imposterCount: nat, randomFirstSpeaker: bool, draws: seq<int>) {
    && |d.players| == |names|
    && (forall i :: 0 <= i < |names| ==> d.players[i].name == names[i] && !d.players[i].hasChecked)
    && |ImposterIndices(d.players)| == imposterCount
    && d.imposterDraws <= |draws|
    && ImposterIndices(d.players) == Drawn(draws[..d.imposterDraws])
    && (forall k :: 0 <= k < d.imposterDraws ==> |Drawn(draws[..k])| < imposterCount)
    && (if randomFirstSpeaker then d.imposterDraws < |draws| && d.firstSpeaker == draws[d.imposterDraws]
        else d.firstSpeaker == 0)
  }

  /** Assigns the imposters and the first speaker. */
  method DealRound(names: seq<string>, imposterCount: nat, randomFirstSpeaker: bool, draws: seq<int>)
    returns (r: Option<Deal>)
    requires forall k :: 0 <= k < |draws| ==> 0 <= draws[k] < |names|
    ensures r.Some? <==> DrawsSuffice(draws, imposterCount, randomFirstSpeaker)
    ensures r.Some? ==> DealtFrom(r.value, names, imposterCount, randomFirstSpeaker, draws)
    ensures r.Some? && |names| > 0 ==> 0 <= r.value.firstSpeaker < |names|
  {
    var chosen, used := PickImposters(imposterCount, draws);
    if |chosen| < imposterCount {
      return None;
    }
    var players := MarkImposters(names, chosen);
    var firstSpeaker := 0;
    if randomFirstSpeaker {
      if used == |draws| {
        if |draws| > 0 {
          assert |Drawn(draws[..|draws| - 1])| < imposterCount;
        }
        return None;
      }
      firstSpeaker := draws[used];
      SubsetCardinality(Drawn(draws[..used]), Drawn(draws[..|draws| - 1]));
    }
    r := Some(Deal(players, firstSpeaker, used));
  }

  /** When every seat is drawn at least once (and one more draw follows for a
      random first speaker), the deal succeeds: this is where the bound
      imposterCount <= playerCount - 1 is what lets the loop finish. */
  lemma CoveringDrawsSuffice(playerCount: nat, imposterCount: nat, randomFirstSpeaker: bool, draws: seq<int>)
    requires imposterCount <= playerCount - 1
    requires Seats(playerCount) <= Drawn(draws)
    ensures DrawsSuffice(draws, imposterCount, randomFirstSpeaker)
  {
    SeatsCardinality(playerCount);
    SubsetCardinality(Seats(playerCount), Drawn(draws));
    if randomFirstSpeaker {
      assert 0 in Drawn(draws);
      DrawnDropLast(draws);
    }
  }

  /** The category a round shows: the entry's own category in classic mode,
      the fixed athlete label in sports mode. */
  function RoundCategory(mode: GameMode, entry: Entry): (c: string)
    ensures mode == Sports ==> c == AthleteCategory
    ensures mode == Classic ==> c == entry.category
  {
    if mode == Classic then entry.category else AthleteCategory
  }

  /** What the word pool is asked for: the state's category in classic mode,
      the selected sports in sports mode. */
  datatype PoolQuery = ByCategory(category: string) | BySports(sports: seq<string>)

  function Query(g: GameState): (q: PoolQuery)
    ensures q.ByCategory? <==> g.mode == Classic
    ensures q.ByCategory? ==> q.category == g.category
    ensures q.BySports? ==> q.sports == g.selectedSports
  {
    if g.mode == Classic then ByCategory(g.category) else BySports(g.selectedSports)
  }

  /** The state handed to the game screen after dealing a round from `names`:
      the configuration is kept, the roster, secret, hint, category and first
      speaker are new.  `pool` stands for the word pool, asked with the
      state's query.  None when the draws ran out. */
  method NewRound(g: GameState, names: seq<string>, pool: PoolQuery -> Entry, draws: seq<int>) returns (r: Option<GameState>)
    requires ValidConfig(g) && |names| == g.playerCount
    requires forall k :: 0 <= k < |draws| ==> 0 <= draws[k] < g.playerCount
    ensures r.Some? <==> DrawsSuffice(draws, g.imposterCount, g.settings.randomFirstSpeaker)
    ensures r.Some? ==> InRound(r.value)
    ensures r.Some? ==> exists d :: DealtFrom(d, names, g.imposterCount, g.settings.randomFirstSpeaker, draws)
                                    && r.value.players == d.players && r.value.currentSpeaker == d.firstSpeaker
    ensures r.Some? ==> var entry := pool(Query(g));
                        r.value == g.(players := r.value.players, currentWord := entry.word, currentHint := entry.hint,
                                      category := RoundCategory(g.mode, entry), currentSpeaker := r.value.currentSpeaker)
    ensures r.Some? ==> Query(r.value) == if g.mode == Classic then ByCategory(pool(Query(g)).category) else Query(g)
  {
    var entry := pool(Query(g));
    var deal := DealRound(names, g.imposterCount, g.settings.randomFirstSpeaker, draws);
    if deal.None? {
      return None;
    }
    var d := deal.value;
    r := Some(g.(players := d.players, currentWord := entry.word, currentHint := entry.hint,
                 category := RoundCategory(g.mode, entry), currentSpeaker := d.firstSpeaker));
  }
}
