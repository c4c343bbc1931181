/** The setup screen: the player and imposter counters, the roster of names,
    the sport selection and the start button. */
module SetupStep {
  import opened Types
  import Round

  /** Why the start button does not start a round. */
  datatype StartError =
    | NoSportSelected   // sports mode with no sport ticked: the screen alerts and stays
    | DrawsExhausted    // the random draws ran out before the deal was complete

  function Min(a: int, b: int): int { if a <= b then a else b }
  function Max(a: int, b: int): int { if a >= b then a else b }

  // ---------------------------------------------------------------- counters

  /** The player counter stays within 3 .. 20. */
  function ClampPlayerCount(count: int): (r: int)
    ensures 3 <= r <= 20
    ensures 3 <= count <= 20 ==> r == count
    ensures count < 3 ==> r == 3
    ensures count > 20 ==> r == 20
  {
    Max(3, Min(20, count))
  }

  /** After the player counter moves, the imposter count is lowered to at most
      one less than the new player count, and left alone if it already fits. */
  function CapImposters(imposterCount: int, newCount: int): (r: int)
    ensures r <= newCount - 1
    ensures imposterCount <= newCount - 1 ==> r == imposterCount
    ensures imposterCount > newCount - 1 ==> r == newCount - 1
  {
    Min(imposterCount, newCount - 1)
  }

  /** The imposter counter stays within 1 .. playerCount - 1. */
  function ClampImposterCount(count: int, playerCount: int): (r: int)
    ensures r >= 1
    ensures playerCount >= 2 ==> r <= playerCount - 1
    ensures 1 <= count <= playerCount - 1 ==> r == count
    ensures count < 1 ==> r == 1
    ensures playerCount >= 2 && count > playerCount - 1 ==> r == playerCount - 1
  {
    Max(1, Min(playerCount - 1, count))
  }

  /** The state after the player counter is set to `count`. */
  function WithPlayerCount(g: GameState, count: int): (h: GameState)
    ensures ValidConfig(g) ==> ValidConfig(h)
    ensures h.playerCount == ClampPlayerCount(count)
    ensures h.imposterCount <= g.imposterCount
    ensures g.imposterCount <= h.playerCount - 1 ==> h.imposterCount == g.imposterCount
    ensures g.imposterCount > h.playerCount - 1 ==> h.imposterCount == h.playerCount - 1
    ensures h.(playerCount := g.playerCount, imposterCount := g.imposterCount) == g
  {
    var newCount := ClampPlayerCount(count);
    g.(playerCount := newCount, imposterCount := CapImposters(g.imposterCount, newCount))
  }

  /** The state after the imposter counter is set to `count`. */
  function WithImposterCount(g: GameState, count: int): (h: GameState)
    ensures ValidConfig(g) ==> ValidConfig(h)
    ensures 1 <= count <= g.playerCount - 1 ==> h == g.(imposterCount := count)
    ensures count < 1 ==> h.imposterCount == 1
    ensures g.playerCount >= 2 && count > g.playerCount - 1 ==> h.imposterCount == g.playerCount - 1
    ensures h.(imposterCount := g.imposterCount) == g
  {
    g.(imposterCount := ClampImposterCount(count, g.playerCount))
  }

  // ------------------------------------------------------------------- names

  function DigitChar(d: nat): (c: char)
    requires d < 10
    ensures '0' <= c <= '9'
  {
    (48 + d) as char
  }

  /** The decimal numeral of `n`. */
  function NatToString(n: nat): (s: string)
    ensures |s| >= 1 && (n >= 10 ==> |s| >= 2)
    ensures forall k :: 0 <= k < |s| ==> '0' <= s[k] <= '9'
    decreases n
  {
    if n < 10 then [DigitChar(n)] else NatToString(n / 10) + [DigitChar(n % 10)]
  }

  lemma {:induction false} NatToStringInjective(a: nat, b: nat)
    requires NatToString(a) == NatToString(b)
    ensures a == b
    decreases a
  {
    var sa, sb := NatToString(a), NatToString(b);
    if a >= 10 && b >= 10 {
      assert sa[..|sa| - 1] == NatToString(a / 10);
      assert sb[..|sb| - 1] == NatToString(b / 10);
      NatToStringInjective(a / 10, b / 10);
      assert sa[|sa| - 1] == DigitChar(a % 10);
      assert sb[|sb| - 1] == DigitChar(b % 10);
    }
  }

  /** The name a new roster slot starts with: "Player 1", "Player 2", ... */
  function DefaultName(i: nat): string {
    "Player " + NatToString(i + 1)
  }

  /** The placeholder names are pairwise different, so in a roster of default
      names no two players share a name. */
  lemma DefaultNamesDistinct(i: nat, j: nat)
    requires i != j
    ensures DefaultName(i) != DefaultName(j)
  {
    if DefaultName(i) == DefaultName(j) {
      assert DefaultName(i)[7..] == NatToString(i + 1);
      assert DefaultName(j)[7..] == NatToString(j + 1);
      NatToStringInjective(i + 1, j + 1);
    }
  }

  function DefaultNames(n: nat): (names: seq<string>)
    ensures |names| == n
  {
    seq(n, i requires 0 <= i < n => DefaultName(i))
  }

  /** `names` is `prev` cut or grown to `n` entries, new slots named by default. */
  predicate Resized(prev: seq<string>, names: seq<string>, n: nat) {
    && |names| == n
    && (forall i :: 0 <= i < n && i < |prev| ==> names[i] == prev[i])
    && (forall i :: |prev| <= i < n ==> names[i] == DefaultName(i))
  }

  /** Grows the name list with default names up to `newCount`, then cuts it to
      `newCount` entries. */
  method ResizeNames(prev: seq<string>, newCount: nat) returns (names: seq<string>)
    ensures Resized(prev, names, newCount)
  {
    names := prev;
    if newCount > |prev| {
      for i := |prev| to newCount
        invariant |names| == i
        invariant names[..|prev|] == prev
        invariant forall j :: |prev| <= j < i ==> names[j] == DefaultName(j)
      {
        names := names + [DefaultName(i)];
      }
    }
    names := names[..if newCount < |names| then newCount else |names|];
  }

  // ------------------------------------------------------------------ sports

  /** `s` with every occurrence of `x` removed, order kept. */
  function Without(s: seq<string>, x: string): (r: seq<string>)
    ensures x !in r
    ensures forall y :: y != x ==> (y in r <==> y in s)
    ensures |r| <= |s|
  {
    if s == [] then []
    else if s[0] == x then Without(s[1..], x)
    else [s[0]] + Without(s[1..], x)
  }

  lemma {:induction false} WithoutAbsent(s: seq<string>, x: string)
    requires x !in s
    ensures Without(s, x) == s
  {
    if s != [] {
      WithoutAbsent(s[1..], x);
    }
  }

  lemma {:induction false} WithoutAppend(s: seq<string>, t: seq<string>, x: string)
    ensures Without(s + t, x) == Without(s, x) + Without(t, x)
  {
    if s != [] {
      assert (s + t)[1..] == s[1..] + t;
      WithoutAppend(s[1..], t, x);
    } else {
      assert s + t == t;
    }
  }

  /** A sport button: deselects the sport if it is selected, otherwise appends it. */
  function Toggle(sports: seq<string>, sport: string): (r: seq<string>)
    ensures sport in r <==> sport !in sports
    ensures forall s :: s != sport ==> (s in r <==> s in sports)
  {
    if sport in sports then Without(sports, sport) else sports + [sport]
  }

  /** Pressing an unselected sport twice restores the selection exactly. */
  lemma ToggleAbsentTwice(sports: seq<string>, sport: string)
    requires sport !in sports
    ensures Toggle(Toggle(sports, sport), sport) == sports
  {
    WithoutAppend(sports, [sport], sport);
    WithoutAbsent(sports, sport);
    assert Without([sport], sport) == [];
  }

  /** Pressing a selected sport twice moves it to the end of the selection. */
  lemma TogglePresentTwice(sports: seq<string>, sport: string)
    requires sport in sports
    ensures Toggle(Toggle(sports, sport), sport) == Without(sports, sport) + [sport]
  {
  }

  /** The start button's guard: sports mode needs at least one sport. */
  predicate CanStart(g: GameState): (ok: bool)
    ensures g.mode == Classic ==> ok
    ensures g.mode == Sports ==> (ok <==> exists sport :: sport in g.selectedSports)
  {
    assert g.selectedSports != [] ==> g.selectedSports[0] in g.selectedSports;
    !(g.mode == Sports && |g.selectedSports| == 0)
  }

  lemma InitialStateCanStart(mode: GameMode)
    ensures CanStart(InitialState(mode))
  {
  }

  // ------------------------------------------------------------------ screen

  /** The setup screen's local state: the configuration being edited and the
      roster of names, one per player. */
  class SetupScreen {
    var state: GameState
    var names: seq<string>

    ghost predicate Valid()
      reads this
    {
      ValidConfig(state) && |names| == state.playerCount
    }

    constructor (g: GameState)
      requires ValidConfig(g)
      ensures Valid() && state == g && names == DefaultNames(g.playerCount)
    {
      state := g;
      names := DefaultNames(g.playerCount);
    }

    method UpdatePlayerCount(count: int)
      requires Valid()
      modifies this
      ensures Valid()
      ensures state == WithPlayerCount(old(state), count)
      ensures Resized(old(names), names, state.playerCount)
    {
      var newCount := ClampPlayerCount(count);
      state := WithPlayerCount(state, count);
      names := ResizeNames(names, newCount);
    }

    method UpdateImposterCount(count: int)
      requires Valid()
      modifies this
      ensures Valid()
      ensures state == WithImposterCount(old(state), count) && names == old(names)
    {
      state := WithImposterCount(state, count);
    }

    method ToggleSport(sport: string)
      requires Valid()
      modifies this
      ensures Valid()
      ensures state == old(state).(selectedSports := Toggle(old(state.selectedSports), sport))
      ensures names == old(names)
    {
      state := state.(selectedSports := Toggle(state.selectedSports, sport));
    }

    /** Typing into the name field of seat `i`. */
    method RenamePlayer(i: nat, name: string)
      requires Valid() && i < |names|
      modifies this
      ensures Valid()
      ensures names == old(names)[i := name] && state == old(state)
    {
      names := names[i := name];
    }

    /** The start button: refuses in sports mode with no sport selected,
        otherwise deals a round over the current names with the word pool's
        entry that `pool` returns for the form's query; `draws` stands for the
        random seat indices. */
    method HandleStartGame(pool: Round.PoolQuery -> Entry, draws: seq<int>) returns (r: Result<GameState, StartError>)
      requires Valid()
      requires forall k :: 0 <= k < |draws| ==> 0 <= draws[k] < state.playerCount
      ensures r == Failure(NoSportSelected) <==> !CanStart(state)
      ensures r == Failure(DrawsExhausted) <==>
                CanStart(state) && !Round.DrawsSuffice(draws, state.imposterCount, state.settings.randomFirstSpeaker)
      ensures r.Success? ==> InRound(r.value)
      ensures r.Success? ==> exists d :: Round.DealtFrom(d, names, state.imposterCount, state.settings.randomFirstSpeaker, draws)
                                         && r.value.players == d.players && r.value.currentSpeaker == d.firstSpeaker
      ensures r.Success? ==> var entry := pool(Round.Query(state));
                             r.value == state.(players := r.value.players, currentWord := entry.word,
                                               currentHint := entry.hint, category := Round.RoundCategory(state.mode, entry),
                                               currentSpeaker := r.value.currentSpeaker)
      ensures r.Success? ==> Round.Query(r.value) ==
                               if state.mode == Classic then Round.ByCategory(pool(Round.Query(state)).category)
                               else Round.Query(state)
    {
      if !CanStart(state) {
        return Failure(NoSportSelected);
      }
      var dealt := Round.NewRound(state, names, pool, draws);
      if dealt.None? {
        return Failure(DrawsExhausted);
      }
      r := Success(dealt.value);
    }
  }
}
