/** The role overlay: what one player sees when they open their tile.  Every
    line of the overlay is shown or hidden by a boolean rule over the player's
    role and the settings. */
module RoleView {
  import opened Types
  import RevealPhase

  /** The category line is shown to non-imposters, and to imposters only when
      the category toggle is on and hard mode is off. */
  predicate ShowsCategory(isImposter: bool, s: GameSettings): (shown: bool)
    ensures !isImposter ==> shown
    ensures isImposter && s.hardMode ==> !shown
    ensures isImposter && !s.hardMode ==> (shown <==> s.showCategoryToImposters)
  {
    (isImposter && s.showCategoryToImposters && !s.hardMode) || !isImposter
  }

  /** The hint line follows the same rule with the hint toggle, and needs a hint. */
  predicate ShowsHint(isImposter: bool, s: GameSettings, hint: string): (shown: bool)
    ensures hint == "" ==> !shown
    ensures !isImposter && hint != "" ==> shown
    ensures isImposter && s.hardMode ==> !shown
    ensures isImposter && !s.hardMode && hint != "" ==> (shown <==> s.giveHintToImposters)
  {
    ((isImposter && s.giveHintToImposters && !s.hardMode) || !isImposter) && hint != ""
  }

  /** The word-length line: imposters only, when the toggle is on; hard mode
      plays no part. */
  predicate ShowsWordLength(isImposter: bool, s: GameSettings): (shown: bool)
    ensures shown ==> isImposter
    ensures isImposter ==> (shown <==> s.showWordLength)
  {
    isImposter && s.showWordLength
  }

  /** Upper case on ASCII letters; other characters are kept. */
  function UpperChar(c: char): char {
    if 'a' <= c <= 'z' then (c as int - 32) as char else c
  }

  function ToUpper(s: string): (u: string)
    ensures |u| == |s| && forall k :: 0 <= k < |s| ==> u[k] == UpperChar(s[k])
  {
    seq(|s|, k requires 0 <= k < |s| => UpperChar(s[k]))
  }

  /** The category line's text. */
  function OverlayCategory(g: GameState): (c: string)
    ensures g.mode == Classic ==> c == g.category
    ensures g.mode == Sports ==> c == AthleteCategory
  {
    if g.mode == Classic then g.category else AthleteCategory
  }

  /** The names of the imposters in `ps`, in seat order, leaving out every
      imposter called `name`. */
  function ImposterNamesExcept(ps: seq<Player>, name: string): (r: seq<string>)
    ensures forall x :: x in r <==> x != name && exists i :: 0 <= i < |ps| && ps[i].isImposter && ps[i].name == x
  {
    if ps == [] then []
    else
      var init, last := ps[..|ps| - 1], ps[|ps| - 1];
      assert forall i :: 0 <= i < |init| ==> init[i] == ps[i];
      ImposterNamesExcept(init, name) + (if last.isImposter && last.name != name then [last.name] else [])
  }

  /** The list is built seat by seat: the names for a roster split in two are
      the names for its first part followed by those for its second part. */
  lemma {:induction false} ImposterNamesExceptAppend(a: seq<Player>, b: seq<Player>, name: string)
    ensures ImposterNamesExcept(a + b, name) == ImposterNamesExcept(a, name) + ImposterNamesExcept(b, name)
  {
    if b == [] {
      assert a + b == a;
    } else {
      var init := b[..|b| - 1];
      assert (a + b)[..|a + b| - 1] == a + init;
      assert (a + b)[|a + b| - 1] == b[|b| - 1];
      ImposterNamesExceptAppend(a, init, name);
    }
  }

  /** A single seat contributes its name exactly when it is an imposter not
      called `name`; with the append law this fixes the list entry by entry,
      one entry per matching seat, in seat order. */
  lemma ImposterNamesExceptOne(p: Player, name: string)
    ensures ImposterNamesExcept([p], name) == if p.isImposter && p.name != name then [p.name] else []
  {
    assert [p][..0] == [];
  }

  /** Imposters not called `name` contribute one entry each: when no imposter
      bears `name`, the list is as long as the list of imposters. */
  lemma {:induction false} ImposterNamesExceptNoneDropped(ps: seq<Player>, name: string)
    requires forall i :: 0 <= i < |ps| && ps[i].isImposter ==> ps[i].name != name
    ensures |ImposterNamesExcept(ps, name)| == |RevealPhase.Imposters(ps)|
  {
    if ps != [] {
      ImposterNamesExceptNoneDropped(ps[..|ps| - 1], name);
    }
  }

  /** When exactly one imposter seat, `v`, bears `name`, the list is one
      shorter than the list of imposters. */
  lemma {:induction false} ImposterNamesExceptOneDropped(ps: seq<Player>, name: string, v: nat)
    requires v < |ps| && ps[v].isImposter && ps[v].name == name
    requires forall i :: 0 <= i < |ps| && i != v && ps[i].isImposter ==> ps[i].name != name
    ensures |ImposterNamesExcept(ps, name)| + 1 == |RevealPhase.Imposters(ps)|
  {
    var last := |ps| - 1;
    if v == last {
      ImposterNamesExceptNoneDropped(ps[..last], name);
    } else {
      ImposterNamesExceptOneDropped(ps[..last], name, v);
    }
  }

  /** The "other imposters" list shown to `viewer`: empty unless the viewer is
      an imposter, imposters know each other and at least two are configured. */
  function OtherImposters(g: GameState, viewer: Player): (r: seq<string>)
    ensures r != [] ==> viewer.isImposter && g.settings.impostersKnowEachOther && g.imposterCount >= 2
    ensures viewer.isImposter && g.settings.impostersKnowEachOther && g.imposterCount >= 2 ==>
              r == ImposterNamesExcept(g.players, viewer.name)
    ensures viewer.name !in r
    ensures forall x :: x in r <==>
              && viewer.isImposter && g.settings.impostersKnowEachOther && g.imposterCount >= 2
              && x != viewer.name
              && exists i :: 0 <= i < |g.players| && g.players[i].isImposter && g.players[i].name == x
  {
    if !viewer.isImposter || !g.settings.impostersKnowEachOther || g.imposterCount < 2 then []
    else ImposterNamesExcept(g.players, viewer.name)
  }

  /** What the overlay shows; `None` is a hidden line. */
  datatype View = View(
    roleLabel: string,
    category: Option<string>,
    hint: Option<string>,
    wordLength: Option<nat>,
    otherImposters: seq<string>)

  function Disclose(g: GameState, viewer: Player): (v: View)
    ensures v.otherImposters == OtherImposters(g, viewer)
    ensures v.roleLabel == if viewer.isImposter then "IMPOSTER" else ToUpper(g.currentWord)
    ensures v.category.Some? <==>
              !viewer.isImposter || (g.settings.showCategoryToImposters && !g.settings.hardMode)
    ensures v.hint.Some? <==>
              (!viewer.isImposter || (g.settings.giveHintToImposters && !g.settings.hardMode)) && g.currentHint != ""
    ensures v.wordLength.Some? <==> viewer.isImposter && g.settings.showWordLength
    ensures v.category.Some? ==> v.category.value == OverlayCategory(g)
    ensures v.hint.Some? ==> v.hint.value == g.currentHint
    ensures v.wordLength.Some? ==> v.wordLength.value == |g.currentWord|
  {
    var s := g.settings;
    View(
      roleLabel := if viewer.isImposter then "IMPOSTER" else ToUpper(g.currentWord),
      category := if ShowsCategory(viewer.isImposter, s) then Some(OverlayCategory(g)) else None,
      hint := if ShowsHint(viewer.isImposter, s, g.currentHint) then Some(g.currentHint) else None,
      wordLength := if ShowsWordLength(viewer.isImposter, s) then Some(|g.currentWord|) else None,
      otherImposters := OtherImposters(g, viewer))
  }

  /** The heading above the other imposters' names: plural when more than one
      name is listed. */
  function OtherImpostersHeading(names: seq<string>): (heading: string)
    ensures |heading| == 14 || |heading| == 15
    ensures heading[..14] == "OTHER IMPOSTER"
    ensures |names| > 1 <==> |heading| == 15 && heading[14] == 'S'
    ensures |names| <= 1 ==> heading == "OTHER IMPOSTER"
  {
    "OTHER IMPOSTER" + (if |names| > 1 then "S" else "")
  }

  /** In a dealt round whose names are pairwise distinct, an imposter who is
      told about the others sees imposterCount - 1 names, so the heading is
      plural exactly when three or more imposters were dealt. */
  lemma OtherImpostersCount(g: GameState, v: nat)
    requires InRound(g) && v < |g.players| && g.players[v].isImposter
    requires forall i, j :: 0 <= i < j < |g.players| ==> g.players[i].name != g.players[j].name
    requires g.settings.impostersKnowEachOther && g.imposterCount >= 2
    ensures |Disclose(g, g.players[v]).otherImposters| == g.imposterCount - 1
    ensures OtherImpostersHeading(Disclose(g, g.players[v]).otherImposters) ==
              if g.imposterCount >= 3 then "OTHER IMPOSTERS" else "OTHER IMPOSTER"
  {
    var ps := g.players;
    forall i | 0 <= i < |ps| && i != v && ps[i].isImposter
      ensures ps[i].name != ps[v].name
    {
      if i < v {
        assert ps[i].name != ps[v].name;
      } else {
        assert ps[v].name != ps[i].name;
      }
    }
    ImposterNamesExceptOneDropped(ps, ps[v].name, v);
    RevealPhase.ImpostersCount(ps);
  }

  /** Hard mode wins: an imposter in hard mode sees neither the category nor
      the hint, whatever their own toggles say. */
  lemma HardModeDominance(g: GameState, viewer: Player)
    requires viewer.isImposter && g.settings.hardMode
    ensures Disclose(g, viewer).category.None? && Disclose(g, viewer).hint.None?
  {
  }

  /** The word-length line does not depend on hard mode. */
  lemma WordLengthIgnoresHardMode(g: GameState, viewer: Player, hard: bool)
    ensures Disclose(g.(settings := g.settings.(hardMode := hard)), viewer).wordLength == Disclose(g, viewer).wordLength
  {
  }

  /** An imposter's overlay does not depend on the secret word, except for its
      length when that toggle is on. */
  lemma ImposterViewHidesWord(g: GameState, viewer: Player, word: string)
    requires viewer.isImposter
    ensures Disclose(g.(currentWord := word), viewer) ==
              Disclose(g, viewer).(wordLength := if g.settings.showWordLength then Some(|word|) else None)
  {
  }

  /** A non-imposter sees the word, the category, the hint when there is one,
      and nothing about imposters. */
  lemma CrewSeesEverything(g: GameState, viewer: Player)
    requires !viewer.isImposter
    ensures Disclose(g, viewer) ==
              View(ToUpper(g.currentWord), Some(OverlayCategory(g)),
                   if g.currentHint == "" then None else Some(g.currentHint), None, [])
  {
  }

  lemma {:induction false} NoOtherNames(ps: seq<Player>, name: string)
    requires forall i :: 0 <= i < |ps| && ps[i].isImposter ==> ps[i].name == name
    ensures ImposterNamesExcept(ps, name) == []
  {
    if ps != [] {
      NoOtherNames(ps[..|ps| - 1], name);
    }
  }

  lemma {:induction false} OneOtherName(ps: seq<Player>, name: string, j: nat)
    requires j < |ps| && ps[j].isImposter && ps[j].name != name
    requires forall i :: 0 <= i < |ps| && i != j && ps[i].isImposter ==> ps[i].name == name
    ensures ImposterNamesExcept(ps, name) == [ps[j].name]
  {
    var init, last := ps[..|ps| - 1], |ps| - 1;
    if j == last {
      NoOtherNames(init, name);
    } else {
      OneOtherName(init, name, j);
    }
  }

  /** Two imposters with different names who know each other each see
      exactly the other's name. */
  lemma TwoImpostersSeeEachOther(g: GameState, i: nat, j: nat)
    requires i < |g.players| && j < |g.players| && i != j
    requires ImposterIndices(g.players) == {i, j}
    requires g.players[i].name != g.players[j].name
    requires g.settings.impostersKnowEachOther && g.imposterCount == 2
    ensures OtherImposters(g, g.players[i]) == [g.players[j].name]
  {
    var ps := g.players;
    assert ps[i].isImposter && ps[j].isImposter by {
      assert i in ImposterIndices(ps) && j in ImposterIndices(ps);
    }
    forall k | 0 <= k < |ps| && k != j && ps[k].isImposter
      ensures ps[k].name == ps[i].name
    {
      assert k in ImposterIndices(ps);
    }
    OneOtherName(ps, ps[i].name, j);
  }

  /** The exclusion is by name: an imposter who shares the viewer's name is
      left out of the viewer's list as well. */
  lemma SameNameImposterHidden(g: GameState, viewer: Player, j: nat)
    requires j < |g.players| && g.players[j].isImposter && g.players[j].name == viewer.name
    ensures g.players[j].name !in Disclose(g, viewer).otherImposters
  {
  }

  /** Every name an imposter is told about appears among the imposters the
      reveal screen lists. */
  lemma OtherImpostersInSummary(g: GameState, viewer: Player)
    ensures forall x :: x in Disclose(g, viewer).otherImposters ==> x in RevealPhase.Summarize(g).imposterNames
  {
  }
}
