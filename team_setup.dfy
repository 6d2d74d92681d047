/** The team setup dialog: choose how many teams play, generate them with numbered ids,
    default names and cycling colours, customise names and colours, then start. */
module TeamSetup {
  import opened JeopardyTypes
  import opened Collections
  import JsStrings
  import LanguageContext

  const TeamColors: seq<string> := [
    "#ef4444", "#3b82f6", "#10b981", "#f59e0b",
    "#8b5cf6", "#ec4899", "#06b6d4", "#84cc16"
  ]

  /** The team counts the dialog offers, and the one selected at first. */
  const CountChoices: seq<nat> := [2, 3, 4, 5]
  const DefaultCount: nat := 2

  /** The `i`-th generated team (from zero): numbered from one, named after the
      translated team-name label, coloured by cycling through the palette, with no points. */
  function TeamAt(i: nat, teamLabel: string): Team {
    var n := JsStrings.NatToString(i + 1);
    Team("team-" + n, teamLabel + " " + n, TeamColors[i % |TeamColors|], 0)
  }

  /** `initializeTeams`' loop. */
  method NewTeams(count: nat, teamLabel: string) returns (teams: seq<Team>)
    ensures |teams| == count
    ensures forall i :: 0 <= i < count ==> teams[i] == TeamAt(i, teamLabel)
  {
    teams := [];
    var i := 0;
    while i < count
      invariant 0 <= i <= count
      invariant |teams| == i
      invariant forall k :: 0 <= k < i ==> teams[k] == TeamAt(k, teamLabel)
    {
      teams := teams + [TeamAt(i, teamLabel)];
      i := i + 1;
    }
  }

  /** Generated teams have distinct ids. */
  lemma TeamIdsDistinct(i: nat, j: nat, teamLabel: string)
    requires i != j
    ensures TeamAt(i, teamLabel).id != TeamAt(j, teamLabel).id
  {
    var a, b := JsStrings.NatToString(i + 1), JsStrings.NatToString(j + 1);
    JsStrings.NatToStringInjective(i + 1, j + 1);
    assert ("team-" + a)[5..] == a && ("team-" + b)[5..] == b;
  }

  /** The palette has no repeats, so up to eight teams get eight different colours, and
      the ninth team shares the first team's colour. */
  lemma TeamColorsCycle(i: nat, j: nat, teamLabel: string)
    ensures i < j < i + |TeamColors| ==> TeamAt(i, teamLabel).color != TeamAt(j, teamLabel).color
    ensures TeamAt(i, teamLabel).color == TeamAt(i + |TeamColors|, teamLabel).color
  {
    assert Distinct(TeamColors);
    assert (i + |TeamColors|) % |TeamColors| == i % |TeamColors|;
    if i < j < i + |TeamColors| {
      assert i % |TeamColors| != j % |TeamColors|;
    }
  }

  /** Every generated team starts at zero, and every count the dialog offers fits the
      palette without a repeated colour. */
  lemma OfferedCountsFitPalette()
    ensures forall k :: 0 <= k < |CountChoices| ==> 1 < CountChoices[k] <= |TeamColors|
    ensures DefaultCount in CountChoices
  {
  }

  /** The team-name key is missing from both translation tables, so default names read
      `teams.teamName 1`, `teams.teamName 2`, ... in either language. */
  lemma DefaultNamesShowKey(lang: LanguageContext.Language, i: nat)
    ensures TeamAt(i, LanguageContext.T(lang, "teams.teamName")).name
         == "teams.teamName " + JsStrings.NatToString(i + 1)
  {
    LanguageContext.TeamKeysUntranslated(lang);
  }

  datatype Step = Select | Customize

  datatype TeamField = Name | Color

  /** The host's callbacks, in the order the dialog calls them. */
  datatype Outcall = Started(teams: seq<Team>) | Closed

  function WithTeamField(t: Team, field: TeamField, value: string): Team {
    match field
    case Name => t.(name := value)
    case Color => t.(color := value)
  }

  class Setup {
    var numTeams: nat
    var teams: seq<Team>
    var step: Step
    var calls: seq<Outcall>

    constructor ()
      ensures numTeams == DefaultCount && teams == [] && step == Select && calls == []
    {
      numTeams := DefaultCount;
      teams := [];
      step := Select;
      calls := [];
    }

    /** A count button. */
    method ChooseCount(count: nat)
      modifies this
      ensures numTeams == count
      ensures teams == old(teams) && step == old(step) && calls == old(calls)
    {
      numTeams := count;
    }

    /** The next button: the chosen number of teams is generated; `teamLabel` is the
        translation of the team-name key. */
    method InitializeTeams(teamLabel: string)
      modifies this
      ensures |teams| == numTeams && step == Customize
      ensures forall i :: 0 <= i < numTeams ==> teams[i] == TeamAt(i, teamLabel)
      ensures numTeams == old(numTeams) && calls == old(calls)
    {
      var created := NewTeams(numTeams, teamLabel);
      teams := created;
      step := Customize;
    }

    /** A name input or a colour button of the team at `index`. */
    method UpdateTeam(index: nat, field: TeamField, value: string)
      requires index < |teams|
      modifies this
      ensures teams == old(teams)[index := WithTeamField(old(teams)[index], field, value)]
      ensures numTeams == old(numTeams) && step == old(step) && calls == old(calls)
    {
      var updated := teams;
      updated := updated[index := WithTeamField(updated[index], field, value)];
      teams := updated;
    }

    /** The start button hands over the teams and closes; the step is left as it is. */
    method HandleStart()
      modifies this
      ensures calls == old(calls) + [Started(old(teams)), Closed]
      ensures numTeams == old(numTeams) && teams == old(teams) && step == old(step)
    {
      calls := calls + [Started(teams)];
      calls := calls + [Closed];
    }

    /** Cancelling or dismissing: back to the first step with no teams. */
    method HandleClose()
      modifies this
      ensures step == Select && teams == [] && calls == old(calls) + [Closed]
      ensures numTeams == old(numTeams)
    {
      step := Select;
      teams := [];
      calls := calls + [Closed];
    }

    /** The back button of the second step keeps the teams. */
    method BackToSelect()
      modifies this
      ensures step == Select
      ensures numTeams == old(numTeams) && teams == old(teams) && calls == old(calls)
    {
      step := Select;
    }
  }
}
