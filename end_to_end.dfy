/**
  What a badge does with each payload the configuration tool builds: the
  tool's encoding composed with the firmware's decoding.
 */
module EndToEnd {
  import opened Bytes
  import opened Firmware
  import BadgeConf

  /**
    updateTeam then handleTeamChange: the badge ends up with the team
    clamped to 1..20 and the id clamped to 1..99, so a team the tool accepts
    above 20 (up to its own limit of 50) lands as team 20.
   */
  lemma TeamLands(st: State, team: int, id: int, measure: Measure)
    requires NameWellFormed(st.badge.name)
    ensures var o := Dispatch(st, BadgeConf.UpdateTeam(team, id), measure);
      && o.state.badge.team == BadgeConf.Clamp(team, 1, TeamMax)
      && o.state.badge.id == BadgeConf.Clamp(id, 1, IdMax)
      && |o.saved| == 1
    ensures TeamMax < team <= BadgeConf.MaxTeam ==>
      Dispatch(st, BadgeConf.UpdateTeam(team, id), measure).state.badge.team == TeamMax
  {
    var p := BadgeConf.UpdateTeam(team, id);
    SetTeamIdClamps(st, p, measure);
  }

  /** updateColor then handleColorChange: the badge takes exactly the colour the tool clamped. */
  lemma ColorLands(st: State, r: int, g: int, b: int, measure: Measure)
    requires NameWellFormed(st.badge.name)
    ensures var o := Dispatch(st, BadgeConf.UpdateColor(r, g, b), measure);
      && o.state.badge.color
         == Rgb(BadgeConf.Clamp(r, 0, 255), BadgeConf.Clamp(g, 0, 255), BadgeConf.Clamp(b, 0, 255))
      && o.state.badge == st.badge.(color := o.state.badge.color)
  {
    SetColorApplies(st, BadgeConf.UpdateColor(r, g, b), measure);
  }

  /**
    updateTeamColor then handleTeamColorChange: a badge recolours iff its
    team equals the tool's team taken modulo 256 and then constrained to
    1..20; any other badge is left as it was.
   */
  lemma TeamColorLands(st: State, team: int, r: int, g: int, b: int, measure: Measure)
    requires NameWellFormed(st.badge.name)
    ensures var o := Dispatch(st, BadgeConf.UpdateTeamColor(team, r, g, b), measure);
      var hit := Constrain(BadgeConf.ToByte(team), 1, TeamMax) == st.badge.team;
      && (hit ==> o.state.badge.color
                  == Rgb(BadgeConf.Clamp(r, 0, 255), BadgeConf.Clamp(g, 0, 255), BadgeConf.Clamp(b, 0, 255)))
      && (!hit ==> o == Outcome(st, [], []))
  {
    TeamColorFilter(st, BadgeConf.UpdateTeamColor(team, r, g, b), measure);
  }

  /** The tool does not clamp the team of updateTeamColor: team 257 reaches the badges of team 1. */
  lemma TeamColorWraps(st: State, measure: Measure)
    requires NameWellFormed(st.badge.name) && st.badge.team == 1
    ensures Dispatch(st, BadgeConf.UpdateTeamColor(257, 9, 9, 9), measure).state.badge.color == Rgb(9, 9, 9)
  {
    TeamColorLands(st, 257, 9, 9, 9, measure);
  }

  /**
    updateName then handleNameChange and saveConfig: a name without NUL
    bytes of at most 254 bytes is saved exactly; a longer one is cut to its
    first 254 bytes.
   */
  lemma NameLands(st: State, name: seq<Byte>, measure: Measure)
    requires NameWellFormed(st.badge.name)
    requires forall j :: 0 <= j < |name| ==> name[j] != Nul
    ensures var o := Dispatch(st, BadgeConf.UpdateName(name), measure);
      var n := if |name| < NameLimit then |name| else NameLimit;
      && |o.saved| == 1
      && o.saved[0].name == name[..n]
      && NameText(o.state.badge.name) == name[..n] + [Newline]
  {
    var dg := BadgeConf.UpdateName(name);
    var n := if |name| < NameLimit then |name| else NameLimit;
    assert dg[1..] == name;
    SetNameRoundTrip(st, dg, measure);
    NulFreeKept(name[..n]);
  }

  /** sendEcho then handleEcho. */
  lemma EchoLands(st: State, measure: Measure)
    requires NameWellFormed(st.badge.name)
    ensures Dispatch(st, BadgeConf.SendEcho(), measure) == EchoRequest(st)
  {
    DispatchOpcode(st, BadgeConf.SendEcho(), measure);
  }

  /** The three datagrams of command 6, handled in order. */
  function ApplyAll(st: State, ps: seq<seq<Byte>>, measure: Measure): (o: Outcome)
    requires NameWellFormed(st.badge.name)
    ensures NameWellFormed(o.state.badge.name)
    decreases |ps|
  {
    if ps == [] then Outcome(st, [], [])
    else
      var first := Dispatch(st, ps[0], measure);
      DispatchWellFormed(st, ps[0], measure);
      var rest := ApplyAll(first.state, ps[1..], measure);
      Outcome(rest.state, first.replies + rest.replies, first.saved + rest.saved)
  }

  /** Every datagram leaves the name buffer well formed. */
  lemma DispatchWellFormed(st: State, dg: seq<Byte>, measure: Measure)
    requires NameWellFormed(st.badge.name)
    ensures NameWellFormed(Dispatch(st, dg, measure).state.badge.name)
  {
    DispatchOpcode(st, dg, measure);
    if |dg| > 0 && dg[0] == OpSetName {
      NameChangeKeeps(st, dg[1..], measure);
    }
  }

  /** Handling a non-empty list is handling its first datagram, then the rest. */
  lemma ApplyCons(st: State, ps: seq<seq<Byte>>, measure: Measure)
    requires NameWellFormed(st.badge.name) && ps != []
    ensures (DispatchWellFormed(st, ps[0], measure);
      var first := Dispatch(st, ps[0], measure);
      var rest := ApplyAll(first.state, ps[1..], measure);
      ApplyAll(st, ps, measure) == Outcome(rest.state, first.replies + rest.replies, first.saved + rest.saved))
  {
  }

  /** Handling three datagrams is handling each in turn. */
  lemma ApplyThree(st: State, p0: seq<Byte>, p1: seq<Byte>, p2: seq<Byte>, measure: Measure)
    requires NameWellFormed(st.badge.name)
    ensures (DispatchWellFormed(st, p0, measure);
      var o1 := Dispatch(st, p0, measure);
      DispatchWellFormed(o1.state, p1, measure);
      var o2 := Dispatch(o1.state, p1, measure);
      DispatchWellFormed(o2.state, p2, measure);
      var o3 := Dispatch(o2.state, p2, measure);
      ApplyAll(st, [p0, p1, p2], measure)
        == Outcome(o3.state, o1.replies + (o2.replies + o3.replies), o1.saved + (o2.saved + o3.saved)))
  {
    var ps := [p0, p1, p2];
    var none: seq<seq<Byte>> := [];
    assert ps[1..] == [p1, p2] && ps[1..][1..] == [p2] && ps[1..][1..][1..] == none;
    DispatchWellFormed(st, p0, measure);
    var o1 := Dispatch(st, p0, measure);
    DispatchWellFormed(o1.state, p1, measure);
    var o2 := Dispatch(o1.state, p1, measure);
    DispatchWellFormed(o2.state, p2, measure);
    var o3 := Dispatch(o2.state, p2, measure);
    ApplyCons(st, ps, measure);
    ApplyCons(o1.state, ps[1..], measure);
    ApplyCons(o2.state, ps[1..][1..], measure);
    assert o3.replies + [] == o3.replies && o3.saved + [] == o3.saved;
  }

  /**
    Command 6 on a badge: team and id clamped to the badge's ranges, the
    clamped colour, the NUL-free name of at most 254 bytes saved verbatim,
    three saves and no reply.
   */
  lemma ConfigureLands(st: State, team: int, id: int, r: int, g: int, b: int, name: seq<Byte>, measure: Measure)
    requires NameWellFormed(st.badge.name)
    requires |name| <= NameLimit && forall j :: 0 <= j < |name| ==> name[j] != Nul
    ensures var o := ApplyAll(st, BadgeConf.ConfigureBadge(team, id, r, g, b, name), measure);
      && o.state.badge.team == BadgeConf.Clamp(team, 1, TeamMax)
      && o.state.badge.id == BadgeConf.Clamp(id, 1, IdMax)
      && o.state.badge.color == Rgb(BadgeConf.Clamp(r, 0, 255), BadgeConf.Clamp(g, 0, 255), BadgeConf.Clamp(b, 0, 255))
      && SavedName(o.state.badge.name) == name
      && o.replies == [] && |o.saved| == 3
  {
    ApplyThree(st, BadgeConf.UpdateTeam(team, id), BadgeConf.UpdateColor(r, g, b), BadgeConf.UpdateName(name), measure);
    ConfigureSteps(st, team, id, r, g, b, name, measure);
  }

  /** The three steps of command 6, one datagram at a time. */
  lemma ConfigureSteps(st: State, team: int, id: int, r: int, g: int, b: int, name: seq<Byte>, measure: Measure)
    requires NameWellFormed(st.badge.name)
    requires |name| <= NameLimit && forall j :: 0 <= j < |name| ==> name[j] != Nul
    ensures (DispatchWellFormed(st, BadgeConf.UpdateTeam(team, id), measure);
      var o1 := Dispatch(st, BadgeConf.UpdateTeam(team, id), measure);
      DispatchWellFormed(o1.state, BadgeConf.UpdateColor(r, g, b), measure);
      var o2 := Dispatch(o1.state, BadgeConf.UpdateColor(r, g, b), measure);
      DispatchWellFormed(o2.state, BadgeConf.UpdateName(name), measure);
      var o3 := Dispatch(o2.state, BadgeConf.UpdateName(name), measure);
      && o3.state.badge.team == BadgeConf.Clamp(team, 1, TeamMax)
      && o3.state.badge.id == BadgeConf.Clamp(id, 1, IdMax)
      && o3.state.badge.color == Rgb(BadgeConf.Clamp(r, 0, 255), BadgeConf.Clamp(g, 0, 255), BadgeConf.Clamp(b, 0, 255))
      && SavedName(o3.state.badge.name) == name
      && o1.replies == [] && o2.replies == [] && o3.replies == []
      && |o1.saved| == 1 && |o2.saved| == 1 && |o3.saved| == 1)
  {
    var p0 := BadgeConf.UpdateTeam(team, id);
    var p1 := BadgeConf.UpdateColor(r, g, b);
    var p2 := BadgeConf.UpdateName(name);
    DispatchWellFormed(st, p0, measure);
    var o1 := Dispatch(st, p0, measure);
    TeamLands(st, team, id, measure);
    SetTeamIdClamps(st, p0, measure);
    DispatchWellFormed(o1.state, p1, measure);
    var o2 := Dispatch(o1.state, p1, measure);
    ColorLands(o1.state, r, g, b, measure);
    SetColorApplies(o1.state, p1, measure);
    NameLands(o2.state, name, measure);
    assert name[..|name|] == name;
    SetNameRoundTrip(o2.state, p2, measure);
    NameSaved(o2.state, p2, measure);
  }

  /** What the name handler saves is the saved form of the new buffer. */
  lemma NameSaved(st: State, dg: seq<Byte>, measure: Measure)
    requires NameWellFormed(st.badge.name)
    requires |dg| > 0 && dg[0] == OpSetName
    ensures var o := Dispatch(st, dg, measure);
      NameWellFormed(o.state.badge.name) && o.saved == [ConfigOf(o.state.badge)]
  {
    DispatchOpcode(st, dg, measure);
    DispatchWellFormed(st, dg, measure);
  }
}
