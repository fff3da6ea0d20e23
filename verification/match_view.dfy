/** The pure logic of `src/components/matches/Match.tsx`: finding the viewed
    player in a match and whether their team won, the `m:ss` game duration and
    the creep score. */
module MatchView {
  import opened Wrappers
  import opened Text

  datatype Participant = Participant(
    puuid: string,
    teamId: int,
    totalMinionsKilled: nat,
    neutralMinionsKilled: Option<nat>)

  datatype Team = Team(teamId: int, win: bool)

  datatype MatchInfo = MatchInfo(participants: seq<Participant>, teams: seq<Team>, gameDuration: nat)

  /** The viewed player's entry (absent when not found) and whether they won. */
  datatype ParticipantData = ParticipantData(participant: Option<Participant>, win: bool)

  /** `Array.prototype.find` by index: the first position satisfying `p`. */
  function FindFirst<T>(xs: seq<T>, p: T -> bool): (r: Option<nat>)
    ensures r.Some? ==>
      r.value < |xs| && p(xs[r.value]) && forall j :: 0 <= j < r.value ==> !p(xs[j])
    ensures r.None? ==> forall j :: 0 <= j < |xs| ==> !p(xs[j])
  {
    if xs == [] then None
    else if p(xs[0]) then Some(0)
    else match FindFirst(xs[1..], p)
      case None => None
      case Some(i) => Some(i + 1)
  }

  /** `getParticipantData`: the first participant with the given puuid, and the
      `win` flag of the first team with that participant's `teamId` (false when
      no team has it); `{win: false}` when no participant matches. */
  function GetParticipantData(m: MatchInfo, puuid: string): (d: ParticipantData)
    ensures d.participant.None? <==> forall j :: 0 <= j < |m.participants| ==> m.participants[j].puuid != puuid
    ensures d.participant.None? ==> !d.win
    ensures d.participant.Some? ==>
      exists i :: (0 <= i < |m.participants|
        && m.participants[i] == d.participant.value && m.participants[i].puuid == puuid
        && forall j :: 0 <= j < i ==> m.participants[j].puuid != puuid)
    ensures d.participant.Some? ==>
      (d.win <==> exists t :: (0 <= t < |m.teams| && m.teams[t].teamId == d.participant.value.teamId
                               && m.teams[t].win
                               && forall u :: 0 <= u < t ==> m.teams[u].teamId != d.participant.value.teamId))
  {
    match FindFirst(m.participants, (p: Participant) => p.puuid == puuid)
    case None => ParticipantData(None, false)
    case Some(i) =>
      var participant := m.participants[i];
      var win := match FindFirst(m.teams, (t: Team) => t.teamId == participant.teamId)
        case None => false
        case Some(t) => m.teams[t].win;
      ParticipantData(Some(participant), win)
  }

  /** The duration string: whole minutes, ':', and the seconds padded to two digits. */
  function FormatDuration(seconds: nat): (text: string)
    ensures exists m: nat, s: nat ::
      (seconds == 60 * m + s && s < 60 && text == NatToString(m) + ":" + PadStart2(NatToString(s)))
  {
    var text := NatToString(seconds / 60) + ":" + PadStart2(NatToString(seconds % 60));
    assert seconds == 60 * (seconds / 60) + seconds % 60;
    text
  }

  /** Reads an `m:ss` string back as a number of seconds. */
  function ReadDuration(text: string): Option<nat>
  {
    var fields := Split(text, ':');
    if |fields| == 2 && IsDigits(fields[0]) && |fields[1]| == 2 && AllDigits(fields[1])
    then Some(60 * DigitsToNat(fields[0]) + DigitsToNat(fields[1]))
    else None
  }

  /** Any `digits:dd` string reads as its two fields. */
  lemma ReadFields(mm: string, ss: string)
    requires IsDigits(mm) && |ss| == 2 && AllDigits(ss)
    ensures ReadDuration(mm + [':'] + ss) == Some(60 * DigitsToNat(mm) + DigitsToNat(ss))
  {
    assert ':' !in mm by {
      assert forall i :: 0 <= i < |mm| ==> IsDigit(mm[i]);
    }
    assert ':' !in ss by {
      assert forall i :: 0 <= i < |ss| ==> IsDigit(ss[i]);
    }
    SplitSeparated(mm, ss, ':');
    SplitNoSeparator(ss, ':');
  }

  /** The duration string always has the `m:ss` shape and reads back as the duration. */
  lemma DurationRoundTrip(seconds: nat)
    ensures ReadDuration(FormatDuration(seconds)) == Some(seconds)
  {
    var mm := NatToString(seconds / 60);
    var ss := PadStart2(NatToString(seconds % 60));
    Pad2Reads(seconds % 60);
    NatStringRoundTrip(seconds / 60);
    ReadFields(mm, ss);
    assert FormatDuration(seconds) == mm + [':'] + ss;
  }

  /** The creep score: minions plus neutral monsters, a missing neutral count being 0. */
  function CreepScore(p: Participant): (cs: nat)
    ensures cs >= p.totalMinionsKilled
    ensures p.neutralMinionsKilled.None? ==> cs == p.totalMinionsKilled
    ensures p.neutralMinionsKilled.Some? ==> cs - p.totalMinionsKilled == p.neutralMinionsKilled.value
  {
    p.totalMinionsKilled + p.neutralMinionsKilled.GetOr(0)
  }
}
