/** The lookup tables of `src/utils/functions.ts` and the region picker list of
    `src/utils/regions.ts`. */
module Lookups {
  import opened Wrappers

  /** ASCII `toLowerCase` on one character. */
  function LowerChar(c: char): char
  {
    if 'A' <= c <= 'Z' then (c as int - 'A' as int + 'a' as int) as char else c
  }

  /** `s.toLowerCase()` on ASCII letters. */
  function ToLower(s: string): (r: string)
    ensures |r| == |s|
    ensures forall i :: 0 <= i < |s| ==> r[i] == LowerChar(s[i])
  {
    if s == [] then [] else [LowerChar(s[0])] + ToLower(s[1..])
  }

  /** The platform regions of each routing cluster. */
  const Americas: set<string> := {"na1", "br1", "la1", "la2"}
  const Asia: set<string> := {"kr"}
  const Europe: set<string> := {"euw1", "eun1", "tr1", "ru"}
  const Sea: set<string> := {"oc1", "ph2", "sg2", "th1", "tw2", "vn2"}

  /** `getRoutingValue`: the routing cluster of a platform region, compared in
      lower case; any other region throws "Unsupported region: <region>" with the
      region as given. */
  function GetRoutingValue(region: string): (r: Result<string, string>)
    ensures ToLower(region) in Americas ==> r == Success("americas")
    ensures ToLower(region) in Asia ==> r == Success("asia")
    ensures ToLower(region) in Europe ==> r == Success("europe")
    ensures ToLower(region) in Sea ==> r == Success("sea")
    ensures r.Failure? <==> ToLower(region) !in Americas + Asia + Europe + Sea
    ensures r.Failure? ==> r.error == "Unsupported region: " + region
  {
    var regionLower := ToLower(region);
    if regionLower in ["na1", "br1", "la1", "la2"] then Success("americas")
    else if regionLower in ["kr"] then Success("asia")
    else if regionLower in ["euw1", "eun1", "tr1", "ru"] then Success("europe")
    else if regionLower in ["oc1", "ph2", "sg2", "th1", "tw2", "vn2"] then Success("sea")
    else Failure("Unsupported region: " + region)
  }

  /** Two spellings of a region that agree in lower case route alike: both to the
      same cluster, or both are rejected. */
  lemma RoutingIgnoresCase(a: string, b: string)
    requires ToLower(a) == ToLower(b)
    ensures GetRoutingValue(a).Success? <==> GetRoutingValue(b).Success?
    ensures GetRoutingValue(a).Success? ==> GetRoutingValue(a) == GetRoutingValue(b)
  {
  }

  /** The values the region picker offers. */
  const PickerRegions: seq<string> :=
    ["na1", "euw1", "eun1", "kr", "br1", "ru", "oc1", "tr1",
     "la1", "la2", "ph2", "sg2", "th1", "tw2", "vn2", "me1"]

  /** Every region the picker offers routes, except "me1", which is rejected. */
  lemma PickerRegionsRoute()
    ensures forall i :: 0 <= i < |PickerRegions| && PickerRegions[i] != "me1" ==>
      GetRoutingValue(PickerRegions[i]).Success?
    ensures "me1" in PickerRegions && GetRoutingValue("me1") == Failure("Unsupported region: me1")
  {
    forall i | 0 <= i < |PickerRegions|
      ensures ToLower(PickerRegions[i]) == PickerRegions[i]
    {
      var r := PickerRegions[i];
      assert forall j :: 0 <= j < |r| ==> LowerChar(r[j]) == r[j];
    }
    assert ToLower("me1") == "me1" by {
      assert forall j :: 0 <= j < 3 ==> LowerChar("me1"[j]) == "me1"[j];
    }
    assert "me1" !in Americas + Asia + Europe + Sea;
    assert "Unsupported region: " + "me1" == "Unsupported region: me1";
  }

  /** The labels of the queues `getGameModeLabel` knows. */
  const QueueLabels: map<int, string> := map[
    420 := "Ranked Solo", 440 := "Ranked Flex", 400 := "Normal Draft",
    430 := "Quickplay", 1700 := "Arena", 450 := "ARAM"]

  /** `getGameModeLabel`: "ARAM" for the ARAM game mode whatever the queue;
      otherwise the queue's label, or the game mode itself for other queues. */
  function GetGameModeLabel(gameMode: string, queueId: int): (shown: string)
    ensures gameMode == "ARAM" ==> shown == "ARAM"
    ensures gameMode != "ARAM" && queueId in QueueLabels ==> shown == QueueLabels[queueId]
    ensures gameMode != "ARAM" && queueId !in QueueLabels ==> shown == gameMode
  {
    if gameMode == "ARAM" then "ARAM"
    else match queueId
      case 420 => "Ranked Solo"
      case 440 => "Ranked Flex"
      case 400 => "Normal Draft"
      case 430 => "Quickplay"
      case 1700 => "Arena"
      case 450 => "ARAM"
      case _ => gameMode
  }

  /** Queue 450 is labelled "ARAM" whatever the game mode says. */
  lemma AramQueueAlwaysAram(gameMode: string)
    ensures GetGameModeLabel(gameMode, 450) == "ARAM"
  {
  }

  /** The labels of the ranked queue types `formatRankQueueType` knows. */
  const RankQueueLabels: map<string, string> := map[
    "RANKED_SOLO_5x5" := "Ranked Solo/Duo", "RANKED_FLEX_SR" := "Ranked Flex"]

  /** `formatRankQueueType`: the two ranked queue types get their labels, any
      other string is returned unchanged. */
  function FormatRankQueueType(queueType: string): (shown: string)
    ensures queueType in RankQueueLabels ==> shown == RankQueueLabels[queueType]
    ensures queueType !in RankQueueLabels ==> shown == queueType
  {
    match queueType
    case "RANKED_SOLO_5x5" => "Ranked Solo/Duo"
    case "RANKED_FLEX_SR" => "Ranked Flex"
    case _ => queueType
  }

  /** Formatting a queue type twice gives the same label as formatting it once. */
  lemma FormatRankQueueTypeIdempotent(queueType: string)
    ensures FormatRankQueueType(FormatRankQueueType(queueType)) == FormatRankQueueType(queueType)
  {
  }

  /** `calculateWinRate`: "0%" exactly when no games were played; the
      `toFixed(2)` percentage of the other branch is `None` here. */
  function WinRateText(wins: int, losses: int): (text: Option<string>)
    ensures text == Some("0%") <==> wins + losses == 0
    ensures text.None? <==> wins + losses != 0
  {
    var totalGames := wins + losses;
    if totalGames == 0 then Some("0%") else None
  }
}
