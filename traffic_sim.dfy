/**
 * The traffic simulator (`MockTomTomTrafficAPI`): a severity per road name, applied to
 * routes to give their current duration, delay and status, and evolved by a periodic tick.
 * Every `Math.random()` draw is a parameter in [0, 1).
 */
module TrafficSim {
  import opened Wrappers
  import opened Text
  import opened OrderedMaps
  import opened Types
  import Seqs

  /** The traffic condition on one road: severity 0 is free flow, 1 doubles the journey time. */
  datatype Condition = Condition(severity: real, reason: Option<string>)

  datatype Scenario = Scenario(road: string, severity: real, reason: string)

  datatype Trend = Improving | Worsening

  /** The random draws one update tick consumes for one road. */
  datatype RoadDraws = RoadDraws(improveChance: real, improveAmount: real, worsenChance: real, worsenAmount: real)

  /** The random draws that choose a new incident: group, road, reason and severity. */
  datatype IncidentDraws = IncidentDraws(group: real, road: real, reason: real, severity: real)

  predicate IsDraw(x: real) { 0.0 <= x < 1.0 }

  predicate ValidRoadDraws(d: RoadDraws) {
    IsDraw(d.improveChance) && IsDraw(d.improveAmount) && IsDraw(d.worsenChance) && IsDraw(d.worsenAmount)
  }

  predicate ValidIncidentDraws(d: IncidentDraws) {
    IsDraw(d.group) && IsDraw(d.road) && IsDraw(d.reason) && IsDraw(d.severity)
  }

  // ---------------------------------------------------------------------------------------
  // Applying a condition to a route

  /** CLEAR up to 20 % slower, MODERATE up to 50 %, HEAVY beyond. */
  function Classify(pct: real): (s: RouteStatus)
    ensures s == Heavy <==> pct > 50.0
    ensures s == Moderate <==> 20.0 < pct <= 50.0
    ensures s == Clear <==> pct <= 20.0
  {
    if pct > 50.0 then Heavy else if pct > 20.0 then Moderate else Clear
  }

  /**
   * `getTrafficFlow` on a road whose condition is `cond` (severity 0 when the road has none).
   * The routes it is applied to come from the route provider, whose static durations are
   * at least 255 seconds.
   */
  function ApplyCondition(route: Route, cond: Option<Condition>): (r: Route)
    requires route.staticDuration > 0
    ensures var sev := if cond.Some? then cond.value.severity else 0.0;
            r.currentDuration == Round(route.staticDuration as real * (1.0 + sev))
    ensures r.delay == r.currentDuration - route.staticDuration
    ensures r.delayPercentage == r.delay as real / route.staticDuration as real * 100.0
    ensures r.status == Classify(r.delayPercentage)
    ensures r.reason == if cond.Some? then cond.value.reason else None
    ensures r.id == route.id && r.name == route.name && r.polyline == route.polyline
    ensures r.distance == route.distance && r.staticDuration == route.staticDuration
  {
    var sev := if cond.Some? then cond.value.severity else 0.0;
    var current := Round(route.staticDuration as real * (1.0 + sev));
    var delay := current - route.staticDuration;
    var pct := delay as real / route.staticDuration as real * 100.0;
    route.(currentDuration := current, delay := delay, delayPercentage := pct,
           status := Classify(pct), reason := if cond.Some? then cond.value.reason else None)
  }

  /** A non-negative severity never makes a route faster than its free-flow time. */
  lemma NonNegativeSeverityNoGain(route: Route, c: Condition)
    requires route.staticDuration > 0 && c.severity >= 0.0
    ensures ApplyCondition(route, Some(c)).delay >= 0
    ensures ApplyCondition(route, Some(c)).currentDuration >= route.staticDuration
    ensures ApplyCondition(route, Some(c)).delayPercentage >= 0.0
  {
    var x := route.staticDuration as real * (1.0 + c.severity);
    assert x >= route.staticDuration as real;
  }

  /** A road with no condition keeps its free-flow figures and is CLEAR. */
  lemma NoConditionIsClear(route: Route)
    requires route.staticDuration > 0
    ensures ApplyCondition(route, None).currentDuration == route.staticDuration
    ensures ApplyCondition(route, None).delay == 0
    ensures ApplyCondition(route, None).status == Clear
  {
  }

  /** Severities 0.1, 0.3 and 0.8 on a ten-minute route give CLEAR, MODERATE and HEAVY. */
  lemma TenMinuteRouteExamples(route: Route)
    requires route.staticDuration == 600
    ensures ApplyCondition(route, Some(Condition(0.1, None))).status == Clear
    ensures ApplyCondition(route, Some(Condition(0.3, None))).status == Moderate
    ensures ApplyCondition(route, Some(Condition(0.8, None))).status == Heavy
    ensures ApplyCondition(route, Some(Condition(0.8, None))).delay == 480
  {
    assert Round(660.0) == 660;
    assert Round(780.0) == 780;
    assert Round(1080.0) == 1080;
  }

  // ---------------------------------------------------------------------------------------
  // Incident reasons

  const ImprovingSuffixes: seq<string> :=
    [" - vehicles being moved", " - recovery vehicle on route", " - work progressing", " - situation improving"]
  const WorseningSuffixes: seq<string> :=
    [" - causing further delays", " - affecting multiple lanes", " - extended closure", " - delays increasing"]

  /** The index of the first of 'accident', 'breakdown', 'roadworks' the reason mentions, else 3. */
  function ReasonCategory(reason: string): (c: nat)
    ensures c <= 3
    ensures c == 0 <==> Contains(reason, "accident")
    ensures c == 1 <==> !Contains(reason, "accident") && Contains(reason, "breakdown")
    ensures c == 2 <==> !Contains(reason, "accident") && !Contains(reason, "breakdown") && Contains(reason, "roadworks")
  {
    if Contains(reason, "accident") then 0
    else if Contains(reason, "breakdown") then 1
    else if Contains(reason, "roadworks") then 2
    else 3
  }

  /** `updateIncidentReason`: the reason with a trend suffix, or 'Traffic incident' when there is none. */
  function UpdateIncidentReason(reason: Option<string>, trend: Trend): (r: string)
    ensures !Truthy(reason) ==> r == "Traffic incident"
    ensures Truthy(reason) ==>
              |r| > |reason.value| && r[..|reason.value|] == reason.value &&
              r[|reason.value|..] == (if trend == Improving then ImprovingSuffixes else WorseningSuffixes)[ReasonCategory(reason.value)]
  {
    if !Truthy(reason) then "Traffic incident"
    else
      var suffixes := if trend == Improving then ImprovingSuffixes else WorseningSuffixes;
      var r := reason.value + suffixes[ReasonCategory(reason.value)];
      assert r[..|reason.value|] == reason.value;
      r
  }

  // ---------------------------------------------------------------------------------------
  // Seeding

  predicate IsWeekday(day: int) { 1 <= day <= 5 }
  predicate IsRushHour(hour: int) { 7 <= hour <= 9 || 17 <= hour <= 19 }
  predicate IsSchoolHour(hour: int) { hour == 8 || hour == 15 }
  predicate IsWeekendLeisure(day: int, hour: int) { (day == 6 || day == 0) && 10 <= hour <= 16 }

  const RushHourScenarios: seq<Scenario> := [
    Scenario("A21 (London Road)", 0.4, "Rush hour congestion"),
    Scenario("M25 Junction 5", 0.6, "Heavy commuter traffic"),
    Scenario("A225 (Dartford Road)", 0.3, "Morning/evening rush"),
    Scenario("A26 (Tonbridge Road)", 0.2, "Increased traffic volume")]

  const SchoolRunScenarios: seq<Scenario> := [
    Scenario("Via Bradbourne Park Road", 0.3, "School drop-off/pick-up"),
    Scenario("A25 (High Street)", 0.2, "School traffic"),
    Scenario("Seal Hollow Road", 0.4, "Parents dropping children at school")]

  const WeekendScenarios: seq<Scenario> := [
    Scenario("A21 towards Hastings", 0.2, "Weekend leisure traffic"),
    Scenario("Via Knole Park", 0.1, "Visitors to Knole House")]

  const RandomScenarios: seq<Scenario> := [
    Scenario("A21 (London Road)", 0.7, "Multi-vehicle accident near Sevenoaks bypass"),
    Scenario("M25 Junction 5", 0.8, "Overturned lorry blocking two lanes"),
    Scenario("A25 (High Street)", 0.4, "Roadworks - temporary traffic lights"),
    Scenario("A225 (Dartford Road)", 0.5, "Broken down vehicle in outside lane"),
    Scenario("Via Seal Hollow Road", 0.3, "Tree fallen across carriageway"),
    Scenario("A26 (Tonbridge Road)", 0.6, "Police incident - lane restrictions"),
    Scenario("Via Bradbourne Park Road", 0.2, "Utility work causing delays"),
    Scenario("A224 (Polhill)", 0.4, "Emergency services on scene"),
    Scenario("Via Riverhead", 0.1, "Local event causing minor delays"),
    Scenario("A21 towards Hastings", 0.5, "Contraflow system in operation")]

  predicate ScenarioInRange(s: Scenario) { 0.0 <= s.severity <= 1.0 }

  /**
   * `getTimeBasedTrafficScenarios` for a day of the week (0 = Sunday) and an hour: the
   * weekday rush-hour block, then the weekday school-run block, then the weekend block.
   */
  function TimeBasedScenarios(day: int, hour: int): (r: seq<Scenario>)
    ensures |r| == (if IsWeekday(day) && IsRushHour(hour) then 4 else 0)
                 + (if IsWeekday(day) && IsSchoolHour(hour) then 3 else 0)
                 + (if IsWeekendLeisure(day, hour) then 2 else 0)
    ensures IsWeekday(day) && IsRushHour(hour) ==> r[..4] == RushHourScenarios
    ensures forall i :: 0 <= i < |r| ==> ScenarioInRange(r[i])
  {
    (if IsWeekday(day) && IsRushHour(hour) then RushHourScenarios else [])
    + (if IsWeekday(day) && IsSchoolHour(hour) then SchoolRunScenarios else [])
    + (if IsWeekendLeisure(day, hour) then WeekendScenarios else [])
  }

  /** `r` is `t` with some elements left out, the rest in their order. */
  predicate Subsequence<T(==)>(r: seq<T>, t: seq<T>)
    decreases |t|
  {
    r == [] ||
    (t != [] &&
     ((r[|r| - 1] == t[|t| - 1] && Subsequence(r[..|r| - 1], t[..|t| - 1])) || Subsequence(r, t[..|t| - 1])))
  }

  /** No two entries of the random table are the same scenario. */
  lemma RandomScenariosDistinct()
    ensures NoDup(RandomScenarios)
  {
    forall i, j | 0 <= i < j < |RandomScenarios|
      ensures RandomScenarios[i] != RandomScenarios[j]
    {
      assert RandomScenarios[i].reason != RandomScenarios[j].reason;
    }
  }

  /** Extending both sequences by the same element, or only the longer one, keeps a subsequence. */
  lemma SubsequenceSnoc<T>(r: seq<T>, t: seq<T>, x: T)
    requires Subsequence(r, t)
    ensures Subsequence(r + [x], t + [x]) && Subsequence(r, t + [x])
  {
    assert (t + [x])[..|t|] == t;
    assert (r + [x])[..|r|] == r;
  }

  /** The entries of `t` whose draw is under 0.3, in the order of `t`. */
  function Activated<T(==,!new)>(t: seq<T>, draws: seq<real>): (r: seq<T>)
    requires |draws| <= |t| && NoDup(t)
    ensures |r| <= |draws|
    ensures forall s :: s in r ==> s in t[..|draws|]
    ensures forall i :: 0 <= i < |draws| ==> (t[i] in r <==> draws[i] < 0.3)
    ensures Subsequence(r, t[..|draws|])
  {
    if draws == [] then []
    else
      var k := |draws| - 1;
      var prev := Activated(t, draws[..k]);
      ActivatedStep(t, draws, prev);
      prev + (if draws[k] < 0.3 then [t[k]] else [])
  }

  /** One step of `Activated`: entry k joins the selection of the first k exactly when its draw is low. */
  lemma ActivatedStep<T(!new)>(t: seq<T>, draws: seq<real>, prev: seq<T>)
    requires 0 < |draws| <= |t| && NoDup(t)
    requires forall s :: s in prev ==> s in t[..|draws| - 1]
    requires forall i :: 0 <= i < |draws| - 1 ==> (t[i] in prev <==> draws[i] < 0.3)
    requires Subsequence(prev, t[..|draws| - 1])
    ensures var r := prev + (if draws[|draws| - 1] < 0.3 then [t[|draws| - 1]] else []);
            (forall s :: s in r ==> s in t[..|draws|])
            && (forall i :: 0 <= i < |draws| ==> (t[i] in r <==> draws[i] < 0.3))
            && Subsequence(r, t[..|draws|])
  {
    var k := |draws| - 1;
    var x := t[k];
    assert t[..k + 1] == t[..k] + [x];
    SubsequenceSnoc(prev, t[..k], x);
    forall s | s in prev
      ensures s != x
    {
      var j :| 0 <= j < k && t[..k][j] == s;
      assert t[j] == s;
    }
    if draws[k] < 0.3 {
      forall i | 0 <= i < k
        ensures t[i] in prev + [x] <==> t[i] in prev
      {
        assert t[i] != x;
      }
    } else {
      assert prev + [] == prev;
    }
  }

  /**
   * The random scenarios whose activation draw fell under 30 %: exactly those, and in the
   * order of the table, which matters because later writes win.
   */
  function ActiveRandomScenarios(draws: seq<real>): (r: seq<Scenario>)
    requires |draws| <= |RandomScenarios|
    ensures |r| <= |draws|
    ensures forall s :: s in r ==> s in RandomScenarios[..|draws|]
    ensures forall i :: 0 <= i < |draws| ==> (RandomScenarios[i] in r <==> draws[i] < 0.3)
    ensures Subsequence(r, RandomScenarios[..|draws|])
  {
    RandomScenariosDistinct();
    Activated(RandomScenarios, draws)
  }

  /** Writing the scenarios into the map one after the other. */
  function ApplyScenarios(m: OrderedMap<string, Condition>, scs: seq<Scenario>): (r: OrderedMap<string, Condition>)
    requires m.Valid()
    ensures r.Valid()
  {
    if scs == [] then m
    else
      var last := scs[|scs| - 1];
      ApplyScenarios(m, scs[..|scs| - 1]).Put(last.road, Condition(last.severity, Some(last.reason)))
  }

  /** The roads of the result are those of the map and those the scenarios name. */
  lemma {:induction false} ApplyScenariosRoads(m: OrderedMap<string, Condition>, scs: seq<Scenario>)
    requires m.Valid()
    ensures forall road :: road in ApplyScenarios(m, scs).entries <==> road in m.entries || exists s :: s in scs && s.road == road
  {
    if scs != [] {
      var k := |scs| - 1;
      ApplyScenariosRoads(m, scs[..k]);
      assert forall s :: s in scs <==> s in scs[..k] || s == scs[k] by {
        assert scs == scs[..k] + [scs[k]];
      }
    }
  }

  /** The road carries the severity and reason of the last scenario that names it. */
  lemma {:induction false} LastScenarioWins(m: OrderedMap<string, Condition>, scs: seq<Scenario>, i: nat)
    requires m.Valid() && i < |scs|
    requires forall j :: i < j < |scs| ==> scs[j].road != scs[i].road
    ensures scs[i].road in ApplyScenarios(m, scs).entries
    ensures ApplyScenarios(m, scs).entries[scs[i].road] == Condition(scs[i].severity, Some(scs[i].reason))
    decreases |scs|
  {
    var k := |scs| - 1;
    var prev := ApplyScenarios(m, scs[..k]);
    assert ApplyScenarios(m, scs) == prev.Put(scs[k].road, Condition(scs[k].severity, Some(scs[k].reason)));
    if i < k {
      LastScenarioWins(m, scs[..k], i);
      assert scs[..k][i] == scs[i];
    }
  }

  // ---------------------------------------------------------------------------------------
  // The update tick, one road at a time

  function Max(a: real, b: real): real { if a >= b then a else b }
  function Min(a: real, b: real): real { if a <= b then a else b }

  /**
   * One road's change in a tick. Improvement (15 % chance when the severity exceeds 0.1)
   * lowers it by up to 0.2, floored at 0, and drops the reason once it is 0.1 or less.
   * Worsening (8 % chance when 0 < severity < 0.8) raises the ORIGINAL severity by up to 0.3,
   * capped at 1, and so replaces any improvement drawn in the same tick.
   */
  function Evolve(c: Condition, d: RoadDraws): (r: Condition)
    ensures var improves := c.severity > 0.1 && d.improveChance < 0.15;
            var worsens := 0.0 < c.severity < 0.8 && d.worsenChance < 0.08;
            (!improves && !worsens ==> r == c) &&
            (worsens ==>
               r.severity == Min(1.0, c.severity + d.worsenAmount * 0.3) && r.reason == Some(UpdateIncidentReason(c.reason, Worsening))) &&
            (improves && !worsens ==>
               r.severity == Max(0.0, c.severity - d.improveAmount * 0.2) &&
               r.reason == (if r.severity > 0.1 then Some(UpdateIncidentReason(c.reason, Improving)) else None))
    ensures ValidRoadDraws(d) && 0.0 <= c.severity <= 1.0 ==> 0.0 <= r.severity <= 1.0
  {
    var improved :=
      if c.severity > 0.1 && d.improveChance < 0.15 then
        var s := Max(0.0, c.severity - d.improveAmount * 0.2);
        Condition(s, if s > 0.1 then Some(UpdateIncidentReason(c.reason, Improving)) else None)
      else c;
    if 0.0 < c.severity < 0.8 && d.worsenChance < 0.08 then
      Condition(Min(1.0, c.severity + d.worsenAmount * 0.3), Some(UpdateIncidentReason(c.reason, Worsening)))
    else improved
  }

  const IncidentRoads: seq<seq<string>> := [
    ["A21 (London Road)", "M25 Junction 5", "A225 (Dartford Road)"],
    ["A25 (High Street)", "Via Bradbourne Park Road", "Seal Hollow Road"],
    ["A26 (Tonbridge Road)", "A224 (Polhill)", "Via Riverhead"]]

  const IncidentReasons: seq<seq<string>> := [
    ["Vehicle breakdown in outside lane", "Minor collision - debris on road",
     "Police stopping vehicle", "Broken down HGV causing delays"],
    ["Temporary traffic lights installed", "Emergency gas leak - road partially closed",
     "Water main repair causing delays", "Local event - increased pedestrian activity"],
    ["Fallen tree blocking carriageway", "Surface water flooding",
     "Emergency services attending incident", "Abnormal load requiring escort"]]

  const SeverityLow: seq<real> := [0.2, 0.1, 0.3]
  const SeverityHigh: seq<real> := [0.6, 0.4, 0.8]

  /** `Math.floor(draw * n)`: a draw in [0, 1) picks one of n slots. */
  function Pick(draw: real, n: nat): (i: nat)
    requires IsDraw(draw) && n > 0
    ensures i < n
  {
    assert draw * n as real < n as real by {
      assert (1.0 - draw) * n as real > 0.0;
    }
    (draw * n as real).Floor
  }

  /** `addNewIncident`: a group, then a road, a reason and a severity within the group's range. */
  function NewIncident(d: IncidentDraws): (r: Scenario)
    requires ValidIncidentDraws(d)
    ensures exists g :: 0 <= g < 3 && r.road in IncidentRoads[g] && r.reason in IncidentReasons[g]
              && SeverityLow[g] <= r.severity < SeverityHigh[g]
    ensures 0.1 <= r.severity < 0.8
  {
    var g := Pick(d.group, 3);
    var sev := SeverityLow[g] + d.severity * (SeverityHigh[g] - SeverityLow[g]);
    Scenario(IncidentRoads[g][Pick(d.road, 3)], sev, IncidentReasons[g][Pick(d.reason, 4)])
  }

  /** Resolved incidents are those whose severity fell under 0.05. */
  predicate Unresolved(c: Condition) { c.severity >= 0.05 }

  /** The keys of `ks` whose condition in `e` is unresolved, in order. */
  function KeepUnresolved(ks: seq<string>, e: map<string, Condition>): (r: seq<string>)
    requires forall k :: k in ks ==> k in e
    ensures forall k :: k in r <==> k in ks && Unresolved(e[k])
    ensures NoDup(ks) ==> NoDup(r)
  {
    if ks == [] then []
    else
      var k := |ks| - 1;
      var prev := KeepUnresolved(ks[..k], e);
      assert ks == ks[..k] + [ks[k]];
      assert NoDup(ks) ==> ks[k] !in ks[..k];
      prev + (if Unresolved(e[ks[k]]) then [ks[k]] else [])
  }

  /** Extending the visited prefix by one key extends the kept keys by that key or by nothing. */
  lemma KeepUnresolvedSnoc(ks: seq<string>, e: map<string, Condition>, i: nat)
    requires i < |ks| && forall k :: k in ks ==> k in e
    ensures KeepUnresolved(ks[..i + 1], e)
            == KeepUnresolved(ks[..i], e) + (if Unresolved(e[ks[i]]) then [ks[i]] else [])
  {
    assert ks[..i + 1][..i] == ks[..i];
  }

  /** A key of a duplicate-free sequence occurs neither before nor after its position. */
  lemma OnlyAt(ks: seq<string>, i: nat)
    requires NoDup(ks) && i < |ks|
    ensures ks[i] !in ks[..i] && ks[i] !in ks[i + 1..]
  {
    forall j | 0 <= j < i ensures ks[..i][j] != ks[i] {
      assert ks[..i][j] == ks[j];
    }
    var rest := ks[i + 1..];
    forall j | 0 <= j < |rest| ensures rest[j] != ks[i] {
      assert rest[j] == ks[i + 1 + j];
    }
  }

  /** One step of the deletion pass over `ks`: position i is kept or removed. */
  lemma ClearStep(ks: seq<string>, e: map<string, Condition>, i: nat)
    requires NoDup(ks) && i < |ks| && forall k :: k in ks ==> k in e
    ensures Unresolved(e[ks[i]]) ==>
              KeepUnresolved(ks[..i + 1], e) + ks[i + 1..] == KeepUnresolved(ks[..i], e) + ks[i..]
    ensures !Unresolved(e[ks[i]]) ==>
              RemoveKey(KeepUnresolved(ks[..i], e) + ks[i..], ks[i]) == KeepUnresolved(ks[..i + 1], e) + ks[i + 1..]
    ensures forall road :: road in ks[..i + 1] <==> road in ks[..i] || road == ks[i]
  {
    KeepUnresolvedSnoc(ks, e, i);
    if Unresolved(e[ks[i]]) {
      KeepStep(KeepUnresolved(ks[..i], e), ks, i);
    } else {
      RemoveStep(KeepUnresolved(ks[..i], e), ks, i);
    }
    PrefixSnoc(ks, i);
  }

  /** Keeping key i moves it from the unvisited suffix to the kept prefix. */
  lemma KeepStep(prefix: seq<string>, ks: seq<string>, i: nat)
    requires i < |ks|
    ensures (prefix + [ks[i]]) + ks[i + 1..] == prefix + ks[i..]
  {
    assert ks[i..] == [ks[i]] + ks[i + 1..];
  }

  /** Removing key i, which occurs nowhere else, drops it from the sequence. */
  lemma RemoveStep(prefix: seq<string>, ks: seq<string>, i: nat)
    requires NoDup(ks) && i < |ks| && ks[i] !in prefix
    ensures RemoveKey(prefix + ks[i..], ks[i]) == (prefix + []) + ks[i + 1..]
  {
    OnlyAt(ks, i);
    assert ks[i..] == [ks[i]] + ks[i + 1..];
    assert prefix + ks[i..] == prefix + [ks[i]] + ks[i + 1..];
    RemoveKeyAt(prefix, ks[i], ks[i + 1..]);
    assert prefix + [] == prefix;
  }

  /** The first i + 1 keys are the first i and key i. */
  lemma PrefixSnoc(ks: seq<string>, i: nat)
    requires i < |ks|
    ensures forall road :: road in ks[..i + 1] <==> road in ks[..i] || road == ks[i]
  {
    assert ks[..i + 1] == ks[..i] + [ks[i]];
  }

  /** `e` without the resolved entries among the roads already visited. */
  function DropResolved(e: map<string, Condition>, visited: seq<string>): (r: map<string, Condition>)
    ensures forall road :: road in r <==> road in e && (road !in visited || Unresolved(e[road]))
    ensures forall road :: road in r ==> r[road] == e[road]
  {
    map road | road in e && (road !in visited || Unresolved(e[road])) :: e[road]
  }

  /** One iteration of the deletion pass: the road at position i is deleted when resolved. */
  method ClearAt(m: OrderedMap<string, Condition>, ks: seq<string>, e: map<string, Condition>, i: nat)
    returns (m': OrderedMap<string, Condition>)
    requires m.Valid() && NoDup(ks) && i < |ks| && forall k :: k in ks ==> k in e
    requires m.keys == KeepUnresolved(ks[..i], e) + ks[i..]
    requires m.entries == DropResolved(e, ks[..i])
    ensures m'.Valid()
    ensures m'.keys == KeepUnresolved(ks[..i + 1], e) + ks[i + 1..]
    ensures m'.entries == DropResolved(e, ks[..i + 1])
  {
    ClearStep(ks, e, i);
    DropResolvedStep(e, ks, i);
    m' := m;
    if !Unresolved(e[ks[i]]) {
      m' := m.Remove(ks[i]);
    }
  }

  /** Before the deletion loop has visited a road, the map is as it was. */
  lemma ClearNothingYet(m: OrderedMap<string, Condition>)
    requires m.Valid()
    ensures m.keys == KeepUnresolved(m.keys[..0], m.entries) + m.keys[0..]
    ensures m.entries == DropResolved(m.entries, m.keys[..0])
  {
    NothingKeptYet(m.keys, m.entries);
    NothingDroppedYet(m.entries, m.keys);
  }

  lemma NothingKeptYet(ks: seq<string>, e: map<string, Condition>)
    requires forall k :: k in ks ==> k in e
    ensures ks == KeepUnresolved(ks[..0], e) + ks[0..]
  {
    assert ks[..0] == [];
    assert ks[0..] == ks;
  }

  lemma NothingDroppedYet(e: map<string, Condition>, ks: seq<string>)
    ensures e == DropResolved(e, ks[..0])
  {
    assert ks[..0] == [];
  }

  /** The deletion loop of `updateTrafficConditions` over the roads of `m` in order. */
  method ClearPass(m: OrderedMap<string, Condition>) returns (m': OrderedMap<string, Condition>)
    requires m.Valid()
    ensures m'.Valid()
    ensures m' == OrderedMap(KeepUnresolved(m.keys, m.entries), DropResolved(m.entries, m.keys))
  {
    var ks, e := m.keys, m.entries;
    ClearNothingYet(m);
    m' := m;
    var i := 0;
    while i < |ks|
      invariant 0 <= i <= |ks|
      invariant m'.Valid()
      invariant m'.keys == KeepUnresolved(ks[..i], e) + ks[i..]
      invariant m'.entries == DropResolved(e, ks[..i])
    {
      m' := ClearAt(m', ks, e, i);
      i := i + 1;
    }
    ClearAllVisited(ks, e);
  }

  /** Once the pass has visited every road, nothing is left unvisited. */
  lemma ClearAllVisited(ks: seq<string>, e: map<string, Condition>)
    requires forall k :: k in ks ==> k in e
    ensures KeepUnresolved(ks[..|ks|], e) + ks[|ks|..] == KeepUnresolved(ks, e)
    ensures DropResolved(e, ks[..|ks|]) == DropResolved(e, ks)
  {
    assert ks[..|ks|] == ks;
    assert KeepUnresolved(ks, e) + [] == KeepUnresolved(ks, e);
  }

  /** Once every road is visited, exactly the unresolved entries remain, unchanged. */
  lemma DropAllResolved(e: map<string, Condition>, ks: seq<string>)
    requires forall road :: road in e ==> road in ks
    ensures forall road :: road in DropResolved(e, ks) <==> road in e && Unresolved(e[road])
    ensures forall road :: road in DropResolved(e, ks) ==> DropResolved(e, ks)[road] == e[road]
  {
  }

  lemma DropResolvedStep(e: map<string, Condition>, ks: seq<string>, i: nat)
    requires i < |ks| && ks[i] in e
    ensures Unresolved(e[ks[i]]) ==> DropResolved(e, ks[..i + 1]) == DropResolved(e, ks[..i])
    ensures !Unresolved(e[ks[i]]) ==> DropResolved(e, ks[..i + 1]) == DropResolved(e, ks[..i]) - {ks[i]}
  {
    assert ks[..i + 1] == ks[..i] + [ks[i]];
  }

  lemma RemoveKeyAbsent(s: seq<string>, k: string)
    requires k !in s
    ensures RemoveKey(s, k) == s
  {
    if s != [] {
      RemoveKeyAbsent(s[1..], k);
    }
  }

  lemma {:induction false} RemoveKeyAt(a: seq<string>, k: string, b: seq<string>)
    requires k !in a && k !in b
    ensures RemoveKey(a + [k] + b, k) == a + b
  {
    if a == [] {
      assert a + [k] + b == [k] + b;
      assert ([k] + b)[1..] == b;
      RemoveKeyAbsent(b, k);
    } else {
      assert (a + [k] + b)[1..] == a[1..] + [k] + b;
      RemoveKeyAt(a[1..], k, b);
      assert a == [a[0]] + a[1..];
    }
  }

  /** Every road's condition after the evolution pass, each with the draws of its position. */
  function EvolvedMap(m: OrderedMap<string, Condition>, draws: seq<RoadDraws>): (r: OrderedMap<string, Condition>)
    requires m.Valid() && |draws| == |m.keys|
    ensures r.Valid() && r.keys == m.keys && r.entries.Keys == m.entries.Keys
    ensures forall i :: 0 <= i < |m.keys| ==> r.entries[m.keys[i]] == Evolve(m.entries[m.keys[i]], draws[i])
  {
    var r := OrderedMap(m.keys, map road | road in m.entries :: Evolve(m.entries[road], draws[IndexOf(m.keys, road)]));
    assert forall i :: 0 <= i < |m.keys| ==> IndexOf(m.keys, m.keys[i]) == i;
    r
  }

  /** Evolving roads whose severities lie in [0, 1] with valid draws keeps them there. */
  lemma EvolvedInRange(m: OrderedMap<string, Condition>, draws: seq<RoadDraws>)
    requires m.Valid() && |draws| == |m.keys|
    requires forall road :: road in m.entries ==> 0.0 <= m.entries[road].severity <= 1.0
    requires forall i :: 0 <= i < |draws| ==> ValidRoadDraws(draws[i])
    ensures forall road :: road in EvolvedMap(m, draws).entries ==> 0.0 <= EvolvedMap(m, draws).entries[road].severity <= 1.0
  {
    var r := EvolvedMap(m, draws);
    forall road | road in r.entries
      ensures 0.0 <= r.entries[road].severity <= 1.0
    {
      var j := IndexOf(m.keys, road);
      assert r.entries[m.keys[j]] == Evolve(m.entries[m.keys[j]], draws[j]);
    }
  }

  /** The first i roads of `m` have evolved in `m'`, and the others are as they were. */
  ghost predicate EvolvedUpTo(m: OrderedMap<string, Condition>, draws: seq<RoadDraws>,
                              m': OrderedMap<string, Condition>, i: nat)
    requires m.Valid() && |draws| == |m.keys|
  {
    && i <= |m.keys| && m'.Valid() && m'.keys == m.keys && m'.entries.Keys == m.entries.Keys
    && (forall j :: 0 <= j < |m.keys| ==>
          m'.entries[m.keys[j]] == if j < i then Evolve(m.entries[m.keys[j]], draws[j]) else m.entries[m.keys[j]])
  }

  /** Evolving road i extends the evolved prefix by one. */
  lemma EvolveStep(m: OrderedMap<string, Condition>, draws: seq<RoadDraws>, m': OrderedMap<string, Condition>, i: nat)
    requires m.Valid() && |draws| == |m.keys| && i < |m.keys| && EvolvedUpTo(m, draws, m', i)
    ensures EvolvedUpTo(m, draws, m'.Put(m.keys[i], Evolve(m'.entries[m.keys[i]], draws[i])), i + 1)
  {
    var ks := m.keys;
    var m2 := m'.Put(ks[i], Evolve(m'.entries[ks[i]], draws[i]));
    forall j | 0 <= j < |ks|
      ensures m2.entries[ks[j]] == if j < i + 1 then Evolve(m.entries[ks[j]], draws[j]) else m.entries[ks[j]]
    {
      if j != i {
        assert ks[j] != ks[i];
      }
    }
  }

  /** The evolving pass over the roads in iteration order, each with its own draws. */
  method EvolvePass(m: OrderedMap<string, Condition>, draws: seq<RoadDraws>) returns (m': OrderedMap<string, Condition>)
    requires m.Valid() && |draws| == |m.keys|
    ensures m' == EvolvedMap(m, draws)
  {
    m' := m;
    var ks := m.keys;
    var i := 0;
    while i < |ks|
      invariant EvolvedUpTo(m, draws, m', i)
    {
      EvolveStep(m, draws, m', i);
      m' := m'.Put(ks[i], Evolve(m'.entries[ks[i]], draws[i]));
      i := i + 1;
    }
    EvolvedMapAt(m, draws, m');
  }

  /** A map with the same keys whose every road holds its evolved condition is the evolved map. */
  lemma EvolvedMapAt(m: OrderedMap<string, Condition>, draws: seq<RoadDraws>, m': OrderedMap<string, Condition>)
    requires m.Valid() && |draws| == |m.keys|
    requires m'.keys == m.keys && m'.entries.Keys == m.entries.Keys
    requires forall i :: 0 <= i < |m.keys| ==> m'.entries[m.keys[i]] == Evolve(m.entries[m.keys[i]], draws[i])
    ensures m' == EvolvedMap(m, draws)
  {
    var r := EvolvedMap(m, draws);
    forall road | road in m'.entries
      ensures m'.entries[road] == r.entries[road]
    {
      assert road in m.keys;
      var j := IndexOf(m.keys, road);
      assert m'.entries[m.keys[j]] == Evolve(m.entries[m.keys[j]], draws[j]);
      assert r.entries[m.keys[j]] == Evolve(m.entries[m.keys[j]], draws[j]);
    }
    assert m'.entries == r.entries;
  }

  /**
   * The conditions after one `updateTrafficConditions`: every road evolved, the new incident
   * written when its draw is under 8 %, then the resolved roads deleted.
   */
  function UpdatedConditions(m: OrderedMap<string, Condition>, draws: seq<RoadDraws>, incidentChance: real,
                             incident: IncidentDraws): (r: OrderedMap<string, Condition>)
    requires m.Valid() && |draws| == |m.keys| && ValidIncidentDraws(incident)
    ensures r.Valid()
    ensures forall road :: road in r.entries ==> Unresolved(r.entries[road])
  {
    var evolved := EvolvedMap(m, draws);
    var s := NewIncident(incident);
    var added := if incidentChance < 0.08 then evolved.Put(s.road, Condition(s.severity, Some(s.reason))) else evolved;
    OrderedMap(KeepUnresolved(added.keys, added.entries), DropResolved(added.entries, added.keys))
  }

  /**
   * A road whose draws neither improve nor worsen it, that the new incident does not name and
   * that is not resolved keeps its condition and its place among the kept roads.
   */
  lemma QuietRoadKept(m: OrderedMap<string, Condition>, draws: seq<RoadDraws>, incidentChance: real,
                      incident: IncidentDraws, i: nat)
    requires m.Valid() && |draws| == |m.keys| && ValidIncidentDraws(incident) && i < |m.keys|
    requires var c := m.entries[m.keys[i]];
             !(c.severity > 0.1 && draws[i].improveChance < 0.15)
             && !(0.0 < c.severity < 0.8 && draws[i].worsenChance < 0.08)
             && Unresolved(c)
    requires incidentChance < 0.08 ==> NewIncident(incident).road != m.keys[i]
    ensures m.keys[i] in UpdatedConditions(m, draws, incidentChance, incident).entries
    ensures UpdatedConditions(m, draws, incidentChance, incident).entries[m.keys[i]] == m.entries[m.keys[i]]
  {
  }

  /** A resolved road, or one that falls under 0.05 in this tick, is gone afterwards. */
  lemma ResolvedRoadDropped(m: OrderedMap<string, Condition>, draws: seq<RoadDraws>, incidentChance: real,
                            incident: IncidentDraws, i: nat)
    requires m.Valid() && |draws| == |m.keys| && ValidIncidentDraws(incident) && i < |m.keys|
    requires !Unresolved(Evolve(m.entries[m.keys[i]], draws[i]))
    requires incidentChance < 0.08 ==> NewIncident(incident).road != m.keys[i]
    ensures m.keys[i] !in UpdatedConditions(m, draws, incidentChance, incident).entries
    ensures m.keys[i] !in UpdatedConditions(m, draws, incidentChance, incident).keys
  {
  }

  // ---------------------------------------------------------------------------------------
  // The simulator

  class MockTomTomTraffic {
    /** `trafficConditions`: road name to condition, in insertion order. */
    var conditions: OrderedMap<string, Condition>

    ghost predicate Valid()
      reads this
    {
      conditions.Valid()
    }

    /** Every severity lies in [0, 1]. */
    ghost predicate InRange()
      reads this
    {
      forall road :: road in conditions.entries ==> 0.0 <= conditions.entries[road].severity <= 1.0
    }

    /**
     * Seeds the conditions for the given day of the week and hour: the time-based scenarios,
     * then each random scenario whose draw is under 0.3.
     */
    constructor (day: int, hour: int, draws: seq<real>)
      requires |draws| == |RandomScenarios|
      ensures Valid()
      ensures conditions == ApplyScenarios(Empty(), TimeBasedScenarios(day, hour) + ActiveRandomScenarios(draws))
    {
      var m := WriteScenarios(TimeBasedScenarios(day, hour) + ActiveRandomScenarios(draws));
      conditions := m;
    }

    /** The seeding loop: each scenario written into the map in turn. */
    static method WriteScenarios(scs: seq<Scenario>) returns (m: OrderedMap<string, Condition>)
      ensures m.Valid() && m == ApplyScenarios(Empty(), scs)
    {
      m := Empty();
      var i := 0;
      while i < |scs|
        invariant 0 <= i <= |scs|
        invariant m.Valid()
        invariant m == ApplyScenarios(Empty(), scs[..i])
      {
        Seqs.PrefixNext(scs, i);
        m := m.Put(scs[i].road, Condition(scs[i].severity, Some(scs[i].reason)));
        i := i + 1;
      }
      Seqs.PrefixAll(scs);
    }

    /** `getTrafficFlow`: the route under its road's current condition. */
    function GetTrafficFlow(route: Route): (r: Route)
      reads this
      requires route.staticDuration > 0
      ensures r == ApplyCondition(route, conditions.Get(route.name))
      ensures route.name !in conditions.entries ==> r.delay == 0 && r.status == Clear
    {
      NoConditionIsClear(route);
      ApplyCondition(route, conditions.Get(route.name))
    }

    /** `getTrafficIncidents`: the road's reason when its severity exceeds 0.3. */
    function GetTrafficIncidents(route: Route): (r: seq<string>)
      reads this
      ensures |r| <= 1
      ensures |r| == 1 <==> route.name in conditions.entries && conditions.entries[route.name].severity > 0.3
                            && Truthy(conditions.entries[route.name].reason)
      ensures |r| == 1 ==> r[0] == conditions.entries[route.name].reason.value
    {
      match conditions.Get(route.name)
      case Some(c) => if c.severity > 0.3 && Truthy(c.reason) then [c.reason.value] else []
      case None => []
    }

    /** `getCurrentConditions`: one (road, condition) pair per road, in insertion order. */
    function GetCurrentConditions(): (r: seq<(string, Condition)>)
      reads this
      requires Valid()
      ensures |r| == |conditions.keys|
      ensures forall i :: 0 <= i < |r| ==> r[i] == (conditions.keys[i], conditions.entries[conditions.keys[i]])
      ensures forall road :: road in conditions.entries <==> exists i :: 0 <= i < |r| && r[i].0 == road
    {
      var ks, e := conditions.keys, conditions.entries;
      var r := seq(|ks|, i requires 0 <= i < |ks| => (ks[i], e[ks[i]]));
      assert forall road :: road in e ==> exists i :: 0 <= i < |r| && r[i].0 == road by {
        forall road | road in e
          ensures exists i :: 0 <= i < |r| && r[i].0 == road
        {
          var i := IndexOf(ks, road);
          assert r[i].0 == road;
        }
      }
      r
    }

    /** `injectTrafficScenario`: last write wins for the road, every other road unchanged. */
    method InjectTrafficScenario(road: string, severity: real, reason: string)
      requires Valid()
      modifies this
      ensures Valid()
      ensures conditions == old(conditions).Put(road, Condition(severity, Some(reason)))
      ensures conditions.entries[road] == Condition(severity, Some(reason))
      ensures forall other :: other != road ==> conditions.Get(other) == old(conditions).Get(other)
      ensures |set i | 0 <= i < |conditions.keys| && conditions.keys[i] == road| == 1
    {
      conditions := conditions.Put(road, Condition(severity, Some(reason)));
      assert conditions.keys[IndexOf(conditions.keys, road)] == road;
      OnlyIndex(conditions.keys, road);
    }

    /** The first pass of `updateTrafficConditions`: every road evolves with its own draws. */
    method EvolveAll(draws: seq<RoadDraws>)
      requires Valid() && |draws| == |conditions.keys|
      modifies this
      ensures Valid()
      ensures conditions.keys == old(conditions.keys)
      ensures conditions.entries.Keys == old(conditions.entries.Keys)
      ensures forall i :: 0 <= i < |draws| ==>
                conditions.entries[conditions.keys[i]] == Evolve(old(conditions.entries)[conditions.keys[i]], draws[i])
      ensures conditions == EvolvedMap(old(conditions), draws)
      ensures old(InRange()) && (forall i :: 0 <= i < |draws| ==> ValidRoadDraws(draws[i])) ==> InRange()
    {
      ghost var m0 := conditions;
      conditions := EvolvePass(conditions, draws);
      if old(InRange()) && (forall j :: 0 <= j < |draws| ==> ValidRoadDraws(draws[j])) {
        EvolvedInRange(m0, draws);
      }
    }

    /** The last pass of `updateTrafficConditions`: resolved incidents are deleted. */
    method ClearResolved()
      requires Valid()
      modifies this
      ensures Valid()
      ensures conditions == OrderedMap(KeepUnresolved(old(conditions.keys), old(conditions.entries)),
                                       DropResolved(old(conditions.entries), old(conditions.keys)))
    {
      conditions := ClearPass(conditions);
    }

    /**
     * `updateTrafficConditions`: every road evolves, a new incident is written when its
     * draw is under 8 %, then resolved incidents are deleted.
     */
    method UpdateTrafficConditions(draws: seq<RoadDraws>, incidentChance: real, incident: IncidentDraws)
      requires Valid() && |draws| == |conditions.keys|
      requires ValidIncidentDraws(incident)
      modifies this
      ensures Valid()
      ensures conditions == UpdatedConditions(old(conditions), draws, incidentChance, incident)
      ensures forall road :: road in conditions.entries ==> conditions.entries[road].severity >= 0.05
      ensures old(InRange()) && (forall i :: 0 <= i < |draws| ==> ValidRoadDraws(draws[i])) ==> InRange()
      ensures incidentChance < 0.08 ==>
                conditions.Get(NewIncident(incident).road) == Some(Condition(NewIncident(incident).severity, Some(NewIncident(incident).reason)))
    {
      EvolveAll(draws);
      ghost var inRange := InRange();
      if incidentChance < 0.08 {
        var s := NewIncident(incident);
        conditions := conditions.Put(s.road, Condition(s.severity, Some(s.reason)));
        assert inRange ==> InRange();
      }
      ClearResolved();
      assert inRange ==> InRange();
    }
  }


  /** In a list without duplicates, a key sits at exactly one position. */
  lemma OnlyIndex(s: seq<string>, k: string)
    requires NoDup(s) && k in s
    ensures |set i | 0 <= i < |s| && s[i] == k| == 1
  {
    var i := IndexOf(s, k);
    assert (set j | 0 <= j < |s| && s[j] == k) == {i};
  }
}
