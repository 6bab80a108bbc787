/**
 * The request middleware of the API: the per-client sliding-window rate limiter, the request
 * body validators for trips and demo traffic scenarios, and the sanitiser that strips markup
 * from every string of a request body.
 */
module Validation {
  import opened Wrappers
  import opened Text
  import Trips
  import TrafficSim

  // ---------------------------------------------------------------------------------------
  // Request bodies

  /** A parsed request body; an object keeps its entries in order. */
  datatype Json =
    | JUndefined
    | JNull
    | JBool(b: bool)
    | JNum(n: real)
    | JStr(s: string)
    | JArr(items: seq<Json>)
    | JObj(fields: seq<(string, Json)>)

  /** The value of `key` among an object's entries (a later entry wins), undefined when absent. */
  function Lookup(fields: seq<(string, Json)>, key: string): (r: Json)
    ensures r != JUndefined ==> exists i :: 0 <= i < |fields| && fields[i] == (key, r)
  {
    if fields == [] then JUndefined
    else if fields[|fields| - 1].0 == key then fields[|fields| - 1].1
    else Lookup(fields[..|fields| - 1], key)
  }

  /** `j.key` for a value that is neither null nor undefined: only objects have own entries. */
  function Prop(j: Json, key: string): Json {
    if j.JObj? then Lookup(j.fields, key) else JUndefined
  }

  /** JavaScript truthiness of a body value. */
  predicate Truthy(j: Json) {
    match j
    case JUndefined => false
    case JNull => false
    case JBool(b) => b
    case JNum(n) => n != 0.0
    case JStr(s) => s != ""
    case JArr(_) => true
    case JObj(_) => true
  }

  /** `!x || typeof x !== 'string'` fails exactly for a non-empty string. */
  predicate IsFilledString(j: Json) { j.JStr? && j.s != "" }

  /** `!x || typeof x !== 'string' || x.trim() === ''` fails exactly for a non-blank string. */
  predicate IsNonBlankString(j: Json) { j.JStr? && !IsBlank(j.s) }

  /** Reading a property of null or undefined throws a TypeError. */
  predicate Nullish(j: Json) { j.JUndefined? || j.JNull? }

  const TypeError := "TypeError"

  // ---------------------------------------------------------------------------------------
  // tripValidation.create and tripValidation.update

  const UserIdRequired := "User ID is required"
  const NameRequired := "Trip name is required"
  const ScheduleRequired := "Schedule is required"
  const DaysRequired := "At least one day must be selected"
  const WindowRequired := "Departure window times are required"
  const ThresholdRequired := "Alert threshold is required"
  const BadThresholdType := "Alert threshold type must be MINUTES or PERCENTAGE"
  const BadThresholdValue := "Alert threshold must be greater than 0"
  const UpdateNameInvalid := "Trip name must be a non-empty string"

  /** The reference reading of a well-formed location: present, numeric coordinates, an address. */
  predicate GoodLocation(l: Json) {
    Truthy(l) && Prop(l, "latitude").JNum? && Prop(l, "longitude").JNum? && IsFilledString(Prop(l, "address"))
  }

  const OriginMissing := "Origin location is required"
  const OriginNoCoordinates := "Origin coordinates are required and must be numbers"
  const OriginNoAddress := "Origin address is required"
  const DestinationMissing := "Destination location is required"
  const DestinationNoCoordinates := "Destination coordinates are required and must be numbers"
  const DestinationNoAddress := "Destination address is required"

  /** The checks of one endpoint, given that endpoint's three messages. */
  function LocationMessages(l: Json, missing: string, noCoordinates: string, noAddress: string): (r: seq<string>)
    requires missing != noCoordinates && missing != noAddress && noCoordinates != noAddress
    ensures r == [] <==> GoodLocation(l)
    ensures missing in r <==> !Truthy(l)
    ensures noCoordinates in r <==> Truthy(l) && !(Prop(l, "latitude").JNum? && Prop(l, "longitude").JNum?)
    ensures noAddress in r <==> Truthy(l) && !IsFilledString(Prop(l, "address"))
    ensures forall m :: m in r ==> m in [missing, noCoordinates, noAddress]
  {
    if !Truthy(l) then [missing]
    else
      Trips.When(!(Prop(l, "latitude").JNum? && Prop(l, "longitude").JNum?), noCoordinates)
      + Trips.When(!IsFilledString(Prop(l, "address")), noAddress)
  }

  /** The reference reading of a well-formed schedule: a non-empty day array and both window times. */
  predicate GoodSchedule(s: Json) {
    Truthy(s) && Prop(s, "days").JArr? && |Prop(s, "days").items| > 0
    && Truthy(Prop(s, "windowStart")) && Truthy(Prop(s, "windowEnd"))
  }

  function ScheduleMessages(s: Json): (r: seq<string>)
    ensures r == [] <==> GoodSchedule(s)
    ensures ScheduleRequired in r <==> !Truthy(s)
    ensures DaysRequired in r <==> Truthy(s) && !(Prop(s, "days").JArr? && |Prop(s, "days").items| > 0)
    ensures WindowRequired in r <==> Truthy(s) && !(Truthy(Prop(s, "windowStart")) && Truthy(Prop(s, "windowEnd")))
    ensures forall m :: m in r ==> m in [ScheduleRequired, DaysRequired, WindowRequired]
  {
    if !Truthy(s) then [ScheduleRequired]
    else
      Trips.When(!(Prop(s, "days").JArr? && |Prop(s, "days").items| > 0), DaysRequired)
      + Trips.When(!(Truthy(Prop(s, "windowStart")) && Truthy(Prop(s, "windowEnd"))), WindowRequired)
  }

  /** `['MINUTES', 'PERCENTAGE'].includes(type)`, by strict equality. */
  predicate KnownThresholdType(t: Json) { t == JStr("MINUTES") || t == JStr("PERCENTAGE") }

  predicate GoodThresholdValue(a: Json) { Prop(a, "value").JNum? && Prop(a, "value").n > 0.0 }

  /** The reference reading of a well-formed threshold object: a known type and a positive number. */
  predicate GoodThreshold(a: Json) {
    KnownThresholdType(Prop(a, "type")) && GoodThresholdValue(a)
  }

  /** The two checks on an alert threshold that is neither null nor undefined. */
  function ThresholdMessages(a: Json): (r: seq<string>)
    ensures r == [] <==> GoodThreshold(a)
    ensures BadThresholdType in r <==> !KnownThresholdType(Prop(a, "type"))
    ensures BadThresholdValue in r <==> !GoodThresholdValue(a)
    ensures forall m :: m in r ==> m in [BadThresholdType, BadThresholdValue]
  {
    Trips.When(!Truthy(Prop(a, "type")) || !KnownThresholdType(Prop(a, "type")), BadThresholdType)
    + Trips.When(!Prop(a, "value").JNum? || Prop(a, "value").n <= 0.0, BadThresholdValue)
  }

  /** The reference reading of a body `tripValidation.create` accepts. */
  predicate GoodTripBody(body: Json) {
    && IsFilledString(Prop(body, "userId"))
    && IsNonBlankString(Prop(body, "name"))
    && GoodLocation(Prop(body, "origin"))
    && GoodLocation(Prop(body, "destination"))
    && GoodSchedule(Prop(body, "schedule"))
    && Truthy(Prop(body, "alertThreshold")) && GoodThreshold(Prop(body, "alertThreshold"))
  }

  /**
   * `tripValidation.create`: one message per failed check, in the order of the checks; a null
   * or undefined body throws when its first property is read.
   */
  function ValidateTripCreate(body: Json): (r: Result<seq<string>>)
    ensures r.Err? <==> Nullish(body)
  {
    if Nullish(body) then Err(TypeError)
    else
      var p := TripCreateParts(body);
      Ok(p[0] + p[1] + p[2] + p[3] + p[4] + p[5])
  }

  /** `tripValidation.create` returns no message exactly for the bodies described by GoodTripBody. */
  lemma TripCreateAcceptsExactly(body: Json)
    ensures ValidateTripCreate(body) == Ok([]) <==> GoodTripBody(body)
  {
    if !Nullish(body) {
      var parts := TripCreateParts(body);
      var all := parts[0] + parts[1] + parts[2] + parts[3] + parts[4] + parts[5];
      assert ValidateTripCreate(body).value == all;
      assert |all| == |parts[0]| + |parts[1]| + |parts[2]| + |parts[3]| + |parts[4]| + |parts[5]|;
    } else {
      assert !Truthy(Prop(body, "alertThreshold"));
    }
  }

  /** The parts of the `tripValidation.create` message list, one per checked field. */
  function TripCreateParts(body: Json): (r: seq<seq<string>>)
    ensures |r| == 6
  {
    var threshold := Prop(body, "alertThreshold");
    [Trips.When(!IsFilledString(Prop(body, "userId")), UserIdRequired),
     Trips.When(!IsNonBlankString(Prop(body, "name")), NameRequired),
     LocationMessages(Prop(body, "origin"), OriginMissing, OriginNoCoordinates, OriginNoAddress),
     LocationMessages(Prop(body, "destination"), DestinationMissing, DestinationNoCoordinates, DestinationNoAddress),
     ScheduleMessages(Prop(body, "schedule")),
     if !Truthy(threshold) then [ThresholdRequired] else ThresholdMessages(threshold)]
  }

  /** A message occurs in a concatenation of six lists exactly when it occurs in one of them. */
  lemma InSix(m: string, p: seq<seq<string>>)
    requires |p| == 6
    ensures m in p[0] + p[1] + p[2] + p[3] + p[4] + p[5] <==>
              m in p[0] || m in p[1] || m in p[2] || m in p[3] || m in p[4] || m in p[5]
  {
  }

  /** The user-id message of `tripValidation.create` is reported exactly when the id is not a non-empty string. */
  lemma TripCreateUserIdMessage(body: Json)
    requires !Nullish(body)
    ensures UserIdRequired in ValidateTripCreate(body).value <==> !IsFilledString(Prop(body, "userId"))
  {
    var p := TripCreateParts(body);
    assert ValidateTripCreate(body).value == p[0] + p[1] + p[2] + p[3] + p[4] + p[5];
    InSix(UserIdRequired, p);
  }

  /** The name message is reported exactly when the name is not a string with a non-blank character. */
  lemma TripCreateNameMessage(body: Json)
    requires !Nullish(body)
    ensures NameRequired in ValidateTripCreate(body).value <==> !IsNonBlankString(Prop(body, "name"))
  {
    var p := TripCreateParts(body);
    assert ValidateTripCreate(body).value == p[0] + p[1] + p[2] + p[3] + p[4] + p[5];
    InSix(NameRequired, p);
  }

  /** The origin presence message is reported exactly when the origin is missing. */
  lemma TripCreateOriginMessage(body: Json)
    requires !Nullish(body)
    ensures OriginMissing in ValidateTripCreate(body).value <==> !Truthy(Prop(body, "origin"))
  {
    var p := TripCreateParts(body);
    assert ValidateTripCreate(body).value == p[0] + p[1] + p[2] + p[3] + p[4] + p[5];
    InSix(OriginMissing, p);
  }

  /** The destination presence message is reported exactly when the destination is missing. */
  lemma TripCreateDestinationMessage(body: Json)
    requires !Nullish(body)
    ensures DestinationMissing in ValidateTripCreate(body).value <==> !Truthy(Prop(body, "destination"))
  {
    var p := TripCreateParts(body);
    assert ValidateTripCreate(body).value == p[0] + p[1] + p[2] + p[3] + p[4] + p[5];
    InSix(DestinationMissing, p);
  }

  /** The threshold presence message is reported exactly when the threshold is missing. */
  lemma TripCreateThresholdMessage(body: Json)
    requires !Nullish(body)
    ensures ThresholdRequired in ValidateTripCreate(body).value <==> !Truthy(Prop(body, "alertThreshold"))
  {
    var p := TripCreateParts(body);
    assert ValidateTripCreate(body).value == p[0] + p[1] + p[2] + p[3] + p[4] + p[5];
    InSix(ThresholdRequired, p);
  }

  /** The threshold value message is reported exactly when a present threshold has a bad value. */
  lemma TripCreateThresholdValueMessage(body: Json)
    requires !Nullish(body)
    ensures BadThresholdValue in ValidateTripCreate(body).value <==> Truthy(Prop(body, "alertThreshold")) && !GoodThresholdValue(Prop(body, "alertThreshold"))
  {
    var p := TripCreateParts(body);
    assert ValidateTripCreate(body).value == p[0] + p[1] + p[2] + p[3] + p[4] + p[5];
    InSix(BadThresholdValue, p);
  }

  /**
   * `tripValidation.update`: only the fields present are checked; a null alert threshold
   * throws when its type is read.
   */
  function ValidateTripUpdate(body: Json): (r: Result<seq<string>>)
    ensures r.Err? <==> Nullish(body) || Prop(body, "alertThreshold").JNull?
    ensures r.Ok? ==> (UpdateNameInvalid in r.value <==>
                         !Prop(body, "name").JUndefined? && !IsNonBlankString(Prop(body, "name")))
    ensures r.Ok? ==> forall m :: m in r.value ==> m in {UpdateNameInvalid, BadThresholdType, BadThresholdValue}
  {
    if Nullish(body) then Err(TypeError)
    else
      var name := Prop(body, "name");
      var threshold := Prop(body, "alertThreshold");
      var nameErrors := Trips.When(!name.JUndefined? && !IsNonBlankString(name), UpdateNameInvalid);
      if threshold.JUndefined? then Ok(nameErrors)
      else if threshold.JNull? then Err(TypeError)
      else Ok(nameErrors + ThresholdMessages(threshold))
  }

  /** An update that supplies no fields is accepted. */
  lemma EmptyUpdateAccepted()
    ensures ValidateTripUpdate(JObj([])) == Ok([])
  {
  }

  /** An update is accepted exactly when the fields it supplies are well formed. */
  lemma TripUpdateAcceptsExactly(body: Json)
    requires !Nullish(body) && !Prop(body, "alertThreshold").JNull?
    ensures ValidateTripUpdate(body) == Ok([]) <==>
              (Prop(body, "name").JUndefined? || IsNonBlankString(Prop(body, "name")))
              && (Prop(body, "alertThreshold").JUndefined? || GoodThreshold(Prop(body, "alertThreshold")))
  {
  }

  /** A body `create` accepts is also accepted as an update. */
  lemma CreatableIsUpdatable(body: Json)
    requires ValidateTripCreate(body) == Ok([])
    ensures ValidateTripUpdate(body) == Ok([])
  {
    TripCreateAcceptsExactly(body);
  }

  // ---------------------------------------------------------------------------------------
  // demoValidation.trafficScenario

  const RouteRequired := "Route name is required for traffic scenario"
  const BadSeverity := "Severity must be a number between 0 and 1"
  const ReasonRequired := "Reason is required for traffic scenario"

  function ValidateTrafficScenario(body: Json): (r: Result<seq<string>>)
    ensures r.Err? <==> Nullish(body)
  {
    if Nullish(body) then Err(TypeError)
    else
      var severity := Prop(body, "severity");
      Ok(Trips.When(!IsNonBlankString(Prop(body, "route")), RouteRequired)
         + Trips.When(!severity.JNum? || severity.n < 0.0 || severity.n > 1.0, BadSeverity)
         + Trips.When(!IsNonBlankString(Prop(body, "reason")), ReasonRequired))
  }

  /**
   * A scenario is accepted exactly for a non-blank route, a severity in the closed range [0, 1]
   * and a non-blank reason, and then injecting it keeps the simulator's severities in range.
   */
  lemma TrafficScenarioAcceptsExactly(body: Json)
    ensures ValidateTrafficScenario(body) == Ok([]) <==>
              IsNonBlankString(Prop(body, "route")) && IsNonBlankString(Prop(body, "reason"))
              && Prop(body, "severity").JNum? && 0.0 <= Prop(body, "severity").n <= 1.0
    ensures ValidateTrafficScenario(body) == Ok([]) ==>
              TrafficSim.ScenarioInRange(TrafficSim.Scenario(Prop(body, "route").s, Prop(body, "severity").n, Prop(body, "reason").s))
  {
    if !Nullish(body) {
      var severity := Prop(body, "severity");
      var a := Trips.When(!IsNonBlankString(Prop(body, "route")), RouteRequired);
      var b := Trips.When(!severity.JNum? || severity.n < 0.0 || severity.n > 1.0, BadSeverity);
      var c := Trips.When(!IsNonBlankString(Prop(body, "reason")), ReasonRequired);
      assert ValidateTrafficScenario(body).value == a + b + c;
      assert a == [] <==> IsNonBlankString(Prop(body, "route"));
      assert b == [] <==> Prop(body, "severity").JNum? && 0.0 <= Prop(body, "severity").n <= 1.0;
      assert c == [] <==> IsNonBlankString(Prop(body, "reason"));
      assert a + b + c == [] <==> a == [] && b == [] && c == [];
    }
  }

  // ---------------------------------------------------------------------------------------
  // sanitizeInput

  /** The characters of the regular-expression class \w. */
  predicate IsWordChar(c: char) {
    'a' <= c <= 'z' || 'A' <= c <= 'Z' || '0' <= c <= '9' || c == '_'
  }

  /** `pattern` (in lower case) occurs at position i of s, ignoring the case of ASCII letters. */
  predicate MatchesAt(s: string, i: nat, pattern: string) {
    i + |pattern| <= |s| && ToLower(s[i..i + |pattern|]) == pattern
  }

  const ScriptOpen := "<script"
  const ScriptClose := "</script>"

  /** The first position at or after `from` where a closing script tag starts. */
  function FindScriptClose(s: string, from: nat): (r: Option<nat>)
    requires from <= |s|
    decreases |s| - from
    ensures r.Some? ==> from <= r.value && MatchesAt(s, r.value, ScriptClose)
                        && forall k :: from <= k < r.value ==> !MatchesAt(s, k, ScriptClose)
    ensures r.None? ==> forall k :: from <= k <= |s| ==> !MatchesAt(s, k, ScriptClose)
  {
    if MatchesAt(s, from, ScriptClose) then Some(from)
    else if from == |s| then None
    else FindScriptClose(s, from + 1)
  }

  /**
   * Where a match of /<script\b[^<]*(?:(?!<\/script>)<[^<]*)*<\/script>/i starting at p ends:
   * an opening `<script` not followed by a word character, up to the first closing tag after it.
   */
  function ScriptEnd(s: string, p: nat): (r: Option<nat>)
    requires p < |s|
    ensures r.Some? ==> p + |ScriptOpen| + |ScriptClose| <= r.value <= |s| && s[p] == '<' && s[r.value - 1] == '>'
  {
    if MatchesAt(s, p, ScriptOpen) && (p + |ScriptOpen| == |s| || !IsWordChar(s[p + |ScriptOpen|])) then
      match FindScriptClose(s, p + |ScriptOpen|)
      case Some(q) =>
        assert ToLower(s[q..q + 9])[8] == LowerChar(s[q + 8]);
        assert ToLower(s[p..p + 7])[0] == LowerChar(s[p]);
        Some(q + |ScriptClose|)
      case None => None
    else None
  }

  /** The global replacement of script blocks by nothing, scanning from position p. */
  function StripScriptsFrom(s: string, p: nat): (r: string)
    requires p <= |s|
    decreases |s| - p
  {
    if p == |s| then ""
    else match ScriptEnd(s, p)
      case Some(e) => StripScriptsFrom(s, e)
      case None => [s[p]] + StripScriptsFrom(s, p + 1)
  }

  /** Where a match of /<[^>]*>/ starting at p ends: a `<` up to the first `>` after it. */
  function TagEnd(s: string, p: nat): (r: Option<nat>)
    requires p < |s|
    ensures r.Some? ==> p + 2 <= r.value <= |s| && s[p] == '<' && s[r.value - 1] == '>'
    ensures r.None? && s[p] == '<' ==> forall k :: p < k < |s| ==> s[k] != '>'
  {
    if s[p] != '<' then None
    else match IndexOfChar(s[p + 1..], '>')
      case Some(k) =>
        assert s[p + 1..][k] == s[p + 1 + k];
        Some(p + k + 2)
      case None =>
        assert forall k :: p < k < |s| ==> s[k] == s[p + 1..][k - p - 1];
        None
  }

  /** The global replacement of tags by nothing, scanning from position p. */
  function StripTagsFrom(s: string, p: nat): (r: string)
    requires p <= |s|
    decreases |s| - p
  {
    if p == |s| then ""
    else match TagEnd(s, p)
      case Some(e) => StripTagsFrom(s, e)
      case None => [s[p]] + StripTagsFrom(s, p + 1)
  }

  /** `sanitizeString`: script blocks removed, then every tag, then surrounding white space. */
  function SanitizeString(s: string): string {
    Trim(StripTagsFrom(StripScriptsFrom(s, 0), 0))
  }

  /** No `<` is followed, anywhere later, by a `>`: the text holds no tag. */
  predicate TagFree(t: string) {
    forall i, j :: 0 <= i < j < |t| && t[i] == '<' ==> t[j] != '>'
  }

  /** Stripping tags yields tag-free text whose characters all come from the scanned part. */
  lemma {:induction false} StripTagsFromShape(s: string, p: nat)
    requires p <= |s|
    decreases |s| - p
    ensures TagFree(StripTagsFrom(s, p))
    ensures forall c :: c in StripTagsFrom(s, p) ==> c in s[p..]
  {
    if p < |s| {
      match TagEnd(s, p)
      case Some(e) =>
        StripTagsFromShape(s, e);
        assert forall c :: c in s[e..] ==> c in s[p..] by {
          forall c | c in s[e..] ensures c in s[p..] {
            var k :| 0 <= k < |s[e..]| && s[e..][k] == c;
            assert s[p..][k + e - p] == c;
          }
        }
      case None =>
        StripTagsFromShape(s, p + 1);
        var rest := StripTagsFrom(s, p + 1);
        assert StripTagsFrom(s, p) == [s[p]] + rest;
        assert forall c :: c in s[p + 1..] ==> c in s[p..] by {
          assert s[p..] == [s[p]] + s[p + 1..];
        }
        if s[p] == '<' {
          assert forall j :: 0 <= j < |rest| ==> rest[j] != '>' by {
            forall j | 0 <= j < |rest| ensures rest[j] != '>' {
              assert rest[j] in rest;
            }
          }
        }
        assert s[p..] == [s[p]] + s[p + 1..];
    }
  }

  /** Tag-free text has no match of either pattern, so both replacements leave it as it is. */
  lemma {:induction false} StripTagFreeUnchanged(s: string, p: nat)
    requires p <= |s| && TagFree(s)
    decreases |s| - p
    ensures StripTagsFrom(s, p) == s[p..]
    ensures StripScriptsFrom(s, p) == s[p..]
  {
    if p < |s| {
      StripTagFreeUnchanged(s, p + 1);
      assert s[p..] == [s[p]] + s[p + 1..];
      match ScriptEnd(s, p)
      case Some(e) =>
        assert false;
      case None =>
    }
  }

  /** A slice of tag-free text is tag-free, so trimming keeps text tag-free. */
  lemma TrimKeepsTagFree(t: string)
    requires TagFree(t)
    ensures TagFree(Trim(t))
  {
    TrimShape(t);
    var a, b :| 0 <= a <= b <= |t| && Trim(t) == t[a..b];
    assert forall i :: 0 <= i < b - a ==> Trim(t)[i] == t[a + i];
  }

  /** Sanitised text holds no tag at all. */
  lemma SanitizedIsTagFree(s: string)
    ensures TagFree(SanitizeString(s))
  {
    StripTagsFromShape(StripScriptsFrom(s, 0), 0);
    TrimKeepsTagFree(StripTagsFrom(StripScriptsFrom(s, 0), 0));
  }

  /** Text without any `<` is only trimmed. */
  lemma PlainTextOnlyTrimmed(s: string)
    requires forall i :: 0 <= i < |s| ==> s[i] != '<'
    ensures SanitizeString(s) == Trim(s)
  {
    StripTagFreeUnchanged(s, 0);
    assert StripScriptsFrom(s, 0) == s;
    StripTagFreeUnchanged(s, 0);
  }

  /** Sanitising twice gives what sanitising once gave. */
  lemma SanitizeStringIdempotent(s: string)
    ensures SanitizeString(SanitizeString(s)) == SanitizeString(s)
  {
    var t := SanitizeString(s);
    SanitizedIsTagFree(s);
    StripTagFreeUnchanged(t, 0);
    assert StripScriptsFrom(t, 0) == t;
    assert StripTagsFrom(t, 0) == t;
    TrimIdempotent(StripTagsFrom(StripScriptsFrom(s, 0), 0));
  }

  /** `sanitizeObject`: every string anywhere in the body sanitised, keys and other leaves kept. */
  function SanitizeObject(j: Json): Json
    decreases j
  {
    match j
    case JStr(s) => JStr(SanitizeString(s))
    case JArr(items) => JArr(seq(|items|, i requires 0 <= i < |items| => SanitizeObject(items[i])))
    case JObj(fields) =>
      JObj(seq(|fields|, i requires 0 <= i < |fields| => (fields[i].0, SanitizeObject(fields[i].1))))
    case _ => j
  }

  /** Two bodies with the same arrays, keys and non-string leaves. */
  predicate SameShape(a: Json, b: Json)
    decreases a
  {
    match a
    case JStr(_) => b.JStr?
    case JArr(xs) =>
      b.JArr? && |b.items| == |xs| && forall i :: 0 <= i < |xs| ==> SameShape(xs[i], b.items[i])
    case JObj(fs) =>
      b.JObj? && |b.fields| == |fs|
      && forall i :: 0 <= i < |fs| ==> fs[i].0 == b.fields[i].0 && SameShape(fs[i].1, b.fields[i].1)
    case _ => b == a
  }

  /** Every string in the body is tag-free. */
  predicate AllStringsClean(j: Json)
    decreases j
  {
    match j
    case JStr(s) => TagFree(s)
    case JArr(xs) => forall i :: 0 <= i < |xs| ==> AllStringsClean(xs[i])
    case JObj(fs) => forall i :: 0 <= i < |fs| ==> AllStringsClean(fs[i].1)
    case _ => true
  }

  /** Sanitising keeps the body's shape and leaves no tag in any of its strings. */
  lemma {:induction false} SanitizeObjectShape(j: Json)
    decreases j
    ensures SameShape(j, SanitizeObject(j))
    ensures AllStringsClean(SanitizeObject(j))
  {
    match j
    case JStr(s) => SanitizedIsTagFree(s);
    case JArr(xs) =>
      forall i | 0 <= i < |xs| ensures SameShape(xs[i], SanitizeObject(xs[i])) && AllStringsClean(SanitizeObject(xs[i])) {
        SanitizeObjectShape(xs[i]);
      }
    case JObj(fs) =>
      forall i | 0 <= i < |fs| ensures SameShape(fs[i].1, SanitizeObject(fs[i].1)) && AllStringsClean(SanitizeObject(fs[i].1)) {
        assert fs[i] in fs;
        SanitizeObjectShape(fs[i].1);
      }
    case _ =>
  }

  /** Sanitising a body twice gives what sanitising it once gave. */
  lemma {:induction false} SanitizeObjectIdempotent(j: Json)
    decreases j
    ensures SanitizeObject(SanitizeObject(j)) == SanitizeObject(j)
  {
    match j
    case JStr(s) => SanitizeStringIdempotent(s);
    case JArr(xs) =>
      var once := SanitizeObject(j).items;
      forall i | 0 <= i < |xs| ensures SanitizeObject(once[i]) == once[i] {
        SanitizeObjectIdempotent(xs[i]);
      }
      assert SanitizeObject(SanitizeObject(j)).items == once;
    case JObj(fs) =>
      var once := SanitizeObject(j).fields;
      forall i | 0 <= i < |fs| ensures SanitizeObject(once[i].1) == once[i].1 {
        assert fs[i] in fs;
        SanitizeObjectIdempotent(fs[i].1);
      }
      assert SanitizeObject(SanitizeObject(j)).fields == once;
    case _ =>
  }

  // ---------------------------------------------------------------------------------------
  // RateLimiter

  /** The timestamps still inside the window at `now`, in their order (`filter`). */
  function Recent(ts: seq<int>, now: int, windowMs: int): (r: seq<int>)
    ensures |r| <= |ts|
    ensures forall t :: t in r <==> t in ts && now - t < windowMs
  {
    if ts == [] then []
    else (if now - ts[0] < windowMs then [ts[0]] else []) + Recent(ts[1..], now, windowMs)
  }

  /** Filtering twice, at the same or a later time, is filtering once at the later time. */
  lemma {:induction false} RecentTwice(ts: seq<int>, then_: int, now: int, windowMs: int)
    requires then_ <= now
    ensures Recent(Recent(ts, then_, windowMs), now, windowMs) == Recent(ts, now, windowMs)
  {
    if ts != [] {
      RecentTwice(ts[1..], then_, now, windowMs);
      var head := if then_ - ts[0] < windowMs then [ts[0]] else [];
      RecentAppend(head, Recent(ts[1..], then_, windowMs), now, windowMs);
    }
  }

  lemma {:induction false} RecentAppend(a: seq<int>, b: seq<int>, now: int, windowMs: int)
    ensures Recent(a + b, now, windowMs) == Recent(a, now, windowMs) + Recent(b, now, windowMs)
  {
    if a != [] {
      assert (a + b)[1..] == a[1..] + b;
      RecentAppend(a[1..], b, now, windowMs);
    } else {
      assert a + b == b;
    }
  }

  /** The outcome of one request: rejected with the advertised wait, or let through. */
  datatype Decision = Limited(retryMinutes: int) | Allowed(remaining: int, resetAt: int)

  /** `Math.ceil(windowMs / 1000 / 60)`. */
  function CeilMinutes(windowMs: int): (m: int)
    ensures (m - 1) * 60000 < windowMs <= m * 60000
  {
    var x := windowMs as real / 60000.0;
    -((-x).Floor)
  }

  /** The limiter's map with every list filtered at `now` and the emptied keys dropped. */
  function Cleaned(requests: map<string, seq<int>>, now: int, windowMs: int): (r: map<string, seq<int>>)
    ensures forall k :: k in r <==> k in requests && Recent(requests[k], now, windowMs) != []
    ensures forall k :: k in r ==> r[k] == Recent(requests[k], now, windowMs)
  {
    map k | k in requests && Recent(requests[k], now, windowMs) != [] :: Recent(requests[k], now, windowMs)
  }

  /** `req.ip || 'unknown'`. */
  function ClientKey(ip: string): string { if ip == "" then "unknown" else ip }

  class RateLimiter {
    /** `requests`: client key to the timestamps of its recorded requests. */
    var requests: map<string, seq<int>>
    const windowMs: int
    const maxRequests: int

    constructor (windowMs: int, maxRequests: int)
      ensures this.windowMs == windowMs && this.maxRequests == maxRequests
      ensures requests == map[]
    {
      this.windowMs := windowMs;
      this.maxRequests := maxRequests;
      requests := map[];
    }

    /** The client's requests inside the window at `now`. */
    function InWindow(key: string, now: int): seq<int>
      reads this
    {
      Recent(if key in requests then requests[key] else [], now, windowMs)
    }

    /**
     * The decision of `middleware()` for one request: rejected, with nothing recorded, once the
     * in-window requests reach the maximum; otherwise recorded, with the requests left.
     */
    method Handle(ip: string, now: int) returns (d: Decision)
      modifies this
      ensures var key := ClientKey(ip);
              d.Limited? <==> |old(InWindow(key, now))| >= maxRequests
      ensures d.Limited? ==> requests == old(requests) && d.retryMinutes == CeilMinutes(windowMs)
      ensures d.Allowed? ==>
                var key := ClientKey(ip);
                && requests == old(requests)[key := old(InWindow(key, now)) + [now]]
                && |requests[key]| <= maxRequests
                && d.remaining == (if maxRequests - |requests[key]| > 0 then maxRequests - |requests[key]| else 0)
                && d.resetAt == now + windowMs
                && (windowMs > 0 ==> forall t :: t in requests[key] ==> now - t < windowMs)
    {
      var key := ClientKey(ip);
      var valid := Recent(if key in requests then requests[key] else [], now, windowMs);
      if |valid| >= maxRequests {
        return Limited(CeilMinutes(windowMs));
      }
      valid := valid + [now];
      requests := requests[key := valid];
      var left := maxRequests - |valid|;
      d := Allowed(if left > 0 then left else 0, now + windowMs);
    }

    /** `cleanup`: every list filtered at `now`, and a key whose list empties is deleted. */
    method Cleanup(now: int)
      modifies this
      ensures requests == Cleaned(old(requests), now, windowMs)
    {
      var todo := requests.Keys;
      ghost var original := requests;
      while todo != {}
        invariant todo <= original.Keys
        invariant requests.Keys <= original.Keys
        invariant forall k :: k in original && k !in todo ==>
                    (k in requests <==> Recent(original[k], now, windowMs) != [])
                    && (k in requests ==> requests[k] == Recent(original[k], now, windowMs))
        invariant forall k :: k in todo ==> k in requests && requests[k] == original[k]
        decreases todo
      {
        var key :| key in todo;
        var valid := Recent(requests[key], now, windowMs);
        if valid == [] {
          requests := requests - {key};
        } else {
          requests := requests[key := valid];
        }
        todo := todo - {key};
      }
    }
  }

  /** After a cleanup no key maps to an empty list, and every kept timestamp is in the window. */
  lemma CleanedHasNoEmptyList(requests: map<string, seq<int>>, now: int, windowMs: int)
    ensures forall k :: k in Cleaned(requests, now, windowMs) ==> Cleaned(requests, now, windowMs)[k] != []
    ensures forall k, t :: k in Cleaned(requests, now, windowMs) && t in Cleaned(requests, now, windowMs)[k] ==> now - t < windowMs
  {
  }

  /** A cleanup never changes a later decision: what a client has in the window stays the same. */
  lemma CleanupKeepsDecisions(requests: map<string, seq<int>>, cleanedAt: int, now: int, windowMs: int, key: string)
    requires cleanedAt <= now
    ensures var c := Cleaned(requests, cleanedAt, windowMs);
            Recent(if key in c then c[key] else [], now, windowMs)
            == Recent(if key in requests then requests[key] else [], now, windowMs)
  {
    if key in requests {
      RecentTwice(requests[key], cleanedAt, now, windowMs);
    }
  }
}
