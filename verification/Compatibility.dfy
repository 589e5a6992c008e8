/**
 Version comparison and the compatibility verdict of the extension handshake.

 A version is split at dots and each part goes through `Number`, given here as a parameter whose
 None stands for NaN.
 */
module Compatibility {
  import opened Common
  import Text

  type NumberParser = string -> Option<real>

  /** The parts of a version; None is NaN. */
  type Parts = seq<Option<real>>

  function PartsOf(number: NumberParser, version: string): (parts: Parts) {
    var texts := Text.Split(version, '.');
    seq(|texts|, i requires 0 <= i < |texts| => number(texts[i]))
  }

  /** The parts of a version are the numbers between its dots, in order. */
  lemma PartsMeaning(number: NumberParser, texts: seq<string>)
    requires texts != [] && forall i :: 0 <= i < |texts| ==> '.' !in texts[i]
    ensures |PartsOf(number, Text.Join(texts, "."))| == |texts|
    ensures forall i :: 0 <= i < |texts| ==> PartsOf(number, Text.Join(texts, "."))[i] == number(texts[i])
  {
    Text.SplitOfJoin(texts, '.');
  }

  predicate Numeric(parts: Parts) {
    forall i :: 0 <= i < |parts| ==> parts[i].Some?
  }

  /** `parts[index] ?? 0`: a missing part is zero, NaN stays NaN. */
  function PartAt(parts: Parts, i: nat): Option<real> {
    if i < |parts| then parts[i] else Some(0.0)
  }

  /** Comparison from part `i` on; a pair with NaN decides nothing. */
  function CompareFrom(a: Parts, b: Parts, i: nat): int
    decreases Max(|a|, |b|) - i
  {
    if i >= Max(|a|, |b|) then 0
    else
      match (PartAt(a, i), PartAt(b, i))
      case (Some(x), Some(y)) => if x > y then 1 else if x < y then -1 else CompareFrom(a, b, i + 1)
      case _ => CompareFrom(a, b, i + 1)
  }

  function Compare(a: Parts, b: Parts): int {
    CompareFrom(a, b, 0)
  }

  function CompareVersions(number: NumberParser, left: string, right: string): int {
    Compare(PartsOf(number, left), PartsOf(number, right))
  }

  method CompareSemver(number: NumberParser, left: string, right: string) returns (order: int)
    ensures order == CompareVersions(number, left, right)
  {
    var leftParts, rightParts := PartsOf(number, left), PartsOf(number, right);
    var index := 0;
    while index < Max(|leftParts|, |rightParts|)
      invariant 0 <= index <= Max(|leftParts|, |rightParts|)
      invariant CompareFrom(leftParts, rightParts, index) == Compare(leftParts, rightParts)
    {
      var leftValue, rightValue := PartAt(leftParts, index), PartAt(rightParts, index);
      if leftValue.Some? && rightValue.Some? {
        if leftValue.value > rightValue.value {
          return 1;
        }
        if leftValue.value < rightValue.value {
          return -1;
        }
      }
      index := index + 1;
    }
    return 0;
  }

  /** Both parts are numbers, and different ones. */
  predicate DifferAt(a: Parts, b: Parts, i: nat) {
    PartAt(a, i).Some? && PartAt(b, i).Some? && PartAt(a, i) != PartAt(b, i)
  }

  lemma {:induction false} FirstDifferenceFrom(a: Parts, b: Parts, i: nat, k: nat)
    requires i <= k && DifferAt(a, b, k) && forall j: nat :: i <= j < k ==> !DifferAt(a, b, j)
    ensures CompareFrom(a, b, i) == if PartAt(a, k).value > PartAt(b, k).value then 1 else -1
    decreases k - i
  {
    assert k < Max(|a|, |b|);
    if i < k {
      assert !DifferAt(a, b, i);
      FirstDifferenceFrom(a, b, i + 1, k);
    }
  }

  lemma {:induction false} NoDifferenceFrom(a: Parts, b: Parts, i: nat)
    requires forall j: nat :: i <= j ==> !DifferAt(a, b, j)
    ensures CompareFrom(a, b, i) == 0
    decreases Max(|a|, |b|) - i
  {
    if i < Max(|a|, |b|) {
      assert !DifferAt(a, b, i);
      NoDifferenceFrom(a, b, i + 1);
    }
  }

  /**
   For any versions: the first place where both parts are numbers and differ decides, and without one they compare as
   equal. Places with a part that is no number are passed over.
   */
  lemma CompareMeaning(a: Parts, b: Parts)
    ensures forall k: nat :: DifferAt(a, b, k) && (forall j: nat :: j < k ==> !DifferAt(a, b, j)) ==>
              Compare(a, b) == if PartAt(a, k).value > PartAt(b, k).value then 1 else -1
    ensures (forall k: nat :: !DifferAt(a, b, k)) ==> Compare(a, b) == 0
  {
    forall k: nat | DifferAt(a, b, k) && forall j: nat :: j < k ==> !DifferAt(a, b, j)
      ensures Compare(a, b) == if PartAt(a, k).value > PartAt(b, k).value then 1 else -1
    {
      FirstDifferenceFrom(a, b, 0, k);
    }
    if forall k: nat :: !DifferAt(a, b, k) {
      NoDifferenceFrom(a, b, 0);
    }
  }

  // ---------------------------------------------------------------- a total preorder on numeric versions

  /** The first part in which two versions differ decides; without one they are equal. */
  ghost predicate DecidedAt(a: Parts, b: Parts, i: nat) {
    PartAt(a, i) != PartAt(b, i) && forall j: nat :: j < i ==> PartAt(a, j) == PartAt(b, j)
  }

  lemma {:induction false} CompareFromIsFirstDifference(a: Parts, b: Parts, i: nat)
    requires Numeric(a) && Numeric(b)
    requires forall j: nat :: j < i ==> PartAt(a, j) == PartAt(b, j)
    ensures CompareFrom(a, b, i) == 0 ==> forall j: nat :: PartAt(a, j) == PartAt(b, j)
    ensures CompareFrom(a, b, i) > 0 ==> exists k :: DecidedAt(a, b, k) && PartAt(a, k).value > PartAt(b, k).value
    ensures CompareFrom(a, b, i) < 0 ==> exists k :: DecidedAt(a, b, k) && PartAt(a, k).value < PartAt(b, k).value
    decreases Max(|a|, |b|) - i
  {
    if i < Max(|a|, |b|) {
      if PartAt(a, i) == PartAt(b, i) {
        CompareFromIsFirstDifference(a, b, i + 1);
      } else {
        assert DecidedAt(a, b, i);
      }
    }
  }

  /** The order of two numeric versions is the order of their first differing parts. */
  lemma CompareIsFirstDifference(a: Parts, b: Parts, k: nat)
    requires Numeric(a) && Numeric(b) && DecidedAt(a, b, k)
    ensures Compare(a, b) == if PartAt(a, k).value > PartAt(b, k).value then 1 else -1
  {
    CompareFromIsFirstDifference(a, b, 0);
    CompareRange(a, b, 0);
    assert Compare(a, b) != 0;
    forall j: nat | DecidedAt(a, b, j)
      ensures j == k
    {
    }
  }

  lemma CompareRange(a: Parts, b: Parts, i: nat)
    ensures -1 <= CompareFrom(a, b, i) <= 1
    decreases Max(|a|, |b|) - i
  {
  }

  lemma CompareAntisymmetric(a: Parts, b: Parts, i: nat)
    ensures CompareFrom(a, b, i) == -CompareFrom(b, a, i)
    decreases Max(|a|, |b|) - i
  {
  }

  lemma CompareTransitive(a: Parts, b: Parts, c: Parts)
    requires Numeric(a) && Numeric(b) && Numeric(c)
    requires Compare(a, b) <= 0 && Compare(b, c) <= 0
    ensures Compare(a, c) <= 0
    ensures Compare(a, b) < 0 || Compare(b, c) < 0 ==> Compare(a, c) < 0
  {
    CompareFromIsFirstDifference(a, b, 0);
    CompareFromIsFirstDifference(b, c, 0);
    if Compare(a, b) == 0 {
      SameAsLeft(a, b, c);
    } else if Compare(b, c) == 0 {
      SameAsRight(a, b, c);
    } else {
      var i: nat :| DecidedAt(a, b, i) && PartAt(a, i).value < PartAt(b, i).value;
      var j: nat :| DecidedAt(b, c, j) && PartAt(b, j).value < PartAt(c, j).value;
      var k := if i < j then i else j;
      assert DecidedAt(a, c, k);
      CompareIsFirstDifference(a, c, k);
    }
  }

  lemma SameAsLeft(a: Parts, b: Parts, c: Parts)
    requires Numeric(a) && Numeric(b) && Numeric(c) && forall j: nat :: PartAt(a, j) == PartAt(b, j)
    ensures Compare(a, c) == Compare(b, c)
  {
    CompareFromIsFirstDifference(a, c, 0);
    CompareFromIsFirstDifference(b, c, 0);
    if Compare(a, c) != 0 {
      var k: nat :| DecidedAt(a, c, k);
      assert DecidedAt(b, c, k);
      CompareIsFirstDifference(a, c, k);
      CompareIsFirstDifference(b, c, k);
    }
    if Compare(b, c) != 0 {
      var k: nat :| DecidedAt(b, c, k);
      assert DecidedAt(a, c, k);
      CompareIsFirstDifference(a, c, k);
      CompareIsFirstDifference(b, c, k);
    }
  }

  lemma SameAsRight(a: Parts, b: Parts, c: Parts)
    requires Numeric(a) && Numeric(b) && Numeric(c) && forall j: nat :: PartAt(b, j) == PartAt(c, j)
    ensures Compare(a, c) == Compare(a, b)
  {
    CompareAntisymmetric(a, c, 0);
    CompareAntisymmetric(a, b, 0);
    SameAsLeft(c, b, a);
  }

  /** A version without its trailing zero parts. */
  function Significant(parts: Parts): Parts {
    if parts != [] && parts[|parts| - 1] == Some(0.0) then Significant(parts[..|parts| - 1]) else parts
  }

  lemma SignificantReads(parts: Parts, i: nat)
    ensures PartAt(Significant(parts), i) == PartAt(parts, i)
    ensures |Significant(parts)| > 0 ==> Significant(parts)[|Significant(parts)| - 1] != Some(0.0)
  {
    if parts != [] && parts[|parts| - 1] == Some(0.0) {
      SignificantReads(parts[..|parts| - 1], i);
    }
  }

  lemma SameReadsSameParts(a: Parts, b: Parts)
    requires forall i: nat :: PartAt(a, i) == PartAt(b, i)
    requires |a| > 0 ==> a[|a| - 1] != Some(0.0)
    requires |b| > 0 ==> b[|b| - 1] != Some(0.0)
    ensures a == b
  {
    assert |a| > 0 ==> PartAt(a, |a| - 1) == PartAt(b, |a| - 1);
    assert |b| > 0 ==> PartAt(a, |b| - 1) == PartAt(b, |b| - 1);
    forall i | 0 <= i < |a|
      ensures a[i] == b[i]
    {
      assert PartAt(a, i) == PartAt(b, i);
    }
  }

  /** Two numeric versions compare as equal exactly when they agree up to trailing zeros. */
  lemma CompareZeroIff(a: Parts, b: Parts)
    requires Numeric(a) && Numeric(b)
    ensures Compare(a, b) == 0 <==> Significant(a) == Significant(b)
  {
    forall i: nat
      ensures PartAt(Significant(a), i) == PartAt(a, i) && PartAt(Significant(b), i) == PartAt(b, i)
    {
      SignificantReads(a, i);
      SignificantReads(b, i);
    }
    SignificantReads(a, 0);
    SignificantReads(b, 0);
    CompareFromIsFirstDifference(a, b, 0);
    if Compare(a, b) == 0 {
      SameReadsSameParts(Significant(a), Significant(b));
    } else {
      var k: nat :| DecidedAt(a, b, k);
      assert PartAt(a, k) != PartAt(b, k);
    }
  }

  /** Every pair of numeric versions that `v` puts in order is in that order. */
  ghost predicate TransitiveThrough(v: Parts) {
    forall a, c :: Numeric(a) && Numeric(c) && Compare(a, v) <= 0 && Compare(v, c) <= 0 ==> Compare(a, c) <= 0
  }

  /** A copy of `v` with `x` in place of part `i` and zero in place of every other part that is no number. */
  function Filled(v: Parts, i: nat, x: real): (parts: Parts)
    requires i < |v|
    ensures Numeric(parts) && |parts| == |v| && parts[i] == Some(x)
    ensures forall j :: 0 <= j < |v| && j != i && v[j].Some? ==> parts[j] == v[j]
  {
    seq(|v|, j requires 0 <= j < |v| => if j == i then Some(x) else if v[j].None? then Some(0.0) else v[j])
  }

  lemma {:induction false} FilledIsEqual(v: Parts, i: nat, x: real, from: nat)
    requires i < |v| && v[i].None?
    ensures CompareFrom(Filled(v, i, x), v, from) == 0 && CompareFrom(v, Filled(v, i, x), from) == 0
    decreases |v| - from
  {
    if from < |v| {
      FilledIsEqual(v, i, x, from + 1);
    }
  }

  /** Transitivity through a version holds exactly when all its parts are numbers. */
  lemma TransitiveThroughIff(v: Parts)
    ensures TransitiveThrough(v) <==> Numeric(v)
  {
    if Numeric(v) {
      forall a, c | Numeric(a) && Numeric(c) && Compare(a, v) <= 0 && Compare(v, c) <= 0
        ensures Compare(a, c) <= 0
      {
        CompareTransitive(a, v, c);
      }
    } else {
      var i :| 0 <= i < |v| && v[i].None?;
      var a, c := Filled(v, i, 2.0), Filled(v, i, 1.0);
      FilledIsEqual(v, i, 2.0, 0);
      FilledIsEqual(v, i, 1.0, 0);
      assert DecidedAt(a, c, i);
      CompareIsFirstDifference(a, c, i);
      assert Compare(a, v) <= 0 && Compare(v, c) <= 0 && Compare(a, c) > 0;
    }
  }

  // ---------------------------------------------------------------- the verdict

  datatype Status = Supported | SupportedWithWarnings | Deprecated | Unsupported

  datatype Handshake = Handshake(extensionVersion: string, schemaVersion: string, capabilities: seq<string>)

  datatype Policy = Policy(
    minimumVersion: string, recommendedVersion: string, supportedSchemaVersions: seq<string>,
    requiredCapabilities: seq<string>, resultStatus: Option<Status>, reason: Option<string>)

  datatype Verdict = Verdict(status: Status, reason: Option<string>)

  function Missing(required: seq<string>, present: seq<string>): (missing: seq<string>)
    ensures missing == [] <==> forall i :: 0 <= i < |required| ==> required[i] in present
  {
    if required == [] then []
    else (if required[0] in present then [] else [required[0]]) + Missing(required[1..], present)
  }

  function EvaluateCompatibility(number: NumberParser, handshake: Handshake, policy: Policy): Verdict {
    if CompareVersions(number, handshake.extensionVersion, policy.minimumVersion) < 0 then
      Verdict(Unsupported, Some("Extension version is below the minimum supported version."))
    else if handshake.schemaVersion !in policy.supportedSchemaVersions then
      Verdict(SupportedWithWarnings, Some("Config schema version is not a preferred match."))
    else
      var missing := Missing(policy.requiredCapabilities, handshake.capabilities);
      if missing != [] then Verdict(Deprecated, Some("Missing capabilities: " + Text.Join(missing, ", ")))
      else
        var computed :=
          if CompareVersions(number, handshake.extensionVersion, policy.recommendedVersion) < 0
          then SupportedWithWarnings else Supported;
        var status :=
          if policy.resultStatus.Some? && policy.resultStatus != Some(Supported) then policy.resultStatus.value else computed;
        Verdict(status, if policy.reason == Some("") then None else policy.reason)
  }

  /** From worst to best. */
  function Rank(s: Status): nat {
    match s
    case Unsupported => 0
    case Deprecated => 1
    case SupportedWithWarnings => 2
    case Supported => 3
  }

  predicate NumericVersion(number: NumberParser, version: string) {
    Numeric(PartsOf(number, version))
  }

  /** Raising the version, with everything else fixed, never worsens the verdict, whatever the policy overrides. */
  lemma NewerIsNeverWorse(number: NumberParser, handshake: Handshake, newer: string, policy: Policy)
    requires NumericVersion(number, handshake.extensionVersion) && NumericVersion(number, newer)
    requires NumericVersion(number, policy.minimumVersion) && NumericVersion(number, policy.recommendedVersion)
    requires CompareVersions(number, handshake.extensionVersion, newer) <= 0
    ensures Rank(EvaluateCompatibility(number, handshake, policy).status)
         <= Rank(EvaluateCompatibility(number, handshake.(extensionVersion := newer), policy).status)
  {
    var v, w := PartsOf(number, handshake.extensionVersion), PartsOf(number, newer);
    StaysAtLeast(v, w, PartsOf(number, policy.minimumVersion));
    StaysAtLeast(v, w, PartsOf(number, policy.recommendedVersion));
  }

  lemma StaysAtLeast(v: Parts, w: Parts, bound: Parts)
    requires Numeric(v) && Numeric(w) && Numeric(bound) && Compare(v, w) <= 0
    ensures Compare(v, bound) >= 0 ==> Compare(w, bound) >= 0
  {
    CompareAntisymmetric(v, bound, 0);
    CompareAntisymmetric(w, bound, 0);
    if Compare(v, bound) >= 0 {
      CompareTransitive(bound, v, w);
    }
  }

  /**
   What each verdict means. The policy can put a compatible handshake at any level below full support,
   and it cannot touch an incompatible one.
   */
  lemma VerdictMeaning(number: NumberParser, handshake: Handshake, policy: Policy)
    ensures var status := EvaluateCompatibility(number, handshake, policy).status;
            var below := CompareVersions(number, handshake.extensionVersion, policy.minimumVersion) < 0;
            var known := handshake.schemaVersion in policy.supportedSchemaVersions;
            var complete := forall c :: c in policy.requiredCapabilities ==> c in handshake.capabilities;
            var compatible := !below && known && complete;
            && (status == Unsupported <==> below || (compatible && policy.resultStatus == Some(Unsupported)))
            && (status == Deprecated <==>
                  !below && known && (!complete || policy.resultStatus == Some(Deprecated)))
            && (status == Supported <==>
                  && compatible
                  && CompareVersions(number, handshake.extensionVersion, policy.recommendedVersion) >= 0
                  && (policy.resultStatus.None? || policy.resultStatus == Some(Supported)))
  {
    CompleteIff(policy.requiredCapabilities, handshake.capabilities);
  }

  lemma CompleteIff(required: seq<string>, present: seq<string>)
    ensures Missing(required, present) == [] <==> forall c :: c in required ==> c in present
  {
    assert (forall c :: c in required ==> c in present) ==> forall i :: 0 <= i < |required| ==> required[i] in present;
  }

  /** Which reason comes with the verdict: the first obstacle's, and the policy's own for a compatible handshake. */
  lemma ReasonMeaning(number: NumberParser, handshake: Handshake, policy: Policy)
    ensures var reason := EvaluateCompatibility(number, handshake, policy).reason;
            var below := CompareVersions(number, handshake.extensionVersion, policy.minimumVersion) < 0;
            var known := handshake.schemaVersion in policy.supportedSchemaVersions;
            var complete := forall c :: c in policy.requiredCapabilities ==> c in handshake.capabilities;
            && (below ==> reason == Some("Extension version is below the minimum supported version."))
            && (!below && !known ==> reason == Some("Config schema version is not a preferred match."))
            && (!below && known && complete ==> reason == if policy.reason == Some("") then None else policy.reason)
  {
    CompleteIff(policy.requiredCapabilities, handshake.capabilities);
  }

  /** `positions` are, in order, the places of the required capabilities that are absent. */
  ghost predicate AbsentAt(required: seq<string>, present: seq<string>, positions: seq<nat>) {
    && (forall a, b :: 0 <= a < b < |positions| ==> positions[a] < positions[b])
    && (forall a :: 0 <= a < |positions| ==> positions[a] < |required|)
    && (forall i: nat :: i in positions <==> 0 <= i < |required| && required[i] !in present)
  }

  function Pick(items: seq<string>, positions: seq<nat>): (picked: seq<string>)
    requires forall a :: 0 <= a < |positions| ==> positions[a] < |items|
  {
    seq(|positions|, a requires 0 <= a < |positions| => items[positions[a]])
  }

  lemma {:induction false} AbsencesHavePlaces(required: seq<string>, present: seq<string>)
    ensures exists positions: seq<nat> :: AbsentAt(required, present, positions)
  {
    if required == [] {
      assert AbsentAt(required, present, []);
    } else {
      var n := |required| - 1;
      AbsencesHavePlaces(required[..n], present);
      var positions: seq<nat> :| AbsentAt(required[..n], present, positions);
      assert forall i :: 0 <= i < n ==> required[..n][i] == required[i];
      assert AbsentAt(required, present, if required[n] in present then positions else positions + [n]);
    }
  }

  /** A handshake that lacks capabilities is told exactly which, in the order and as often as they are required. */
  lemma MissingIsReported(number: NumberParser, handshake: Handshake, policy: Policy, positions: seq<nat>)
    requires CompareVersions(number, handshake.extensionVersion, policy.minimumVersion) >= 0
    requires handshake.schemaVersion in policy.supportedSchemaVersions
    requires positions != [] && AbsentAt(policy.requiredCapabilities, handshake.capabilities, positions)
    ensures EvaluateCompatibility(number, handshake, policy).reason
         == Some("Missing capabilities: " + Text.Join(Pick(policy.requiredCapabilities, positions), ", "))
  {
    MissingIsPicked(policy.requiredCapabilities, handshake.capabilities, positions);
  }

  lemma {:induction false} MissingSnoc(required: seq<string>, last: string, present: seq<string>)
    ensures Missing(required + [last], present) == Missing(required, present) + (if last in present then [] else [last])
  {
    if required == [] {
      assert required + [last] == [last] && [last][1..] == [];
    } else {
      assert (required + [last])[0] == required[0] && (required + [last])[1..] == required[1..] + [last];
      MissingSnoc(required[1..], last, present);
    }
  }

  lemma {:induction false} MissingIsPicked(required: seq<string>, present: seq<string>, positions: seq<nat>)
    requires AbsentAt(required, present, positions)
    ensures Missing(required, present) == Pick(required, positions)
  {
    if required != [] {
      var n := |required| - 1;
      var before := required[..n];
      assert Missing(required, present) == Missing(before, present) + (if required[n] in present then [] else [required[n]]) by {
        assert required == before + [required[n]];
        MissingSnoc(before, required[n], present);
      }
      if required[n] in present {
        LastIsPresent(required, present, positions);
        MissingIsPicked(before, present, positions);
      } else {
        LastIsAbsent(required, present, positions);
        MissingIsPicked(before, present, positions[..|positions| - 1]);
        PickSnoc(required, positions);
      }
    }
  }

  lemma PickSnoc(items: seq<string>, positions: seq<nat>)
    requires items != [] && positions != [] && positions[|positions| - 1] == |items| - 1
    requires forall a :: 0 <= a < |positions| - 1 ==> positions[a] < |items| - 1
    ensures Pick(items, positions) == Pick(items[..|items| - 1], positions[..|positions| - 1]) + [items[|items| - 1]]
  {
  }

  lemma LastIsPresent(required: seq<string>, present: seq<string>, positions: seq<nat>)
    requires required != [] && required[|required| - 1] in present && AbsentAt(required, present, positions)
    ensures AbsentAt(required[..|required| - 1], present, positions)
    ensures Pick(required, positions) == Pick(required[..|required| - 1], positions)
  {
    assert forall a :: 0 <= a < |positions| ==> positions[a] in positions;
  }

  lemma LastIsAbsent(required: seq<string>, present: seq<string>, positions: seq<nat>)
    requires required != [] && required[|required| - 1] !in present && AbsentAt(required, present, positions)
    ensures positions != [] && positions[|positions| - 1] == |required| - 1
    ensures AbsentAt(required[..|required| - 1], present, positions[..|positions| - 1])
  {
    var n, m := |required| - 1, |positions| - 1;
    assert n in positions;
    assert positions[m] in positions;
    assert positions[m] == n;
    forall i: nat
      ensures i in positions[..m] <==> 0 <= i < n && required[..n][i] !in present
    {
      if i in positions[..m] {
        assert i in positions && i < n;
      }
      if 0 <= i < n && required[i] !in present {
        assert i in positions && i != positions[m];
      }
    }
  }
}
