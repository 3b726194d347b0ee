/**
 * The activity projections of RxSnapshot: the rules applied to an activity
 * recognition result once the sensing service has delivered it.
 */
module Activities {
  import opened Wrappers

  /** A detected activity. The projections only ever read its activity type. */
  datatype DetectedActivity = DetectedActivity(activityType: int)

  /**
   * A raw activity recognition result: the top candidate, the list of probable
   * candidates, and the confidence lookup `getActivityConfidence(type)`, which the
   * projections consult instead of any confidence stored in an activity.
   */
  datatype ActivityRecognitionResult = ActivityRecognitionResult(
    mostProbable: DetectedActivity,
    probable: seq<DetectedActivity>,
    confidence: int -> int)

  /** The activity's confidence, as looked up by its type, reaches `minimum`. */
  predicate Reaches(r: ActivityRecognitionResult, a: DetectedActivity, minimum: int)
  {
    r.confidence(a.activityType) >= minimum
  }

  /**
   * getMostProbableActivity(minimumProbability): the top candidate, or null
   * (None) when its confidence is below the threshold.
   */
  function MostProbableActivityAtLeast(r: ActivityRecognitionResult, minimum: int): (o: Option<DetectedActivity>)
    ensures o.None? <==> r.confidence(r.mostProbable.activityType) < minimum
    ensures o.Some? ==> o.value == r.mostProbable
  {
    var top := r.mostProbable;
    if r.confidence(top.activityType) < minimum then None else Some(top)
  }

  /**
   * getMostProbableActivity(): the top candidate, with no threshold. It is what
   * the thresholded accessor returns for every threshold the candidate meets.
   */
  function MostProbableActivity(r: ActivityRecognitionResult): (a: DetectedActivity)
    ensures a == r.mostProbable
    ensures forall minimum :: Reaches(r, a, minimum) ==> MostProbableActivityAtLeast(r, minimum) == Some(a)
  {
    r.mostProbable
  }

  /** getProbableActivities(): the probable candidates as delivered, with no threshold. */
  function ProbableActivities(r: ActivityRecognitionResult): (s: seq<DetectedActivity>)
    ensures s == r.probable
  {
    r.probable
  }

  /** Reference definition of the threshold filter: the candidates of `s` that reach `minimum`, in order. */
  function Matching(r: ActivityRecognitionResult, s: seq<DetectedActivity>, minimum: int): (m: seq<DetectedActivity>)
    ensures |m| <= |s|
  {
    if s == [] then []
    else (if Reaches(r, s[0], minimum) then [s[0]] else []) + Matching(r, s[1..], minimum)
  }

  /** `xs` is obtained from `ys` by deleting elements, keeping the order of the rest. */
  ghost predicate IsSubsequence<T>(xs: seq<T>, ys: seq<T>)
  {
    if xs == [] then true
    else if ys == [] then false
    else (xs[0] == ys[0] && IsSubsequence(xs[1..], ys[1..])) || IsSubsequence(xs, ys[1..])
  }

  /**
   * getProbableActivities(minimumProbability): a new list to which every probable
   * candidate whose confidence is at least the threshold is appended, in iteration order.
   */
  method ProbableActivitiesAtLeast(r: ActivityRecognitionResult, minimum: int) returns (matching: seq<DetectedActivity>)
    ensures matching == Matching(r, ProbableActivities(r), minimum)
    ensures forall a :: multiset(matching)[a] == if Reaches(r, a, minimum) then multiset(ProbableActivities(r))[a] else 0
    ensures IsSubsequence(matching, ProbableActivities(r)) && |matching| <= |ProbableActivities(r)|
  {
    var probable := ProbableActivities(r);
    matching := [];
    var i := 0;
    while i < |probable|
      invariant 0 <= i <= |probable|
      invariant matching == Matching(r, probable[..i], minimum)
    {
      var candidate := probable[i];
      MatchingAppend(r, probable[..i], [candidate], minimum);
      assert probable[..i + 1] == probable[..i] + [candidate];
      if r.confidence(candidate.activityType) >= minimum {
        matching := matching + [candidate];
      }
      i := i + 1;
    }
    assert probable[..i] == probable;
    forall a ensures multiset(matching)[a] == if Reaches(r, a, minimum) then multiset(probable)[a] else 0 {
      MatchingCount(r, probable, minimum, a);
    }
    MatchingIsSubsequence(r, probable, minimum);
  }

  /** Filtering distributes over concatenation. */
  lemma {:induction false} MatchingAppend(r: ActivityRecognitionResult, s: seq<DetectedActivity>, t: seq<DetectedActivity>, minimum: int)
    ensures Matching(r, s + t, minimum) == Matching(r, s, minimum) + Matching(r, t, minimum)
  {
    if s == [] {
      assert s + t == t;
    } else {
      assert (s + t)[1..] == s[1..] + t;
      MatchingAppend(r, s[1..], t, minimum);
    }
  }

  /**
   * The filter keeps exactly the candidates that reach the threshold: each such
   * candidate as often as it occurs in the input, every other one not at all.
   */
  lemma {:induction false} MatchingCount(r: ActivityRecognitionResult, s: seq<DetectedActivity>, minimum: int, a: DetectedActivity)
    ensures multiset(Matching(r, s, minimum))[a] == if Reaches(r, a, minimum) then multiset(s)[a] else 0
  {
    if s != [] {
      MatchingCount(r, s[1..], minimum, a);
      assert s == [s[0]] + s[1..];
    }
  }

  /** A candidate is in the filtered list exactly when it is among the probable ones and reaches the threshold. */
  lemma {:induction false} MatchingMembership(r: ActivityRecognitionResult, s: seq<DetectedActivity>, minimum: int, a: DetectedActivity)
    ensures a in Matching(r, s, minimum) <==> a in s && Reaches(r, a, minimum)
  {
    MatchingCount(r, s, minimum, a);
    assert a in Matching(r, s, minimum) <==> multiset(Matching(r, s, minimum))[a] > 0;
    assert a in s <==> multiset(s)[a] > 0;
  }

  /** Every candidate in the filtered list reaches the threshold; one strictly below it never appears. */
  lemma {:induction false} MatchingAllReach(r: ActivityRecognitionResult, s: seq<DetectedActivity>, minimum: int)
    ensures forall k :: 0 <= k < |Matching(r, s, minimum)| ==> Reaches(r, Matching(r, s, minimum)[k], minimum)
  {
    if s != [] {
      MatchingAllReach(r, s[1..], minimum);
    }
  }

  /** The filtered list keeps the relative order of the input. */
  lemma {:induction false} MatchingIsSubsequence(r: ActivityRecognitionResult, s: seq<DetectedActivity>, minimum: int)
    ensures IsSubsequence(Matching(r, s, minimum), s)
  {
    if s != [] {
      MatchingIsSubsequence(r, s[1..], minimum);
      var rest := Matching(r, s[1..], minimum);
      if Reaches(r, s[0], minimum) {
        assert Matching(r, s, minimum) == [s[0]] + rest;
        assert ([s[0]] + rest)[1..] == rest;
      } else {
        assert Matching(r, s, minimum) == rest;
        if rest != [] {
          assert IsSubsequence(rest, s[1..]);
        }
      }
    }
  }

  /** No candidate reaching the threshold yields the empty list, not an error; and only then. */
  lemma {:induction false} MatchingEmpty(r: ActivityRecognitionResult, s: seq<DetectedActivity>, minimum: int)
    ensures Matching(r, s, minimum) == [] <==> forall k :: 0 <= k < |s| ==> !Reaches(r, s[k], minimum)
  {
    if s != [] {
      MatchingEmpty(r, s[1..], minimum);
      assert forall k :: 1 <= k < |s| ==> s[k] == s[1..][k - 1];
    }
  }

  /** With a threshold no probable candidate falls below, the filtered list is the unthresholded one. */
  lemma {:induction false} NoCandidateBelowKeepsAll(r: ActivityRecognitionResult, s: seq<DetectedActivity>, minimum: int)
    requires forall k :: 0 <= k < |s| ==> Reaches(r, s[k], minimum)
    ensures Matching(r, s, minimum) == s
  {
    if s != [] {
      assert forall k :: 0 <= k < |s[1..]| ==> s[1..][k] == s[k + 1];
      NoCandidateBelowKeepsAll(r, s[1..], minimum);
      assert s == [s[0]] + s[1..];
    }
  }

  /** Without a threshold the top candidate is returned; with one, the same candidate whenever it is met. */
  lemma ThresholdAgreesWhenMet(r: ActivityRecognitionResult, minimum: int)
    ensures Reaches(r, MostProbableActivity(r), minimum) ==> MostProbableActivityAtLeast(r, minimum) == Some(MostProbableActivity(r))
    ensures !Reaches(r, MostProbableActivity(r), minimum) ==> MostProbableActivityAtLeast(r, minimum) == None
  {
  }

  /** Lowering the threshold never turns a returned top candidate into null. */
  lemma ThresholdMonotone(r: ActivityRecognitionResult, lower: int, higher: int)
    requires lower <= higher
    ensures MostProbableActivityAtLeast(r, higher).Some? ==> MostProbableActivityAtLeast(r, lower) == MostProbableActivityAtLeast(r, higher)
  {
  }

  /**
   * The two thresholded projections agree: when the top candidate is among the
   * probable ones and passes the threshold, it is also in the filtered list.
   */
  lemma TopCandidateSurvivesFilter(r: ActivityRecognitionResult, minimum: int)
    requires MostProbableActivity(r) in ProbableActivities(r)
    ensures MostProbableActivityAtLeast(r, minimum).Some? ==> MostProbableActivity(r) in Matching(r, ProbableActivities(r), minimum)
  {
    MatchingMembership(r, ProbableActivities(r), minimum, MostProbableActivity(r));
  }
}
