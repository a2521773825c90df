/**
 * The JSON values the handler passes through, and the `AnalysisResponse`
 * shape of src/types/index.ts that the prompt asks the model for. The
 * handler itself never checks a parsed value against this shape.
 */
module AnalysisTypes {
  import opened Wrappers

  /** A parsed JSON value; object members keep their textual order. */
  datatype Json =
    | JNull
    | JBool(b: bool)
    | JNumber(n: real)
    | JString(s: string)
    | JArray(items: seq<Json>)
    | JObject(members: seq<(string, Json)>)

  /** The three verdicts the interface allows. */
  datatype Verdict = StrongMatch | ModerateMatch | WeakMatch

  function VerdictLiteral(v: Verdict): string
  {
    match v
    case StrongMatch => "Strong Match"
    case ModerateMatch => "Moderate Match"
    case WeakMatch => "Weak Match"
  }

  function ParseVerdict(s: string): Option<Verdict>
  {
    if s == "Strong Match" then Some(StrongMatch)
    else if s == "Moderate Match" then Some(ModerateMatch)
    else if s == "Weak Match" then Some(WeakMatch)
    else None
  }

  /** A string is accepted as a verdict exactly when it is that verdict's literal. */
  lemma VerdictRoundTrip(s: string, v: Verdict)
    ensures ParseVerdict(s) == Some(v) <==> VerdictLiteral(v) == s
  {
  }

  /** The value of `key` in an object's members; with duplicates, `JSON.parse` keeps the last. */
  function Member(members: seq<(string, Json)>, key: string): Option<Json>
  {
    if |members| == 0 then None
    else if members[|members| - 1].0 == key then Some(members[|members| - 1].1)
    else Member(members[..|members| - 1], key)
  }

  /** A member is found exactly when the key occurs, and it is the value of its last occurrence. */
  lemma {:induction false} MemberIsLastBinding(members: seq<(string, Json)>, key: string)
    ensures Member(members, key).Some? <==> exists i :: 0 <= i < |members| && members[i].0 == key
    ensures Member(members, key).Some? ==>
      exists i :: 0 <= i < |members| && members[i] == (key, Member(members, key).value)
        && forall j :: i < j < |members| ==> members[j].0 != key
  {
    var n := |members|;
    if n > 0 && members[n - 1].0 != key {
      var init := members[..n - 1];
      MemberIsLastBinding(init, key);
      assert forall i :: 0 <= i < n - 1 ==> init[i] == members[i];
      if Member(members, key).Some? {
        var i :| 0 <= i < n - 1 && init[i] == (key, Member(init, key).value)
                 && forall j :: i < j < n - 1 ==> init[j].0 != key;
        assert members[i] == (key, Member(members, key).value);
      }
    }
  }

  predicate IsStringArray(j: Json)
  {
    j.JArray? && forall k :: 0 <= k < |j.items| ==> j.items[k].JString?
  }

  /** `j` has the fields and field types of `AnalysisResponse`. */
  predicate ConformsToAnalysisResponse(j: Json)
  {
    && j.JObject?
    && var score := Member(j.members, "score");
    && var missing := Member(j.members, "missing_keywords");
    && var tips := Member(j.members, "indian_market_tips");
    && var verdict := Member(j.members, "verdict");
    && score.Some? && score.value.JNumber?
    && missing.Some? && IsStringArray(missing.value)
    && tips.Some? && IsStringArray(tips.value)
    && verdict.Some? && verdict.value.JString? && ParseVerdict(verdict.value.s).Some?
  }

  /** The score lies in the range 0 to 100 that the prompt asks for. */
  predicate ScoreInRange(j: Json)
  {
    j.JObject? && var score := Member(j.members, "score");
    score.Some? && score.value.JNumber? && 0.0 <= score.value.n <= 100.0
  }
}
