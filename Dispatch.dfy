/**
 * Building a dispatch: the ref name taken from the triggering ref, the
 * payload, and the API actions (paths under `/api/v1/`) the two scripts call.
 */
module Dispatch {
  import opened Wrappers
  import opened JsText
  import opened Models

  const HeadsPattern := "refs/heads/"
  const TagsPattern := "refs/tags/"

  /**
   * `ref.replace("refs/heads/", "").replace("refs/tags/", "")`: two
   * first-occurrence removals, the second applied to the result of the first.
   */
  function ResolveRefName(ref: string): (name: string)
    ensures |name| <= |ref|
    ensures !Contains(ref, HeadsPattern) && !Contains(ref, TagsPattern) ==> name == ref
  {
    ReplaceFirst(ReplaceFirst(ref, HeadsPattern), TagsPattern)
  }

  /**
   * A branch ref resolves to the branch name, when that name holds no
   * "refs/tags/" (a "refs/heads/" inside it survives: only the first one goes).
   */
  lemma BranchRefResolves(x: string)
    requires !Contains(x, TagsPattern)
    ensures ResolveRefName(HeadsPattern + x) == x
  {
    assert (HeadsPattern + x)[..|HeadsPattern|] == HeadsPattern;
    assert (HeadsPattern + x)[|HeadsPattern|..] == x;
  }

  /** "refs/heads/" cannot occur in "refs/tags/" + x, unless it occurs in x. */
  lemma {:induction false} NoHeadsInTagRef(x: string)
    requires !Contains(x, HeadsPattern)
    ensures !Contains(TagsPattern + x, HeadsPattern)
  {
    var s := TagsPattern + x;
    forall i: nat ensures !OccursAt(s, HeadsPattern, i) {
      if i >= |TagsPattern| {
        OccursAfter(TagsPattern, x, HeadsPattern, i - |TagsPattern|);
        assert |TagsPattern| + (i - |TagsPattern|) == i;
      } else if i == 0 {
        assert s[5] == 't' && HeadsPattern[5] == 'h';
        assert |HeadsPattern| <= |s| ==> s[..|HeadsPattern|][5] == s[5];
      } else {
        assert s[i] == TagsPattern[i] != HeadsPattern[0];
        assert i + |HeadsPattern| <= |s| ==> s[i..i + |HeadsPattern|][0] == s[i];
      }
    }
  }

  /** A tag ref resolves to the tag name, when that name holds no "refs/heads/". */
  lemma TagRefResolves(x: string)
    requires !Contains(x, HeadsPattern)
    ensures ResolveRefName(TagsPattern + x) == x
  {
    NoHeadsInTagRef(x);
    assert (TagsPattern + x)[..|TagsPattern|] == TagsPattern;
    assert (TagsPattern + x)[|TagsPattern|..] == x;
  }

  /**
   * Because the removal is not anchored, a branch whose own name holds
   * "refs/tags/" loses that part as well.
   */
  lemma BranchNameHoldingTagPattern()
    ensures ResolveRefName(HeadsPattern + "feature/" + TagsPattern + "y") == "feature/y"
  {
    var rest := "feature/" + TagsPattern + "y";
    assert (HeadsPattern + rest)[..|HeadsPattern|] == HeadsPattern;
    assert (HeadsPattern + rest)[|HeadsPattern|..] == rest;
    assert HeadsPattern + "feature/" + TagsPattern + "y" == HeadsPattern + rest;
    OccursAfter("feature/", TagsPattern + "y", TagsPattern, 0);
    assert ("feature/" + TagsPattern + "y") == "feature/" + (TagsPattern + "y");
    forall j: nat | j < 8 ensures !OccursAt(rest, TagsPattern, j) {
      if j == 5 {
        assert rest[7] == '/';
        assert j + |TagsPattern| <= |rest| ==> rest[j..j + |TagsPattern|][2] == rest[7];
      } else {
        assert rest[j] != 'r';
        assert j + |TagsPattern| <= |rest| ==> rest[j..j + |TagsPattern|][0] == rest[j];
      }
    }
    ReplaceFirstAtLeftmost(rest, TagsPattern, 8);
    assert rest[..8] + rest[18..] == "feature/y";
  }

  /** The dispatch payload: the ref name and a label made of it and the dispatch time. */
  function StartRequest(refName: string, timestamp: string): (r: DispatchRequest)
    ensures r.source_branch == refName
    ensures |r.release_name| == 8 + |refName| + |timestamp|
  {
    DispatchRequest(refName, "Ref: " + refName + " - " + timestamp)
  }

  /**
   * Reading a release label back, given the length of the timestamp (the
   * ISO-8601 form is of fixed length): the ref name and the timestamp.
   */
  function ParseReleaseName(text: string, timestampLength: nat): (r: Option<(string, string)>)
    ensures r.Some? ==> |text| == 8 + |r.value.0| + |r.value.1| && |r.value.1| == timestampLength
  {
    var n := |text|;
    if n >= 8 + timestampLength && text[..5] == "Ref: " && text[n - timestampLength - 3..n - timestampLength] == " - "
    then Some((text[5..n - timestampLength - 3], text[n - timestampLength..]))
    else None
  }

  /** The label keeps the ref name and the time apart: both are recovered from it. */
  lemma {:induction false} ReleaseNameRoundTrip(refName: string, timestamp: string)
    ensures ParseReleaseName(StartRequest(refName, timestamp).release_name, |timestamp|) == Some((refName, timestamp))
  {
    var text := StartRequest(refName, timestamp).release_name;
    var n := |text|;
    var t := |timestamp|;
    assert text == "Ref: " + refName + " - " + timestamp;
    assert text[..5] == "Ref: ";
    assert text[n - t - 3..n - t] == " - ";
    assert text[5..n - t - 3] == refName;
    assert text[n - t..] == timestamp;
  }

  /** Two dispatches with different ref names or times carry different labels. */
  lemma ReleaseNameInjective(ref1: string, ts1: string, ref2: string, ts2: string)
    requires |ts1| == |ts2|
    requires StartRequest(ref1, ts1).release_name == StartRequest(ref2, ts2).release_name
    ensures ref1 == ref2 && ts1 == ts2
  {
    ReleaseNameRoundTrip(ref1, ts1);
    ReleaseNameRoundTrip(ref2, ts2);
  }

  /** `dispatch/<username>` */
  function DispatchAction(username: string): string {
    "dispatch/" + username
  }

  /** `check/<username>/<id>` (main.ts) */
  function CheckAction(username: string, id: string): string {
    "check/" + username + "/" + id
  }

  /** `status/<username>/<id>` (index.ts) */
  function StatusAction(username: string, id: string): string {
    "status/" + username + "/" + id
  }
}
