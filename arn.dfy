/**
  The region lookup that the Batch and Step Functions monitors run on an ARN after their wait:
  `re.match(r"<prefix>(.*?):.*", arn).group(1)`. The pattern is anchored at the start, the group
  is lazy, and `.` does not match a newline.
 */
module Arn {
  import opened Common

  const BatchPrefix: string := "arn:aws:batch:"
  const StatesPrefix: string := "arn:aws:states:"

  /** `region` is what the group captures when the pattern matches `arn`: `arn` starts with
      `prefix` followed by `region` and a colon, and `region` holds neither a colon (the group is
      lazy) nor a newline (`.` stops at one). */
  ghost predicate CapturesRegion(prefix: string, arn: string, region: string)
  {
    && |prefix| + |region| < |arn|
    && arn[..|prefix|] == prefix
    && arn[|prefix|..|prefix| + |region|] == region
    && arn[|prefix| + |region|] == ':'
    && ':' !in region
    && '\n' !in region
  }

  /** Index of the first colon in `s`, or `|s|` when there is none. */
  function FirstColon(s: string): (i: nat)
    ensures i <= |s|
    ensures i < |s| ==> s[i] == ':'
    ensures forall j :: 0 <= j < i ==> s[j] != ':'
  {
    if s == [] || s[0] == ':' then 0 else 1 + FirstColon(s[1..])
  }

  /** The region captured by the pattern, or None when `re.match` finds no match. */
  function RegionOf(prefix: string, arn: string): (r: Option<string>)
    ensures r.Some? ==> CapturesRegion(prefix, arn, r.value)
    ensures r.None? ==> forall region :: !CapturesRegion(prefix, arn, region)
  {
    if |arn| < |prefix| || arn[..|prefix|] != prefix then
      None
    else
      var rest := arn[|prefix|..];
      var i := FirstColon(rest);
      if i == |rest| || '\n' in rest[..i] then
        NoCaptureBeyondFirstColon(prefix, arn, i);
        None
      else
        Some(rest[..i])
  }

  /** A captured region is exactly the text up to the first colon after the prefix. */
  lemma CaptureEndsAtFirstColon(prefix: string, arn: string, region: string)
    requires CapturesRegion(prefix, arn, region)
    ensures var rest := arn[|prefix|..]; |region| == FirstColon(rest) && region == rest[..|region|]
  {
  }

  /** When the text up to the first colon is not capturable, nothing is. */
  lemma NoCaptureBeyondFirstColon(prefix: string, arn: string, i: nat)
    requires |prefix| <= |arn| && arn[..|prefix|] == prefix
    requires i == FirstColon(arn[|prefix|..])
    requires i == |arn| - |prefix| || '\n' in arn[|prefix|..][..i]
    ensures forall region :: !CapturesRegion(prefix, arn, region)
  {
  }

  /** The capture is unique: the lazy group stops at the first colon. */
  lemma CaptureIsUnique(prefix: string, arn: string, r1: string, r2: string)
    requires CapturesRegion(prefix, arn, r1) && CapturesRegion(prefix, arn, r2)
    ensures r1 == r2
  {
  }

  /** Round trip: an ARN assembled from the prefix, a colon-free and newline-free region, a colon
      and any tail gives back exactly that region. */
  lemma RegionOfBuiltArn(prefix: string, region: string, tail: string)
    requires ':' !in region && '\n' !in region
    ensures RegionOf(prefix, prefix + region + ":" + tail) == Some(region)
  {
    var arn := prefix + region + ":" + tail;
    assert arn[..|prefix|] == prefix;
    assert arn[|prefix|..|prefix| + |region|] == region;
    assert arn[|prefix| + |region|] == ':';
    assert CapturesRegion(prefix, arn, region);
    var r := RegionOf(prefix, arn);
    CaptureIsUnique(prefix, arn, r.value, region);
  }
}
