/**
  The content purge that `delete_stack` runs before deleting: every ECR repository of the stack
  loses its images and every S3 bucket its object versions, from the first page of each listing;
  other resource types are left alone.
 */
module StackPurge {
  import opened Common
  import opened StackModel

  const EcrRepository: string := "AWS::ECR::Repository"
  const S3Bucket: string := "AWS::S3::Bucket"

  /** One entry of `list_stack_resources`, together with what the provider answers to the
      listing and delete calls the purge may make for it: the image digests and the `failures`
      of the batch delete for a repository, the object versions and the `Errors` of
      `delete_objects` for a bucket. */
  datatype ScriptedResource = ScriptedResource(
    resourceType: string, physicalResourceId: string,
    imageDigests: seq<string>, imageFailures: seq<string>,
    objectVersions: seq<ObjectVersion>, objectErrors: seq<string>)

  /** `_empty_ecr_repository`: list, stop on an empty listing, delete the listed images, fail on
      any reported failure. */
  function EmptyEcrRepository(r: ScriptedResource): (out: (Result<()>, seq<Call>))
    ensures r.imageDigests == [] ==> out == (Ok(()), [ListImages(r.physicalResourceId)])
    ensures r.imageDigests != [] ==> out.1 == [ListImages(r.physicalResourceId), BatchDeleteImage(r.physicalResourceId, r.imageDigests)]
    ensures out.0.Err? <==> r.imageDigests != [] && r.imageFailures != []
    ensures out.0.Err? ==> out.0.error == PurgeFailed("ECR", r.physicalResourceId, r.imageFailures)
  {
    var listed := [ListImages(r.physicalResourceId)];
    if r.imageDigests == [] then (Ok(()), listed)
    else
      var calls := listed + [BatchDeleteImage(r.physicalResourceId, r.imageDigests)];
      if r.imageFailures != [] then (Err(PurgeFailed("ECR", r.physicalResourceId, r.imageFailures)), calls)
      else (Ok(()), calls)
  }

  /** `_empty_s3_bucket`: the same for the object versions of a bucket. */
  function EmptyS3Bucket(r: ScriptedResource): (out: (Result<()>, seq<Call>))
    ensures r.objectVersions == [] ==> out == (Ok(()), [ListObjectVersions(r.physicalResourceId)])
    ensures r.objectVersions != [] ==> out.1 == [ListObjectVersions(r.physicalResourceId), DeleteObjects(r.physicalResourceId, r.objectVersions)]
    ensures out.0.Err? <==> r.objectVersions != [] && r.objectErrors != []
    ensures out.0.Err? ==> out.0.error == PurgeFailed("S3 bucket", r.physicalResourceId, r.objectErrors)
  {
    var listed := [ListObjectVersions(r.physicalResourceId)];
    if r.objectVersions == [] then (Ok(()), listed)
    else
      var calls := listed + [DeleteObjects(r.physicalResourceId, r.objectVersions)];
      if r.objectErrors != [] then (Err(PurgeFailed("S3 bucket", r.physicalResourceId, r.objectErrors)), calls)
      else (Ok(()), calls)
  }

  /** The dispatch on the resource type in the loop of `_delete_resource_content`: a repository
      is listed and, when it holds images, all of them are deleted in one call; a bucket the same
      with its object versions; any other resource costs no call. Emptying fails exactly when
      the resource `Fails`. */
  function PurgeResource(r: ScriptedResource): (out: (Result<()>, seq<Call>))
    ensures out.0.Err? <==> Fails(r)
    ensures r.resourceType == EcrRepository ==>
      out.1 == [ListImages(r.physicalResourceId)]
               + (if r.imageDigests == [] then [] else [BatchDeleteImage(r.physicalResourceId, r.imageDigests)])
    ensures r.resourceType == S3Bucket ==>
      out.1 == [ListObjectVersions(r.physicalResourceId)]
               + (if r.objectVersions == [] then [] else [DeleteObjects(r.physicalResourceId, r.objectVersions)])
    ensures r.resourceType != EcrRepository && r.resourceType != S3Bucket ==> out == (Ok(()), [])
  {
    if r.resourceType == EcrRepository then EmptyEcrRepository(r)
    else if r.resourceType == S3Bucket then EmptyS3Bucket(r)
    else (Ok(()), [])
  }

  /** Whether emptying `r` reports failures. */
  predicate Fails(r: ScriptedResource)
  {
    || (r.resourceType == EcrRepository && r.imageDigests != [] && r.imageFailures != [])
    || (r.resourceType == S3Bucket && r.objectVersions != [] && r.objectErrors != [])
  }

  /** Whether call `c` lists or deletes the content of an ECR repository or an S3 bucket of `rs`,
      and deletes only what was listed, never nothing. */
  predicate TouchesContent(c: Call, rs: seq<ScriptedResource>)
  {
    exists r :: r in rs && (
      || (r.resourceType == EcrRepository && c == ListImages(r.physicalResourceId))
      || (r.resourceType == EcrRepository && r.imageDigests != [] && c == BatchDeleteImage(r.physicalResourceId, r.imageDigests))
      || (r.resourceType == S3Bucket && c == ListObjectVersions(r.physicalResourceId))
      || (r.resourceType == S3Bucket && r.objectVersions != [] && c == DeleteObjects(r.physicalResourceId, r.objectVersions)))
  }

  /** The resources of `rs` one after another, stopping at the first failure. The purge fails
      exactly when some resource reports failures, and every call it makes is a listing or a
      non-empty delete of a repository's or bucket's content. */
  function Purge(rs: seq<ScriptedResource>): (out: (Result<()>, seq<Call>))
    ensures out.0.Err? <==> exists j :: 0 <= j < |rs| && Fails(rs[j])
    ensures forall c :: c in out.1 ==> TouchesContent(c, rs)
  {
    if rs == [] then (Ok(()), [])
    else
      var first := PurgeResource(rs[0]);
      assert forall c :: c in first.1 ==> TouchesContent(c, rs) by {
        assert rs[0] in rs;
      }
      if first.0.Err? then first
      else
        var rest := Purge(rs[1..]);
        assert forall c :: c in rest.1 ==> TouchesContent(c, rs) by {
          forall c | c in rest.1 ensures TouchesContent(c, rs) {
            var r :| r in rs[1..] && (
              || (r.resourceType == EcrRepository && c == ListImages(r.physicalResourceId))
              || (r.resourceType == EcrRepository && r.imageDigests != [] && c == BatchDeleteImage(r.physicalResourceId, r.imageDigests))
              || (r.resourceType == S3Bucket && c == ListObjectVersions(r.physicalResourceId))
              || (r.resourceType == S3Bucket && r.objectVersions != [] && c == DeleteObjects(r.physicalResourceId, r.objectVersions)));
            assert r in rs;
          }
        }
        assert (exists j :: 0 <= j < |rs| && Fails(rs[j])) <==> (exists j :: 0 <= j < |rs[1..]| && Fails(rs[1..][j])) by {
          if exists j :: 0 <= j < |rs| && Fails(rs[j]) {
            var j :| 0 <= j < |rs| && Fails(rs[j]);
            assert j > 0 && Fails(rs[1..][j - 1]);
          }
          if exists j :: 0 <= j < |rs[1..]| && Fails(rs[1..][j]) {
            var j :| 0 <= j < |rs[1..]| && Fails(rs[1..][j]);
            assert Fails(rs[j + 1]);
          }
        }
        (rest.0, first.1 + rest.1)
  }

  /** `_delete_resource_content`: list the stack's resources and purge each in turn; a failure
      leaves the remaining resources untouched. */
  method DeleteResourceContent(stackName: string, rs: seq<ScriptedResource>) returns (r: Result<()>, calls: seq<Call>)
    ensures (r, calls) == (Purge(rs).0, [ListStackResources(stackName)] + Purge(rs).1)
  {
    calls := [ListStackResources(stackName)];
    var k := 0;
    while k < |rs|
      invariant 0 <= k <= |rs|
      invariant Purge(rs[k..]).0 == Purge(rs).0
      invariant [ListStackResources(stackName)] + Purge(rs).1 == calls + Purge(rs[k..]).1
    {
      var out := PurgeResource(rs[k]);
      assert rs[k..][0] == rs[k] && rs[k..][1..] == rs[k + 1..];
      calls := calls + out.1;
      if out.0.Err? {
        return out.0, calls;
      }
      k := k + 1;
    }
    assert rs[k..] == [] && Purge(rs[k..]) == (Ok(()), []);
    assert calls + [] == calls;
    return Ok(()), calls;
  }

  /** The index of the first resource whose emptying fails, or `|rs|` when none does. */
  function FirstFailure(rs: seq<ScriptedResource>): (k: nat)
    ensures k <= |rs|
    ensures forall j :: 0 <= j < k ==> !Fails(rs[j])
    ensures k < |rs| ==> Fails(rs[k])
  {
    if rs == [] || Fails(rs[0]) then 0 else 1 + FirstFailure(rs[1..])
  }

  /** The calls of emptying every resource of `rs` in turn, none skipped. */
  function ContentCalls(rs: seq<ScriptedResource>): seq<Call>
  {
    if rs == [] then [] else PurgeResource(rs[0]).1 + ContentCalls(rs[1..])
  }

  /** The purge empties the resources in order up to and including the first one that fails,
      and no further: its calls are those of emptying exactly that prefix, and it fails with
      that resource's error; when none fails it empties them all and succeeds. */
  lemma {:induction false} PurgeStopsAtFirstFailure(rs: seq<ScriptedResource>)
    ensures var k := FirstFailure(rs);
      && (k < |rs| ==> Purge(rs) == (PurgeResource(rs[k]).0, ContentCalls(rs[..k + 1])))
      && (k == |rs| ==> Purge(rs) == (Ok(()), ContentCalls(rs)))
  {
    if rs != [] {
      var k := FirstFailure(rs);
      if Fails(rs[0]) {
        var first := PurgeResource(rs[0]);
        assert Purge(rs) == first;
        assert rs[..1][0] == rs[0] && rs[..1][1..] == [];
        assert ContentCalls(rs[..1]) == first.1 + [] == first.1;
      } else {
        PurgeStopsAtFirstFailure(rs[1..]);
        if k < |rs| {
          assert rs[..k + 1][0] == rs[0] && rs[..k + 1][1..] == rs[1..][..k];
          assert rs[k] == rs[1..][k - 1];
        }
      }
    }
  }

  /** Every call of emptying one resource of `rs` is among the calls of emptying them all. */
  lemma {:induction false} ContentCallsContain(rs: seq<ScriptedResource>, j: nat)
    requires j < |rs|
    ensures forall c :: c in PurgeResource(rs[j]).1 ==> c in ContentCalls(rs)
  {
    if j > 0 {
      ContentCallsContain(rs[1..], j - 1);
    }
  }

  /** Every repository and bucket up to the first failure is emptied: it is listed, and when
      the listing is not empty, everything listed is deleted. */
  lemma EmptiedUpToFailure(rs: seq<ScriptedResource>, j: nat)
    requires j < |rs| && j <= FirstFailure(rs)
    ensures rs[j].resourceType == EcrRepository ==> ListImages(rs[j].physicalResourceId) in Purge(rs).1
    ensures rs[j].resourceType == EcrRepository && rs[j].imageDigests != [] ==>
      BatchDeleteImage(rs[j].physicalResourceId, rs[j].imageDigests) in Purge(rs).1
    ensures rs[j].resourceType == S3Bucket ==> ListObjectVersions(rs[j].physicalResourceId) in Purge(rs).1
    ensures rs[j].resourceType == S3Bucket && rs[j].objectVersions != [] ==>
      DeleteObjects(rs[j].physicalResourceId, rs[j].objectVersions) in Purge(rs).1
  {
    var k := FirstFailure(rs);
    var prefix := if k < |rs| then rs[..k + 1] else rs;
    assert Purge(rs).1 == ContentCalls(prefix) by {
      PurgeStopsAtFirstFailure(rs);
    }
    assert j < |prefix| && prefix[j] == rs[j];
    ContentCallsContain(prefix, j);
    var own := PurgeResource(rs[j]).1;
    assert forall c :: c in own ==> c in Purge(rs).1;
    var id := rs[j].physicalResourceId;
    if rs[j].resourceType == EcrRepository {
      assert own[0] == ListImages(id);
      if rs[j].imageDigests != [] {
        assert own[1] == BatchDeleteImage(id, rs[j].imageDigests);
      }
    } else if rs[j].resourceType == S3Bucket {
      assert own[0] == ListObjectVersions(id);
      if rs[j].objectVersions != [] {
        assert own[1] == DeleteObjects(id, rs[j].objectVersions);
      }
    }
  }
}
