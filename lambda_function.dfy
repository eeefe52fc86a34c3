/**
  `LambdaFunction`: publishing new code with alias convergence (`update_function_code`) and
  pruning of old versions (`delete_old_versions`).
 */
module LambdaFunction {
  import opened Common

  /** The calls issued to the Lambda service, in the order they are made. */
  datatype LambdaCall =
    | UpdateFunctionCode(functionName: string, imageUri: string)
    | UpdateAlias(functionName: string, alias: string, version: string)
    | CreateAlias(functionName: string, alias: string, version: string)
    | PutProvisionedConcurrencyConfig(functionName: string, qualifier: string, executions: int)
    | GetAlias(functionName: string, alias: string)
    | ListVersionsByFunction(functionName: string)
    | DeleteFunction(functionName: string, qualifier: string)

  // ---------------------------------------------------------------------------------------
  // Python's ordering of `str` values, by which `LastModified` strings are sorted.

  /** `a <= b` on Python strings: code point by code point, a proper prefix first. */
  predicate StrLe(a: string, b: string)
  {
    if a == [] then true
    else if b == [] then false
    else if a[0] != b[0] then a[0] < b[0]
    else StrLe(a[1..], b[1..])
  }

  lemma {:induction false} StrLeReflexive(a: string)
    ensures StrLe(a, a)
  {
    if a != [] {
      StrLeReflexive(a[1..]);
    }
  }

  lemma {:induction false} StrLeTotal(a: string, b: string)
    ensures StrLe(a, b) || StrLe(b, a)
  {
    if a != [] && b != [] && a[0] == b[0] {
      StrLeTotal(a[1..], b[1..]);
    }
  }

  lemma {:induction false} StrLeTransitive(a: string, b: string, c: string)
    requires StrLe(a, b) && StrLe(b, c)
    ensures StrLe(a, c)
  {
    if a != [] && b != [] && c != [] && a[0] == b[0] && b[0] == c[0] {
      StrLeTransitive(a[1..], b[1..], c[1..]);
    }
  }

  lemma {:induction false} StrLeAntisymmetric(a: string, b: string)
    requires StrLe(a, b) && StrLe(b, a)
    ensures a == b
  {
    if a != [] && b != [] {
      StrLeAntisymmetric(a[1..], b[1..]);
      assert a == [a[0]] + a[1..] && b == [b[0]] + b[1..];
    }
  }

  // ---------------------------------------------------------------------------------------
  // Version listing and the newest-first sort.

  /** An entry of `list_versions_by_function`. */
  datatype Version = Version(version: string, lastModified: string)

  const Latest: string := "$LATEST"

  /** The versions of all listed pages, in listing order, without `$LATEST`. */
  function Candidates(pages: seq<seq<Version>>): (vs: seq<Version>)
    ensures forall v :: v in vs <==> (v.version != Latest && exists p :: p in pages && v in p)
  {
    if pages == [] then []
    else Published(pages[0]) + Candidates(pages[1..])
  }

  /** The versions of one page without `$LATEST`, in listing order. */
  function Published(page: seq<Version>): (vs: seq<Version>)
    ensures forall v :: v in vs <==> v in page && v.version != Latest
  {
    if page == [] then []
    else (if page[0].version != Latest then [page[0]] else []) + Published(page[1..])
  }

  /** Newest first: every later entry was modified no later than every earlier one. */
  ghost predicate NewestFirst(vs: seq<Version>)
  {
    forall i, j :: 0 <= i < j < |vs| ==> StrLe(vs[j].lastModified, vs[i].lastModified)
  }

  /** The entries of `vs` whose `LastModified` is `t`, in their order in `vs`. */
  function WithTimestamp(vs: seq<Version>, t: string): seq<Version>
  {
    if vs == [] then []
    else (if vs[0].lastModified == t then [vs[0]] else []) + WithTimestamp(vs[1..], t)
  }

  /** Insert `v` ahead of the first entry that is not newer than it, so that `v` stays ahead of
      the later-listed entries with the same timestamp. */
  function Insert(v: Version, vs: seq<Version>): (r: seq<Version>)
    ensures multiset(r) == multiset(vs) + multiset{v}
  {
    if vs == [] || StrLe(vs[0].lastModified, v.lastModified) then [v] + vs
    else
      assert vs == [vs[0]] + vs[1..];
      [vs[0]] + Insert(v, vs[1..])
  }

  /** `sorted(vs, key=LastModified, reverse=True)`: Python's sort is stable under `reverse`. */
  function SortNewestFirst(vs: seq<Version>): (r: seq<Version>)
    ensures multiset(r) == multiset(vs)
  {
    if vs == [] then []
    else
      assert vs == [vs[0]] + vs[1..];
      Insert(vs[0], SortNewestFirst(vs[1..]))
  }

  /** No entry of `vs` is newer than `x`. */
  ghost predicate NoneNewer(x: Version, vs: seq<Version>)
  {
    forall y :: y in vs ==> StrLe(y.lastModified, x.lastModified)
  }

  lemma ConsNewestFirst(x: Version, vs: seq<Version>)
    requires NoneNewer(x, vs) && NewestFirst(vs)
    ensures NewestFirst([x] + vs)
  {
  }

  lemma HeadIsNewest(vs: seq<Version>)
    requires vs != [] && NewestFirst(vs)
    ensures NoneNewer(vs[0], vs)
  {
    forall y | y in vs
      ensures StrLe(y.lastModified, vs[0].lastModified)
    {
      var k :| 0 <= k < |vs| && vs[k] == y;
      if k == 0 {
        StrLeReflexive(y.lastModified);
      }
    }
  }

  lemma {:induction false} InsertKeepsOrder(v: Version, vs: seq<Version>)
    requires NewestFirst(vs)
    ensures NewestFirst(Insert(v, vs))
  {
    if vs == [] {
    } else if StrLe(vs[0].lastModified, v.lastModified) {
      HeadIsNewest(vs);
      forall y | y in vs
        ensures StrLe(y.lastModified, v.lastModified)
      {
        StrLeTransitive(y.lastModified, vs[0].lastModified, v.lastModified);
      }
      ConsNewestFirst(v, vs);
    } else {
      StrLeTotal(vs[0].lastModified, v.lastModified);
      assert NewestFirst(vs[1..]) by {
        forall i, j | 0 <= i < j < |vs[1..]|
          ensures StrLe(vs[1..][j].lastModified, vs[1..][i].lastModified)
        {
          assert vs[1..][i] == vs[i + 1] && vs[1..][j] == vs[j + 1];
        }
      }
      InsertKeepsOrder(v, vs[1..]);
      var tail := Insert(v, vs[1..]);
      HeadIsNewest(vs);
      forall x | x in tail
        ensures StrLe(x.lastModified, vs[0].lastModified)
      {
        assert x in multiset(tail);
        assert x == v || x in multiset(vs[1..]);
      }
      ConsNewestFirst(vs[0], tail);
    }
  }

  lemma {:induction false} SortIsNewestFirst(vs: seq<Version>)
    ensures NewestFirst(SortNewestFirst(vs))
  {
    if vs != [] {
      SortIsNewestFirst(vs[1..]);
      InsertKeepsOrder(vs[0], SortNewestFirst(vs[1..]));
    }
  }

  lemma {:induction false} WithTimestampAppend(a: seq<Version>, b: seq<Version>, t: string)
    ensures WithTimestamp(a + b, t) == WithTimestamp(a, t) + WithTimestamp(b, t)
  {
    if a != [] {
      WithTimestampAppend(a[1..], b, t);
      var head := if a[0].lastModified == t then [a[0]] else [];
      assert (a + b)[0] == a[0];
      assert (a + b)[1..] == a[1..] + b;
      assert WithTimestamp(a + b, t) == head + WithTimestamp(a[1..] + b, t);
      assert WithTimestamp(a, t) == head + WithTimestamp(a[1..], t);
    } else {
      assert a + b == b;
    }
  }

  /** Entries with different timestamps never both land in one `WithTimestamp`. */
  lemma SingletonsCommute(x: Version, v: Version, t: string)
    requires x.lastModified != v.lastModified
    ensures WithTimestamp([x], t) + WithTimestamp([v], t) == WithTimestamp([v], t) + WithTimestamp([x], t)
  {
  }

  /** `Insert` passes over an entry that is newer than `v`. */
  lemma InsertBehind(v: Version, vs: seq<Version>)
    requires vs != [] && !StrLe(vs[0].lastModified, v.lastModified)
    ensures vs[0].lastModified != v.lastModified
    ensures Insert(v, vs) == [vs[0]] + Insert(v, vs[1..])
  {
    StrLeReflexive(v.lastModified);
  }

  lemma {:induction false} InsertIsStable(v: Version, vs: seq<Version>, t: string)
    ensures WithTimestamp(Insert(v, vs), t) == WithTimestamp([v], t) + WithTimestamp(vs, t)
  {
    if vs == [] || StrLe(vs[0].lastModified, v.lastModified) {
      WithTimestampAppend([v], vs, t);
    } else {
      var x := vs[0];
      InsertBehind(v, vs);
      var tail := Insert(v, vs[1..]);
      InsertIsStable(v, vs[1..], t);
      WithTimestampAppend([x], tail, t);
      WithTimestampAppend([x], vs[1..], t);
      assert [x] + vs[1..] == vs;
      SingletonsCommute(x, v, t);
      ConcatSwap(WithTimestamp([x], t), WithTimestamp([v], t), WithTimestamp(vs[1..], t));
    }
  }

  /** Two commuting blocks can swap in front of a common rest. */
  lemma ConcatSwap(a: seq<Version>, b: seq<Version>, rest: seq<Version>)
    requires a + b == b + a
    ensures a + (b + rest) == b + (a + rest)
  {
    assert a + (b + rest) == (a + b) + rest;
  }

  /** Stability: the entries sharing a timestamp keep their listing order. */
  lemma {:induction false} SortIsStable(vs: seq<Version>, t: string)
    ensures WithTimestamp(SortNewestFirst(vs), t) == WithTimestamp(vs, t)
  {
    if vs != [] {
      SortIsStable(vs[1..], t);
      InsertIsStable(vs[0], SortNewestFirst(vs[1..]), t);
      WithTimestampAppend([vs[0]], vs[1..], t);
      assert [vs[0]] + vs[1..] == vs;
    }
  }

  // ---------------------------------------------------------------------------------------
  // delete_old_versions

  /** The versions the helper deletes: all but the newest `keep` candidates, newest first. */
  function Outdated(pages: seq<seq<Version>>, keep: nat): seq<Version>
  {
    var sorted := SortNewestFirst(Candidates(pages));
    if keep <= |sorted| then sorted[keep..] else []
  }

  function Qualifiers(vs: seq<Version>): (qs: seq<string>)
    ensures |qs| == |vs| && forall i :: 0 <= i < |vs| ==> qs[i] == vs[i].version
  {
    seq(|vs|, i requires 0 <= i < |vs| => vs[i].version)
  }

  function ListCalls(functionName: string, pages: nat): (calls: seq<LambdaCall>)
    ensures |calls| == pages && forall c :: c in calls ==> c == ListVersionsByFunction(functionName)
  {
    seq(pages, _ => ListVersionsByFunction(functionName))
  }

  function DeleteCalls(functionName: string, qualifiers: seq<string>): (calls: seq<LambdaCall>)
    ensures |calls| == |qualifiers|
    ensures forall i :: 0 <= i < |qualifiers| ==> calls[i] == DeleteFunction(functionName, qualifiers[i])
  {
    seq(|qualifiers|, i requires 0 <= i < |qualifiers| => DeleteFunction(functionName, qualifiers[i]))
  }

  const KeepError: Error := ValueError("keep_latest_versions must be 1 or greater")

  /** `delete_old_versions`, with `pages` the pages the paginator returns. The deleted list is
      returned, and it is exactly the sequence of qualifiers handed to `delete_function`. */
  method DeleteOldVersions(functionName: string, keepLatestVersions: int, pages: seq<seq<Version>>)
    returns (r: Result<seq<string>>, calls: seq<LambdaCall>)
    ensures keepLatestVersions < 1 ==> r == Err(KeepError) && calls == []
    ensures keepLatestVersions >= 1 ==>
      && r == Ok(Qualifiers(Outdated(pages, keepLatestVersions)))
      && calls == ListCalls(functionName, |pages|) + DeleteCalls(functionName, r.value)
  {
    if keepLatestVersions < 1 {
      return Err(KeepError), [];
    }
    calls := ListCalls(functionName, |pages|);
    var versions := SortNewestFirst(Candidates(pages));
    var outdated := if keepLatestVersions <= |versions| then versions[keepLatestVersions..] else [];
    var deleted: seq<string> := [];
    var i := 0;
    while i < |outdated|
      invariant 0 <= i <= |outdated|
      invariant deleted == Qualifiers(outdated[..i])
      invariant calls == ListCalls(functionName, |pages|) + DeleteCalls(functionName, deleted)
    {
      deleted := deleted + [outdated[i].version];
      calls := calls + [DeleteFunction(functionName, outdated[i].version)];
      i := i + 1;
    }
    assert outdated[..i] == outdated;
    r := Ok(deleted);
  }

  /** How many versions the selection deletes: exactly max(0, n - keep) of the n candidates,
      each of them a candidate, so never `$LATEST`. */
  lemma OutdatedCount(pages: seq<seq<Version>>, keep: nat)
    ensures var n := |Candidates(pages)|; |Outdated(pages, keep)| == (if n <= keep then 0 else n - keep)
    ensures forall v :: v in Outdated(pages, keep) ==> v in Candidates(pages) && v.version != Latest
  {
    var candidates := Candidates(pages);
    var sorted := SortNewestFirst(candidates);
    forall v | v in Outdated(pages, keep)
      ensures v in candidates
    {
      assert v in multiset(sorted);
    }
  }

  /** Nothing is lost or duplicated: the kept and the deleted versions split the newest-first
      list, and together they are the candidates, each once. */
  lemma OutdatedSplitsCandidates(pages: seq<seq<Version>>, keep: nat)
    ensures var sorted := SortNewestFirst(Candidates(pages));
      var out := Outdated(pages, keep);
      && |out| <= |sorted|
      && sorted[..|sorted| - |out|] + out == sorted
      && multiset(sorted[..|sorted| - |out|]) + multiset(out) == multiset(Candidates(pages))
  {
    var sorted := SortNewestFirst(Candidates(pages));
    var out := Outdated(pages, keep);
    var kept := sorted[..|sorted| - |out|];
    assert kept + out == sorted;
    assert multiset(kept) + multiset(out) == multiset(sorted);
  }

  /** The deleted versions are the oldest: every kept version is at least as new as every
      deleted one. */
  lemma OutdatedAreOldest(pages: seq<seq<Version>>, keep: nat)
    ensures var sorted := SortNewestFirst(Candidates(pages));
      var out := Outdated(pages, keep);
      && |out| <= |sorted|
      && forall a, b :: a in sorted[..|sorted| - |out|] && b in out ==> StrLe(b.lastModified, a.lastModified)
  {
    var candidates := Candidates(pages);
    var sorted := SortNewestFirst(candidates);
    var out := Outdated(pages, keep);
    assert out == sorted[|sorted| - |out|..];
    SortIsNewestFirst(candidates);
    SplitIsOrdered(sorted, |sorted| - |out|);
  }

  /** Cutting a newest-first sequence leaves nothing in the back newer than anything in front. */
  lemma SplitIsOrdered(sorted: seq<Version>, k: nat)
    requires NewestFirst(sorted) && k <= |sorted|
    ensures forall a, b :: a in sorted[..k] && b in sorted[k..] ==> StrLe(b.lastModified, a.lastModified)
  {
  }

  // ---------------------------------------------------------------------------------------
  // update_function_code

  /** `RoutingConfig` of an alias, with its optional `AdditionalVersionWeights`. */
  datatype RoutingConfig = RoutingConfig(additionalVersionWeights: Option<map<string, real>>)

  /** A `get_alias` response. */
  datatype AliasConfig = AliasConfig(functionVersion: string, routingConfig: Option<RoutingConfig>)

  /** The alias no longer splits traffic away from `version`. */
  predicate Converged(config: AliasConfig, version: string)
  {
    || config.functionVersion == version
    || config.routingConfig.None?
    || config.routingConfig.value.additionalVersionWeights.None?
    || |config.routingConfig.value.additionalVersionWeights.value| == 0
  }

  /** Outcome of the `update_alias` call. */
  datatype AliasUpdate = AliasUpdated | AliasNotFound | AliasUpdateFailed(cause: ClientError)

  /** What the service answers during one `update_function_code`. */
  datatype LambdaScript = LambdaScript(
    published: Result<string>,           // version published by update_function_code
    aliasUpdate: AliasUpdate,
    aliasCreate: Option<ClientError>,    // error of create_alias, if any
    provisioning: Option<ClientError>,   // error of put_provisioned_concurrency_config, if any
    aliasPolls: seq<AliasConfig>)        // successive get_alias responses

  /** `if alias:` and `if provision:` test truthiness: None, "" and 0 are false. */
  predicate AliasGiven(alias: Option<string>) { alias.Some? && alias.value != "" }
  predicate ProvisionGiven(provision: Option<int>) { provision.Some? && provision.value != 0 }

  /** The convergence loop has no timeout, so a finite script must end converged. */
  predicate AliasSettles(polls: seq<AliasConfig>, version: string)
  {
    |polls| > 0 && Converged(polls[|polls| - 1], version)
  }

  /** Index of the first converged alias configuration. */
  function FirstConverged(polls: seq<AliasConfig>, version: string): (k: nat)
    requires AliasSettles(polls, version)
    ensures k < |polls| && Converged(polls[k], version)
    ensures forall j :: 0 <= j < k ==> !Converged(polls[j], version)
  {
    if Converged(polls[0], version) then 0
    else 1 + FirstConverged(polls[1..], version)
  }

  /** Whether the alias points at the new version after `update_alias`, or after the
      `create_alias` that a missing alias falls back to. */
  predicate AliasSet(script: LambdaScript)
  {
    script.aliasUpdate.AliasUpdated? || (script.aliasUpdate.AliasNotFound? && script.aliasCreate.None?)
  }

  /** The calls for the alias step up to, but not including, the wait: the alias is always
      updated first; it is created only when the update found no alias; provisioned concurrency
      is configured on the alias, last, exactly when a provision was given and the alias was set. */
  function AliasCalls(functionName: string, alias: string, version: string, script: LambdaScript, provision: Option<int>): (calls: seq<LambdaCall>)
    ensures 1 <= |calls| <= 3 && calls[0] == UpdateAlias(functionName, alias, version)
    ensures CreateAlias(functionName, alias, version) in calls <==> script.aliasUpdate.AliasNotFound?
    ensures (exists c :: c in calls && c.PutProvisionedConcurrencyConfig?) <==> ProvisionGiven(provision) && AliasSet(script)
    ensures ProvisionGiven(provision) && AliasSet(script) ==>
      calls[|calls| - 1] == PutProvisionedConcurrencyConfig(functionName, alias, provision.value)
    ensures forall c :: c in calls ==> !c.GetAlias? && !c.DeleteFunction? && !c.UpdateFunctionCode?
  {
    var aliasing := [UpdateAlias(functionName, alias, version)]
      + (if script.aliasUpdate.AliasNotFound? then [CreateAlias(functionName, alias, version)] else []);
    var put := if ProvisionGiven(provision) && AliasSet(script)
      then [PutProvisionedConcurrencyConfig(functionName, alias, provision.value)] else [];
    assert forall c :: c in aliasing ==> !c.PutProvisionedConcurrencyConfig?;
    assert put != [] ==> put[0] in aliasing + put;
    aliasing + put
  }

  /** `update_function_code`. Returns the calls issued and the number of "Waiting" log lines. */
  method UpdateCode(functionName: string, imageUri: string, alias: Option<string>, provision: Option<int>, script: LambdaScript)
    returns (r: Result<()>, calls: seq<LambdaCall>, waits: nat)
    requires AliasGiven(alias) && script.published.Ok? ==> AliasSettles(script.aliasPolls, script.published.value)
    ensures |calls| > 0 && calls[0] == UpdateFunctionCode(functionName, imageUri)
    ensures script.published.Err? ==> r == Err(script.published.error) && calls == [calls[0]] && waits == 0
    ensures script.published.Ok? && !AliasGiven(alias) ==> r == Ok(()) && calls == [calls[0]] && waits == 0
    ensures script.published.Ok? && AliasGiven(alias) ==>
      var version := script.published.value;
      var setup := AliasCalls(functionName, alias.value, version, script, provision);
      && (script.aliasUpdate.AliasUpdateFailed? ==>
            r == Err(ProviderError(script.aliasUpdate.cause)) && calls == [calls[0]] + setup && waits == 0)
      && (script.aliasUpdate.AliasNotFound? && script.aliasCreate.Some? ==>
            r == Err(ProviderError(script.aliasCreate.value)) && calls == [calls[0]] + setup && waits == 0)
      && (!script.aliasUpdate.AliasUpdateFailed? && !(script.aliasUpdate.AliasNotFound? && script.aliasCreate.Some?)
          && ProvisionGiven(provision) && script.provisioning.Some? ==>
            r == Err(ProviderError(script.provisioning.value)) && calls == [calls[0]] + setup && waits == 0)
      && (!script.aliasUpdate.AliasUpdateFailed? && !(script.aliasUpdate.AliasNotFound? && script.aliasCreate.Some?)
          && !(ProvisionGiven(provision) && script.provisioning.Some?) ==>
            var k := FirstConverged(script.aliasPolls, version);
            && r == Ok(())
            && waits == k
            && calls == [calls[0]] + setup + seq(k + 1, _ => GetAlias(functionName, alias.value)))
  {
    calls := [UpdateFunctionCode(functionName, imageUri)];
    waits := 0;
    if script.published.Err? {
      return Err(script.published.error), calls, 0;
    }
    if !AliasGiven(alias) {
      return Ok(()), calls, 0;
    }
    var version := script.published.value;
    var name := alias.value;
    calls := calls + [UpdateAlias(functionName, name, version)];
    match script.aliasUpdate {
      case AliasUpdateFailed(cause) =>
        return Err(ProviderError(cause)), calls, 0;
      case AliasNotFound =>
        calls := calls + [CreateAlias(functionName, name, version)];
        if script.aliasCreate.Some? {
          return Err(ProviderError(script.aliasCreate.value)), calls, 0;
        }
      case AliasUpdated =>
    }
    if ProvisionGiven(provision) {
      calls := calls + [PutProvisionedConcurrencyConfig(functionName, name, provision.value)];
      if script.provisioning.Some? {
        return Err(ProviderError(script.provisioning.value)), calls, 0;
      }
    }
    var polled;
    polled, waits := WaitForAlias(functionName, name, version, script.aliasPolls);
    calls := calls + polled;
    r := Ok(());
  }

  /** The `while True` loop of `update_function_code`: read the alias until it has converged,
      logging "Waiting" before each sleep. Returns the `get_alias` calls and the waits. */
  method WaitForAlias(functionName: string, name: string, version: string, polls: seq<AliasConfig>)
    returns (calls: seq<LambdaCall>, waits: nat)
    requires AliasSettles(polls, version)
    ensures waits == FirstConverged(polls, version)
    ensures calls == seq(waits + 1, _ => GetAlias(functionName, name))
  {
    calls := [];
    waits := 0;
    var i := 0;
    while true
      invariant i < |polls|
      invariant forall j :: 0 <= j < i ==> !Converged(polls[j], version)
      invariant waits == i
      invariant calls == seq(i, _ => GetAlias(functionName, name))
      decreases |polls| - i
    {
      calls := calls + [GetAlias(functionName, name)];
      if Converged(polls[i], version) {
        break;
      }
      waits := waits + 1;
      i := i + 1;
    }
    FirstConvergedIsLeast(polls, version, i);
  }

  lemma FirstConvergedIsLeast(polls: seq<AliasConfig>, version: string, i: nat)
    requires i < |polls| && AliasSettles(polls, version) && Converged(polls[i], version)
    requires forall j :: 0 <= j < i ==> !Converged(polls[j], version)
    ensures i == FirstConverged(polls, version)
  {
  }
}
