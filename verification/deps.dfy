/**
 * The batch-resolution combinator of the `Resolver` interface: resolve each
 * declaration in order, stopping at the first failure. The single-spec
 * `resolve` is a parameter: its behaviour belongs to the concrete resolvers.
 */
module Deps {
  import opened Wrappers
  import opened Types
  import Errors

  /** A single-spec resolver, seen only through its results. */
  type Resolve = DependencySpec -> Result<ResolvedDependency, Errors.CoreError>

  /** `k` is the first position whose spec fails to resolve. */
  predicate IsFirstFailure(resolve: Resolve, specs: seq<DependencySpec>, k: int) {
    && 0 <= k < |specs|
    && resolve(specs[k]).Err?
    && forall j :: 0 <= j < k ==> resolve(specs[j]).Ok?
  }

  /**
   * Reference definition of batch resolution: all results in input order
   * when every spec resolves, otherwise the error of the first failing spec.
   */
  function ResolveAll(resolve: Resolve, specs: seq<DependencySpec>): (r: Result<seq<ResolvedDependency>, Errors.CoreError>)
    ensures r.Ok? <==> forall i :: 0 <= i < |specs| ==> resolve(specs[i]).Ok?
    ensures r.Ok? ==> |r.value| == |specs|
    ensures r.Ok? ==> forall i :: 0 <= i < |specs| ==> r.value[i] == resolve(specs[i]).value
    ensures r.Err? ==> exists k :: IsFirstFailure(resolve, specs, k) && r.error == resolve(specs[k]).error
  {
    if specs == [] then Ok([])
    else
      match resolve(specs[0])
      case Err(e) =>
        assert IsFirstFailure(resolve, specs, 0);
        Err(e)
      case Ok(first) =>
        var rest := ResolveAll(resolve, specs[1..]);
        assert forall i :: 1 <= i < |specs| ==> specs[i] == specs[1..][i - 1];
        match rest
        case Err(e) =>
          var k :| IsFirstFailure(resolve, specs[1..], k) && e == resolve(specs[1..][k]).error;
          assert IsFirstFailure(resolve, specs, k + 1);
          Err(e)
        case Ok(tail) => Ok([first] + tail)
  }

  /** The first failure, when there is one, is unique. */
  lemma FirstFailureUnique(resolve: Resolve, specs: seq<DependencySpec>, k: int, k': int)
    requires IsFirstFailure(resolve, specs, k) && IsFirstFailure(resolve, specs, k')
    ensures k == k'
  {
  }

  /**
   * `Resolver::resolve_many` (default method): push each result in order and
   * return at the first error. `attempts` counts the calls made to `resolve`:
   * on failure no spec after the failing one is resolved.
   */
  method ResolveMany(resolve: Resolve, specs: seq<DependencySpec>)
    returns (r: Result<seq<ResolvedDependency>, Errors.CoreError>, attempts: nat)
    ensures r == ResolveAll(resolve, specs)
    ensures r.Ok? ==> attempts == |specs|
    ensures r.Err? ==> IsFirstFailure(resolve, specs, attempts - 1)
    ensures r.Err? ==> r.error == resolve(specs[attempts - 1]).error
    ensures specs == [] ==> r == Ok([]) && attempts == 0
  {
    var out: seq<ResolvedDependency> := [];
    attempts := 0;
    var i := 0;
    while i < |specs|
      invariant 0 <= i <= |specs|
      invariant attempts == i
      invariant |out| == i
      invariant forall j :: 0 <= j < i ==> resolve(specs[j]).Ok? && out[j] == resolve(specs[j]).value
    {
      var res := resolve(specs[i]);
      attempts := attempts + 1;
      match res {
        case Err(e) =>
          assert IsFirstFailure(resolve, specs, i);
          ResolveAllFailsAtFirstFailure(resolve, specs, i);
          return Err(e), attempts;
        case Ok(v) =>
          out := out + [v];
      }
      i := i + 1;
    }
    var reference := ResolveAll(resolve, specs);
    assert reference.Ok?;
    assert reference.value == out;
    return Ok(out), attempts;
  }

  /** The reference fails with exactly the first failure's error. */
  lemma ResolveAllFailsAtFirstFailure(resolve: Resolve, specs: seq<DependencySpec>, k: int)
    requires IsFirstFailure(resolve, specs, k)
    ensures ResolveAll(resolve, specs) == Err(resolve(specs[k]).error)
  {
    var r := ResolveAll(resolve, specs);
    assert r.Err?;
    var k' :| IsFirstFailure(resolve, specs, k') && r.error == resolve(specs[k']).error;
    FirstFailureUnique(resolve, specs, k, k');
  }
}
