/**
 * The patch phase of `update_item_of_types`: one `patch_item` call per
 * payload, in list order, inside a single `try`. The first
 * `APIException` is logged and ends the phase, so the remaining payloads
 * are never sent.
 */
module PatchExecution {
  import opened Wrappers
  import opened PatchPayloads

  /**
   * `jama_client.patch_item` for the call with the given ordinal (0 for
   * the first call): true when it returns, false when it raises
   * `APIException`.
   */
  type PatchOracle = (nat, Patch) -> bool

  /** The calls made, in order, and the position of the one that raised, if any. */
  datatype PatchReport = PatchReport(issued: seq<Patch>, failedAt: Option<nat>)

  /** The first position at or after `from` whose patch is rejected, or `|patches|`. */
  function FirstRejected(patches: seq<Patch>, accepts: PatchOracle, from: nat): (k: nat)
    requires from <= |patches|
    ensures from <= k <= |patches|
    ensures forall j :: from <= j < k ==> accepts(j, patches[j])
    ensures k < |patches| ==> !accepts(k, patches[k])
    decreases |patches| - from
  {
    if from == |patches| || !accepts(from, patches[from]) then from
    else FirstRejected(patches, accepts, from + 1)
  }

  /** Fail-fast execution: everything up to and including the first rejected patch is sent. */
  function FailFastReport(patches: seq<Patch>, accepts: PatchOracle): (r: PatchReport)
    ensures r.issued <= patches
    ensures r.failedAt.None? <==> forall k :: 0 <= k < |patches| ==> accepts(k, patches[k])
    ensures r.failedAt.None? ==> r.issued == patches
    ensures r.failedAt.Some? ==>
              var k := r.failedAt.value;
              && k < |patches| && |r.issued| == k + 1
              && !accepts(k, patches[k])
              && forall j :: 0 <= j < k ==> accepts(j, patches[j])
  {
    var k := FirstRejected(patches, accepts, 0);
    if k == |patches| then PatchReport(patches, None) else PatchReport(patches[..k + 1], Some(k))
  }

  /**
   * Lines 75-81 of the script. Patches are sent in list order; when the
   * k-th one raises, the ones after it are not sent; an empty list sends
   * nothing.
   */
  method ExecutePatches(patches: seq<Patch>, accepts: PatchOracle) returns (report: PatchReport)
    ensures report == FailFastReport(patches, accepts)
    ensures report.issued <= patches
    ensures report.failedAt.None? <==> forall k :: 0 <= k < |patches| ==> accepts(k, patches[k])
    ensures report.failedAt.None? ==> report.issued == patches
    ensures report.failedAt.Some? ==>
              var k := report.failedAt.value;
              && k < |patches| && |report.issued| == k + 1
              && !accepts(k, patches[k])
              && forall j :: 0 <= j < k ==> accepts(j, patches[j])
  {
    var issued: seq<Patch> := [];
    var failedAt: Option<nat> := None;
    if |patches| > 0 {
      var i := 0;
      while i < |patches|
        invariant 0 <= i <= |patches|
        invariant issued == patches[..i]
        invariant forall j :: 0 <= j < i ==> accepts(j, patches[j])
      {
        issued := issued + [patches[i]];
        if !accepts(i, patches[i]) {
          failedAt := Some(i);
          break;
        }
        i := i + 1;
      }
    }
    report := PatchReport(issued, failedAt);
  }
}
