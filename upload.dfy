/**
 * The Upload Client's mock mode (`upload`) and the result collection of the
 * Batch Uploader (`uploadMultiple`), src/utils.ts. The network is not
 * modelled: a real upload's answer is a parameter, and the concurrent batch
 * is a sequential fold over the per-file outcomes.
 */
module Upload {
  import opened Strings

  /** The 64-character alphabet mock skylinks are drawn from. */
  const CSET := "ABCDEFGHIJKLMNOPQRSTUVWXYZabcdefghijklmnopqrstuvwxyz0123456789-_"

  const SKYLINK_LENGTH := 64

  /** What `upload` resolves to: a skylink, or an `Error` value. */
  datatype Outcome = Ok(skylink: string) | Err(message: string)

  /** What the portal did with a real upload request. */
  datatype Answer = Answered(skylink: string) | Threw(cause: string)

  /** A mock skylink: 64 characters, all from the alphabet. */
  predicate MockShaped(s: string) {
    |s| == SKYLINK_LENGTH && forall ch :: ch in s ==> ch in CSET
  }

  /**
   * The mock branch of `upload`: one character of the alphabet per round of
   * the counted loop. `picks[i]` is `Math.floor(Math.random() * cset.length)`
   * in round `i`.
   */
  method MockSkylink(picks: seq<int>) returns (skylink: string)
    requires |picks| == SKYLINK_LENGTH
    requires forall i :: 0 <= i < |picks| ==> 0 <= picks[i] < |CSET|
    ensures MockShaped(skylink)
    ensures forall k :: 0 <= k < |skylink| ==> skylink[k] == CSET[picks[k]]
  {
    skylink := "";
    for i := 0 to SKYLINK_LENGTH
      invariant |skylink| == i
      invariant forall k :: 0 <= k < i ==> skylink[k] == CSET[picks[k]]
    {
      skylink := skylink + [CSET[picks[i]]];
    }
  }

  /**
   * upload: with mock uploads switched on, a fresh mock skylink and no
   * request; otherwise the portal's skylink, or an `Error` carrying the cause.
   */
  method Upload(mockUploads: bool, picks: seq<int>, answer: Answer) returns (r: Outcome)
    requires mockUploads ==> |picks| == SKYLINK_LENGTH && forall i :: 0 <= i < |picks| ==> 0 <= picks[i] < |CSET|
    ensures mockUploads ==> r.Ok? && MockShaped(r.skylink)
    ensures mockUploads ==> forall k :: 0 <= k < |r.skylink| ==> r.skylink[k] == CSET[picks[k]]
    ensures !mockUploads && answer.Answered? ==> r == Ok(answer.skylink)
    ensures !mockUploads && answer.Threw? ==> r == Err("Upload failed, " + answer.cause)
  {
    if mockUploads {
      var skylink := MockSkylink(picks);
      return Ok(skylink);
    }
    match answer
    case Answered(skylink) => r := Ok(skylink);
    case Threw(cause) => r := Err("Upload failed, " + cause);
  }

  // ---------------------------------------------------------------------
  // Batch collection

  /** The valid picks of one mock upload: one alphabet index per round. */
  predicate ValidPicks(picks: seq<int>) {
    |picks| == SKYLINK_LENGTH && forall i :: 0 <= i < |picks| ==> 0 <= picks[i] < |CSET|
  }

  /**
   * The loop of `uploadMultiple` starting one `upload` per file, in mock mode:
   * every file's outcome is a mock skylink.
   */
  method MockUploads(files: seq<string>, picks: seq<seq<int>>) returns (outcomes: seq<Outcome>)
    requires |picks| == |files|
    requires forall i :: 0 <= i < |picks| ==> ValidPicks(picks[i])
    ensures |outcomes| == |files|
    ensures forall i :: 0 <= i < |outcomes| ==> outcomes[i].Ok? && MockShaped(outcomes[i].skylink)
  {
    outcomes := [];
    for i := 0 to |files|
      invariant |outcomes| == i
      invariant forall k :: 0 <= k < i ==> outcomes[k].Ok? && MockShaped(outcomes[k].skylink)
    {
      var r := Upload(true, picks[i], Threw(""));
      outcomes := outcomes + [r];
    }
  }

  /** What `uploadMultiple` resolves to: the skylink map, or an `Error`. */
  datatype Batch = Collected(skylinks: map<string, string>) | Failed(message: string)

  /** The map after inserting `file -> skylink` for each success, in order; failures insert nothing. */
  function Collect(files: seq<string>, outcomes: seq<Outcome>): map<string, string>
    requires |files| == |outcomes|
    decreases |files|
  {
    if files == [] then map[]
    else
      var n := |files| - 1;
      var m := Collect(files[..n], outcomes[..n]);
      if outcomes[n].Ok? then m[files[n] := outcomes[n].skylink] else m
  }

  /**
   * A file is a key exactly when one of its uploads succeeded, and the value
   * it maps to is what one of its uploads returned.
   */
  lemma {:induction false} CollectKeys(files: seq<string>, outcomes: seq<Outcome>)
    requires |files| == |outcomes|
    ensures forall f :: f in Collect(files, outcomes) <==>
      exists i :: 0 <= i < |files| && files[i] == f && outcomes[i].Ok?
    ensures forall f :: f in Collect(files, outcomes) ==>
      exists i :: 0 <= i < |files| && files[i] == f && outcomes[i] == Ok(Collect(files, outcomes)[f])
    decreases |files|
  {
    if files != [] {
      var n := |files| - 1;
      var pf, po := files[..n], outcomes[..n];
      CollectKeys(pf, po);
      forall f ensures f in Collect(files, outcomes) <==>
        exists i :: 0 <= i < |files| && files[i] == f && outcomes[i].Ok?
      {
        if exists i :: 0 <= i < |files| && files[i] == f && outcomes[i].Ok? {
          var i :| 0 <= i < |files| && files[i] == f && outcomes[i].Ok?;
          if i < n { assert pf[i] == f && po[i].Ok?; }
        }
        if f in Collect(pf, po) {
          var i :| 0 <= i < n && pf[i] == f && po[i].Ok?;
          assert files[i] == f && outcomes[i].Ok?;
        }
      }
      forall f | f in Collect(files, outcomes)
        ensures exists i :: 0 <= i < |files| && files[i] == f && outcomes[i] == Ok(Collect(files, outcomes)[f])
      {
        if !(outcomes[n].Ok? && f == files[n]) {
          var i :| 0 <= i < n && pf[i] == f && po[i] == Ok(Collect(pf, po)[f]);
          assert files[i] == f && outcomes[i] == po[i];
        }
      }
    }
  }

  /**
   * In mock mode every upload answers with a mock skylink, so every file is a
   * key and maps to a mock-shaped skylink.
   */
  lemma MockBatchShaped(files: seq<string>, outcomes: seq<Outcome>)
    requires |files| == |outcomes|
    requires forall i :: 0 <= i < |outcomes| ==> outcomes[i].Ok? && MockShaped(outcomes[i].skylink)
    ensures forall f :: f in files ==> f in Collect(files, outcomes) && MockShaped(Collect(files, outcomes)[f])
  {
    CollectKeys(files, outcomes);
    forall f | f in files ensures f in Collect(files, outcomes) && MockShaped(Collect(files, outcomes)[f]) {
      var i :| 0 <= i < |files| && files[i] == f;
      assert outcomes[i].Ok?;
      var j :| 0 <= j < |files| && files[j] == f && outcomes[j] == Ok(Collect(files, outcomes)[f]);
      assert MockShaped(outcomes[j].skylink);
    }
  }

  /** With distinct paths, every success is in the map with exactly its skylink. */
  lemma {:induction false} CollectExact(files: seq<string>, outcomes: seq<Outcome>, i: nat)
    requires |files| == |outcomes| && NoDuplicates(files)
    requires i < |files| && outcomes[i].Ok?
    ensures files[i] in Collect(files, outcomes)
    ensures Collect(files, outcomes)[files[i]] == outcomes[i].skylink
    decreases |files|
  {
    var n := |files| - 1;
    if i < n {
      var pf, po := files[..n], outcomes[..n];
      assert pf[i] == files[i] && po[i] == outcomes[i];
      CollectExact(pf, po, i);
      assert files[n] != files[i];
    }
  }

  /** When every upload of N distinct paths succeeds, the map has exactly N entries, one per path. */
  lemma {:induction false} AllSucceeded(files: seq<string>, outcomes: seq<Outcome>)
    requires |files| == |outcomes| && NoDuplicates(files)
    requires forall i :: 0 <= i < |outcomes| ==> outcomes[i].Ok?
    ensures forall f :: f in Collect(files, outcomes) <==> f in files
    ensures |Collect(files, outcomes)| == |files|
    decreases |files|
  {
    if files != [] {
      var n := |files| - 1;
      var pf, po := files[..n], outcomes[..n];
      AllSucceeded(pf, po);
      var m := Collect(pf, po);
      assert files == pf + [files[n]];
      assert files[n] !in m;
      assert Collect(files, outcomes).Keys == m.Keys + {files[n]};
    }
  }

  /**
   * uploadMultiple as written: one upload per file, each success inserted
   * into the map. The `Error` built in the `catch` of `Promise.all` is
   * discarded, so the (possibly partial) map is always returned.
   */
  method UploadMultiple(files: seq<string>, outcomes: seq<Outcome>) returns (r: Batch)
    requires |files| == |outcomes|
    ensures r.Collected?
    ensures r.skylinks == Collect(files, outcomes)
    ensures files == [] ==> r.skylinks == map[]
  {
    var skylinks: map<string, string> := map[];
    for i := 0 to |files|
      invariant skylinks == Collect(files[..i], outcomes[..i])
    {
      assert files[..i + 1][..i] == files[..i] && outcomes[..i + 1][..i] == outcomes[..i];
      if outcomes[i].Ok? {
        skylinks := skylinks[files[i] := outcomes[i].skylink];
      }
    }
    assert files[..|files|] == files && outcomes[..|outcomes|] == outcomes;
    r := Collected(skylinks);
  }

  /** A failing batch: the map as written keeps the success and leaves the failed path out. */
  lemma FailureYieldsPartialMap()
    ensures Collect(["a", "b"], [Ok("x"), Err("Upload failed, e")]) == map["a" := "x"]
  {
    assert ["a", "b"][..1] == ["a"];
    assert [Ok("x"), Err("Upload failed, e")][..1] == [Ok("x")];
  }

  // ---------------------------------------------------------------------
  // All-or-nothing collection

  /** The index of the first failed outcome, or the length when all succeeded. */
  function FirstFailure(outcomes: seq<Outcome>): (k: nat)
    ensures k <= |outcomes|
    ensures forall i :: 0 <= i < k ==> outcomes[i].Ok?
    ensures k < |outcomes| ==> outcomes[k].Err?
  {
    if outcomes == [] then 0
    else if outcomes[0].Err? then 0
    else 1 + FirstFailure(outcomes[1..])
  }

  /**
   * The batch `init` expects (src/index.ts:31-35, where an `Error` result
   * stops the run before anything is rendered): every upload is attempted,
   * and the map is returned only when all of them succeeded; otherwise the
   * first failure's message is returned and the partial map is dropped.
   */
  function UploadAll(files: seq<string>, outcomes: seq<Outcome>): (r: Batch)
    requires |files| == |outcomes|
    ensures r.Failed? <==> exists i :: 0 <= i < |outcomes| && outcomes[i].Err?
    ensures r.Failed? ==> exists i :: 0 <= i < |outcomes| && outcomes[i] == Err(r.message)
    ensures r.Collected? ==> forall f :: f in r.skylinks <==> f in files
    ensures r.Collected? ==> forall i :: 0 <= i < |files| ==> r.skylinks[files[i]] in ReturnedFor(files, outcomes, files[i])
  {
    var k := FirstFailure(outcomes);
    if k < |outcomes| then Failed(outcomes[k].message)
    else
      CollectKeys(files, outcomes);
      Collected(Collect(files, outcomes))
  }

  /** The skylinks the uploads of `f` returned. */
  ghost function ReturnedFor(files: seq<string>, outcomes: seq<Outcome>, f: string): set<string>
    requires |files| == |outcomes|
  {
    set i | 0 <= i < |files| && files[i] == f && outcomes[i].Ok? :: outcomes[i].skylink
  }

  /** The same failing batch makes the all-or-nothing collection report the failure. */
  lemma FailureIsReported()
    ensures UploadAll(["a", "b"], [Ok("x"), Err("Upload failed, e")]) == Failed("Upload failed, e")
  {
    var o := [Ok("x"), Err("Upload failed, e")];
    assert o[1..][0].Err?;
    assert FirstFailure(o) == 1;
  }
}
