/**
 * The handler's loop over the listed buckets: each bucket is classified and,
 * when flagged public, a finding with its name, its reasons and the clock
 * reading is appended to the findings list. A bucket whose PAB lookup fails
 * adds nothing; an exception that is not a client error ends the whole loop
 * and discards the findings gathered so far.
 */
module Audit {
  import opened Inputs
  import opened Classifier

  /** One entry of `public_buckets`: `BucketName`, `Reasons` and `Timestamp`. */
  datatype Finding = Finding(bucketName: string, reasons: seq<Reason>, timestamp: string)

  /** How the loop ends: with the findings list, or by the escaping exception. */
  datatype RunOutcome = Completed(findings: seq<Finding>) | RunFailed

  /** The bucket was assessed and flagged public. */
  predicate Flagged(o: Observation)
  {
    Classify(o).Assessed? && Classify(o).isPublic
  }

  function FindingOf(o: Observation): (f: Finding)
    requires Flagged(o)
  {
    Finding(o.name, Classify(o).reasons, o.clock)
  }

  /** The findings for a bucket listing, in listing order. */
  function Findings(bs: seq<Observation>): (fs: seq<Finding>)
  {
    if bs == [] then []
    else
      var last := bs[|bs| - 1];
      Findings(bs[..|bs| - 1]) + (if Flagged(last) then [FindingOf(last)] else [])
  }

  /** The positions of the flagged buckets in the listing. */
  function PublicIndices(bs: seq<Observation>): (ks: seq<nat>)
  {
    if bs == [] then []
    else PublicIndices(bs[..|bs| - 1]) + (if Flagged(bs[|bs| - 1]) then [|bs| - 1] else [])
  }

  predicate AbortsRun(o: Observation)
  {
    Classify(o) == Aborted
  }

  predicate AnyAborts(bs: seq<Observation>)
  {
    exists i :: 0 <= i < |bs| && AbortsRun(bs[i])
  }

  /** The loop's outcome: failed when any bucket aborts, else the findings. */
  function AuditOutcome(bs: seq<Observation>): (outcome: RunOutcome)
  {
    if AnyAborts(bs) then RunFailed else Completed(Findings(bs))
  }

  /** The body of `for bucket in buckets`, with `public_buckets` as the accumulator. */
  method RunAudit(buckets: seq<Observation>) returns (outcome: RunOutcome)
    ensures outcome == AuditOutcome(buckets)
  {
    var publicBuckets: seq<Finding> := [];
    var i := 0;
    while i < |buckets|
      invariant 0 <= i <= |buckets|
      invariant publicBuckets == Findings(buckets[..i])
      invariant !AnyAborts(buckets[..i])
    {
      var bucket := buckets[i];
      var v := AssessBucket(bucket);
      if v.Aborted? {
        return RunFailed;
      }
      if v.Assessed? && v.isPublic {
        publicBuckets := publicBuckets + [Finding(bucket.name, v.reasons, bucket.clock)];
      }
      assert buckets[..i + 1][..i] == buckets[..i];
      i := i + 1;
    }
    assert buckets[..i] == buckets;
    outcome := Completed(publicBuckets);
  }

  /** The findings of two consecutive runs of the listing are concatenated. */
  lemma {:induction false} FindingsAppend(a: seq<Observation>, b: seq<Observation>)
    ensures Findings(a + b) == Findings(a) + Findings(b)
    decreases |b|
  {
    if b == [] {
      assert a + b == a;
    } else {
      assert (a + b)[..|a + b| - 1] == a + b[..|b| - 1];
      FindingsAppend(a, b[..|b| - 1]);
    }
  }

  /** There is one finding per flagged bucket, in listing order, holding that
      bucket's name, reasons and clock reading; no other bucket has one. */
  lemma {:induction false} FindingsArePublicBuckets(bs: seq<Observation>)
    ensures |Findings(bs)| == |PublicIndices(bs)|
    ensures forall j :: 0 <= j < |PublicIndices(bs)| ==>
      PublicIndices(bs)[j] < |bs| && Flagged(bs[PublicIndices(bs)[j]]) &&
      Findings(bs)[j] == FindingOf(bs[PublicIndices(bs)[j]])
    ensures forall j1, j2 :: 0 <= j1 < j2 < |PublicIndices(bs)| ==>
      PublicIndices(bs)[j1] < PublicIndices(bs)[j2]
    ensures forall k :: 0 <= k < |bs| ==> (Flagged(bs[k]) <==> k in PublicIndices(bs))
  {
    if bs != [] {
      var init := bs[..|bs| - 1];
      FindingsArePublicBuckets(init);
      assert forall k :: 0 <= k < |init| ==> init[k] == bs[k];
      forall k | 0 <= k < |bs| ensures Flagged(bs[k]) <==> k in PublicIndices(bs) {
        if k < |init| {
          assert init[k] == bs[k];
        }
      }
    }
  }

  /** Every finding has between one and three reasons, in check order. */
  lemma FindingsHaveReasons(bs: seq<Observation>)
    ensures forall f :: f in Findings(bs) ==> 1 <= |f.reasons| <= 3
    ensures forall f, i, j :: f in Findings(bs) && 0 <= i < j < |f.reasons| ==>
      CheckOf(f.reasons[i]) < CheckOf(f.reasons[j])
  {
    FindingsArePublicBuckets(bs);
    forall f | f in Findings(bs)
      ensures 1 <= |f.reasons| <= 3
      ensures forall i, j :: 0 <= i < j < |f.reasons| ==> CheckOf(f.reasons[i]) < CheckOf(f.reasons[j])
    {
      var j :| 0 <= j < |Findings(bs)| && Findings(bs)[j] == f;
      var o := bs[PublicIndices(bs)[j]];
      PublicIffReasons(o);
      ReasonsInCheckOrder(o);
    }
  }

  /** Some bucket of `a + b` aborts exactly when one of `a` or one of `b` does. */
  lemma AnyAbortsAppend(a: seq<Observation>, b: seq<Observation>)
    ensures AnyAborts(a + b) <==> AnyAborts(a) || AnyAborts(b)
  {
    var s := a + b;
    if AnyAborts(s) {
      var i :| 0 <= i < |s| && AbortsRun(s[i]);
      if i < |a| { assert a[i] == s[i]; } else { assert b[i - |a|] == s[i]; }
    }
    if AnyAborts(a) {
      var i :| 0 <= i < |a| && AbortsRun(a[i]);
      assert s[i] == a[i];
    }
    if AnyAborts(b) {
      var i :| 0 <= i < |b| && AbortsRun(b[i]);
      assert s[|a| + i] == b[i];
    }
  }

  /** A bucket whose PAB lookup fails leaves the outcome as if it were not listed. */
  lemma SkippedBucketOmitted(a: seq<Observation>, o: Observation, b: seq<Observation>)
    requires o.pab.PabLookupFailed?
    ensures AuditOutcome(a + [o] + b) == AuditOutcome(a + b)
  {
    FindingsAppend(a, [o]);
    FindingsAppend(a + [o], b);
    FindingsAppend(a, b);
    assert Findings([o]) == Findings([]) + [];
    AnyAbortsAppend(a, [o]);
    AnyAbortsAppend(a + [o], b);
    AnyAbortsAppend(a, b);
    assert !AnyAborts([o]);
  }

  /** One bucket on which a lookup or a check raises an exception that is not
      a client error fails the run, whatever was found before or after it. */
  lemma AbortDiscardsFindings(a: seq<Observation>, o: Observation, b: seq<Observation>)
    requires AbortsRun(o)
    ensures AuditOutcome(a + [o] + b) == RunFailed
  {
    assert (a + [o] + b)[|a|] == o;
  }
}
