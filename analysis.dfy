/**
 * The detection step of the picking robot: the detection service's parsed reply is
 * filtered down to confident tomato detections, and each of them becomes a target
 * record carrying the centre of its bounding box.
 *
 * The HTTP round trip that produces the reply is not modelled; the reply is an input.
 */
module Analysis {
  import opened Wrappers

  /** One entry of the reply's `results` list. A key the entry lacks is `None`. */
  datatype DetectedObject = DetectedObject(name: Option<string>, score: Option<real>, bbox: seq<int>)

  /**
   * The reply body. `results` is `None` when the key is absent; an empty body is
   * falsy and has no keys, so it is `Response(None)` as well.
   */
  datatype Response = Response(results: Option<seq<DetectedObject>>)

  /** One output record: the centre `(x, y)` of the box, the box itself and the score. */
  datatype Target = Target(x: real, y: real, bbox: seq<int>, score: real)

  const TargetLabel: string := "tomato"
  const ScoreThreshold: real := 0.7

  /** The entry's score, with a missing score read as 0. */
  function ScoreOrZero(o: DetectedObject): (s: real) {
    o.score.GetOr(0.0)
  }

  /** The filter: a tomato scoring strictly above the threshold. */
  predicate Qualifies(o: DetectedObject) {
    o.name == Some(TargetLabel) && ScoreOrZero(o) > ScoreThreshold
  }

  /** Only entries that pass the filter have their box read, so only they need four numbers. */
  predicate BoxesPresent(objs: seq<DetectedObject>) {
    forall i :: 0 <= i < |objs| && Qualifies(objs[i]) ==> |objs[i].bbox| >= 4
  }

  /** What the reply must satisfy for the filter to read it without failing. */
  predicate ReadableReply(response: Option<Response>) {
    response.Some? && response.value.results.Some? ==> BoxesPresent(response.value.results.value)
  }

  /** The centre of the interval between two pixel coordinates, in exact arithmetic. */
  function Midpoint(a: int, b: int): (m: real)
    ensures m - a as real == b as real - m
    ensures a <= b ==> a as real <= m <= b as real
    ensures b <= a ==> b as real <= m <= a as real
  {
    (a + b) as real / 2.0
  }

  /** The record emitted for one qualifying entry. */
  function ToTarget(o: DetectedObject): (t: Target)
    requires Qualifies(o) && |o.bbox| >= 4
    ensures t.bbox == o.bbox && o.score == Some(t.score)
    ensures t.score > ScoreThreshold
    ensures t.x - o.bbox[0] as real == o.bbox[2] as real - t.x
    ensures t.y - o.bbox[1] as real == o.bbox[3] as real - t.y
    ensures Between(o.bbox[0], t.x, o.bbox[2]) && Between(o.bbox[1], t.y, o.bbox[3])
  {
    Target(Midpoint(o.bbox[0], o.bbox[2]), Midpoint(o.bbox[1], o.bbox[3]), o.bbox, o.score.value)
  }

  /** `m` lies on the closed interval spanned by `a` and `b`, whichever is smaller. */
  predicate Between(a: int, m: real, b: int) {
    (a as real <= m <= b as real) || (b as real <= m <= a as real)
  }

  /**
   * The specification of the filter: the records for `objs`, built the way the loop
   * builds them, by appending the record of each qualifying entry in turn.
   */
  function Targets(objs: seq<DetectedObject>): (r: seq<Target>)
    requires BoxesPresent(objs)
    ensures |r| <= |objs|
  {
    if objs == [] then []
    else
      var n := |objs| - 1;
      assert BoxesPresent(objs[..n]) by {
        forall i | 0 <= i < n && Qualifies(objs[..n][i]) ensures |objs[..n][i].bbox| >= 4 {
          assert objs[..n][i] == objs[i];
        }
      }
      Targets(objs[..n]) + (if Qualifies(objs[n]) then [ToTarget(objs[n])] else [])
  }

  /**
   * The positions of the qualifying entries of `objs`, in increasing order: every
   * position listed qualifies, and every qualifying position is listed.
   */
  ghost function QualifyingIndices(objs: seq<DetectedObject>): (idx: seq<nat>)
    ensures forall k :: 0 <= k < |idx| ==> idx[k] < |objs| && Qualifies(objs[idx[k]])
    ensures forall k, l :: 0 <= k < l < |idx| ==> idx[k] < idx[l]
    ensures forall i :: 0 <= i < |objs| && Qualifies(objs[i]) ==> i in idx
  {
    if objs == [] then []
    else
      var n := |objs| - 1;
      var prefix := QualifyingIndices(objs[..n]);
      assert forall k :: 0 <= k < |prefix| ==> objs[..n][prefix[k]] == objs[prefix[k]];
      assert forall i :: 0 <= i < n ==> objs[..n][i] == objs[i];
      prefix + (if Qualifies(objs[n]) then [n] else [])
  }

  /**
   * The loop of analyze_frame: walk `results` in order and append the record of each
   * qualifying entry. A missing reply or a reply without `results` gives no records.
   */
  method AnalyzeFrame(response: Option<Response>) returns (coords: seq<Target>)
    requires ReadableReply(response)
    ensures response.None? || response.value.results.None? ==> coords == []
    ensures response.Some? && response.value.results.Some? ==> coords == Targets(response.value.results.value)
  {
    if response.None? || response.value.results.None? {
      return [];
    }
    var objs := response.value.results.value;
    coords := [];
    var i := 0;
    while i < |objs|
      invariant 0 <= i <= |objs|
      invariant BoxesPresent(objs[..i])
      invariant coords == Targets(objs[..i])
    {
      var obj := objs[i];
      if obj.name == Some(TargetLabel) && obj.score.GetOr(0.0) > ScoreThreshold {
        var bbox := obj.bbox;
        var x := (bbox[0] + bbox[2]) as real / 2.0;
        var y := (bbox[1] + bbox[3]) as real / 2.0;
        coords := coords + [Target(x, y, bbox, obj.score.value)];
      }
      assert objs[..i + 1][..i] == objs[..i];
      i := i + 1;
    }
    assert objs[..|objs|] == objs;
  }

  /**
   * The records are exactly the images of the qualifying entries, one per qualifying
   * entry and in the entries' order.
   */
  lemma {:induction false} TargetsFollowQualifyingIndices(objs: seq<DetectedObject>)
    requires BoxesPresent(objs)
    ensures |Targets(objs)| == |QualifyingIndices(objs)|
    ensures forall k :: 0 <= k < |Targets(objs)| ==>
              Targets(objs)[k] == ToTarget(objs[QualifyingIndices(objs)[k]])
  {
    if objs != [] {
      var n := |objs| - 1;
      var prefix := objs[..n];
      assert BoxesPresent(prefix) by {
        forall i | 0 <= i < n && Qualifies(prefix[i]) ensures |prefix[i].bbox| >= 4 {
          assert prefix[i] == objs[i];
        }
      }
      TargetsFollowQualifyingIndices(prefix);
      forall k | 0 <= k < |Targets(prefix)|
        ensures Targets(prefix)[k] == ToTarget(objs[QualifyingIndices(prefix)[k]])
      {
        assert prefix[QualifyingIndices(prefix)[k]] == objs[QualifyingIndices(prefix)[k]];
      }
    }
  }

  /** Every record comes from some qualifying entry of the input. */
  lemma {:induction false} TargetComesFromQualifyingObject(objs: seq<DetectedObject>, k: nat)
    requires BoxesPresent(objs)
    requires k < |Targets(objs)|
    ensures exists i :: 0 <= i < |objs| && Qualifies(objs[i]) && Targets(objs)[k] == ToTarget(objs[i])
  {
    TargetsFollowQualifyingIndices(objs);
    var i := QualifyingIndices(objs)[k];
    assert Targets(objs)[k] == ToTarget(objs[i]);
  }

  /**
   * Every qualifying entry yields a record, and at exactly one position of the output:
   * no other position of the output comes from the same entry.
   */
  lemma QualifyingObjectYieldsOneTarget(objs: seq<DetectedObject>, i: nat)
    requires BoxesPresent(objs)
    requires i < |objs| && Qualifies(objs[i])
    ensures |Targets(objs)| == |QualifyingIndices(objs)|
    ensures exists k :: 0 <= k < |QualifyingIndices(objs)| && k < |Targets(objs)|
                        && QualifyingIndices(objs)[k] == i
                        && Targets(objs)[k] == ToTarget(objs[i])
                        && forall l :: 0 <= l < |QualifyingIndices(objs)| && l != k ==> QualifyingIndices(objs)[l] != i
  {
    TargetsFollowQualifyingIndices(objs);
    var idx := QualifyingIndices(objs);
    assert i in idx;
    var k :| 0 <= k < |idx| && idx[k] == i;
    assert Targets(objs)[k] == ToTarget(objs[i]);
    assert forall l :: 0 <= l < |idx| && l != k ==> idx[l] != i by {
      forall l | 0 <= l < |idx| && l != k ensures idx[l] != i {
        if l < k { assert idx[l] < idx[k]; } else { assert idx[k] < idx[l]; }
      }
    }
  }

  /** The output keeps the input's order: earlier records come from earlier qualifying entries. */
  lemma TargetsKeepInputOrder(objs: seq<DetectedObject>, k: nat, l: nat)
    requires BoxesPresent(objs)
    requires k < l < |Targets(objs)|
    ensures exists i, j :: 0 <= i < j < |objs| && Qualifies(objs[i]) && Qualifies(objs[j])
                           && Targets(objs)[k] == ToTarget(objs[i])
                           && Targets(objs)[l] == ToTarget(objs[j])
  {
    TargetsFollowQualifyingIndices(objs);
    var idx := QualifyingIndices(objs);
    assert Targets(objs)[k] == ToTarget(objs[idx[k]]);
    assert Targets(objs)[l] == ToTarget(objs[idx[l]]);
  }

  /** The records of two consecutive slices of `results` are the records of each, concatenated. */
  lemma {:induction false} TargetsAppend(a: seq<DetectedObject>, b: seq<DetectedObject>)
    requires BoxesPresent(a + b)
    ensures BoxesPresent(a) && BoxesPresent(b)
    ensures Targets(a + b) == Targets(a) + Targets(b)
  {
    assert forall i :: 0 <= i < |a| ==> (a + b)[i] == a[i];
    assert forall i :: 0 <= i < |b| ==> (a + b)[|a| + i] == b[i];
    if b != [] {
      var n := |b| - 1;
      assert (a + b)[..|a| + n] == a + b[..n];
      assert BoxesPresent(a + b[..n]) by {
        forall i | 0 <= i < |a| + n && Qualifies((a + b[..n])[i])
          ensures |(a + b[..n])[i].bbox| >= 4
        {
          assert (a + b[..n])[i] == (a + b)[i];
        }
      }
      TargetsAppend(a, b[..n]);
    } else {
      assert a + b == a;
    }
  }

  /** An entry that fails the filter leaves the output unchanged, wherever it stands. */
  lemma NonQualifyingIgnored(pre: seq<DetectedObject>, o: DetectedObject, post: seq<DetectedObject>)
    requires BoxesPresent(pre + post)
    requires !Qualifies(o)
    ensures BoxesPresent(pre + [o] + post)
    ensures Targets(pre + [o] + post) == Targets(pre + post)
  {
    assert forall i :: 0 <= i < |pre| ==> (pre + post)[i] == pre[i];
    assert forall i :: 0 <= i < |post| ==> (pre + post)[|pre| + i] == post[i];
    assert BoxesPresent(pre) && BoxesPresent(post);
    assert BoxesPresent(pre + [o] + post) by {
      forall i | 0 <= i < |pre + [o] + post| && Qualifies((pre + [o] + post)[i])
        ensures |(pre + [o] + post)[i].bbox| >= 4
      {
        if i < |pre| {
          assert (pre + [o] + post)[i] == pre[i];
        } else if i > |pre| {
          assert (pre + [o] + post)[i] == post[i - |pre| - 1];
        }
      }
    }
    TargetsAppend(pre + [o], post);
    TargetsAppend(pre, [o]);
    TargetsAppend(pre, post);
    assert [o][..0] == [];
  }

  /**
   * The threshold is strict and a missing score counts as 0: an entry scoring exactly
   * 0.7, or carrying no score, is dropped even when it is a tomato.
   */
  lemma ThresholdIsStrict(pre: seq<DetectedObject>, o: DetectedObject, post: seq<DetectedObject>)
    requires BoxesPresent(pre + post)
    requires o.score == Some(ScoreThreshold) || o.score == None
    ensures BoxesPresent(pre + [o] + post)
    ensures Targets(pre + [o] + post) == Targets(pre + post)
  {
    NonQualifyingIgnored(pre, o, post);
  }

  /** Anything other than a tomato is dropped, whatever its score. */
  lemma OtherLabelsIgnored(pre: seq<DetectedObject>, o: DetectedObject, post: seq<DetectedObject>)
    requires BoxesPresent(pre + post)
    requires o.name != Some(TargetLabel)
    ensures BoxesPresent(pre + [o] + post)
    ensures Targets(pre + [o] + post) == Targets(pre + post)
  {
    NonQualifyingIgnored(pre, o, post);
  }
}
