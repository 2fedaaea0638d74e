/** Ranking of SHAP explanations and global feature importances (app/ml/explainer.py).
    The SHAP computation itself is foreign code: what it returns for the (single) feature
    row enters as a parameter, `None` standing for a call that raised. */
module Explainer {
  import opened Wrappers
  import opened Arith
  import opened Seqs
  import opened Ranking
  import opened Schemas

  /** A `GripExplainer`; `ready` is false when constructing the tree explainer failed and
      `self.explainer` was left as None. */
  datatype GripExplainer = GripExplainer(ready: bool)

  /** What the SHAP explainer returned for one row: a value per feature, and the
      explainer's expected value if it has that attribute. */
  datatype ShapOutput = ShapOutput(values: seq<real>, expectedValue: Option<real>)

  /** The sort key of each zipped position: the absolute contribution. */
  function AbsKeys(values: seq<real>, m: nat): (keys: seq<real>)
    requires m <= |values|
    ensures |keys| == m
    ensures forall i :: 0 <= i < m ==> keys[i] == Abs(values[i]) && keys[i] >= 0.0
  {
    seq(m, i requires 0 <= i < m => Abs(values[i]))
  }

  /** The explanation built from feature position `i`. */
  function Entry(names: seq<string>, values: seq<real>, features: seq<real>, baseline: real, i: nat): ShapExplanation
    requires i < |names| && i < |values| && i < |features|
  {
    ShapExplanation(names[i], values[i], features[i], baseline)
  }

  /** `explain_prediction`: pair every feature name with its SHAP value and feature value
      (as far as both names and values reach), sort by absolute contribution with Python's
      stable descending sort, and keep `explanations[:top_k]`. Without an explainer, when
      SHAP raises, or when the names and values reach past the feature vector (an
      IndexError inside the guarded block), the result is empty. */
  function ExplainPrediction(explainer: GripExplainer, features: seq<real>, names: seq<string>,
                             shap: Option<ShapOutput>, topK: int): (r: seq<ShapExplanation>)
    ensures !explainer.ready || shap.None? ==> r == []
    ensures r != [] ==> explainer.ready && shap.Some?
    ensures shap.Some? && MinInt(|names|, |shap.value.values|) > |features| ==> r == []
    ensures r != [] ==> |r| <= |names| && |r| <= |shap.value.values| && |r| <= |features|
    ensures topK >= 0 ==> |r| <= topK
    ensures forall p, q :: 0 <= p < q < |r| ==> Abs(r[p].contribution) >= Abs(r[q].contribution)
    ensures forall p :: 0 <= p < |r| ==> r[p].baseline == shap.value.expectedValue.GetOr(0.0)
    ensures explainer.ready && shap.Some? ==>
              var m := MinInt(|names|, |shap.value.values|);
              m <= |features| ==>
                var keys := AbsKeys(shap.value.values, m);
                var idx := Top(keys, topK);
                && |r| == |idx|
                && forall p :: 0 <= p < |r| ==>
                     idx[p] < m && r[p] == Entry(names, shap.value.values, features, shap.value.expectedValue.GetOr(0.0), idx[p])
  {
    if !explainer.ready then []
    else match shap
      case None => []
      case Some(out) =>
        var m := MinInt(|names|, |out.values|);
        if m > |features| then []
        else
          var base := out.expectedValue.GetOr(0.0);
          var keys := AbsKeys(out.values, m);
          var idx := Top(keys, topK);
          RankedEntries(names, out.values, features, base, keys, idx)
  }

  /** The explanations for ranked positions, in ranking order. */
  function RankedEntries(names: seq<string>, values: seq<real>, features: seq<real>, baseline: real,
                         keys: seq<real>, idx: seq<nat>): (r: seq<ShapExplanation>)
    requires |keys| <= |names| && |keys| <= |values| && |keys| <= |features|
    requires forall i :: 0 <= i < |keys| ==> keys[i] == Abs(values[i])
    requires Ranked(keys, idx)
    ensures |r| == |idx|
    ensures forall p :: 0 <= p < |r| ==> idx[p] < |keys| && r[p] == Entry(names, values, features, baseline, idx[p])
    ensures forall p :: 0 <= p < |r| ==> r[p].baseline == baseline
    ensures forall p, q :: 0 <= p < q < |r| ==> Abs(r[p].contribution) >= Abs(r[q].contribution)
  {
    var r := seq(|idx|, p requires 0 <= p < |idx| => Entry(names, values, features, baseline, idx[p]));
    assert forall p, q :: 0 <= p < q < |r| ==> Abs(r[p].contribution) >= Abs(r[q].contribution) by {
      forall p, q | 0 <= p < q < |r|
        ensures Abs(r[p].contribution) >= Abs(r[q].contribution)
      {
        assert Before(keys, idx[p], idx[q]);
      }
    }
    r
  }

  /** Ties keep feature order and nothing is dropped in favour of something weaker: the
      positions behind the explanations are ranked, and every zipped position left out has
      an absolute contribution no larger than any kept one's. */
  lemma ExplanationsAreStableTopK(explainer: GripExplainer, features: seq<real>, names: seq<string>,
                                  out: ShapOutput, topK: int)
    requires explainer.ready
    requires MinInt(|names|, |out.values|) <= |features|
    ensures var m := MinInt(|names|, |out.values|);
            var r := ExplainPrediction(explainer, features, names, Some(out), topK);
            var idx := Top(AbsKeys(out.values, m), topK);
            && (forall p, q :: 0 <= p < q < |r| && Abs(r[p].contribution) == Abs(r[q].contribution) ==> idx[p] < idx[q])
            && (forall p, i :: 0 <= p < |r| && 0 <= i < m && i !in idx ==> Abs(out.values[i]) <= Abs(r[p].contribution))
  {
    var m := MinInt(|names|, |out.values|);
    var keys := AbsKeys(out.values, m);
    var idx := Top(keys, topK);
    var r := ExplainPrediction(explainer, features, names, Some(out), topK);
    forall p, q | 0 <= p < q < |r| && Abs(r[p].contribution) == Abs(r[q].contribution)
      ensures idx[p] < idx[q]
    {
      assert Before(keys, idx[p], idx[q]);
    }
    forall p, i | 0 <= p < |r| && 0 <= i < m && i !in idx
      ensures Abs(out.values[i]) <= Abs(r[p].contribution)
    {
      assert Before(keys, idx[p], i);
    }
  }

  /** A global importance entry. */
  datatype FeatureImportance = FeatureImportance(featureName: string, importance: real)

  /** `get_feature_importance`: every feature name paired with the model's importance at
      the same position (as far as both reach), sorted by importance, largest first, ties
      in feature order, nothing dropped. `None` stands for a model without importances
      (the call raises and the result is empty). */
  function GetFeatureImportance(names: seq<string>, importance: Option<seq<real>>): (r: seq<FeatureImportance>)
    ensures importance.None? ==> r == []
    ensures importance.Some? ==> |r| == MinInt(|names|, |importance.value|)
    ensures forall p, q :: 0 <= p < q < |r| ==> r[p].importance >= r[q].importance
    ensures importance.Some? ==>
              var m := MinInt(|names|, |importance.value|);
              forall i :: 0 <= i < m ==> FeatureImportance(names[i], importance.value[i]) in r
    ensures importance.Some? ==>
              var m := MinInt(|names|, |importance.value|);
              var idx := Rank(importance.value[..m]);
              forall p :: 0 <= p < |r| ==>
                idx[p] < m && r[p] == FeatureImportance(names[idx[p]], importance.value[idx[p]])
  {
    match importance
    case None => []
    case Some(imp) =>
      var m := MinInt(|names|, |imp|);
      var keys := imp[..m];
      var idx := Rank(keys);
      var r := seq(m, p requires 0 <= p < m => FeatureImportance(names[idx[p]], imp[idx[p]]));
      assert forall p, q :: 0 <= p < q < |r| ==> r[p].importance >= r[q].importance by {
        forall p, q | 0 <= p < q < |r|
          ensures r[p].importance >= r[q].importance
        {
          assert Before(keys, idx[p], idx[q]);
        }
      }
      assert forall i :: 0 <= i < m ==> FeatureImportance(names[i], imp[i]) in r by {
        forall i | 0 <= i < m
          ensures FeatureImportance(names[i], imp[i]) in r
        {
          assert i in idx;
          var p :| 0 <= p < |idx| && idx[p] == i;
          assert r[p] == FeatureImportance(names[i], imp[i]);
        }
      }
      r
  }

  /** `explain_batch`: the SHAP matrix, or a zero matrix of the input's shape when there is
      no explainer or SHAP raised. */
  function ExplainBatch(explainer: GripExplainer, batch: seq<seq<real>>, shap: Option<seq<seq<real>>>): (r: seq<seq<real>>)
    ensures explainer.ready && shap.Some? ==> r == shap.value
    ensures !explainer.ready || shap.None? ==>
              |r| == |batch| &&
              forall i :: 0 <= i < |r| ==> |r[i]| == |batch[i]| && forall j :: 0 <= j < |r[i]| ==> r[i][j] == 0.0
  {
    if explainer.ready && shap.Some? then shap.value
    else seq(|batch|, i requires 0 <= i < |batch| => seq(|batch[i]|, _ => 0.0))
  }
}
