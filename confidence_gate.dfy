/**
 * Intent prediction: the trained pipeline turns the segmented input into
 * one probability per class; the gate takes the most likely class and
 * trusts it only when its probability reaches the caller's threshold.
 */
module ConfidenceGate {
  import opened Wrappers

  /**
   * The trained pipeline, as opaque functions: `segment` is word
   * segmentation with the words joined by spaces, `predictProba` the
   * TF-IDF vectorizer and logistic regression, one probability per entry
   * of `classes`.
   */
  datatype Classifier = Classifier(
    segment: string -> string,
    predictProba: string -> seq<real>,
    classes: seq<string>)

  /** What the gate hands back: the trusted class, if any, and the top probability. */
  datatype Prediction = Prediction(intent: Option<string>, confidence: real)

  /** The probability vector for one input. */
  function Probabilities(clf: Classifier, input: string): seq<real> {
    clf.predictProba(clf.segment(input))
  }

  /** The pipeline gives one probability per class, and there is at least one class. */
  predicate Fits(clf: Classifier, input: string) {
    |Probabilities(clf, input)| == |clf.classes| > 0
  }

  /** `np.argmax`: the first index of a largest element. */
  function ArgMax(probs: seq<real>): (idx: nat)
    requires |probs| > 0
    ensures idx < |probs|
    ensures forall k :: 0 <= k < |probs| ==> probs[k] <= probs[idx]
    ensures forall k :: 0 <= k < idx ==> probs[k] < probs[idx]
    decreases |probs|
  {
    if |probs| == 1 then 0
    else
      var m := ArgMax(probs[..|probs| - 1]);
      if probs[|probs| - 1] > probs[m] then |probs| - 1 else m
  }

  /**
   * `predict_intent`: the class of the first most likely entry when its
   * probability is at least `threshold`, no class otherwise; the
   * confidence is that top probability either way.
   */
  function PredictIntent(clf: Classifier, input: string, threshold: real): (r: Prediction)
    requires Fits(clf, input)
    ensures var probs := Probabilities(clf, input);
      && (forall k :: 0 <= k < |probs| ==> probs[k] <= r.confidence)
      && (exists k :: 0 <= k < |probs| && probs[k] == r.confidence)
    ensures r.intent.Some? <==> r.confidence >= threshold
    ensures r.intent.Some? ==> exists k :: && 0 <= k < |clf.classes|
                                           && r.intent.value == clf.classes[k]
                                           && Probabilities(clf, input)[k] == r.confidence
                                           && forall m :: 0 <= m < k ==> Probabilities(clf, input)[m] < r.confidence
  {
    var probs := Probabilities(clf, input);
    var idx := ArgMax(probs);
    var confidence := probs[idx];
    if confidence >= threshold then Prediction(Some(clf.classes[idx]), confidence)
    else Prediction(None, confidence)
  }

  /** The class the gate would hand back: the first most likely one. */
  function TopClass(clf: Classifier, input: string): string
    requires Fits(clf, input)
  {
    clf.classes[ArgMax(Probabilities(clf, input))]
  }

  /** The top probability does not depend on the threshold. */
  lemma ConfidenceIgnoresThreshold(clf: Classifier, input: string, t1: real, t2: real)
    requires Fits(clf, input)
    ensures PredictIntent(clf, input, t1).confidence == PredictIntent(clf, input, t2).confidence
  {
  }

  /**
   * Acceptance is inclusive: at a threshold equal to the top probability
   * the top class is handed back.
   */
  lemma AcceptsAtEquality(clf: Classifier, input: string)
    requires Fits(clf, input)
    ensures var p := Probabilities(clf, input)[ArgMax(Probabilities(clf, input))];
      PredictIntent(clf, input, p) == Prediction(Some(TopClass(clf, input)), p)
  {
  }

  /** A lower threshold accepts whatever a higher one accepts, with the same class. */
  lemma ThresholdMonotone(clf: Classifier, input: string, low: real, high: real)
    requires Fits(clf, input)
    requires low <= high
    requires PredictIntent(clf, input, high).intent.Some?
    ensures PredictIntent(clf, input, low) == PredictIntent(clf, input, high)
  {
  }
}
