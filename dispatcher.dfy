/**
 * The chatbot's entry point: classify the message, answer from the
 * knowledge base when the gate trusts the class, escalate otherwise.
 */
module Dispatcher {
  import opened Wrappers
  import KnowledgeBase
  import ConfidenceGate
  import Escalation

  /** The threshold `chatbot_response` and `predict_intent` default to. */
  const DefaultThreshold: real := 0.5

  /** The threshold both the web chat and the messaging webhook pass. */
  const ChannelThreshold: real := 0.2

  /**
   * What escapes `chatbot_response` as an exception: the trusted class has
   * no entry in the reply table (a `KeyError`), or its reply list is empty
   * (`random.choice` raises `IndexError`).
   */
  datatype Fault = UnknownIntent(tag: string) | NoResponses(tag: string)

  /** `random.choice`: the draw picks one candidate; every candidate can be picked. */
  function Choose(candidates: seq<string>, draw: nat): (r: string)
    requires |candidates| > 0
    ensures r in candidates
    ensures draw < |candidates| ==> r == candidates[draw]
  {
    candidates[draw % |candidates|]
  }

  /** The text after a canned reply, around the formatted rounded confidence. */
  function Annotation(formatted: string): string {
    " (ความมั่นใจ: " + formatted + ")"
  }

  /**
   * `chatbot_response`: `formatConfidence` stands for `round(confidence, 2)`
   * formatted by the f-string, `draw` for the random choice.
   */
  function ChatbotResponse(
    clf: ConfidenceGate.Classifier,
    responses: map<string, seq<string>>,
    backend: Escalation.Backend,
    input: string,
    threshold: real,
    draw: nat,
    formatConfidence: real -> string): (r: Result<string, Fault>)
    requires ConfidenceGate.Fits(clf, input)
    ensures var probs := ConfidenceGate.Probabilities(clf, input);
      var p := probs[ConfidenceGate.ArgMax(probs)];
      var top := ConfidenceGate.TopClass(clf, input);
      && (p < threshold || top == [] ==> r == Success(Escalation.Cascade(backend, input).reply))
      && (p >= threshold && top != [] && top !in responses ==> r == Failure(UnknownIntent(top)))
      && (p >= threshold && top != [] && top in responses && responses[top] == [] ==> r == Failure(NoResponses(top)))
      && (p >= threshold && top != [] && top in responses && responses[top] != [] ==>
            r.Success? && exists k :: 0 <= k < |responses[top]| && r.value == responses[top][k] + Annotation(formatConfidence(p)))
  {
    var prediction := ConfidenceGate.PredictIntent(clf, input, threshold);
    if prediction.intent.Some? && prediction.intent.value != [] && prediction.confidence >= threshold then
      var tag := prediction.intent.value;
      if tag !in responses then Failure(UnknownIntent(tag))
      else if |responses[tag]| == 0 then Failure(NoResponses(tag))
      else
        var reply := Choose(responses[tag], draw);
        assert reply == responses[tag][draw % |responses[tag]|];
        Success(reply + Annotation(formatConfidence(prediction.confidence)))
    else
      Success(Escalation.Cascade(backend, input).reply)
  }

  /**
   * The channels pass a threshold below the default, so every message the
   * default threshold answers from the knowledge base gets the same answer
   * on the channels; only messages the default would escalate can differ.
   */
  lemma ChannelAnswersWhatDefaultAnswers(
    clf: ConfidenceGate.Classifier,
    responses: map<string, seq<string>>,
    backend: Escalation.Backend,
    input: string,
    draw: nat,
    formatConfidence: real -> string)
    requires ConfidenceGate.Fits(clf, input)
    requires ConfidenceGate.Probabilities(clf, input)[ConfidenceGate.ArgMax(ConfidenceGate.Probabilities(clf, input))] >= DefaultThreshold
    requires ConfidenceGate.TopClass(clf, input) != []
    ensures ChatbotResponse(clf, responses, backend, input, ChannelThreshold, draw, formatConfidence)
         == ChatbotResponse(clf, responses, backend, input, DefaultThreshold, draw, formatConfidence)
  {
    ConfidenceGate.ThresholdMonotone(clf, input, ChannelThreshold, DefaultThreshold);
  }

  /** The classifier was trained on the corpus: each of its classes is one of the corpus tags. */
  predicate TrainedOn(clf: ConfidenceGate.Classifier, intents: seq<KnowledgeBase.Intent>) {
    forall c :: 0 <= c < |clf.classes| ==> clf.classes[c] in KnowledgeBase.Tags(intents)
  }

  /**
   * With the reply table built from the corpus the classifier was trained
   * on, and every intent having at least one reply, no exception escapes:
   * the bot always answers with a string.
   */
  lemma TrainedBotAlwaysReplies(
    intents: seq<KnowledgeBase.Intent>,
    clf: ConfidenceGate.Classifier,
    backend: Escalation.Backend,
    input: string,
    threshold: real,
    draw: nat,
    formatConfidence: real -> string)
    requires ConfidenceGate.Fits(clf, input)
    requires TrainedOn(clf, intents)
    requires forall i :: 0 <= i < |intents| ==> intents[i].responses != []
    ensures ChatbotResponse(clf, KnowledgeBase.ResponseTable(intents), backend, input, threshold, draw, formatConfidence).Success?
  {
    var top := ConfidenceGate.TopClass(clf, input);
    KnowledgeBase.TagHasReplies(intents, top);
  }
}
