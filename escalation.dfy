/**
 * Escalation to the generative model: one prompt is built per query and
 * sent with every API key in turn and, for each key, with every model
 * name in turn, until one attempt answers with non-empty text. A failed
 * attempt, whatever the error, only moves on to the next (key, model)
 * pair; when all pairs are used up the user gets a fixed apology.
 */
module Escalation {
  import opened Wrappers
  import Strings

  /** The reply once every (key, model) pair has been tried without an answer. */
  const Apology: string := "ขอโทษค่ะ ขณะนี้มีผู้ใช้งานจำนวนมาก กรุณาลองใหม่ภายหลัง 🙏"

  /** The model names tried for each key, cheapest first. */
  const ModelsToTry: seq<string> := ["gemini-2.5-flash-lite", "gemini-2.5-flash"]

  /** The keywords that mark an error message as a capacity error. */
  const CapacityKeywords: seq<string> := ["quota", "limit", "resource"]

  /**
   * What one call of the generative model comes back with: a response
   * carrying text (possibly empty), no response at all, or an exception
   * with its message.
   */
  datatype Outcome = Text(text: string) | NoResponse | Raised(message: string)

  /** The test `response and response.text`: the attempt ends the cascade. */
  predicate Answers(o: Outcome) {
    o.Text? && o.text != []
  }

  /** The text an attempt contributes, if it answers. */
  function AnswerOf(o: Outcome): Option<string> {
    if Answers(o) then Some(o.text) else None
  }

  /** What is logged after an attempt. */
  datatype Note = Answered | Unanswered | QuotaHit | GeminiError(message: string)

  /** One outbound call: key index, model index, the prompt sent, and what was logged. */
  datatype Attempt = Attempt(key: nat, model: nat, prompt: string, note: Note)

  /** The reply of a cascade and the calls it made, in order. */
  datatype Run = Run(reply: string, calls: seq<Attempt>)

  /**
   * The service binding: the API keys and model names to try, the prompt
   * template applied to the user's message (persona, knowledge base dump,
   * instructions), and the call itself, as the outcome of sending a prompt
   * with key `i` and model `j`.
   */
  datatype Backend = Backend(
    apiKeys: seq<string>,
    models: seq<string>,
    promptFor: string -> string,
    send: (nat, nat, string) -> Outcome)

  /** The key list read from the environment: the variable split at commas. */
  function ApiKeys(env: string): (keys: seq<string>)
    ensures |keys| >= 1
    ensures forall k :: 0 <= k < |keys| ==> ',' !in keys[k]
    ensures Strings.Join(keys, ',') == env
  {
    Strings.JoinSplit(env, ',');
    Strings.Split(env, ',')
  }

  /** An error message that speaks of quota, limits or resources, in any letter case. */
  predicate IsCapacityError(message: string) {
    var err := Strings.Lower(message);
    Strings.Contains(err, "quota") || Strings.Contains(err, "limit") || Strings.Contains(err, "resource")
  }

  /** Any message with a capacity keyword in it, whatever its letter case, is a capacity error. */
  lemma CapacityErrorAnyCase(before: string, word: string, after: string)
    requires Strings.Lower(word) in CapacityKeywords
    ensures IsCapacityError(before + word + after)
  {
    var kw := Strings.Lower(word);
    Strings.LowerAppend(before + word, after);
    Strings.LowerAppend(before, word);
    var err := Strings.Lower(before + word + after);
    assert err == Strings.Lower(before) + kw + Strings.Lower(after);
    assert err[|before|..|before| + |kw|] == kw;
    assert Strings.OccursAt(err, kw, |before|);
  }

  function NoteOf(o: Outcome): Note {
    match o
    case Text(t) => if t != [] then Answered else Unanswered
    case NoResponse => Unanswered
    case Raised(m) => if IsCapacityError(m) then QuotaHit else GeminiError(m)
  }

  /**
   * The cascade from pair (i, j) on: key-major, model-minor, stopping at
   * the first attempt that answers.
   */
  function CascadeFrom(b: Backend, prompt: string, i: nat, j: nat): Run
    decreases |b.apiKeys| - i, |b.models| - j
  {
    if i >= |b.apiKeys| then Run(Apology, [])
    else if j >= |b.models| then CascadeFrom(b, prompt, i + 1, 0)
    else
      var o := b.send(i, j, prompt);
      var a := Attempt(i, j, prompt, NoteOf(o));
      if Answers(o) then Run(Strings.Strip(o.text), [a])
      else
        var rest := CascadeFrom(b, prompt, i, j + 1);
        Run(rest.reply, [a] + rest.calls)
  }

  /** The whole cascade for one user message. */
  function Cascade(b: Backend, input: string): Run {
    CascadeFrom(b, b.promptFor(input), 0, 0)
  }

  /**
   * The inner loop of `query_gemini` for key `i`: every model name in
   * turn. An answer ends the loop with the stripped text, and the cascade
   * ends there; with no answer the cascade goes on with key `i + 1`.
   */
  method TryModels(b: Backend, prompt: string, i: nat) returns (answer: Option<string>, calls: seq<Attempt>)
    requires i < |b.apiKeys|
    ensures answer.Some? ==> CascadeFrom(b, prompt, i, 0) == Run(answer.value, calls)
    ensures answer.None? ==>
      CascadeFrom(b, prompt, i, 0) == Run(CascadeFrom(b, prompt, i + 1, 0).reply, calls + CascadeFrom(b, prompt, i + 1, 0).calls)
  {
    calls := [];
    var j := 0;
    while j < |b.models|
      invariant 0 <= j <= |b.models|
      invariant CascadeFrom(b, prompt, i, 0) == Run(CascadeFrom(b, prompt, i, j).reply, calls + CascadeFrom(b, prompt, i, j).calls)
    {
      var outcome := b.send(i, j, prompt);
      var attempt := Attempt(i, j, prompt, NoteOf(outcome));
      ghost var rest := CascadeFrom(b, prompt, i, j + 1);
      assert calls + ([attempt] + rest.calls) == (calls + [attempt]) + rest.calls;
      calls := calls + [attempt];
      if outcome.Text? && outcome.text != [] {
        return Some(Strings.Strip(outcome.text)), calls;
      }
      j := j + 1;
    }
    assert CascadeFrom(b, prompt, i, j) == CascadeFrom(b, prompt, i + 1, 0);
    answer := None;
  }

  /** `query_gemini`: the outer loop over keys, with its early return, and the apology as fall-through. */
  method QueryGemini(b: Backend, input: string) returns (reply: string, calls: seq<Attempt>)
    ensures Run(reply, calls) == Cascade(b, input)
  {
    var prompt := b.promptFor(input);
    calls := [];
    var i := 0;
    while i < |b.apiKeys|
      invariant 0 <= i <= |b.apiKeys|
      invariant Cascade(b, input) == Run(CascadeFrom(b, prompt, i, 0).reply, calls + CascadeFrom(b, prompt, i, 0).calls)
    {
      var answer, keyCalls := TryModels(b, prompt, i);
      ghost var here := CascadeFrom(b, prompt, i, 0);
      ghost var rest := CascadeFrom(b, prompt, i + 1, 0);
      if answer.Some? {
        assert here.reply == answer.value && here.calls == keyCalls;
        reply, calls := answer.value, calls + keyCalls;
        return;
      }
      assert here.reply == rest.reply && here.calls == keyCalls + rest.calls;
      assert calls + (keyCalls + rest.calls) == (calls + keyCalls) + rest.calls;
      calls := calls + keyCalls;
      i := i + 1;
    }
    assert CascadeFrom(b, prompt, i, 0) == Run(Apology, []);
    assert calls + [] == calls;
    reply := Apology;
  }

  /** Attempt `a` is the one at position `pos` of the key-major order, with `prompt`. */
  predicate AttemptAt(b: Backend, prompt: string, a: Attempt, pos: int) {
    && a.key < |b.apiKeys| && a.model < |b.models| && a.prompt == prompt
    && a.key * |b.models| + a.model == pos
  }

  /** The attempts from (i, j) on: in range, in key-major order, all with the same prompt. */
  lemma {:induction false} CascadeFromOrder(b: Backend, prompt: string, i: nat, j: nat)
    requires j <= |b.models|
    ensures forall n :: 0 <= n < |CascadeFrom(b, prompt, i, j).calls| ==>
      AttemptAt(b, prompt, CascadeFrom(b, prompt, i, j).calls[n], i * |b.models| + j + n)
    decreases |b.apiKeys| - i, |b.models| - j
  {
    var m := |b.models|;
    var calls := CascadeFrom(b, prompt, i, j).calls;
    if i < |b.apiKeys| {
      if j == m {
        CascadeFromOrder(b, prompt, i + 1, 0);
        assert calls == CascadeFrom(b, prompt, i + 1, 0).calls;
        assert (i + 1) * m + 0 == i * m + j;
      } else if !Answers(b.send(i, j, prompt)) {
        CascadeFromOrder(b, prompt, i, j + 1);
        var rest := CascadeFrom(b, prompt, i, j + 1).calls;
        assert calls == [calls[0]] + rest;
        forall n | 1 <= n < |calls|
          ensures AttemptAt(b, prompt, calls[n], i * m + j + n)
        {
          assert calls[n] == rest[n - 1];
          assert AttemptAt(b, prompt, rest[n - 1], i * m + (j + 1) + (n - 1));
        }
      }
    }
  }

  /**
   * Attempt `n` of a query uses key `n / |models|` and model
   * `n % |models|`: keys are the outer loop, models the inner one, and
   * every attempt sends the one prompt built for the query.
   */
  lemma CascadeOrder(b: Backend, input: string)
    ensures forall n :: 0 <= n < |Cascade(b, input).calls| ==>
      AttemptAt(b, b.promptFor(input), Cascade(b, input).calls[n], n)
  {
    CascadeFromOrder(b, b.promptFor(input), 0, 0);
    assert 0 * |b.models| + 0 == 0;
  }

  /** Pair (i, j) comes before pair (a, c) in key-major order. */
  predicate Before(i: nat, j: nat, a: nat, c: nat) {
    i < a || (i == a && j < c)
  }

  lemma {:induction false} CascadeFromFirstAnswer(b: Backend, prompt: string, i: nat, j: nat, a: nat, c: nat)
    requires j <= |b.models|
    requires a < |b.apiKeys| && c < |b.models|
    requires Before(i, j, a, c) || (i == a && j == c)
    requires Answers(b.send(a, c, prompt))
    requires forall x: nat, y: nat :: Before(x, y, a, c) && y < |b.models| ==> !Answers(b.send(x, y, prompt))
    ensures CascadeFrom(b, prompt, i, j).reply == Strings.Strip(b.send(a, c, prompt).text)
    ensures |CascadeFrom(b, prompt, i, j).calls| == (a * |b.models| + c) - (i * |b.models| + j) + 1
    decreases |b.apiKeys| - i, |b.models| - j
  {
    var m := |b.models|;
    if j == m {
      CascadeFromFirstAnswer(b, prompt, i + 1, 0, a, c);
      assert (i + 1) * m == i * m + m;
    } else if !(i == a && j == c) {
      assert !Answers(b.send(i, j, prompt));
      CascadeFromFirstAnswer(b, prompt, i, j + 1, a, c);
    }
  }

  /**
   * Short circuit: when pair (a, c) is the first in key-major order whose
   * attempt answers, exactly `a * |models| + c + 1` attempts are made and
   * the reply is that answer stripped of surrounding whitespace.
   */
  lemma CascadeFirstAnswer(b: Backend, input: string, a: nat, c: nat)
    requires a < |b.apiKeys| && c < |b.models|
    requires Answers(b.send(a, c, b.promptFor(input)))
    requires forall x: nat, y: nat :: Before(x, y, a, c) && y < |b.models| ==> !Answers(b.send(x, y, b.promptFor(input)))
    ensures Cascade(b, input).reply == Strings.Strip(b.send(a, c, b.promptFor(input)).text)
    ensures |Cascade(b, input).calls| == a * |b.models| + c + 1
  {
    CascadeFromFirstAnswer(b, b.promptFor(input), 0, 0, a, c);
  }

  lemma {:induction false} CascadeFromExhausted(b: Backend, prompt: string, i: nat, j: nat)
    requires i <= |b.apiKeys| && j <= |b.models|
    requires i == |b.apiKeys| ==> j == 0
    requires forall x: nat, y: nat :: x < |b.apiKeys| && y < |b.models| ==> !Answers(b.send(x, y, prompt))
    ensures CascadeFrom(b, prompt, i, j).reply == Apology
    ensures |CascadeFrom(b, prompt, i, j).calls| == (|b.apiKeys| - i) * |b.models| - j
    ensures forall n :: 0 <= n < |CascadeFrom(b, prompt, i, j).calls| ==>
      CascadeFrom(b, prompt, i, j).calls[n].note != Answered
    decreases |b.apiKeys| - i, |b.models| - j
  {
    var m := |b.models|;
    if i < |b.apiKeys| {
      if j == m {
        CascadeFromExhausted(b, prompt, i + 1, 0);
        assert (|b.apiKeys| - i) * m == (|b.apiKeys| - (i + 1)) * m + m;
      } else {
        CascadeFromExhausted(b, prompt, i, j + 1);
      }
    }
  }

  /**
   * Exhaustion: when no attempt answers, whether by empty text, no
   * response or an exception, all `|keys| * |models|` pairs are tried and
   * the reply is the fixed apology; nothing escapes to the caller.
   */
  lemma CascadeExhausted(b: Backend, input: string)
    requires forall x: nat, y: nat :: x < |b.apiKeys| && y < |b.models| ==> !Answers(b.send(x, y, b.promptFor(input)))
    ensures Cascade(b, input).reply == Apology
    ensures |Cascade(b, input).calls| == |b.apiKeys| * |b.models|
  {
    CascadeFromExhausted(b, b.promptFor(input), 0, 0);
  }

  /** The service as the bot sets it up: the keys from the environment value, the two model names. */
  predicate Configured(b: Backend, env: string) {
    b.apiKeys == ApiKeys(env) && b.models == ModelsToTry
  }

  /**
   * With the bot's own configuration, an exhausted cascade makes two
   * attempts per configured key, hence at least two, before apologising.
   */
  lemma ConfiguredExhausted(b: Backend, env: string, input: string)
    requires Configured(b, env)
    requires forall x: nat, y: nat :: x < |b.apiKeys| && y < |b.models| ==> !Answers(b.send(x, y, b.promptFor(input)))
    ensures Cascade(b, input).reply == Apology
    ensures |Cascade(b, input).calls| == 2 * |ApiKeys(env)| >= 2
  {
    CascadeExhausted(b, input);
  }

  /** Only the last attempt of a run can have answered; every earlier one failed. */
  lemma {:induction false} CascadeFromOnlyLastAnswers(b: Backend, prompt: string, i: nat, j: nat)
    ensures forall n :: 0 <= n < |CascadeFrom(b, prompt, i, j).calls| - 1 ==>
      CascadeFrom(b, prompt, i, j).calls[n].note != Answered
    decreases |b.apiKeys| - i, |b.models| - j
  {
    var calls := CascadeFrom(b, prompt, i, j).calls;
    if i < |b.apiKeys| {
      if j >= |b.models| {
        CascadeFromOnlyLastAnswers(b, prompt, i + 1, 0);
        assert calls == CascadeFrom(b, prompt, i + 1, 0).calls;
      } else if !Answers(b.send(i, j, prompt)) {
        CascadeFromOnlyLastAnswers(b, prompt, i, j + 1);
        var rest := CascadeFrom(b, prompt, i, j + 1).calls;
        assert calls == [calls[0]] + rest;
        forall n | 1 <= n < |calls| - 1 ensures calls[n].note != Answered {
          assert calls[n] == rest[n - 1];
        }
      }
    }
  }

  /** Every attempt of a query but the last one failed to answer. */
  lemma CascadeOnlyLastAnswers(b: Backend, input: string)
    ensures forall n :: 0 <= n < |Cascade(b, input).calls| - 1 ==> Cascade(b, input).calls[n].note != Answered
  {
    CascadeFromOnlyLastAnswers(b, b.promptFor(input), 0, 0);
  }

  lemma {:induction false} CascadeFromSameAnswers(b1: Backend, b2: Backend, prompt: string, i: nat, j: nat)
    requires |b1.apiKeys| == |b2.apiKeys| && |b1.models| == |b2.models|
    requires forall x: nat, y: nat :: AnswerOf(b1.send(x, y, prompt)) == AnswerOf(b2.send(x, y, prompt))
    ensures CascadeFrom(b1, prompt, i, j).reply == CascadeFrom(b2, prompt, i, j).reply
    ensures |CascadeFrom(b1, prompt, i, j).calls| == |CascadeFrom(b2, prompt, i, j).calls|
    ensures forall n :: 0 <= n < |CascadeFrom(b1, prompt, i, j).calls| ==>
      && CascadeFrom(b1, prompt, i, j).calls[n].key == CascadeFrom(b2, prompt, i, j).calls[n].key
      && CascadeFrom(b1, prompt, i, j).calls[n].model == CascadeFrom(b2, prompt, i, j).calls[n].model
    decreases |b1.apiKeys| - i, |b1.models| - j
  {
    if i < |b1.apiKeys| {
      if j >= |b1.models| {
        CascadeFromSameAnswers(b1, b2, prompt, i + 1, 0);
      } else {
        assert AnswerOf(b1.send(i, j, prompt)) == AnswerOf(b2.send(i, j, prompt));
        if !Answers(b1.send(i, j, prompt)) {
          CascadeFromSameAnswers(b1, b2, prompt, i, j + 1);
        }
      }
    }
  }

  /**
   * Capacity errors, other errors and empty responses steer the cascade
   * alike: two services that give the same answers to the same calls,
   * however else they fail, lead to the same reply and the same
   * sequence of (key, model) attempts; the error class shows only in what
   * is logged.
   */
  lemma ErrorKindOnlyLogged(b1: Backend, b2: Backend, input: string)
    requires |b1.apiKeys| == |b2.apiKeys| && |b1.models| == |b2.models|
    requires b1.promptFor(input) == b2.promptFor(input)
    requires forall x: nat, y: nat :: AnswerOf(b1.send(x, y, b1.promptFor(input))) == AnswerOf(b2.send(x, y, b1.promptFor(input)))
    ensures Cascade(b1, input).reply == Cascade(b2, input).reply
    ensures |Cascade(b1, input).calls| == |Cascade(b2, input).calls|
    ensures forall n :: 0 <= n < |Cascade(b1, input).calls| ==>
      && Cascade(b1, input).calls[n].key == Cascade(b2, input).calls[n].key
      && Cascade(b1, input).calls[n].model == Cascade(b2, input).calls[n].model
  {
    CascadeFromSameAnswers(b1, b2, b1.promptFor(input), 0, 0);
  }

  /**
   * A response of whitespace only passes the `response.text` test, so it
   * ends the cascade, and the reply after stripping is empty.
   */
  lemma BlankAnswerEndsCascade(b: Backend, input: string)
    requires |b.apiKeys| > 0 && |b.models| > 0
    requires var o := b.send(0, 0, b.promptFor(input)); o.Text? && o.text != [] && Strings.AllSpace(o.text)
    ensures Cascade(b, input).reply == []
    ensures |Cascade(b, input).calls| == 1
  {
    Strings.StripBlank(b.send(0, 0, b.promptFor(input)).text);
  }
}
