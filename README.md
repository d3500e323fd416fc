# Intent resolution and escalation engine of a municipal chatbot

A Dafny model of the decision logic of the ChatBotCola bot (`intent_bot.py`).
This bot answers citizens' messages for a municipal office. A message is
segmented into words and classified into one intent of a knowledge base. When
the classifier's top probability reaches a threshold, the bot answers with one
of that intent's canned replies, followed by a confidence annotation. When it
does not, the bot escalates to a generative language model (Gemini). It tries
every API key and, for each key, every model name, until one call returns
text. If none does, it returns a fixed apology.

The modules follow the components of `intent_bot.py`:

- `Wrappers` (`wrappers.dfy`): `Option` and `Result`.
- `Strings` (`strings.dfy`): the Python string operations the bot uses.
  These are `str.strip()`, `str.lower()`, the `in` test on strings and
  `str.split(",")`.
- `KnowledgeBase` (`knowledge_base.dfy`): the start-up loop that flattens the
  intents into `patterns`, `tags` and `responses`. The method `BuildCorpus`
  keeps the source's nested loops. It is proved equal to the recursive
  functions `Patterns`, `Tags` and `ResponseTable`, and the lemmas are stated
  about those functions.
- `ConfidenceGate` (`confidence_gate.dfy`): `predict_intent`. This is the
  arg-max over the probability vector and the inclusive threshold test.
- `Escalation` (`escalation.dfy`): `query_gemini`. The method `QueryGemini`
  keeps the outer loop over keys with the early `return`, and `TryModels`
  the inner loop over model names. It is proved
  equal to the function `Cascade` (via `CascadeFrom`), and the lemmas about
  order, short circuit and exhaustion are stated about that function. It also
  holds the key list read from the environment and the capacity-error test
  that decides what is logged.
- `Dispatcher` (`dispatcher.dfy`): `chatbot_response`. It is a function, so
  on the escalation branch it uses the function `Cascade` that `QueryGemini`
  is proved to compute.

Foreign parts take the form of parameters:

- `Classifier.segment` stands for `" ".join(word_tokenize(..., engine="newmm"))`.
- `Classifier.predictProba` and `Classifier.classes` stand for the trained
  TF-IDF and logistic-regression pipeline with its `classes_`.
- `Backend.promptFor` stands for the prompt template and its JSON dump of the
  knowledge base.
- `Backend.send(i, j, prompt)` is the outcome of calling the model with key
  `i` and model name `j`. The outcome is text, no response, or an exception
  with its message.
- `draw` stands for `random.choice`.
- `formatConfidence` stands for `round(confidence, 2)` as the f-string
  prints it.

Probabilities are Dafny `real`s.

The model follows the code, also where the code departs from what the bot's
design intends:

- The code does not validate the knowledge base. Duplicate tags are not
  rejected: a later intent's replies overwrite an earlier one's. Empty
  pattern or reply lists are accepted too.
- The code has no "track complaint" command that bypasses classification.
- An empty reply list leads to an `IndexError` from `random.choice` that
  escapes `chatbot_response`. A class without a reply table entry would lead
  to a `KeyError` that escapes too. `ChatbotResponse` returns both as a
  `Fault`. `TrainedBotAlwaysReplies` proves neither can happen when the
  classifier's classes are tags of the corpus and every intent has a reply.
- The dispatcher tests `intent` for truthiness. A top class whose tag is the
  empty string therefore escalates even when it is confident.
- The cascade tests `response.text` before stripping it. A whitespace-only
  answer therefore ends the cascade with an empty reply
  (`BlankAnswerEndsCascade`).

The channels (`main.py`) call the dispatcher with threshold 0.2
(`Dispatcher.ChannelThreshold`). The default threshold is 0.5
(`Dispatcher.DefaultThreshold`). `ChannelAnswersWhatDefaultAnswers` relates
the two.

## Model

| member | source | states |
|---|---|---|
| `KnowledgeBase.BuildCorpus` | intent_bot.py:31-39 | the nested loop's three results are exactly `Patterns`, `Tags` and `ResponseTable` of the intent list |
| `KnowledgeBase.FlattenLength` | intent_bot.py:35-38 | `patterns` and `tags` have equal length, the total number of patterns over all intents |
| `KnowledgeBase.FlattenProvenance` | intent_bot.py:35-38 | pattern `j` of intent `i` sits at index `Offset(i) + j` of `patterns`, and `tags` holds the tag of intent `i` at that index |
| `KnowledgeBase.FlattenCoverage` | intent_bot.py:35-38 | conversely, every index of `patterns` is `Offset(i) + j` for some intent `i` and pattern `j` of it, holding that pattern, with the tag of intent `i` at the same index of `tags` |
| `KnowledgeBase.OffsetStep` | intent_bot.py:35-37 | the block of intent `i + 1` starts right after the block of intent `i`, so intent order comes first and pattern order second |
| `KnowledgeBase.OffsetEnds` | intent_bot.py:35-37 | the blocks start at 0 and end at the length of `patterns`, so they cover the whole list |
| `KnowledgeBase.ResponseTableKeys` | intent_bot.py:39 | the keys of `responses` are exactly the tags of the intents |
| `KnowledgeBase.ResponseTableLastWins` | intent_bot.py:39 | for the last intent with a given tag, `responses[tag]` is that intent's reply list |
| `KnowledgeBase.ResponseTableValue` | intent_bot.py:39 | every entry of `responses` is the reply list of the last intent carrying its tag |
| `KnowledgeBase.TagsAreKeys` | intent_bot.py:38-39 | every element of `tags` is a key of `responses` |
| `KnowledgeBase.TagHasReplies` | intent_bot.py:38-39 | when every intent has a reply, every tag in `tags` has a non-empty reply list |
| `ConfidenceGate.ArgMax` | intent_bot.py:60 | the index is within bounds, its probability is the largest, and every earlier probability is strictly smaller (ties go to the lowest index) |
| `ConfidenceGate.PredictIntent` | intent_bot.py:57-65 | the confidence is the largest probability of the vector; a class is returned exactly when the confidence is at least the threshold, and it is the class of the first largest probability |
| `ConfidenceGate.ConfidenceIgnoresThreshold` | intent_bot.py:61-65 | the confidence returned is the same whatever the threshold, in the accepting and the rejecting branch |
| `ConfidenceGate.AcceptsAtEquality` | intent_bot.py:63-64 | at a threshold equal to the top probability the top class is accepted (the test is inclusive) |
| `ConfidenceGate.ThresholdMonotone` | intent_bot.py:63-65 | whatever a threshold accepts, any lower threshold accepts with the same class and confidence |
| `Strings.Strip` | intent_bot.py:99 | the result is `s` with only whitespace removed around it, and it neither starts nor ends with whitespace |
| `Strings.StripBlank` | intent_bot.py:99 | stripping gives the empty string exactly when the text is all whitespace |
| `Strings.StripIdempotent` | intent_bot.py:99 | stripping a stripped text changes nothing |
| `Strings.Lower` | intent_bot.py:102 | same length; every ASCII capital becomes its small letter and every other character stays |
| `Strings.Contains` | intent_bot.py:105 | true exactly when the keyword occurs at some position of the lowered message |
| `Strings.Split` | intent_bot.py:21 | splitting at commas gives at least one part, and no part contains a comma |
| `Strings.JoinSplit` | intent_bot.py:21 | joining the split parts with commas gives back the original environment value |
| `Strings.SplitJoin` | intent_bot.py:21 | splitting undoes joining comma-free parts |
| `Escalation.ApiKeys` | intent_bot.py:21 | the key list is never empty, no key contains a comma, and joining the keys with commas gives back the environment value |
| `Escalation.CapacityErrorAnyCase` | intent_bot.py:102-106 | any message containing "quota", "limit" or "resource", in any ASCII letter case, is classified as a capacity error |
| `Escalation.TryModels` | intent_bot.py:91-110 | the loop over model names for one key either answers with the stripped text and the calls that end the cascade there, or answers nothing, its calls followed by the cascade from the next key making up the cascade from this key |
| `Escalation.QueryGemini` | intent_bot.py:70-112 | the loop over keys returns the reply and the sequence of calls that `Cascade` defines |
| `Escalation.CascadeOrder` | intent_bot.py:71-96 | with M model names, attempt `n` uses key `n / M` and model `n % M`, both in range, and sends the one prompt built for the query |
| `Escalation.CascadeFirstAnswer` | intent_bot.py:88-99 | if pair (a, c) is the first in key-major order whose call returns non-empty text, exactly `a * M + c + 1` attempts (M model names) are made and the reply is that text stripped |
| `Escalation.CascadeExhausted` | intent_bot.py:88-112 | if no call returns non-empty text, all K × M pairs (K keys, M model names) are tried and the reply is the fixed apology |
| `Escalation.ConfiguredExhausted` | intent_bot.py:21-26 | with the keys from the environment and the two configured model names, an exhausted cascade apologises after exactly two attempts per key, so at least two |
| `Escalation.CascadeOnlyLastAnswers` | intent_bot.py:98-110 | every attempt before the last one did not answer |
| `Escalation.ErrorKindOnlyLogged` | intent_bot.py:101-110 | capacity errors, other errors and empty responses steer the loop alike: two services with the same answers give the same reply and the same sequence of (key, model) attempts |
| `Escalation.BlankAnswerEndsCascade` | intent_bot.py:98-99 | a whitespace-only answer passes the text test, ends the cascade after one attempt, and gives an empty reply |
| `Dispatcher.Choose` | intent_bot.py:121 | the chosen reply is one of the candidates, and every candidate can be chosen |
| `Dispatcher.ChatbotResponse` | intent_bot.py:117-123 | if the top probability reaches the threshold and the top class is a non-empty tag with replies, the reply is one of that tag's replies followed by the confidence annotation; if it does not reach the threshold, or the tag is empty, the reply is the cascade's reply for the same message; the missing-tag and empty-replies cases are faults |
| `Dispatcher.ChannelAnswersWhatDefaultAnswers` | main.py:55 | whenever the default threshold 0.5 answers a message from the knowledge base, the channels' threshold 0.2 gives the same result |
| `Dispatcher.TrainedBotAlwaysReplies` | intent_bot.py:117-123 | with the reply table built from the corpus the classifier was trained on, and a reply for every intent, the dispatcher always returns a string |

## Left out

- Training and inference of the classifier (TF-IDF, logistic regression, `predict_proba`): these are foreign library code with floating-point numerics. The probability vector and the class list are inputs.
- Word segmentation (`pythainlp.word_tokenize`): foreign library code, an opaque function parameter.
- The network calls (`genai.configure`, `GenerativeModel`, `generate_content`): each attempt's outcome is an oracle parameter. `genai.configure` sits outside the `try` and is assumed not to raise. The outcome of a call depends only on its attempt position and the prompt, so the model says nothing about timing, latency or hung calls.
- The prompt text and the JSON dump of the knowledge base: one opaque template applied once per query.
- `random.choice`: a draw parameter. The model states only that the choice is a member of the list and that every member can be chosen. It does not state uniformity.
- `round(confidence, 2)` and float formatting: an opaque function of the confidence.
- NaN and other floating-point corner cases of `np.argmax` and `>=`: probabilities are exact reals.
- Logging with `print`: the model records which log branch each attempt takes (`Note`), not the text printed.
- Reading `intents.json` and the environment variable: the intents and the variable's value are inputs. Malformed JSON, missing keys and an unset variable are not modelled.
- Strings.Lower: lowers ASCII letters only, where Python's `str.lower()` is Unicode-wide. The lowered text is only searched for the ASCII keywords "quota", "limit" and "resource". Only the log branch depends on it.
- The web routes, the messaging webhook and the SQLite complaint store in `main.py` and `database.py`: transport and storage, outside the decision logic.
