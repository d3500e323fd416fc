/**
 * The knowledge base: a sequence of intents, each with a tag, example
 * utterances ("patterns") and candidate replies. At start-up the bot
 * flattens it into two parallel lists, every pattern and the tag of the
 * intent it came from, and a table from tag to replies.
 */
module KnowledgeBase {

  datatype Intent = Intent(tag: string, patterns: seq<string>, responses: seq<string>)

  /** `n` copies of `x`. */
  function Repeat(x: string, n: nat): (r: seq<string>)
    ensures |r| == n
    ensures forall k :: 0 <= k < n ==> r[k] == x
  {
    if n == 0 then [] else Repeat(x, n - 1) + [x]
  }

  /** All patterns, intent by intent, each intent's patterns in their order. */
  function Patterns(intents: seq<Intent>): seq<string>
    decreases |intents|
  {
    if |intents| == 0 then []
    else Patterns(intents[..|intents| - 1]) + intents[|intents| - 1].patterns
  }

  /** For every pattern of `Patterns(intents)`, the tag of its intent. */
  function Tags(intents: seq<Intent>): seq<string>
    decreases |intents|
  {
    if |intents| == 0 then []
    else
      var last := intents[|intents| - 1];
      Tags(intents[..|intents| - 1]) + Repeat(last.tag, |last.patterns|)
  }

  /** Tag to replies, each intent in turn overwriting what an earlier one with its tag put there. */
  function ResponseTable(intents: seq<Intent>): map<string, seq<string>>
    decreases |intents|
  {
    if |intents| == 0 then map[]
    else
      var last := intents[|intents| - 1];
      ResponseTable(intents[..|intents| - 1])[last.tag := last.responses]
  }

  /** The total number of patterns. */
  function PatternCount(intents: seq<Intent>): nat
    decreases |intents|
  {
    if |intents| == 0 then 0
    else PatternCount(intents[..|intents| - 1]) + |intents[|intents| - 1].patterns|
  }

  /** Where the patterns of `intents[i]` start in the flattened lists. */
  function Offset(intents: seq<Intent>, i: nat): nat
    requires i <= |intents|
  {
    PatternCount(intents[..i])
  }

  /** The loop of the source that builds the two lists and the table. */
  method BuildCorpus(intents: seq<Intent>)
    returns (patterns: seq<string>, tags: seq<string>, responses: map<string, seq<string>>)
    ensures patterns == Patterns(intents)
    ensures tags == Tags(intents)
    ensures responses == ResponseTable(intents)
  {
    patterns, tags, responses := [], [], map[];
    var i := 0;
    while i < |intents|
      invariant 0 <= i <= |intents|
      invariant patterns == Patterns(intents[..i])
      invariant tags == Tags(intents[..i])
      invariant responses == ResponseTable(intents[..i])
    {
      var intent := intents[i];
      var j := 0;
      while j < |intent.patterns|
        invariant 0 <= j <= |intent.patterns|
        invariant patterns == Patterns(intents[..i]) + intent.patterns[..j]
        invariant tags == Tags(intents[..i]) + Repeat(intent.tag, j)
      {
        patterns := patterns + [intent.patterns[j]];
        tags := tags + [intent.tag];
        assert intent.patterns[..j + 1] == intent.patterns[..j] + [intent.patterns[j]];
        j := j + 1;
      }
      responses := responses[intent.tag := intent.responses];
      assert intents[..i + 1][..i] == intents[..i];
      assert intent.patterns[..j] == intent.patterns;
      i := i + 1;
    }
    assert intents[..|intents|] == intents;
  }

  /** The two lists are parallel and hold exactly the patterns of all intents. */
  lemma {:induction false} FlattenLength(intents: seq<Intent>)
    ensures |Patterns(intents)| == |Tags(intents)| == PatternCount(intents)
    decreases |intents|
  {
    if |intents| > 0 {
      FlattenLength(intents[..|intents| - 1]);
    }
  }

  /** The blocks of consecutive intents follow each other in intent order. */
  lemma OffsetStep(intents: seq<Intent>, i: nat)
    requires i < |intents|
    ensures Offset(intents, i + 1) == Offset(intents, i) + |intents[i].patterns|
  {
    assert intents[..i + 1][..i] == intents[..i];
  }

  /** The whole of the flattened lists is covered by the blocks. */
  lemma OffsetEnds(intents: seq<Intent>)
    ensures Offset(intents, 0) == 0
    ensures Offset(intents, |intents|) == PatternCount(intents) == |Patterns(intents)|
  {
    assert intents[..|intents|] == intents;
    FlattenLength(intents);
  }

  /**
   * Pattern `j` of intent `i` lands at position `Offset(intents, i) + j` of
   * both lists, and the tag there is the tag of intent `i`.
   */
  lemma {:induction false} FlattenProvenance(intents: seq<Intent>, i: nat, j: nat)
    requires i < |intents|
    requires j < |intents[i].patterns|
    ensures Offset(intents, i) + j < |Patterns(intents)| == |Tags(intents)|
    ensures Patterns(intents)[Offset(intents, i) + j] == intents[i].patterns[j]
    ensures Tags(intents)[Offset(intents, i) + j] == intents[i].tag
    decreases |intents|
  {
    var n := |intents|;
    var init := intents[..n - 1];
    FlattenLength(init);
    FlattenLength(intents);
    if i == n - 1 {
      assert intents[..i] == init;
    } else {
      assert init[..i] == intents[..i];
      assert init[i] == intents[i];
      FlattenProvenance(init, i, j);
    }
  }

  /**
   * The converse: every position of the flattened lists holds some pattern
   * `j` of some intent `i`, at `Offset(intents, i) + j`, with that intent's tag.
   */
  lemma {:induction false} FlattenCoverage(intents: seq<Intent>, k: nat)
    requires k < |Patterns(intents)|
    ensures k < |Tags(intents)|
    ensures exists i, j :: && 0 <= i < |intents| && 0 <= j < |intents[i].patterns|
                           && Offset(intents, i) + j == k
                           && Patterns(intents)[k] == intents[i].patterns[j]
                           && Tags(intents)[k] == intents[i].tag
    decreases |intents|
  {
    var n := |intents|;
    var init := intents[..n - 1];
    FlattenLength(init);
    FlattenLength(intents);
    var i: nat, j: nat;
    if k < |Patterns(init)| {
      FlattenCoverage(init, k);
      i, j :| && 0 <= i < |init| && 0 <= j < |init[i].patterns|
              && Offset(init, i) + j == k;
      assert init[..i] == intents[..i];
      assert init[i] == intents[i];
    } else {
      i, j := n - 1, k - |Patterns(init)|;
      assert intents[..i] == init;
    }
    FlattenProvenance(intents, i, j);
  }

  /** The table has a key for every intent's tag and no other. */
  lemma {:induction false} ResponseTableKeys(intents: seq<Intent>)
    ensures ResponseTable(intents).Keys == set i | 0 <= i < |intents| :: intents[i].tag
    decreases |intents|
  {
    var n := |intents|;
    if n > 0 {
      var init := intents[..n - 1];
      ResponseTableKeys(init);
      assert forall i :: 0 <= i < n - 1 ==> init[i] == intents[i];
      assert (set i | 0 <= i < n :: intents[i].tag)
          == (set i | 0 <= i < n - 1 :: init[i].tag) + {intents[n - 1].tag};
    }
  }

  /**
   * The replies stored for a tag are those of the LAST intent with that
   * tag: later duplicates overwrite earlier ones.
   */
  lemma {:induction false} ResponseTableLastWins(intents: seq<Intent>, i: nat)
    requires i < |intents|
    requires forall k :: i < k < |intents| ==> intents[k].tag != intents[i].tag
    ensures intents[i].tag in ResponseTable(intents)
    ensures ResponseTable(intents)[intents[i].tag] == intents[i].responses
    decreases |intents|
  {
    var n := |intents|;
    if i < n - 1 {
      var init := intents[..n - 1];
      assert init[i] == intents[i];
      ResponseTableLastWins(init, i);
    }
  }

  /** Every entry of the table comes from some intent with that tag, the last one. */
  lemma {:induction false} ResponseTableValue(intents: seq<Intent>, t: string)
    requires t in ResponseTable(intents)
    ensures exists i :: && 0 <= i < |intents| && intents[i].tag == t
                        && ResponseTable(intents)[t] == intents[i].responses
                        && forall k :: i < k < |intents| ==> intents[k].tag != t
    decreases |intents|
  {
    var n := |intents|;
    var init := intents[..n - 1];
    if intents[n - 1].tag != t {
      ResponseTableValue(init, t);
      var i :| && 0 <= i < |init| && init[i].tag == t
               && ResponseTable(init)[t] == init[i].responses
               && forall k :: i < k < |init| ==> init[k].tag != t;
      assert intents[i] == init[i];
      assert forall k :: i < k < n - 1 ==> intents[k] == init[k];
    } else {
      assert ResponseTable(intents)[t] == intents[n - 1].responses;
    }
  }

  /** Every tag in the tag list is a key of the table. */
  lemma {:induction false} TagsAreKeys(intents: seq<Intent>)
    ensures forall k :: 0 <= k < |Tags(intents)| ==> Tags(intents)[k] in ResponseTable(intents)
    decreases |intents|
  {
    var n := |intents|;
    if n > 0 {
      var init := intents[..n - 1];
      TagsAreKeys(init);
      var last := intents[n - 1];
      var front := Tags(init);
      forall k | 0 <= k < |Tags(intents)| ensures Tags(intents)[k] in ResponseTable(intents) {
        if k < |front| {
          assert Tags(intents)[k] == front[k];
        } else {
          assert Tags(intents)[k] == Repeat(last.tag, |last.patterns|)[k - |front|];
        }
      }
    }
  }

  /** When every intent has a reply, so does every tag of the tag list. */
  lemma TagHasReplies(intents: seq<Intent>, t: string)
    requires t in Tags(intents)
    requires forall i :: 0 <= i < |intents| ==> intents[i].responses != []
    ensures t in ResponseTable(intents) && ResponseTable(intents)[t] != []
  {
    var tags := Tags(intents);
    var k :| 0 <= k < |tags| && tags[k] == t;
    TagsAreKeys(intents);
    ResponseTableValue(intents, t);
  }
}
