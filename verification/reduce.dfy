/**
 * The two-stage summarization drivers of app/utils.py: `describe_cluster`,
 * `describe_channel` and the one-level `extract_locations_from_clusters`.
 *
 * The language model is an abstract oracle: `summarize` and `merge` map one
 * rendered batch to one response, `locate` maps one batch to a list of
 * locations and `top` picks the final list. The `while len(responses) > 1`
 * loop has no bound in the source, so the model runs it on explicit fuel and
 * reports running out of it as an outcome of its own.
 */
module Reduction {
  import opened Wrappers
  import opened Packer
  import opened Batches

  /** `128000 * 0.75`, the default `context_limit` of `fill_context` (line 37). */
  const ClusterLimit: nat := 96000

  /** `128000 * 0.6`, the second-stage limit of `describe_channel` (line 241). */
  const ChannelLimit: nat := 76800

  /** One model call: a rendered batch in, a response out. */
  type Oracle = string -> string

  datatype Failure =
    | NoResponses      // `responses[0]` on an empty list: IndexError
    | PackerLoops      // `fill_context` never returns (texts with 0 tokens in total)
    | OutOfFuel        // the `while len(responses) > 1` loop is still running

  /** One turn of the reduction loop: the responses so far and the round number in, the next responses out. */
  type Round = (seq<string>, nat) -> Result<seq<string>, Failure>

  /** One oracle call per batch, answers in batch order. */
  function AskEach(batches: seq<string>, oracle: Oracle): (r: seq<string>)
    ensures |r| == |batches|
    ensures forall i :: 0 <= i < |batches| ==> r[i] == oracle(batches[i])
  {
    seq(|batches|, i requires 0 <= i < |batches| => oracle(batches[i]))
  }

  /** `sumarization_of_sumarizations` (lines 108-143, 240-268): re-pack the responses and merge each batch. */
  function MergeRound(responses: seq<string>, limit: nat, merge: Oracle, tok: Tokenizer, rng: Rng): (r: Result<seq<string>, Failure>)
    requires limit > 0
    ensures r.Err? <==> |responses| > 0 && TokenSum(responses, tok) == 0
    ensures r.Err? ==> r.error == PackerLoops
    ensures r.Ok? ==> |r.value| == CeilDiv(TokenSum(responses, tok), limit)
    ensures r.Ok? ==> forall i :: 0 <= i < |r.value| ==>
              r.value[i] == merge(FillContext(responses, limit, "summary", tok, rng).batches[i])
  {
    match FillContext(responses, limit, "summary", tok, rng)
    case LoopsForever => Err(PackerLoops)
    case Filled(batches, _) => Ok(AskEach(batches, merge))
  }

  /** The merge round the drivers run; round k draws its randomness from `rngs(k)`. */
  function MergeStep(limit: nat, merge: Oracle, tok: Tokenizer, rngs: nat -> Rng): (r: Round)
    requires limit > 0
  {
    (responses: seq<string>, round: nat) => MergeRound(responses, limit, merge, tok, rngs(round))
  }

  /** Lines 169-171 / 288-291: `while len(responses) > 1: responses = next round`, then `responses[0]`. */
  function ReduceLoop(responses: seq<string>, step: Round, round: nat, fuel: nat): (r: Result<string, Failure>)
    ensures |responses| == 0 ==> r == Err(NoResponses)
    ensures |responses| == 1 ==> r == Ok(responses[0])
    decreases fuel
  {
    if |responses| > 1 then
      if fuel == 0 then Err(OutOfFuel)
      else
        match step(responses, round)
        case Err(e) => Err(e)
        case Ok(next) => ReduceLoop(next, step, round + 1, fuel - 1)
    else if |responses| == 0 then Err(NoResponses)
    else Ok(responses[0])
  }

  /**
   * The shared shape of `describe_cluster` and `describe_channel`: pack the
   * messages at the default limit with the `msg` tag, summarize each batch,
   * then reduce at `secondLimit`.
   */
  function Describe(msgs: seq<string>, secondLimit: nat, summarize: Oracle, merge: Oracle,
                    tok: Tokenizer, rngs: nat -> Rng, fuel: nat): (r: Result<string, Failure>)
    requires secondLimit > 0
    ensures |msgs| == 0 ==> r == Err(NoResponses)
    ensures |msgs| > 0 && TokenSum(msgs, tok) == 0 ==> r == Err(PackerLoops)
  {
    match FillContext(msgs, ClusterLimit, "msg", tok, rngs(0))
    case LoopsForever => Err(PackerLoops)
    case Filled(batches, _) => ReduceLoop(AskEach(batches, summarize), MergeStep(secondLimit, merge, tok, rngs), 1, fuel)
  }

  /** `describe_cluster` (lines 162-173): the description, and a topic that is always `None`. */
  function DescribeCluster(msgs: seq<string>, summarize: Oracle, merge: Oracle,
                           tok: Tokenizer, rngs: nat -> Rng, fuel: nat): (r: Result<(string, Option<string>), Failure>)
    ensures r.Ok? ==> r.value.1 == None
    ensures r.Ok? <==> Describe(msgs, ClusterLimit, summarize, merge, tok, rngs, fuel).Ok?
  {
    match Describe(msgs, ClusterLimit, summarize, merge, tok, rngs, fuel)
    case Err(e) => Err(e)
    case Ok(d) => Ok((d, None))
  }

  /** `describe_channel` (lines 216-293): the same reduction, merging at the smaller limit. */
  function DescribeChannel(msgs: seq<string>, summarize: Oracle, merge: Oracle,
                           tok: Tokenizer, rngs: nat -> Rng, fuel: nat): (r: Result<string, Failure>)
    ensures |msgs| == 0 ==> r == Err(NoResponses)
    ensures |msgs| > 0 && TokenSum(msgs, tok) == 0 ==> r == Err(PackerLoops)
  {
    Describe(msgs, ChannelLimit, summarize, merge, tok, rngs, fuel)
  }

  /** `[item for sublist in responses for item in sublist]`. */
  function Flatten(lists: seq<seq<string>>): (r: seq<string>)
  {
    if |lists| == 0 then [] else lists[0] + Flatten(lists[1..])
  }

  /** Every batch's location list, one call per batch, joined in batch order. */
  function Located(batches: seq<string>, locate: string -> seq<string>): (r: seq<string>)
  {
    Flatten(seq(|batches|, i requires 0 <= i < |batches| => locate(batches[i])))
  }

  /** `extract_locations_from_clusters` (lines 193-213): one call per batch, the lists joined, one last call. */
  function ExtractLocations(texts: seq<string>, locate: string -> seq<string>, top: seq<string> -> seq<string>,
                            tok: Tokenizer, rng: Rng): (r: Result<seq<string>, Failure>)
    ensures r.Err? <==> |texts| > 0 && TokenSum(texts, tok) == 0
    ensures r.Err? ==> r.error == PackerLoops
    ensures |texts| == 0 ==> r == Ok(top([]))
  {
    match FillContext(texts, ClusterLimit, "msg", tok, rng)
    case LoopsForever => Err(PackerLoops)
    case Filled(batches, _) => Ok(top(Located(batches, locate)))
  }

  // ---------------------------------------------------------------- arithmetic of the batch count

  lemma MulMonotone(x: nat, y: nat, d: nat)
    requires x <= y
    ensures x * d <= y * d
  {
    assert y * d == x * d + (y - x) * d;
  }

  /** Fewer than c batches exactly when the total fits into c - 1 of them. */
  lemma CeilDivBelow(a: nat, d: nat, c: nat)
    requires d > 0 && c >= 1
    ensures CeilDiv(a, d) < c <==> a <= (c - 1) * d
  {
    var q := CeilDiv(a, d);
    CeilDivSpec(a, d);
    if q < c {
      MulMonotone(q, c - 1, d);
    } else if a <= (c - 1) * d {
      MulMonotone(c - 1, q - 1, d);
      assert false;
    }
  }

  /** More than k full batches' worth of tokens needs more than k batches. */
  lemma CeilDivAboveTimes(a: nat, d: nat, k: nat)
    requires d > 0 && a > k * d
    ensures CeilDiv(a, d) > k
  {
    var q := CeilDiv(a, d);
    CeilDivSpec(a, d);
    if q <= k {
      MulMonotone(q, k, d);
      assert false;
    }
  }

  // ---------------------------------------------------------------- one merge round

  /**
   * A round whose outcome is `r` leaves fewer than `c` responses exactly when
   * the `a` tokens are positive and fit into `c - 1` batches of `limit`.
   */
  ghost predicate ShrinksExactly(r: Result<seq<string>, Failure>, a: nat, c: nat, limit: nat)
    requires c >= 1
  {
    (r.Ok? && |r.value| < c) <==> 0 < a <= Times(c - 1, limit)
  }

  /**
   * The next round has strictly fewer responses exactly when the tokens are
   * positive and fit into one batch fewer than there are responses.
   */
  lemma RoundShrinks(responses: seq<string>, limit: nat, merge: Oracle, tok: Tokenizer, rng: Rng)
    requires limit > 0 && |responses| >= 1
    ensures ShrinksExactly(MergeRound(responses, limit, merge, tok, rng), TokenSum(responses, tok), |responses|, limit)
  {
    RoundCount(responses, limit, merge, tok, rng);
    ShrinkCases(MergeRound(responses, limit, merge, tok, rng), TokenSum(responses, tok), |responses|, limit);
  }

  /** The case split behind `RoundShrinks`, on the round's outcome alone. */
  lemma ShrinkCases(r: Result<seq<string>, Failure>, a: nat, c: nat, limit: nat)
    requires limit > 0 && c >= 1
    requires r.Ok? <==> a > 0
    requires r.Ok? ==> |r.value| == CeilDiv(a, limit)
    ensures ShrinksExactly(r, a, c, limit)
  {
    TimesIsProduct(c - 1, limit);
    if a > 0 {
      CeilDivBelow(a, limit, c);
    }
  }

  /** A merge round answers exactly when there are tokens, with ceil(total / limit) answers. */
  lemma RoundCount(responses: seq<string>, limit: nat, merge: Oracle, tok: Tokenizer, rng: Rng)
    requires limit > 0 && |responses| >= 1
    ensures var r := MergeRound(responses, limit, merge, tok, rng);
      && (r.Ok? <==> TokenSum(responses, tok) > 0)
      && (r.Ok? ==> |r.value| == CeilDiv(TokenSum(responses, tok), limit) >= 1)
  {
  }

  /** Every response has at least one token and at most half the limit. */
  ghost predicate SmallAll(s: seq<string>, tok: Tokenizer, limit: nat)
  {
    forall i :: 0 <= i < |s| ==> 0 < tok(s[i]) && 2 * tok(s[i]) <= limit
  }

  /** The merge oracle always answers with at least one token and at most half the limit. */
  ghost predicate SmallAnswers(merge: Oracle, tok: Tokenizer, limit: nat)
  {
    forall x :: 0 < tok(merge(x)) && 2 * tok(merge(x)) <= limit
  }

  /** Every response is larger than the limit. */
  ghost predicate LargeAll(s: seq<string>, tok: Tokenizer, limit: nat)
  {
    forall i :: 0 <= i < |s| ==> tok(s[i]) > limit
  }

  /** The merge oracle always answers with more tokens than the limit. */
  ghost predicate LargeAnswers(merge: Oracle, tok: Tokenizer, limit: nat)
  {
    forall x :: tok(merge(x)) > limit
  }

  /** Token total of responses that each have at least one token and at most half a batch. */
  lemma {:induction false} SmallResponses(s: seq<string>, tok: Tokenizer, limit: nat)
    requires SmallAll(s, tok, limit)
    ensures |s| > 0 ==> TokenSum(s, tok) > 0
    ensures 2 * TokenSum(s, tok) <= Times(|s|, limit)
  {
    if |s| > 0 {
      SmallResponses(s[1..], tok, limit);
    }
  }

  /** k responses of at most half a batch each fit into k - 1 batches once k >= 2. */
  lemma HalvesFit(total: nat, k: nat, limit: nat)
    requires k >= 2 && 2 * total <= Times(k, limit)
    ensures total <= (k - 1) * limit
  {
    TimesIsProduct(k, limit);
    MulMonotone(2, k, limit);
    assert (k - 1) * limit == k * limit - limit;
  }

  /** A round over responses of at most half a batch each shrinks, and answers of that size stay that size. */
  lemma SmallRound(responses: seq<string>, limit: nat, merge: Oracle, tok: Tokenizer, rng: Rng)
    returns (next: seq<string>)
    requires limit > 0 && |responses| >= 2
    requires SmallAll(responses, tok, limit) && SmallAnswers(merge, tok, limit)
    ensures MergeRound(responses, limit, merge, tok, rng) == Ok(next)
    ensures 1 <= |next| < |responses| && SmallAll(next, tok, limit)
  {
    SmallTotalFewerBatches(responses, tok, limit);
    RoundCount(responses, limit, merge, tok, rng);
    next := MergeRound(responses, limit, merge, tok, rng).value;
    MergeAnswers(responses, limit, merge, tok, rng);
  }

  /** Two or more responses of at most half a batch each fill fewer batches than there are responses. */
  lemma SmallTotalFewerBatches(s: seq<string>, tok: Tokenizer, limit: nat)
    requires limit > 0 && |s| >= 2 && SmallAll(s, tok, limit)
    ensures 0 < TokenSum(s, tok) && CeilDiv(TokenSum(s, tok), limit) < |s|
  {
    var a := TokenSum(s, tok);
    SmallResponses(s, tok, limit);
    HalvesFit(a, |s|, limit);
    CeilDivBelow(a, limit, |s|);
  }

  /** Every answer of a merge round is a merge answer, so small merge answers make small responses. */
  lemma MergeAnswers(responses: seq<string>, limit: nat, merge: Oracle, tok: Tokenizer, rng: Rng)
    requires limit > 0 && SmallAnswers(merge, tok, limit)
    requires MergeRound(responses, limit, merge, tok, rng).Ok?
    ensures SmallAll(MergeRound(responses, limit, merge, tok, rng).value, tok, limit)
  {
  }

  /** Token total of responses that each exceed the limit. */
  lemma {:induction false} LargeResponses(s: seq<string>, tok: Tokenizer, limit: nat)
    requires LargeAll(s, tok, limit)
    ensures |s| > 0 ==> TokenSum(s, tok) > Times(|s|, limit)
  {
    if |s| > 0 {
      LargeResponses(s[1..], tok, limit);
    }
  }

  /** A round over responses each larger than a batch grows, and answers that large stay that large. */
  lemma LargeRound(responses: seq<string>, limit: nat, merge: Oracle, tok: Tokenizer, rng: Rng)
    returns (next: seq<string>)
    requires limit > 0 && |responses| >= 2
    requires LargeAll(responses, tok, limit) && LargeAnswers(merge, tok, limit)
    ensures MergeRound(responses, limit, merge, tok, rng) == Ok(next)
    ensures |next| > |responses| && LargeAll(next, tok, limit)
  {
    LargeTotalMoreBatches(responses, tok, limit);
    RoundCount(responses, limit, merge, tok, rng);
    next := MergeRound(responses, limit, merge, tok, rng).value;
    LargeMergeAnswers(responses, limit, merge, tok, rng);
  }

  /** Responses each over the limit fill more batches than there are responses. */
  lemma LargeTotalMoreBatches(s: seq<string>, tok: Tokenizer, limit: nat)
    requires limit > 0 && |s| >= 1 && LargeAll(s, tok, limit)
    ensures 0 < TokenSum(s, tok) && CeilDiv(TokenSum(s, tok), limit) > |s|
  {
    var a := TokenSum(s, tok);
    LargeResponses(s, tok, limit);
    TimesIsProduct(|s|, limit);
    CeilDivAboveTimes(a, limit, |s|);
  }

  /** Merge answers over the limit make responses over the limit. */
  lemma LargeMergeAnswers(responses: seq<string>, limit: nat, merge: Oracle, tok: Tokenizer, rng: Rng)
    requires limit > 0 && LargeAnswers(merge, tok, limit)
    requires MergeRound(responses, limit, merge, tok, rng).Ok?
    ensures LargeAll(MergeRound(responses, limit, merge, tok, rng).value, tok, limit)
  {
  }

  // ---------------------------------------------------------------- the loop, for any round function

  /** Every round from at least two small responses answers with fewer, still small, but some. */
  ghost predicate ShrinksSmall(step: Round, tok: Tokenizer, limit: nat)
  {
    forall rs, k :: |rs| >= 2 && SmallAll(rs, tok, limit) ==>
      && step(rs, k).Ok?
      && 1 <= |step(rs, k).value| < |rs|
      && SmallAll(step(rs, k).value, tok, limit)
  }

  /** Every round from at least two large responses answers with more, still large. */
  ghost predicate GrowsLarge(step: Round, tok: Tokenizer, limit: nat)
  {
    forall rs, k :: |rs| >= 2 && LargeAll(rs, tok, limit) ==>
      && step(rs, k).Ok?
      && |step(rs, k).value| > |rs|
      && LargeAll(step(rs, k).value, tok, limit)
  }

  /** If every round shrinks, `|responses| - 1` rounds are enough to finish. */
  lemma {:induction false} ShrinkingLoopFinishes(responses: seq<string>, step: Round, tok: Tokenizer, limit: nat,
                                                 round: nat, fuel: nat)
    requires |responses| >= 1 && fuel >= |responses| - 1
    requires SmallAll(responses, tok, limit) && ShrinksSmall(step, tok, limit)
    ensures ReduceLoop(responses, step, round, fuel).Ok?
    decreases fuel
  {
    if |responses| > 1 {
      var next := step(responses, round).value;
      ShrinkingLoopFinishes(next, step, tok, limit, round + 1, fuel - 1);
    }
  }

  /** If every round grows, the loop never gets down to one response, whatever the fuel. */
  lemma {:induction false} GrowingLoopNeverFinishes(responses: seq<string>, step: Round, tok: Tokenizer, limit: nat,
                                                    round: nat, fuel: nat)
    requires |responses| >= 2
    requires LargeAll(responses, tok, limit) && GrowsLarge(step, tok, limit)
    ensures ReduceLoop(responses, step, round, fuel) == Err(OutOfFuel)
    decreases fuel
  {
    if fuel > 0 {
      var next := step(responses, round).value;
      GrowingLoopNeverFinishes(next, step, tok, limit, round + 1, fuel - 1);
    }
  }

  // ---------------------------------------------------------------- whole reductions

  /** Merge answers of at most half a batch make every merge round shrink. */
  lemma MergeShrinksSmall(limit: nat, merge: Oracle, tok: Tokenizer, rngs: nat -> Rng)
    requires limit > 0 && SmallAnswers(merge, tok, limit)
    ensures ShrinksSmall(MergeStep(limit, merge, tok, rngs), tok, limit)
  {
    var step := MergeStep(limit, merge, tok, rngs);
    forall rs, k | |rs| >= 2 && SmallAll(rs, tok, limit)
      ensures step(rs, k).Ok? && 1 <= |step(rs, k).value| < |rs| && SmallAll(step(rs, k).value, tok, limit)
    {
      var next := SmallRound(rs, limit, merge, tok, rngs(k));
    }
  }

  /** Merge answers over the limit make every merge round grow. */
  lemma MergeGrowsLarge(limit: nat, merge: Oracle, tok: Tokenizer, rngs: nat -> Rng)
    requires limit > 0 && LargeAnswers(merge, tok, limit)
    ensures GrowsLarge(MergeStep(limit, merge, tok, rngs), tok, limit)
  {
    var step := MergeStep(limit, merge, tok, rngs);
    forall rs, k | |rs| >= 2 && LargeAll(rs, tok, limit)
      ensures step(rs, k).Ok? && |step(rs, k).value| > |rs| && LargeAll(step(rs, k).value, tok, limit)
    {
      var next := LargeRound(rs, limit, merge, tok, rngs(k));
    }
  }

  /**
   * If every merge answer has at least one token and at most half the limit,
   * the reduction of small responses ends within `|responses| - 1` rounds.
   */
  lemma SmallAnswersConverge(responses: seq<string>, limit: nat, merge: Oracle, tok: Tokenizer,
                             rngs: nat -> Rng, round: nat, fuel: nat)
    requires limit > 0 && |responses| >= 1 && fuel >= |responses| - 1
    requires SmallAll(responses, tok, limit) && SmallAnswers(merge, tok, limit)
    ensures ReduceLoop(responses, MergeStep(limit, merge, tok, rngs), round, fuel).Ok?
  {
    MergeShrinksSmall(limit, merge, tok, rngs);
    ShrinkingLoopFinishes(responses, MergeStep(limit, merge, tok, rngs), tok, limit, round, fuel);
  }

  /**
   * If every merge answer is larger than the limit, the reduction of two or
   * more large responses runs until the fuel is gone, whatever the fuel: the
   * source loops forever here.
   */
  lemma LargeAnswersNeverConverge(responses: seq<string>, limit: nat, merge: Oracle, tok: Tokenizer,
                                  rngs: nat -> Rng, round: nat, fuel: nat)
    requires limit > 0 && |responses| >= 2
    requires LargeAll(responses, tok, limit) && LargeAnswers(merge, tok, limit)
    ensures ReduceLoop(responses, MergeStep(limit, merge, tok, rngs), round, fuel) == Err(OutOfFuel)
  {
    MergeGrowsLarge(limit, merge, tok, rngs);
    GrowingLoopNeverFinishes(responses, MergeStep(limit, merge, tok, rngs), tok, limit, round, fuel);
  }

  /**
   * If every summarize answer and every merge answer has at least one token
   * and at most half the second-stage limit, the reduction of messages with
   * tokens returns a description within `ceil(total / 96000) - 1` merge rounds.
   */
  lemma DescribeConverges(msgs: seq<string>, secondLimit: nat, summarize: Oracle, merge: Oracle,
                          tok: Tokenizer, rngs: nat -> Rng, fuel: nat)
    requires secondLimit > 0 && |msgs| > 0 && TokenSum(msgs, tok) > 0
    requires SmallAnswers(summarize, tok, secondLimit) && SmallAnswers(merge, tok, secondLimit)
    requires fuel + 1 >= BatchCount(msgs, ClusterLimit, tok)
    ensures Describe(msgs, secondLimit, summarize, merge, tok, rngs, fuel).Ok?
  {
    var batches := FirstStage(msgs, tok, rngs(0));
    var answers := AskEach(batches, summarize);
    SmallSummaries(batches, summarize, tok, secondLimit);
    SmallAnswersConverge(answers, secondLimit, merge, tok, rngs, 1, fuel);
  }

  /**
   * If every summarize answer and every merge answer is over the second-stage
   * limit, and the messages fill at least two first-stage batches, the
   * reduction never returns, whatever the fuel.
   */
  lemma DescribeNeverConverges(msgs: seq<string>, secondLimit: nat, summarize: Oracle, merge: Oracle,
                               tok: Tokenizer, rngs: nat -> Rng, fuel: nat)
    requires secondLimit > 0 && TokenSum(msgs, tok) > 0 && BatchCount(msgs, ClusterLimit, tok) >= 2
    requires LargeAnswers(summarize, tok, secondLimit) && LargeAnswers(merge, tok, secondLimit)
    ensures Describe(msgs, secondLimit, summarize, merge, tok, rngs, fuel) == Err(OutOfFuel)
  {
    var batches := FirstStage(msgs, tok, rngs(0));
    var answers := AskEach(batches, summarize);
    LargeSummaries(batches, summarize, tok, secondLimit);
    LargeAnswersNeverConverge(answers, secondLimit, merge, tok, rngs, 1, fuel);
  }

  /** Messages with tokens are packed into `ceil(total / 96000)` first-stage batches. */
  lemma FirstStage(msgs: seq<string>, tok: Tokenizer, rng: Rng) returns (batches: seq<string>)
    requires TokenSum(msgs, tok) > 0
    ensures FillContext(msgs, ClusterLimit, "msg", tok, rng) == Filled(batches, FillContext(msgs, ClusterLimit, "msg", tok, rng).stats)
    ensures |batches| == BatchCount(msgs, ClusterLimit, tok) >= 1
  {
    batches := FillContext(msgs, ClusterLimit, "msg", tok, rng).batches;
  }

  /** Small summarize answers make small first-stage responses. */
  lemma SmallSummaries(batches: seq<string>, summarize: Oracle, tok: Tokenizer, limit: nat)
    requires SmallAnswers(summarize, tok, limit)
    ensures SmallAll(AskEach(batches, summarize), tok, limit)
  {
  }

  /** Large summarize answers make large first-stage responses. */
  lemma LargeSummaries(batches: seq<string>, summarize: Oracle, tok: Tokenizer, limit: nat)
    requires LargeAnswers(summarize, tok, limit)
    ensures LargeAll(AskEach(batches, summarize), tok, limit)
  {
  }

  /** `describe_cluster` returns a description, with topic `None`, when all answers are at most 48000 tokens. */
  lemma DescribeClusterConverges(msgs: seq<string>, summarize: Oracle, merge: Oracle,
                                 tok: Tokenizer, rngs: nat -> Rng, fuel: nat)
    requires |msgs| > 0 && TokenSum(msgs, tok) > 0
    requires SmallAnswers(summarize, tok, ClusterLimit) && SmallAnswers(merge, tok, ClusterLimit)
    requires fuel + 1 >= BatchCount(msgs, ClusterLimit, tok)
    ensures var r := DescribeCluster(msgs, summarize, merge, tok, rngs, fuel); r.Ok? && r.value.1 == None
  {
    DescribeConverges(msgs, ClusterLimit, summarize, merge, tok, rngs, fuel);
  }

  /** `describe_channel` returns a description when all answers are at most 38400 tokens. */
  lemma DescribeChannelConverges(msgs: seq<string>, summarize: Oracle, merge: Oracle,
                                 tok: Tokenizer, rngs: nat -> Rng, fuel: nat)
    requires |msgs| > 0 && TokenSum(msgs, tok) > 0
    requires SmallAnswers(summarize, tok, ChannelLimit) && SmallAnswers(merge, tok, ChannelLimit)
    requires fuel + 1 >= BatchCount(msgs, ClusterLimit, tok)
    ensures DescribeChannel(msgs, summarize, merge, tok, rngs, fuel).Ok?
  {
    DescribeConverges(msgs, ChannelLimit, summarize, merge, tok, rngs, fuel);
  }

  /**
   * `describe_channel` never returns when all answers are over 76800 tokens
   * and the messages fill at least two first-stage batches.
   */
  lemma DescribeChannelNeverConverges(msgs: seq<string>, summarize: Oracle, merge: Oracle,
                                      tok: Tokenizer, rngs: nat -> Rng, fuel: nat)
    requires TokenSum(msgs, tok) > 0 && BatchCount(msgs, ClusterLimit, tok) >= 2
    requires LargeAnswers(summarize, tok, ChannelLimit) && LargeAnswers(merge, tok, ChannelLimit)
    ensures DescribeChannel(msgs, summarize, merge, tok, rngs, fuel) == Err(OutOfFuel)
  {
    DescribeNeverConverges(msgs, ChannelLimit, summarize, merge, tok, rngs, fuel);
  }

  /**
   * Empty summarize answers hang the reduction: two or more first-stage
   * batches give two or more responses with 0 tokens in total, and the first
   * merge round's `fill_context` never returns.
   */
  lemma EmptyAnswersHang(msgs: seq<string>, secondLimit: nat, summarize: Oracle, merge: Oracle,
                         tok: Tokenizer, rngs: nat -> Rng, fuel: nat)
    requires secondLimit > 0 && TokenSum(msgs, tok) > 0 && BatchCount(msgs, ClusterLimit, tok) >= 2
    requires forall x :: tok(summarize(x)) == 0
    requires fuel >= 1
    ensures Describe(msgs, secondLimit, summarize, merge, tok, rngs, fuel) == Err(PackerLoops)
  {
    var batches := FirstStage(msgs, tok, rngs(0));
    var answers := AskEach(batches, summarize);
    ZeroSummaries(batches, summarize, tok);
    var step := MergeStep(secondLimit, merge, tok, rngs);
    ZeroRound(answers, secondLimit, merge, tok, rngs(1));
    assert step(answers, 1) == MergeRound(answers, secondLimit, merge, tok, rngs(1));
    FailedRound(answers, step, 1, fuel);
  }

  /** Summarize answers with 0 tokens make first-stage responses with 0 tokens in total. */
  lemma ZeroSummaries(batches: seq<string>, summarize: Oracle, tok: Tokenizer)
    requires forall x :: tok(summarize(x)) == 0
    ensures TokenSum(AskEach(batches, summarize), tok) == 0
  {
    var answers := AskEach(batches, summarize);
    UniformTokens(answers, tok, 0);
    TimesIsProduct(|answers|, 0);
  }

  /** A merge round over responses with 0 tokens in total runs into the endless packer loop. */
  lemma ZeroRound(responses: seq<string>, limit: nat, merge: Oracle, tok: Tokenizer, rng: Rng)
    requires limit > 0 && |responses| >= 1 && TokenSum(responses, tok) == 0
    ensures MergeRound(responses, limit, merge, tok, rng) == Err(PackerLoops)
  {
  }

  /** A round that fails ends the loop with its failure. */
  lemma FailedRound(responses: seq<string>, step: Round, round: nat, fuel: nat)
    requires |responses| >= 2 && fuel >= 1 && step(responses, round).Err?
    ensures ReduceLoop(responses, step, round, fuel) == Err(step(responses, round).error)
  {
  }

  /**
   * The largest `max_completion_tokens` of the reduction's model calls: 700
   * for the cluster summaries (line 104), 1000 for the cluster merges (line
   * 138), 800 for the channel summaries and merges (lines 236, 270).
   */
  const AnswerCap: nat := 1000

  /** Every answer is non-empty and within the completion cap. */
  ghost predicate Capped(oracle: Oracle, tok: Tokenizer)
  {
    forall x :: 0 < tok(oracle(x)) <= AnswerCap
  }

  /** Capped answers are small at both second-stage limits, and never large. */
  lemma CappedIsSmall(oracle: Oracle, tok: Tokenizer)
    requires Capped(oracle, tok)
    ensures SmallAnswers(oracle, tok, ChannelLimit) && SmallAnswers(oracle, tok, ClusterLimit)
    ensures !LargeAnswers(oracle, tok, ChannelLimit) && !LargeAnswers(oracle, tok, ClusterLimit)
  {
    var x: string := "";
    assert tok(oracle(x)) <= AnswerCap;
  }

  /** With non-empty answers within the completion cap, `describe_cluster` returns a description. */
  lemma CappedDescribeClusterConverges(msgs: seq<string>, summarize: Oracle, merge: Oracle,
                                       tok: Tokenizer, rngs: nat -> Rng, fuel: nat)
    requires |msgs| > 0 && TokenSum(msgs, tok) > 0
    requires Capped(summarize, tok) && Capped(merge, tok)
    requires fuel + 1 >= BatchCount(msgs, ClusterLimit, tok)
    ensures var r := DescribeCluster(msgs, summarize, merge, tok, rngs, fuel); r.Ok? && r.value.1 == None
  {
    CappedIsSmall(summarize, tok);
    CappedIsSmall(merge, tok);
    DescribeClusterConverges(msgs, summarize, merge, tok, rngs, fuel);
  }

  /** With non-empty answers within the completion cap, `describe_channel` returns a description. */
  lemma CappedDescribeChannelConverges(msgs: seq<string>, summarize: Oracle, merge: Oracle,
                                       tok: Tokenizer, rngs: nat -> Rng, fuel: nat)
    requires |msgs| > 0 && TokenSum(msgs, tok) > 0
    requires Capped(summarize, tok) && Capped(merge, tok)
    requires fuel + 1 >= BatchCount(msgs, ClusterLimit, tok)
    ensures DescribeChannel(msgs, summarize, merge, tok, rngs, fuel).Ok?
  {
    CappedIsSmall(summarize, tok);
    CappedIsSmall(merge, tok);
    DescribeChannelConverges(msgs, summarize, merge, tok, rngs, fuel);
  }

  /**
   * One message that fits the limit: one summarize call on it alone, returned
   * as it is, with no merge round.
   */
  lemma SingleMessage(msg: string, secondLimit: nat, summarize: Oracle, merge: Oracle, tok: Tokenizer, rngs: nat -> Rng, fuel: nat)
    requires secondLimit > 0 && 0 < tok(msg) <= ClusterLimit
    ensures Describe([msg], secondLimit, summarize, merge, tok, rngs, fuel) == Ok(summarize(Wrap(msg, "msg")))
  {
    FittingText(msg, ClusterLimit, "msg", tok, rngs(0));
  }

  /**
   * Responses that fit one batch together are merged by a single round: the
   * loop returns the one merge answer for that batch.
   */
  lemma FitsInOneRound(responses: seq<string>, limit: nat, merge: Oracle, tok: Tokenizer,
                       rngs: nat -> Rng, round: nat, fuel: nat)
    requires limit > 0 && |responses| >= 2 && fuel >= 1
    requires 0 < TokenSum(responses, tok) <= limit
    ensures ReduceLoop(responses, MergeStep(limit, merge, tok, rngs), round, fuel)
         == Ok(merge(FillContext(responses, limit, "summary", tok, rngs(round)).batches[0]))
  {
    var next := OneBatchRound(responses, limit, merge, tok, rngs(round));
    var step := MergeStep(limit, merge, tok, rngs);
    assert step(responses, round) == MergeRound(responses, limit, merge, tok, rngs(round));
    LastRound(responses, step, round, fuel, next);
  }

  /** A merge round over responses that fit the limit yields exactly one answer. */
  lemma OneBatchRound(responses: seq<string>, limit: nat, merge: Oracle, tok: Tokenizer, rng: Rng)
    returns (next: seq<string>)
    requires limit > 0 && |responses| >= 1 && 0 < TokenSum(responses, tok) <= limit
    ensures MergeRound(responses, limit, merge, tok, rng) == Ok(next)
    ensures |next| == 1 && next[0] == merge(FillContext(responses, limit, "summary", tok, rng).batches[0])
  {
    RoundCount(responses, limit, merge, tok, rng);
    CeilDivWithin(TokenSum(responses, tok), limit);
    next := MergeRound(responses, limit, merge, tok, rng).value;
  }

  /** A positive total within the limit makes one batch. */
  lemma CeilDivWithin(a: nat, d: nat)
    requires 0 < a <= d
    ensures CeilDiv(a, d) == 1
  {
  }

  /** A round that leaves one response ends the loop with it. */
  lemma LastRound(responses: seq<string>, step: Round, round: nat, fuel: nat, next: seq<string>)
    requires |responses| >= 2 && fuel >= 1
    requires step(responses, round) == Ok(next) && |next| == 1
    ensures ReduceLoop(responses, step, round, fuel) == Ok(next[0])
  {
  }

  /** Equal token counts add up to the count times the number of texts. */
  lemma {:induction false} UniformTokens(s: seq<string>, tok: Tokenizer, c: nat)
    requires forall i :: 0 <= i < |s| ==> tok(s[i]) == c
    ensures TokenSum(s, tok) == Times(|s|, c)
  {
    if |s| > 0 {
      UniformTokens(s[1..], tok, c);
    }
  }

  /** Ten texts of 100 tokens at a limit of 350 make `ceil(1000 / 350) = 3` batches. */
  lemma TenTextsThreeBatches(texts: seq<string>, sep: string, tok: Tokenizer, rng: Rng)
    requires |texts| == 10 && forall i :: 0 <= i < |texts| ==> tok(texts[i]) == 100
    ensures FillContext(texts, 350, sep, tok, rng).Filled?
    ensures |FillContext(texts, 350, sep, tok, rng).batches| == 3
  {
    UniformTokens(texts, tok, 100);
    assert Times(10, 100) == 1000;
    assert CeilDiv(1000, 350) == 3;
  }

  // ---------------------------------------------------------------- extract_locations_from_clusters

  /** A location is in the flattened list exactly when some batch's list has it. */
  lemma {:induction false} FlattenMembership(lists: seq<seq<string>>, x: string)
    ensures x in Flatten(lists) <==> exists i :: 0 <= i < |lists| && x in lists[i]
  {
    if |lists| > 0 {
      FlattenMembership(lists[1..], x);
      if x in Flatten(lists[1..]) {
        var i :| 0 <= i < |lists[1..]| && x in lists[1..][i];
        assert x in lists[i + 1];
      }
      if exists i :: 0 <= i < |lists| && x in lists[i] {
        var i :| 0 <= i < |lists| && x in lists[i];
        if i > 0 {
          assert x in lists[1..][i - 1];
        }
      }
    }
  }

  /** Flattening keeps batch order: the lists of earlier batches come first. */
  lemma {:induction false} FlattenConcat(a: seq<seq<string>>, b: seq<seq<string>>)
    ensures Flatten(a + b) == Flatten(a) + Flatten(b)
  {
    if |a| == 0 {
      assert a + b == b;
    } else {
      assert (a + b)[1..] == a[1..] + b;
      FlattenConcat(a[1..], b);
    }
  }

  /** The final call is shown a location exactly when some batch reported it. */
  lemma LocatedMembership(batches: seq<string>, locate: string -> seq<string>, x: string)
    ensures x in Located(batches, locate) <==> exists i :: 0 <= i < |batches| && x in locate(batches[i])
  {
    var lists := seq(|batches|, i requires 0 <= i < |batches| => locate(batches[i]));
    FlattenMembership(lists, x);
    if exists i :: 0 <= i < |batches| && x in locate(batches[i]) {
      var i :| 0 <= i < |batches| && x in locate(batches[i]);
      assert x in lists[i];
    }
    if x in Located(batches, locate) {
      var i :| 0 <= i < |lists| && x in lists[i];
      assert x in locate(batches[i]);
    }
  }

  /** Batch order is kept: the locations of the earlier batches come first. */
  lemma LocatedConcat(a: seq<string>, b: seq<string>, locate: string -> seq<string>)
    ensures Located(a + b, locate) == Located(a, locate) + Located(b, locate)
  {
    var la := seq(|a|, i requires 0 <= i < |a| => locate(a[i]));
    var lb := seq(|b|, i requires 0 <= i < |b| => locate(b[i]));
    assert seq(|a + b|, i requires 0 <= i < |a + b| => locate((a + b)[i])) == la + lb;
    FlattenConcat(la, lb);
  }
}
