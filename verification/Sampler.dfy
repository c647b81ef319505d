/** The rotating samplers of the runtime benchmark (benches/runtime_replay.rs). */
module Sampler {
  import opened Basics
  import opened Sorting
  import opened Medians
  import opened Rotation
  import opened Sequences
  import opened Schedule

  datatype RuntimeSamples = RuntimeSamples(
    warmupOrder: seq<seq<nat>>, sampleOrder: seq<seq<nat>>, channels: seq<seq<nat>>)

  /** What the benchmarked code answers to its n-th call: a duration or a failure. */
  type Answers = (nat, bool, nat) -> Result<nat, string>

  function Orders(channels: nat, rounds: nat): seq<seq<nat>> {
    seq(rounds, round requires 0 <= round < rounds => RotatingRound(channels, round))
  }

  function NoSamples(channels: nat): (r: seq<seq<nat>>)
    ensures |r| == channels && forall c :: 0 <= c < channels ==> r[c] == []
  {
    seq(channels, _ => [])
  }

  /** Every call made was answered by the code under test. */
  ghost predicate Honest(answers: Answers, trace: seq<Row>) {
    forall i :: 0 <= i < |trace| ==> answers(i, trace[i].warmup, trace[i].channel) == Ok(trace[i].duration)
  }

  /** The calls `rows` were made after `before` as planned in `slots`, and the next planned one failed. */
  ghost predicate StoppedAfter(answers: Answers, before: seq<Row>, rows: seq<Row>, slots: seq<Slot>, error: string) {
    && |rows| < |slots| && Follows(rows, slots)
    && answers(|before| + |rows|, slots[|rows|].warmup, slots[|rows|].channel) == Err(error)
  }

  ghost predicate Stopped(answers: Answers, trace: seq<Row>, slots: seq<Slot>, error: string) {
    StoppedAfter(answers, [], trace, slots, error)
  }

  /** A call that fails in one stretch of a plan stops the plan. */
  lemma StoppedInPlan(
    answers: Answers, before: seq<Row>, done: seq<Row>, rows: seq<Row>, past: seq<Slot>, slots: seq<Slot>,
    plan: seq<Slot>, error: string
  )
    requires Matches(done, past) && StoppedAfter(answers, before + done, rows, slots, error) && past + slots <= plan
    ensures StoppedAfter(answers, before, done + rows, plan, error)
  {
    var stretch := past + slots;
    assert plan[..|stretch|] == stretch;
    assert forall i :: 0 <= i < |stretch| ==> plan[i] == stretch[i];
    assert Follows(done + rows, stretch);
  }

  /** The measured part of the trace, round by round. */
  ghost predicate Rounds(channels: nat, repetitions: nat, parts: seq<seq<Row>>) {
    forall r :: 0 <= r < |parts| ==> Matches(parts[r], RoundSlots(channels, false, r, repetitions))
  }

  /** One value for each round: the upper median of the channel's calls in that round. */
  ghost predicate MediansOf(parts: seq<seq<Row>>, channel: nat, medians: seq<nat>) {
    && |medians| == |parts|
    && forall r :: 0 <= r < |parts| ==> Of(parts[r], channel) != [] && medians[r] == UpperMedian(Of(parts[r], channel))
  }

  ghost predicate Summarized(channels: nat, parts: seq<seq<Row>>, samples: seq<seq<nat>>) {
    |samples| == channels && forall c :: 0 <= c < channels ==> MediansOf(parts, c, samples[c])
  }

  /** A complete run: the warm-up, the measured rounds, and one value for each channel and round. */
  ghost predicate Sampled(
    channels: nat, warmups: nat, rounds: nat, repetitions: nat,
    trace: seq<Row>, warm: seq<Row>, parts: seq<seq<Row>>, samples: seq<seq<nat>>
  ) {
    && trace == warm + Concat(parts) && |parts| == rounds
    && Matches(warm, Phase(channels, true, warmups, 1))
    && Rounds(channels, repetitions, parts)
    && Summarized(channels, parts, samples)
  }

  /** The measured rounds follow the measured phase of the plan. */
  lemma {:induction false} RoundsMatch(channels: nat, repetitions: nat, parts: seq<seq<Row>>)
    requires Rounds(channels, repetitions, parts)
    ensures Matches(Concat(parts), Phase(channels, false, |parts|, repetitions))
  {
    if parts != [] {
      RoundsMatch(channels, repetitions, parts[..|parts| - 1]);
    }
  }

  lemma OneTurnIsRound(channels: nat, warmup: bool, round: nat)
    ensures RoundSlots(channels, warmup, round, 1) == Turn(channels, warmup, round, 0)
  {
    assert RoundSlots(channels, warmup, round, 0) == [];
  }

  lemma MedianOfOne(value: nat)
    ensures UpperMedian([value]) == value
  {
    UpperMedianIsTheMiddle([value], value);
  }

  /** `after` is `samples` with each channel's durations from `rows` added. */
  ghost predicate Collected(samples: seq<seq<nat>>, rows: seq<Row>, after: seq<seq<nat>>) {
    |after| == |samples| && forall c :: 0 <= c < |samples| ==> after[c] == samples[c] + Of(rows, c)
  }

  lemma CollectedOneMore(samples: seq<seq<nat>>, rows: seq<Row>, after: seq<seq<nat>>, row: Row)
    requires Collected(samples, rows, after) && row.channel < |samples|
    ensures Collected(samples, rows + [row], after[row.channel := after[row.channel] + [row.duration]])
  {
    forall c ensures Of(rows + [row], c) == Of(rows, c) + (if c == row.channel then [row.duration] else []) {
      OfOneMore(rows, row, c);
    }
  }

  lemma OrdersOneMore(channels: nat, rounds: nat)
    ensures Orders(channels, rounds + 1) == Orders(channels, rounds) + [RotatingRound(channels, rounds)]
  {
  }

  /** Each part holds one call of each channel, whose duration is the sample of that round. */
  ghost predicate Singles(channels: nat, parts: seq<seq<Row>>, samples: seq<seq<nat>>) {
    |samples| == channels && forall c, i :: 0 <= c < channels && 0 <= i < |parts| ==>
      i < |samples[c]| && Of(parts[i], c) == [samples[c][i]]
  }

  /** The order of a rotating round is that of the planned turn. */
  lemma OrderOfTurn(channels: nat, warmup: bool, round: nat, repetition: nat, order: seq<nat>)
    requires order == RotatingRound(channels, round + repetition)
    ensures OrderFits(channels, order, warmup, Turn(channels, warmup, round, repetition))
  {
    forall i | 0 <= i < channels
      ensures order[i] < channels && Turn(channels, warmup, round, repetition)[i] == Slot(warmup, round, order[i])
    {
      TurnIsRound(channels, warmup, round, repetition, i);
      WhoIsAt(channels, round + repetition, i, 0);
    }
  }

  ghost predicate OrderFits(channels: nat, order: seq<nat>, warmup: bool, slots: seq<Slot>) {
    |order| == |slots| && forall i :: 0 <= i < |order| ==>
      order[i] < channels && slots[i].warmup == warmup && slots[i].channel == order[i]
  }

  /** A call that fails in a measured round stops the run inside the plan. */
  lemma StoppedInRound(
    answers: Answers, channels: nat, warmups: nat, rounds: nat, repetitions: nat, done: seq<Row>,
    warm: seq<Row>, parts: seq<seq<Row>>, samples: seq<seq<nat>>, part: seq<Row>, error: string
  )
    requires Sampled(channels, warmups, |parts|, repetitions, done, warm, parts, samples) && |parts| < rounds
    requires StoppedAfter(answers, done, part, RoundSlots(channels, false, |parts|, repetitions), error)
    ensures Stopped(answers, done + part, Plan(channels, warmups, rounds, repetitions), error)
  {
    var a, b := Phase(channels, true, warmups, 1), Phase(channels, false, |parts|, repetitions);
    var slots := RoundSlots(channels, false, |parts|, repetitions);
    RoundsMatch(channels, repetitions, parts);
    MatchesConcat(warm, Concat(parts), a, b);
    PhaseGrows(channels, false, |parts| + 1, rounds, repetitions);
    assert a + b + slots == a + (b + slots);
    assert [] + done == done;
    StoppedInPlan(answers, [], done, part, a + b, slots, Plan(channels, warmups, rounds, repetitions), error);
  }

  lemma WarmUpInPlan(
    answers: Answers, trace: seq<Row>, channels: nat, warmups: nat, rounds: nat, repetitions: nat, error: string
  )
    requires Stopped(answers, trace, Phase(channels, true, warmups, 1), error)
    ensures Stopped(answers, trace, Plan(channels, warmups, rounds, repetitions), error)
  {
  }

  lemma NothingSampled(channels: nat, warmups: nat, repetitions: nat, warm: seq<Row>)
    requires Matches(warm, Phase(channels, true, warmups, 1))
    ensures Sampled(channels, warmups, 0, repetitions, warm, warm, [], NoSamples(channels))
    ensures Singles(channels, [], NoSamples(channels))
  {
  }

  lemma MedianOneMore(parts: seq<seq<Row>>, channel: nat, medians: seq<nat>, part: seq<Row>)
    requires MediansOf(parts, channel, medians) && Of(part, channel) != []
    ensures MediansOf(parts + [part], channel, medians + [UpperMedian(Of(part, channel))])
  {
    hide Of, UpperMedian;
  }

  /** One more round and one more value for each channel. */
  lemma OneMoreRound(
    channels: nat, warmups: nat, repetitions: nat, trace: seq<Row>, warm: seq<Row>, parts: seq<seq<Row>>,
    samples: seq<seq<nat>>, part: seq<Row>, samples2: seq<seq<nat>>
  )
    requires Sampled(channels, warmups, |parts|, repetitions, trace, warm, parts, samples)
    requires Matches(part, RoundSlots(channels, false, |parts|, repetitions)) && |samples2| == channels
    requires forall c :: 0 <= c < channels ==>
               Of(part, c) != [] && samples2[c] == samples[c] + [UpperMedian(Of(part, c))]
    ensures Sampled(channels, warmups, |parts| + 1, repetitions, trace + part, warm, parts + [part], samples2)
  {
    hide Of, UpperMedian, MediansOf, Phase, RoundSlots;
    forall c | 0 <= c < channels ensures MediansOf(parts + [part], c, samples2[c]) {
      MedianOneMore(parts, c, samples[c], part);
    }
    ConcatOneMore(parts, part);
  }

  /** A single turn gives each channel the one value that is its median. */
  lemma OneSampleEach(
    channels: nat, warmups: nat, trace: seq<Row>, warm: seq<Row>, parts: seq<seq<Row>>,
    samples: seq<seq<nat>>, rows: seq<Row>, after: seq<seq<nat>>
  )
    requires Sampled(channels, warmups, |parts|, 1, trace, warm, parts, samples) && Singles(channels, parts, samples)
    requires Matches(rows, Turn(channels, false, |parts|, 0)) && Collected(samples, rows, after)
    ensures Sampled(channels, warmups, |parts| + 1, 1, trace + rows, warm, parts + [rows], after)
    ensures Singles(channels, parts + [rows], after)
  {
    OneTurnIsRound(channels, false, |parts|);
    forall c | 0 <= c < channels
      ensures |Of(rows, c)| == 1 && after[c] == samples[c] + [UpperMedian(Of(rows, c))] && |samples[c]| == |parts|
      ensures Of(rows, c) == [after[c][|parts|]]
    {
      assert MediansOf(parts, c, samples[c]);
      TurnCallsEachOnce(channels, false, |parts|, 0, rows, c);
      MedianOfOne(Of(rows, c)[0]);
      assert Of(rows, c) == [Of(rows, c)[0]];
    }
    OneMoreRound(channels, warmups, 1, trace, warm, parts, samples, rows, after);
  }

  lemma TurnInRound(channels: nat, round: nat, k: nat, repetitions: nat)
    requires k < repetitions
    ensures RoundSlots(channels, false, round, k) + Turn(channels, false, round, k)
         <= RoundSlots(channels, false, round, repetitions)
  {
    RoundSlotsGrow(channels, false, round, k + 1, repetitions);
  }

  lemma RoundInPhase(channels: nat, warmup: bool, round: nat, rounds: nat, repetitions: nat)
    requires round < rounds
    ensures Phase(channels, warmup, round, repetitions) + RoundSlots(channels, warmup, round, repetitions)
         <= Phase(channels, warmup, rounds, repetitions)
  {
    PhaseGrows(channels, warmup, round + 1, rounds, repetitions);
  }

  lemma WarmUpRound(channels: nat, round: nat, before: seq<Row>, rows: seq<Row>)
    requires Matches(before, Phase(channels, true, round, 1)) && Matches(rows, Turn(channels, true, round, 0))
    ensures Matches(before + rows, Phase(channels, true, round + 1, 1))
  {
    OneTurnIsRound(channels, true, round);
    MatchesConcat(before, rows, Phase(channels, true, round, 1), Turn(channels, true, round, 0));
  }

  lemma NoRounds(channels: nat, warmup: bool, repetitions: nat)
    ensures Matches([], Phase(channels, warmup, 0, repetitions)) && Orders(channels, 0) == []
  {
  }

  lemma NoTurns(channels: nat, warmup: bool, round: nat)
    ensures Matches([], RoundSlots(channels, warmup, round, 0))
    ensures Collected(NoSamples(channels), [], NoSamples(channels))
  {
  }

  lemma SamplesAre(samples: seq<seq<nat>>, rows: seq<Row>, after: seq<seq<nat>>)
    requires Collected(samples, rows, after)
    ensures |after| == |samples|
  {
  }

  lemma TurnAdded(
    channels: nat, round: nat, repetition: nat, part: seq<Row>, raw: seq<seq<nat>>, rows: seq<Row>, after: seq<seq<nat>>
  )
    requires Matches(part, RoundSlots(channels, false, round, repetition)) && Collected(NoSamples(channels), part, raw)
    requires Matches(rows, Turn(channels, false, round, repetition)) && Collected(raw, rows, after)
    ensures Matches(part + rows, RoundSlots(channels, false, round, repetition + 1))
    ensures Collected(NoSamples(channels), part + rows, after) && |after| == channels
  {
    forall c ensures Of(part + rows, c) == Of(part, c) + Of(rows, c) {
      OfConcat(part, rows, c);
    }
  }

  lemma RoundCollected(channels: nat, round: nat, repetitions: nat, part: seq<Row>, raw: seq<seq<nat>>)
    requires Matches(part, RoundSlots(channels, false, round, repetitions)) && Collected(NoSamples(channels), part, raw)
    ensures |raw| == channels && forall c :: 0 <= c < channels ==> |raw[c]| == repetitions
  {
    forall c | 0 <= c < channels ensures |raw[c]| == repetitions {
      RoundCallsEachPerTurn(channels, false, round, repetitions, part, c);
    }
  }

  /** The durations collected over the turns of a round, reduced to one median for each channel. */
  lemma MediansTaken(
    channels: nat, warmups: nat, repetitions: nat, trace: seq<Row>, warm: seq<Row>, parts: seq<seq<Row>>,
    samples: seq<seq<nat>>, part: seq<Row>, raw: seq<seq<nat>>, samples2: seq<seq<nat>>
  )
    requires Sampled(channels, warmups, |parts|, repetitions, trace, warm, parts, samples) && 0 < repetitions
    requires Matches(part, RoundSlots(channels, false, |parts|, repetitions)) && |samples2| == channels
    requires |raw| == channels && Collected(NoSamples(channels), part, raw)
    requires forall c :: 0 <= c < channels && raw[c] != [] ==> samples2[c] == samples[c] + [UpperMedian(raw[c])]
    ensures Sampled(channels, warmups, |parts| + 1, repetitions, trace + part, warm, parts + [part], samples2)
  {
    forall c | 0 <= c < channels ensures Of(part, c) != [] && raw[c] == Of(part, c) {
      RoundCallsEachPerTurn(channels, false, |parts|, repetitions, part, c);
    }
    OneMoreRound(channels, warmups, repetitions, trace, warm, parts, samples, part, samples2);
  }

  /** Sorts each channel's durations and takes the middle one. */
  method TakeMedians(raw: seq<seq<nat>>, repetitions: nat, samples: seq<seq<nat>>) returns (after: seq<seq<nat>>)
    requires |raw| == |samples| && 0 < repetitions && forall c :: 0 <= c < |raw| ==> |raw[c]| == repetitions
    ensures |after| == |samples|
    ensures forall c :: 0 <= c < |raw| ==> after[c] == samples[c] + [UpperMedian(raw[c])]
  {
    after := samples;
    var channel := 0;
    while channel < |raw|
      invariant 0 <= channel <= |raw| && |after| == |samples|
      invariant forall c :: 0 <= c < |raw| ==>
                  after[c] == if c < channel then samples[c] + [UpperMedian(raw[c])] else samples[c]
    {
      var sorted := Sort(NumberLe, raw[channel]);
      SortKeepsLength(raw[channel]);
      after := after[channel := after[channel] + [sorted[repetitions / 2]]];
      channel := channel + 1;
    }
  }

  /** The code under test and the record of its calls. */
  class Bench {
    const answers: Answers
    var trace: seq<Row>

    constructor (answers: Answers)
      ensures this.answers == answers && trace == []
    {
      this.answers, trace := answers, [];
    }

    method Call(channel: nat, warmup: bool) returns (r: Result<nat, string>)
      requires Honest(answers, trace)
      modifies this
      ensures Honest(answers, trace) && r == answers(|old(trace)|, warmup, channel)
      ensures trace == if r.Ok? then old(trace) + [Row(warmup, channel, r.value)] else old(trace)
    {
      r := answers(|trace|, warmup, channel);
      if r.Ok? {
        trace := trace + [Row(warmup, channel, r.value)];
      }
    }

    /** Calls the channels in the given order, adding each duration to its channel's list. */
    method Visit(order: seq<nat>, warmup: bool, samples: seq<seq<nat>>, ghost slots: seq<Slot>)
      returns (r: Result<seq<seq<nat>>, string>, ghost rows: seq<Row>)
      requires Honest(answers, trace) && OrderFits(|samples|, order, warmup, slots)
      modifies this
      ensures Honest(answers, trace) && trace == old(trace) + rows
      ensures match r
              case Ok(after) => Matches(rows, slots) && Collected(samples, rows, after)
              case Err(error) => StoppedAfter(answers, old(trace), rows, slots, error)
    {
      var after := samples;
      rows := [];
      assert Collected(samples, [], samples);
      hide Collected, Of, Turn, RotatingRound, Phase, RoundSlots, Honest;
      var i := 0;
      while i < |order|
        invariant 0 <= i <= |order| && |rows| == i && Follows(rows, slots)
        invariant Honest(answers, trace) && trace == old(trace) + rows
        invariant |after| == |samples| && Collected(samples, rows, after)
      {
        var channel := order[i];
        var duration := Call(channel, warmup);
        if duration.Err? {
          return Err(duration.error), rows;
        }
        ghost var row := Row(warmup, channel, duration.value);
        CollectedOneMore(samples, rows, after, row);
        after := after[channel := after[channel] + [duration.value]];
        rows := rows + [row];
        i := i + 1;
      }
      return Ok(after), rows;
    }

    /** The warm-up rounds, whose durations are dropped. */
    method WarmUp(channels: nat, warmups: nat) returns (r: Result<seq<seq<nat>>, string>)
      requires trace == []
      modifies this
      ensures Honest(answers, trace)
      ensures match r
              case Ok(order) => Matches(trace, Phase(channels, true, warmups, 1)) && order == Orders(channels, warmups)
              case Err(error) => Stopped(answers, trace, Phase(channels, true, warmups, 1), error)
    {
      var orders, round := [], 0;
      NoRounds(channels, true, 1);
      hide Matches, Phase, Turn, RoundSlots, Orders, RotatingRound, Collected, Of, StoppedAfter, OrderFits;
      while round < warmups
        invariant 0 <= round <= warmups && orders == Orders(channels, round)
        invariant Honest(answers, trace) && Matches(trace, Phase(channels, true, round, 1))
      {
        var order := RotatingRound(channels, round);
        ghost var before := trace;
        OrderOfTurn(channels, true, round, 0, order);
        var visited, rows := Visit(order, true, NoSamples(channels), Turn(channels, true, round, 0));
        if visited.Err? {
          RoundInPhase(channels, true, round, warmups, 1);
          OneTurnIsRound(channels, true, round);
          assert [] + before == before;
          StoppedInPlan(answers, [], before, rows, Phase(channels, true, round, 1), Turn(channels, true, round, 0),
                        Phase(channels, true, warmups, 1), visited.error);
          return Err(visited.error);
        }
        WarmUpRound(channels, round, before, rows);
        OrdersOneMore(channels, round);
        orders := orders + [order];
        round := round + 1;
      }
      return Ok(orders);
    }

    /** One call of each channel in each round. */
    method SampleRotatingChannels(channels: nat, warmups: nat, iterations: nat)
      returns (r: Result<RuntimeSamples, string>, ghost warm: seq<Row>, ghost parts: seq<seq<Row>>)
      requires trace == []
      modifies this
      ensures Honest(answers, trace)
      ensures match r
              case Ok(result) =>
                && result.warmupOrder == Orders(channels, warmups) && result.sampleOrder == Orders(channels, iterations)
                && Sampled(channels, warmups, iterations, 1, trace, warm, parts, result.channels)
                && Singles(channels, parts, result.channels)
              case Err(error) => Stopped(answers, trace, Plan(channels, warmups, iterations, 1), error)
    {
      warm, parts := [], [];
      var warmupOrder := WarmUp(channels, warmups);
      if warmupOrder.Err? {
        WarmUpInPlan(answers, trace, channels, warmups, iterations, 1, warmupOrder.error);
        return Err(warmupOrder.error), warm, parts;
      }
      warm := trace;
      var samples, sampleOrder, round := NoSamples(channels), [], 0;
      NothingSampled(channels, warmups, 1, trace);
      hide *;
      while round < iterations
        invariant 0 <= round <= iterations && |parts| == round && sampleOrder == Orders(channels, round)
        invariant Honest(answers, trace) && Sampled(channels, warmups, round, 1, trace, warm, parts, samples)
        invariant |samples| == channels && Singles(channels, parts, samples)
      {
        var order := RotatingRound(channels, round);
        OrderOfTurn(channels, false, round, 0, order);
        ghost var before := trace;
        var visited, rows := Visit(order, false, samples, Turn(channels, false, round, 0));
        if visited.Err? {
          OneTurnIsRound(channels, false, round);
          StoppedInRound(answers, channels, warmups, iterations, 1, before, warm, parts, samples, rows, visited.error);
          return Err(visited.error), warm, parts;
        }
        SamplesAre(samples, rows, visited.value);
        OneSampleEach(channels, warmups, before, warm, parts, samples, rows, visited.value);
        OrdersOneMore(channels, round);
        samples, sampleOrder, parts := visited.value, sampleOrder + [order], parts + [rows];
        round := round + 1;
      }
      return Ok(RuntimeSamples(warmupOrder.value, sampleOrder, samples)), warm, parts;
    }

    /** The upper median of a number of calls of one channel. */
    method SampleUpperMedian(count: nat) returns (r: Result<nat, string>, ghost rows: seq<Row>)
      requires Honest(answers, trace) && 0 < count
      modifies this
      ensures Honest(answers, trace) && trace == old(trace) + rows
      ensures match r
              case Ok(median) =>
                |rows| == |Of(rows, 0)| == count && IsUpperMedian(Of(rows, 0), median)
              case Err(error) => |rows| < count && answers(|trace|, false, 0) == Err(error)
    {
      var samples := new nat[count](_ => 0);
      rows := [];
      var i := 0;
      while i < samples.Length
        invariant 0 <= i <= samples.Length && fresh(samples)
        invariant Honest(answers, trace) && trace == old(trace) + rows
        invariant |rows| == i && samples[..i] == Of(rows, 0)
      {
        var duration := Call(0, false);
        if duration.Err? {
          return Err(duration.error), rows;
        }
        OfOneMore(rows, Row(false, 0, duration.value), 0);
        samples[i] := duration.value;
        rows := rows + [Row(false, 0, duration.value)];
        i := i + 1;
      }
      assert samples[..] == samples[..i];
      var sorted := Sort(NumberLe, samples[..]);
      SortKeepsLength(samples[..]);
      UpperMedianIsTheMiddle(samples[..], sorted[count / 2]);
      return Ok(sorted[count / 2]), rows;
    }

    /** The turns of one round, with the durations of each channel. */
    method MeasureRound(round: nat, repetitions: nat)
      returns (r: Result<seq<seq<nat>>, string>, ghost part: seq<Row>)
      requires Honest(answers, trace)
      modifies this
      ensures Honest(answers, trace) && trace == old(trace) + part
      ensures match r
              case Ok(raw) =>
                && Matches(part, RoundSlots(3, false, round, repetitions)) && Collected(NoSamples(3), part, raw)
                && |raw| == 3 && forall c :: 0 <= c < 3 ==> |raw[c]| == repetitions
              case Err(error) =>
                StoppedAfter(answers, old(trace), part, RoundSlots(3, false, round, repetitions), error)
    {
      var raw := NoSamples(3);
      part := [];
      var repetition := 0;
      NoTurns(3, false, round);
      hide *;
      while repetition < repetitions
        invariant 0 <= repetition <= repetitions && |raw| == 3
        invariant Honest(answers, trace) && trace == old(trace) + part
        invariant Matches(part, RoundSlots(3, false, round, repetition)) && Collected(NoSamples(3), part, raw)
      {
        var order := RotatingRound(3, round + repetition);
        OrderOfTurn(3, false, round, repetition, order);
        var visited, rows := Visit(order, false, raw, Turn(3, false, round, repetition));
        assert trace == old(trace) + (part + rows);
        if visited.Err? {
          TurnInRound(3, round, repetition, repetitions);
          StoppedInPlan(answers, old(trace), part, rows, RoundSlots(3, false, round, repetition),
                        Turn(3, false, round, repetition), RoundSlots(3, false, round, repetitions), visited.error);
          part := part + rows;
          return Err(visited.error), part;
        }
        TurnAdded(3, round, repetition, part, raw, rows, visited.value);
        part, raw := part + rows, visited.value;
        repetition := repetition + 1;
      }
      RoundCollected(3, round, repetitions, part, raw);
      return Ok(raw), part;
    }

    /** Three channels, several turns a round, and the upper median of each channel's calls in the round. */
    method SampleThreeChannelsUpperMedian(warmups: nat, iterations: nat, repetitions: nat)
      returns (r: Result<RuntimeSamples, string>, ghost warm: seq<Row>, ghost parts: seq<seq<Row>>)
      requires trace == [] && 0 < repetitions
      modifies this
      ensures Honest(answers, trace)
      ensures match r
              case Ok(result) =>
                && result.warmupOrder == Orders(3, warmups) && result.sampleOrder == Orders(3, iterations)
                && Sampled(3, warmups, iterations, repetitions, trace, warm, parts, result.channels)
              case Err(error) => Stopped(answers, trace, Plan(3, warmups, iterations, repetitions), error)
    {
      warm, parts := [], [];
      var warmupOrder := WarmUp(3, warmups);
      if warmupOrder.Err? {
        WarmUpInPlan(answers, trace, 3, warmups, iterations, repetitions, warmupOrder.error);
        return Err(warmupOrder.error), warm, parts;
      }
      warm := trace;
      var samples, sampleOrder, round := NoSamples(3), [], 0;
      NothingSampled(3, warmups, repetitions, trace);
      hide *;
      while round < iterations
        invariant 0 <= round <= iterations && |parts| == round && sampleOrder == Orders(3, round)
        invariant Honest(answers, trace) && Sampled(3, warmups, round, repetitions, trace, warm, parts, samples)
        invariant |samples| == 3
      {
        ghost var before := trace;
        var measured, part := MeasureRound(round, repetitions);
        if measured.Err? {
          StoppedInRound(answers, 3, warmups, iterations, repetitions, before, warm, parts, samples, part,
              measured.error);
          return Err(measured.error), warm, parts;
        }
        var after := TakeMedians(measured.value, repetitions, samples);
        MediansTaken(3, warmups, repetitions, before, warm, parts, samples, part, measured.value, after);
        OrdersOneMore(3, round);
        samples, sampleOrder, parts := after, sampleOrder + [RotatingRound(3, round)], parts + [part];
        round := round + 1;
      }
      return Ok(RuntimeSamples(warmupOrder.value, sampleOrder, samples)), warm, parts;
    }
  }
}
