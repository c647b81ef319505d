/**
 The independent checker of a benchmark's call log (scripts/check-runtime-observations.py): it makes
 the schedule itself, regroups the log by channel and round, and takes the medians again. The counts
 that the script fixes (3 warm-up rounds, 20 rounds, 7 repetitions) are parameters here.
 */
module TraceChecker {
  import opened Basics
  import opened Sorting
  import opened Medians
  import opened Rotation
  import opened Sequences
  import opened Schedule
  import opened Sampler

  /** One line of the log; a duration may be missing or of another type. */
  datatype LoggedRow = LoggedRow(sequence: int, channel: int, warmup: bool, gateNs: Option<int>)

  /** What the report under examination claims. */
  datatype Report = Report(
    warmupOrder: seq<seq<nat>>, sampleOrder: seq<seq<nat>>, samples: seq<seq<nat>>, medians: seq<nat>)

  function DurationOf(row: LoggedRow): (d: nat) {
    if row.gateNs.Some? && row.gateNs.value > 0 then row.gateNs.value else 0
  }

  /** The line belongs at this place of the schedule and has a duration. */
  predicate Fitting(row: LoggedRow, place: nat, slot: Slot) {
    && row.sequence == place && row.channel == slot.channel && row.warmup == slot.warmup
    && row.gateNs.Some? && row.gateNs.value > 0
  }

  /** The durations that the schedule assigns to one channel and measured round, in log order. */
  function Tagged(durations: seq<nat>, slots: seq<Slot>, channel: nat, round: nat): (r: seq<nat>)
    requires |durations| == |slots|
  {
    if slots == [] then []
    else
      var last := |slots| - 1;
      Tagged(durations[..last], slots[..last], channel, round)
      + (if slots[last] == Slot(false, round, channel) then [durations[last]] else [])
  }

  /** The orders the checker expects in the report. */
  function PlainOrders(rounds: nat): seq<seq<nat>> {
    seq(rounds, i requires 0 <= i < rounds => [i % 3, (i + 1) % 3, (i + 2) % 3])
  }

  ghost predicate LogFits(rows: seq<LoggedRow>, slots: seq<Slot>) {
    |rows| == |slots| && forall i :: 0 <= i < |rows| ==> Fitting(rows[i], i, slots[i])
  }

  ghost predicate RoundMedians(durations: seq<nat>, slots: seq<Slot>, channel: nat, rounds: nat, medians: seq<nat>)
    requires |durations| == |slots|
  {
    && |medians| == rounds
    && forall r :: 0 <= r < rounds ==>
         && Tagged(durations, slots, channel, r) != []
         && medians[r] == UpperMedian(Tagged(durations, slots, channel, r))
  }

  ghost predicate ChannelRebuilt(
    durations: seq<nat>, slots: seq<Slot>, channel: nat, rounds: nat, samples: seq<nat>, median: nat
  )
    requires |durations| == |slots|
  {
    RoundMedians(durations, slots, channel, rounds, samples) && samples != [] && median == UpperMedian(samples)
  }

  ghost predicate MediansRebuilt(durations: seq<nat>, slots: seq<Slot>, rounds: nat, samples: seq<seq<nat>>,
      medians: seq<nat>)
    requires |durations| == |slots|
  {
    && |samples| == 3 && |medians| == 3
    && forall c :: 0 <= c < 3 ==>
         ChannelRebuilt(durations, slots, c, rounds, samples[c], medians[c])
  }

  /** When the checker accepts a report with its log. */
  ghost predicate Accepted(rows: seq<LoggedRow>, warmups: nat, rounds: nat, repetitions: nat, report: Report) {
    var slots := Plan(3, warmups, rounds, repetitions);
    && report.warmupOrder == PlainOrders(warmups) && report.sampleOrder == PlainOrders(rounds)
    && LogFits(rows, slots)
    && MediansRebuilt(Map(DurationOf, rows), slots, rounds, report.samples, report.medians)
  }

  /** The log of a run of the sampler. */
  function Logged(trace: seq<Row>): seq<LoggedRow> {
    seq(|trace|,
        i requires 0 <= i < |trace| => LoggedRow(i, trace[i].channel, trace[i].warmup, Some(trace[i].duration)))
  }

  function Durations(rows: seq<Row>): (r: seq<nat>)
    ensures |r| == |rows|
  {
    seq(|rows|, i requires 0 <= i < |rows| => rows[i].duration)
  }

  lemma {:induction false} TaggedConcat(
    a: seq<nat>, s: seq<Slot>, b: seq<nat>, t: seq<Slot>, channel: nat, round: nat
  )
    requires |a| == |s| && |b| == |t|
    ensures Tagged(a + b, s + t, channel, round) == Tagged(a, s, channel, round) + Tagged(b, t, channel, round)
  {
    if t == [] {
      assert a + b == a && s + t == s;
    } else {
      var last := |t| - 1;
      TaggedConcat(a, s, b[..last], t[..last], channel, round);
      assert (a + b)[..|s| + last] == a + b[..last] && (s + t)[..|s| + last] == s + t[..last];
    }
  }

  /** Calls of other rounds or of the warm-up are not counted. */
  lemma {:induction false} NoneTagged(durations: seq<nat>, slots: seq<Slot>, channel: nat, round: nat)
    requires |durations| == |slots| && forall i :: 0 <= i < |slots| ==> slots[i].warmup || slots[i].round != round
    ensures Tagged(durations, slots, channel, round) == []
  {
    if slots != [] {
      NoneTagged(durations[..|slots| - 1], slots[..|slots| - 1], channel, round);
    }
  }

  /** Within one measured round, the schedule's tags pick the channel's calls. */
  lemma {:induction false} TaggedInRound(rows: seq<Row>, slots: seq<Slot>, channel: nat, round: nat)
    requires Matches(rows, slots) && forall i :: 0 <= i < |slots| ==> !slots[i].warmup && slots[i].round == round
    ensures Tagged(Durations(rows), slots, channel, round) == Of(rows, channel)
  {
    if slots != [] {
      var last := |slots| - 1;
      TaggedInRound(rows[..last], slots[..last], channel, round);
      assert Durations(rows)[..last] == Durations(rows[..last]);
      assert Fits(rows[last], slots[last]);
    }
  }

  lemma {:induction false} SlotsOfRound(channels: nat, warmup: bool, round: nat, repetitions: nat)
    ensures forall i :: 0 <= i < |RoundSlots(channels, warmup, round, repetitions)| ==>
              && RoundSlots(channels, warmup, round, repetitions)[i].warmup == warmup
              && RoundSlots(channels, warmup, round, repetitions)[i].round == round
              && RoundSlots(channels, warmup, round, repetitions)[i].channel < channels
  {
    if repetitions > 0 {
      SlotsOfRound(channels, warmup, round, repetitions - 1);
    }
  }

  lemma {:induction false} SlotsOfWarmUp(channels: nat, rounds: nat, repetitions: nat)
    ensures forall i :: 0 <= i < |Phase(channels, true, rounds, repetitions)| ==>
              Phase(channels, true, rounds, repetitions)[i].warmup
  {
    if rounds > 0 {
      SlotsOfWarmUp(channels, rounds - 1, repetitions);
      SlotsOfRound(channels, true, rounds - 1, repetitions);
    }
  }

  /** Over the measured rounds, the tags of a round pick the channel's calls of that round. */
  lemma {:induction false} TaggedInPhase(channels: nat, repetitions: nat, parts: seq<seq<Row>>, channel: nat,
      round: nat)
    requires Rounds(channels, repetitions, parts)
    ensures |Concat(parts)| == |Phase(channels, false, |parts|, repetitions)|
    ensures Tagged(Durations(Concat(parts)), Phase(channels, false, |parts|, repetitions), channel, round)
         == if round < |parts| then Of(parts[round], channel) else []
  {
    if parts != [] {
      var last := |parts| - 1;
      var before, part := Concat(parts[..last]), parts[last];
      TaggedInPhase(channels, repetitions, parts[..last], channel, round);
      TaggedWithRound(channels, repetitions, last, before, part, channel, round);
      assert Concat(parts) == before + part;
    }
  }

  /** One more round adds the channel's calls of that round to its tags, and none to those of another. */
  lemma TaggedWithRound(channels: nat, repetitions: nat, last: nat, before: seq<Row>, part: seq<Row>,
                        channel: nat, round: nat)
    requires |before| == |Phase(channels, false, last, repetitions)|
    requires Matches(part, RoundSlots(channels, false, last, repetitions))
    ensures |before + part| == |Phase(channels, false, last + 1, repetitions)|
    ensures Tagged(Durations(before + part), Phase(channels, false, last + 1, repetitions), channel, round)
         == Tagged(Durations(before), Phase(channels, false, last, repetitions), channel, round)
            + (if round == last then Of(part, channel) else [])
  {
    var s, t := Phase(channels, false, last, repetitions), RoundSlots(channels, false, last, repetitions);
    SlotsOfRound(channels, false, last, repetitions);
    DurationsConcat(before, part);
    TaggedConcat(Durations(before), s, Durations(part), t, channel, round);
    if round == last {
      TaggedInRound(part, t, channel, round);
    } else {
      NoneTagged(Durations(part), t, channel, round);
    }
  }

  /** Regrouping the flat log by the schedule gives the sampler's own grouping. */
  lemma RegroupingAgrees(
    channels: nat, warmups: nat, rounds: nat, repetitions: nat,
    trace: seq<Row>, warm: seq<Row>, parts: seq<seq<Row>>, samples: seq<seq<nat>>, channel: nat, round: nat
  )
    requires Sampled(channels, warmups, rounds, repetitions, trace, warm, parts, samples) && round < rounds
    ensures Matches(trace, Plan(channels, warmups, rounds, repetitions))
    ensures Tagged(Durations(trace), Plan(channels, warmups, rounds, repetitions), channel, round) ==
              Of(parts[round], channel)
  {
    var s, t := Phase(channels, true, warmups, 1), Phase(channels, false, rounds, repetitions);
    RoundsMatch(channels, repetitions, parts);
    MatchesConcat(warm, Concat(parts), s, t);
    TaggedInPhase(channels, repetitions, parts, channel, round);
    SlotsOfWarmUp(channels, warmups, 1);
    NoneTagged(Durations(warm), s, channel, round);
    hide Tagged, Durations, Phase, Concat, Of, Rounds, Summarized, Follows;
    DurationsConcat(warm, Concat(parts));
    TaggedConcat(Durations(warm), s, Durations(Concat(parts)), t, channel, round);
  }

  lemma DurationsConcat(a: seq<Row>, b: seq<Row>)
    ensures Durations(a + b) == Durations(a) + Durations(b)
  {
  }

  lemma OrdersArePlain(rounds: nat)
    ensures PlainOrders(rounds) == Orders(3, rounds)
  {
    forall i | 0 <= i < rounds ensures PlainOrders(rounds)[i] == Orders(3, rounds)[i] {
      assert RotatingRound(3, i) == [i % 3, (i + 1) % 3, (i + 2) % 3];
    }
  }

  lemma LogOfTrace(trace: seq<Row>, slots: seq<Slot>)
    requires Matches(trace, slots)
    ensures LogFits(Logged(trace), slots) <==> forall i :: 0 <= i < |trace| ==> 0 < trace[i].duration
    ensures Map(DurationOf, Logged(trace)) == Durations(trace)
  {
    assert forall i :: 0 <= i < |trace| ==> Fits(trace[i], slots[i]);
    if LogFits(Logged(trace), slots) {
      assert forall i :: 0 <= i < |trace| ==> Fitting(Logged(trace)[i], i, slots[i]);
    }
  }

  /** The log is that of a run which made the planned calls in order, each taking some time. */
  ghost predicate LogOfPlannedRun(rows: seq<LoggedRow>, slots: seq<Slot>) {
    exists trace :: IsLogOf(rows, trace) && Matches(trace, slots)
  }

  ghost predicate IsLogOf(rows: seq<LoggedRow>, trace: seq<Row>) {
    rows == Logged(trace) && forall i :: 0 <= i < |trace| ==> 0 < trace[i].duration
  }

  /** The lines fit the schedule exactly when they are the log of such a run. */
  lemma FittingIsLogged(rows: seq<LoggedRow>, slots: seq<Slot>)
    ensures LogFits(rows, slots) <==> LogOfPlannedRun(rows, slots)
  {
    if LogFits(rows, slots) {
      var trace := seq(|rows|, i requires 0 <= i < |rows| =>
                         Row(slots[i].warmup, slots[i].channel, DurationOf(rows[i])));
      forall i | 0 <= i < |rows| ensures Logged(trace)[i] == rows[i] && Fits(trace[i], slots[i]) {
        assert Fitting(rows[i], i, slots[i]);
      }
      assert IsLogOf(rows, trace) && Matches(trace, slots);
    }
    if LogOfPlannedRun(rows, slots) {
      var trace :| IsLogOf(rows, trace) && Matches(trace, slots);
      LogOfTrace(trace, slots);
    }
  }

  /** Both groupings give one channel the same list of medians. */
  lemma SameMedians(
    durations: seq<nat>, slots: seq<Slot>, parts: seq<seq<Row>>, channel: nat, mine: seq<nat>, theirs: seq<nat>
  )
    requires |durations| == |slots| && MediansOf(parts, channel, mine)
    requires forall r :: 0 <= r < |parts| ==> Tagged(durations, slots, channel, r) == Of(parts[r], channel)
    ensures RoundMedians(durations, slots, channel, |parts|, theirs) <==> theirs == mine
  {
  }

  /** The log of a complete run passes exactly with the sampler's own numbers and durations above zero. */
  lemma CheckerAgreesWithSampler(
    warmups: nat, rounds: nat, repetitions: nat,
    trace: seq<Row>, warm: seq<Row>, parts: seq<seq<Row>>, result: RuntimeSamples, report: Report
  )
    requires Sampled(3, warmups, rounds, repetitions, trace, warm, parts, result.channels)
    requires result.warmupOrder == Orders(3, warmups) && result.sampleOrder == Orders(3, rounds)
    ensures Accepted(Logged(trace), warmups, rounds, repetitions, report) <==> (
        && (forall i :: 0 <= i < |trace| ==> 0 < trace[i].duration)
        && report.warmupOrder == result.warmupOrder && report.sampleOrder == result.sampleOrder
        && report.samples == result.channels && 0 < rounds
        && |report.medians| == 3
        && forall c :: 0 <= c < 3 ==> result.channels[c] != [] && report.medians[c] == UpperMedian(result.channels[c]))
  {
    var slots, mine, theirs := Plan(3, warmups, rounds, repetitions), result.channels, report.samples;
    OrdersArePlain(warmups);
    OrdersArePlain(rounds);
    RoundsMatch(3, repetitions, parts);
    MatchesConcat(warm, Concat(parts), Phase(3, true, warmups, 1), Phase(3, false, rounds, repetitions));
    LogOfTrace(trace, slots);
    if |theirs| == 3 {
      forall c | 0 <= c < 3
        ensures RoundMedians(Durations(trace), slots, c, rounds, theirs[c]) <==> theirs[c] == mine[c]
        ensures |mine[c]| == rounds
      {
        assert MediansOf(parts, c, mine[c]);
        forall r | 0 <= r < rounds ensures Tagged(Durations(trace), slots, c, r) == Of(parts[r], c) {
          RegroupingAgrees(3, warmups, rounds, repetitions, trace, warm, parts, mine, c, r);
        }
        SameMedians(Durations(trace), slots, parts, c, mine[c], theirs[c]);
      }
      assert theirs == mine <==> forall c :: 0 <= c < 3 ==> theirs[c] == mine[c];
      assert MediansRebuilt(Durations(trace), slots, rounds, theirs, report.medians) ==> theirs[0] != [];
      assert MediansRebuilt(Durations(trace), slots, rounds, theirs, report.medians) <==>
             theirs == mine && 0 < rounds && |report.medians| == 3
             && forall c :: 0 <= c < 3 ==> theirs[c] != [] && report.medians[c] == UpperMedian(theirs[c]);
    }
  }

  /** One phase of the schedule, made with the checker's own nested loops. */
  method AddPhase(slots: seq<Slot>, warmup: bool, rounds: nat, repetitions: nat) returns (r: seq<Slot>)
    ensures r == slots + Phase(3, warmup, rounds, repetitions)
  {
    r := slots;
    var round := 0;
    while round < rounds
      invariant 0 <= round <= rounds && r == slots + Phase(3, warmup, round, repetitions)
    {
      ghost var earlier := r;
      var repetition := 0;
      while repetition < repetitions
        invariant 0 <= repetition <= repetitions && r == earlier + RoundSlots(3, warmup, round, repetition)
      {
        ghost var prior := r;
        var offset := 0;
        while offset < 3
          invariant 0 <= offset <= 3 && r == prior + Turn(3, warmup, round, repetition)[..offset]
        {
          r := r + [Slot(warmup, round, (round + repetition + offset) % 3)];
          offset := offset + 1;
        }
        assert r == earlier + (RoundSlots(3, warmup, round, repetition) + Turn(3, warmup, round, repetition));
        repetition := repetition + 1;
      }
      assert r == slots + (Phase(3, warmup, round, repetitions) + RoundSlots(3, warmup, round, repetitions));
      round := round + 1;
    }
  }

  method MakeSchedule(warmups: nat, rounds: nat, repetitions: nat) returns (slots: seq<Slot>)
    ensures slots == Plan(3, warmups, rounds, repetitions)
  {
    slots := AddPhase([], true, warmups, 1);
    slots := AddPhase(slots, false, rounds, repetitions);
  }

  /** What the checker has collected from the first `n` lines. */
  ghost predicate Regrouped(rows: seq<LoggedRow>, slots: seq<Slot>, n: nat, rounds: nat, samples: seq<seq<seq<nat>>>)
    requires n <= |rows| == |slots|
  {
    && |samples| == 3
    && forall c :: 0 <= c < 3 ==> |samples[c]| == rounds && forall r :: 0 <= r < rounds ==>
         samples[c][r] == Tagged(Map(DurationOf, rows[..n]), slots[..n], c, r)
  }

  lemma RegroupedOneMore(
    rows: seq<LoggedRow>, slots: seq<Slot>, n: nat, rounds: nat, samples: seq<seq<seq<nat>>>, after: seq<seq<seq<nat>>>
  )
    requires n < |rows| == |slots| && Regrouped(rows, slots, n, rounds, samples)
    requires slots[n].channel < 3 && (slots[n].warmup || slots[n].round < rounds)
    requires after == if slots[n].warmup then samples else
               var c, r := slots[n].channel, slots[n].round;
               samples[c := samples[c][r := samples[c][r] + [DurationOf(rows[n])]]]
    ensures Regrouped(rows, slots, n + 1, rounds, after)
  {
    var d, d2 := Map(DurationOf, rows[..n]), Map(DurationOf, rows[..n + 1]);
    assert d2[..n] == d && slots[..n + 1][..n] == slots[..n];
    forall c, r | 0 <= c < 3 && 0 <= r < rounds
      ensures Tagged(d2, slots[..n + 1], c, r)
           == Tagged(d, slots[..n], c, r) + (if slots[n] == Slot(false, r, c) then [DurationOf(rows[n])] else [])
    {
    }
  }

  lemma {:induction false} SlotsInRange(channels: nat, warmup: bool, rounds: nat, repetitions: nat)
    ensures forall i :: 0 <= i < |Phase(channels, warmup, rounds, repetitions)| ==>
              && Phase(channels, warmup, rounds, repetitions)[i].warmup == warmup
              && Phase(channels, warmup, rounds, repetitions)[i].round < rounds
              && Phase(channels, warmup, rounds, repetitions)[i].channel < channels
  {
    if rounds > 0 {
      SlotsInRange(channels, warmup, rounds - 1, repetitions);
      SlotsOfRound(channels, warmup, rounds - 1, repetitions);
    }
  }

  /** The median of one channel in every round, if each round has calls of it. */
  method RoundMediansOf(durations: seq<seq<nat>>) returns (r: Option<seq<nat>>)
    ensures r.Some? <==> forall i :: 0 <= i < |durations| ==> durations[i] != []
    ensures r.Some? ==> |r.value| == |durations| && forall i :: 0 <= i < |durations| ==>
              durations[i] != [] && r.value[i] == UpperMedian(durations[i])
  {
    hide UpperMedian;
    var medians, i := [], 0;
    while i < |durations|
      invariant 0 <= i <= |durations| && |medians| == i
      invariant forall k :: 0 <= k < i ==> durations[k] != [] && medians[k] == UpperMedian(durations[k])
    {
      if durations[i] == [] {
        return None;
      }
      medians := medians + [UpperMedian(durations[i])];
      i := i + 1;
    }
    return Some(medians);
  }

  /** Accepts exactly the reports whose numbers the log gives. */
  method Analyze(rows: seq<LoggedRow>, warmups: nat, rounds: nat, repetitions: nat, report: Report)
    returns (r: Result<(), string>)
    ensures r.Ok? <==> Accepted(rows, warmups, rounds, repetitions, report)
    ensures r.Ok? ==> LogOfPlannedRun(rows, Plan(3, warmups, rounds, repetitions))
  {
    FittingIsLogged(rows, Plan(3, warmups, rounds, repetitions));
    var slots := MakeSchedule(warmups, rounds, repetitions);
    if |rows| != |slots| {
      return Err("missing or extra original-process rows");
    }
    if report.warmupOrder != PlainOrders(warmups) || report.sampleOrder != PlainOrders(rounds) {
      return Err("report order changed");
    }
    var samples := Regroup(rows, slots, rounds, warmups, repetitions);
    if samples.None? {
      return Err("original-process sample order changed, or duration missing or invalid");
    }
    r := CheckMedians(rows, slots, rounds, samples.value, report);
  }

  /** Sorts the durations of the log into channels and rounds, checking every line. */
  method Regroup(rows: seq<LoggedRow>, slots: seq<Slot>, rounds: nat, ghost warmups: nat, ghost repetitions: nat)
    returns (r: Option<seq<seq<seq<nat>>>>)
    requires |rows| == |slots| && slots == Plan(3, warmups, rounds, repetitions)
    ensures r.Some? <==> LogFits(rows, slots)
    ensures r.Some? ==> Regrouped(rows, slots, |rows|, rounds, r.value)
  {
    var samples: seq<seq<seq<nat>>> := seq(3, _ => seq(rounds, _ => []));
    SlotsInRange(3, true, warmups, 1);
    SlotsInRange(3, false, rounds, repetitions);
    assert forall k :: 0 <= k < |slots| ==> slots[k].channel < 3 && (slots[k].warmup || slots[k].round < rounds);
    assert Regrouped(rows, slots, 0, rounds, samples);
    hide Plan, Tagged, Phase;
    var i := 0;
    while i < |rows|
      invariant 0 <= i <= |rows| && Regrouped(rows, slots, i, rounds, samples)
      invariant forall k :: 0 <= k < i ==> Fitting(rows[k], k, slots[k])
    {
      var row, slot := rows[i], slots[i];
      if !Fitting(row, i, slot) {
        return None;
      }
      var after := samples;
      if !slot.warmup {
        var durations := samples[slot.channel][slot.round] + [row.gateNs.value];
        after := samples[slot.channel := samples[slot.channel][slot.round := durations]];
      }
      RegroupedOneMore(rows, slots, i, rounds, samples, after);
      samples := after;
      i := i + 1;
    }
    return Some(samples);
  }

  /** Compares the rebuilt medians with the reported ones. */
  method CheckMedians(
    rows: seq<LoggedRow>, slots: seq<Slot>, rounds: nat, samples: seq<seq<seq<nat>>>, report: Report
  ) returns (r: Result<(), string>)
    requires |rows| == |slots| && Regrouped(rows, slots, |rows|, rounds, samples)
    ensures r.Ok? <==> MediansRebuilt(Map(DurationOf, rows), slots, rounds, report.samples, report.medians)
  {
    if |report.samples| != 3 || |report.medians| != 3 {
      return Err("report channels missing");
    }
    ghost var durations := Map(DurationOf, rows);
    assert rows[..|rows|] == rows && slots[..|rows|] == slots;
    hide ChannelRebuilt, Tagged;
    var channel := 0;
    while channel < 3
      invariant 0 <= channel <= 3
      invariant forall c :: 0 <= c < channel ==>
                  ChannelRebuilt(durations, slots, c, rounds, report.samples[c], report.medians[c])
    {
      var ok := CheckChannel(durations, slots, channel, samples[channel], report.samples[channel],
          report.medians[channel]);
      if !ok {
        return Err("original report median/sample mismatch");
      }
      channel := channel + 1;
    }
    return Ok(());
  }

  method CheckChannel(
    ghost durations: seq<nat>, ghost slots: seq<Slot>, ghost channel: nat,
    samples: seq<seq<nat>>, reported: seq<nat>, median: nat
  ) returns (ok: bool)
    requires |durations| == |slots|
    requires forall r :: 0 <= r < |samples| ==> samples[r] == Tagged(durations, slots, channel, r)
    ensures ok <==> ChannelRebuilt(durations, slots, channel, |samples|, reported, median)
  {
    var stored := RoundMediansOf(samples);
    if stored.None? {
      ghost var r :| 0 <= r < |samples| && samples[r] == [];
      assert Tagged(durations, slots, channel, r) == [];
      return false;
    }
    assert RoundMedians(durations, slots, channel, |samples|, reported) ==> reported == stored.value;
    return stored.value != [] && stored.value == reported && UpperMedian(stored.value) == median;
  }
}
