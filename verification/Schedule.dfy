/**
 The call sequence of a rotating benchmark, and traces that follow it: the meeting point of the
 sampler (benches/runtime_replay.rs) and its checker (scripts/check-runtime-observations.py).
 */
module Schedule {
  import opened Basics
  import opened Rotation
  import opened Sequences

  /** One planned call: in the warm-up or not, its round, its channel. */
  datatype Slot = Slot(warmup: bool, round: nat, channel: nat)

  /** One completed call and how long it took. */
  datatype Row = Row(warmup: bool, channel: nat, duration: nat)

  function Turn(channels: nat, warmup: bool, round: nat, repetition: nat): (slots: seq<Slot>)
    ensures |slots| == channels
  {
    seq(channels,
        offset requires 0 <= offset < channels => Slot(warmup, round, (round + repetition + offset) % channels))
  }

  function RoundSlots(channels: nat, warmup: bool, round: nat, repetitions: nat): seq<Slot> {
    if repetitions == 0 then []
    else RoundSlots(channels, warmup, round, repetitions - 1) + Turn(channels, warmup, round, repetitions - 1)
  }

  function Phase(channels: nat, warmup: bool, rounds: nat, repetitions: nat): seq<Slot> {
    if rounds == 0 then []
    else Phase(channels, warmup, rounds - 1, repetitions) + RoundSlots(channels, warmup, rounds - 1, repetitions)
  }

  /** The whole plan: warm-up rounds of one turn, then measured rounds of several turns. */
  function Plan(channels: nat, warmups: nat, rounds: nat, repetitions: nat): seq<Slot> {
    Phase(channels, true, warmups, 1) + Phase(channels, false, rounds, repetitions)
  }

  predicate Fits(row: Row, slot: Slot) {
    row.warmup == slot.warmup && row.channel == slot.channel
  }

  /** The calls made are the planned ones, as far as they go. */
  ghost predicate Follows(rows: seq<Row>, slots: seq<Slot>) {
    |rows| <= |slots| && forall i :: 0 <= i < |rows| ==> Fits(rows[i], slots[i])
  }

  ghost predicate Matches(rows: seq<Row>, slots: seq<Slot>) {
    |rows| == |slots| && Follows(rows, slots)
  }

  /** The durations of one channel, in the order of the calls. */
  function Of(rows: seq<Row>, channel: nat): (durations: seq<nat>)
    ensures |durations| <= |rows|
  {
    if rows == [] then []
    else
      var last := |rows| - 1;
      Of(rows[..last], channel) + (if rows[last].channel == channel then [rows[last].duration] else [])
  }

  lemma OfOneMore(rows: seq<Row>, row: Row, channel: nat)
    ensures Of(rows + [row], channel) == Of(rows, channel) + (if row.channel == channel then [row.duration] else [])
  {
    assert (rows + [row])[..|rows|] == rows;
  }

  lemma {:induction false} OfConcat(a: seq<Row>, b: seq<Row>, channel: nat)
    ensures Of(a + b, channel) == Of(a, channel) + Of(b, channel)
  {
    if b == [] {
      assert a + b == a;
    } else {
      var last := |b| - 1;
      OfConcat(a, b[..last], channel);
      assert a + b == (a + b[..last]) + [b[last]];
      OfOneMore(a + b[..last], b[last], channel);
    }
  }

  lemma MatchesConcat(a: seq<Row>, b: seq<Row>, s: seq<Slot>, t: seq<Slot>)
    requires Matches(a, s) && Matches(b, t)
    ensures Matches(a + b, s + t)
  {
  }

  /** The sampler rotates the round plus the repetition; the schedule adds all three before reducing. */
  lemma TurnIsRound(channels: nat, warmup: bool, round: nat, repetition: nat, offset: nat)
    requires offset < channels
    ensures Turn(channels, warmup, round, repetition)[offset]
         == Slot(warmup, round, RotatingRound(channels, round + repetition)[offset])
  {
    StepOn(channels, round + repetition, offset);
    WrapOnce(channels, (round + repetition) % channels + offset);
  }

  /** In every turn each channel is called exactly once. */
  lemma TurnCallsEachOnce(channels: nat, warmup: bool, round: nat, repetition: nat, rows: seq<Row>, channel: nat)
    requires Matches(rows, Turn(channels, warmup, round, repetition)) && channel < channels
    ensures |Of(rows, channel)| == 1
  {
    var p := PositionOf(channels, round + repetition, channel);
    forall i | 0 <= i < |rows| ensures rows[i].channel == channel <==> i == p {
      TurnIsRound(channels, warmup, round, repetition, i);
      assert Fits(rows[i], Turn(channels, warmup, round, repetition)[i]);
      StandsOnlyAt(channels, round + repetition, i, channel);
    }
    OneAmong(rows, channel, p);
  }

  lemma {:induction false} OneAmong(rows: seq<Row>, channel: nat, p: nat)
    requires forall i :: 0 <= i < |rows| ==> (rows[i].channel == channel <==> i == p)
    ensures |Of(rows, channel)| == if p < |rows| then 1 else 0
  {
    if rows != [] {
      OneAmong(rows[..|rows| - 1], channel, p);
    }
  }

  /** In a round of several turns each channel is called once per turn. */
  lemma {:induction false} RoundCallsEachPerTurn(
    channels: nat, warmup: bool, round: nat, repetitions: nat, rows: seq<Row>, channel: nat
  )
    requires Matches(rows, RoundSlots(channels, warmup, round, repetitions)) && channel < channels
    ensures |Of(rows, channel)| == repetitions
  {
    if repetitions > 0 {
      var k := |RoundSlots(channels, warmup, round, repetitions - 1)|;
      var a, b := rows[..k], rows[k..];
      assert rows == a + b;
      assert Matches(b, Turn(channels, warmup, round, repetitions - 1)) by {
        forall i | 0 <= i < |b| ensures Fits(b[i], Turn(channels, warmup, round, repetitions - 1)[i]) {
          assert Fits(rows[k + i], RoundSlots(channels, warmup, round, repetitions)[k + i]);
        }
      }
      RoundCallsEachPerTurn(channels, warmup, round, repetitions - 1, a, channel);
      TurnCallsEachOnce(channels, warmup, round, repetitions - 1, b, channel);
      OfConcat(a, b, channel);
    }
  }

  lemma {:induction false} RoundSlotsGrow(channels: nat, warmup: bool, round: nat, k: nat, repetitions: nat)
    requires k <= repetitions
    ensures RoundSlots(channels, warmup, round, k) <= RoundSlots(channels, warmup, round, repetitions)
  {
    if k < repetitions {
      RoundSlotsGrow(channels, warmup, round, k, repetitions - 1);
    }
  }

  lemma {:induction false} PhaseGrows(channels: nat, warmup: bool, k: nat, rounds: nat, repetitions: nat)
    requires k <= rounds
    ensures Phase(channels, warmup, k, repetitions) <= Phase(channels, warmup, rounds, repetitions)
  {
    if k < rounds {
      PhaseGrows(channels, warmup, k, rounds - 1, repetitions);
    }
  }
}
