/**
 The rotating order in which a benchmark visits its channels (benches/runtime_replay.rs): round
 `r` starts at channel `r` modulo the number of channels and goes around once.
 */
module Rotation {
  import opened Sequences

  function RotatingRound(channels: nat, round: nat): (order: seq<nat>)
    ensures |order| == channels
  {
    seq(channels, offset requires 0 <= offset < channels => (round % channels + offset) % channels)
  }

  lemma ModIs(a: nat, n: nat, q: nat, r: nat)
    requires r < n && a == q * n + r
    ensures a / n == q && a % n == r
  {
    var q2, r2 := a / n, a % n;
    assert n * q2 + r2 == a;
    assert n * (q + 1) == n * q + n && n * (q2 + 1) == n * q2 + n;
    if q < q2 {
      TimesIsMonotone(n, q + 1, q2);
    } else if q2 < q {
      TimesIsMonotone(n, q2 + 1, q);
    }
  }

  /** Sums of two residues wrap at most once. */
  lemma WrapOnce(n: nat, a: nat)
    requires a < 2 * n
    ensures a % n == if a < n then a else a - n
  {
    ModIs(a, n, if a < n then 0 else 1, if a < n then a else a - n);
  }

  /** Going `k < n` steps on from `s`. */
  lemma StepOn(n: nat, s: nat, k: nat)
    requires k < n
    ensures (s + k) % n == (if s % n + k < n then s % n + k else s % n + k - n)
    ensures (s + k) / n == (if s % n + k < n then s / n else s / n + 1)
  {
    var q, r := s / n, s % n;
    assert s == n * q + r;
    if r + k < n {
      assert s + k == q * n + (r + k);
      ModIs(s + k, n, q, r + k);
    } else {
      assert (q + 1) * n == q * n + n;
      ModIs(s + k, n, q + 1, r + k - n);
    }
  }

  /** The residue of the rounds in which `channel` stands at `position`. */
  function Residue(channels: nat, position: nat, channel: nat): (d: nat)
    requires position < channels && channel < channels
    ensures d < channels
  {
    if position <= channel then channel - position else channel + channels - position
  }

  /** In this round the channel stands at this position. */
  predicate StandsAt(channels: nat, round: nat, position: nat, channel: nat) {
    position < channels && RotatingRound(channels, round)[position] == channel
  }

  lemma WhoIsAt(channels: nat, round: nat, position: nat, channel: nat)
    requires position < channels && channel < channels
    ensures RotatingRound(channels, round)[position] < channels
    ensures StandsAt(channels, round, position, channel) <==> round % channels == Residue(channels, position, channel)
  {
    WrapOnce(channels, round % channels + position);
  }

  function PositionOf(channels: nat, round: nat, channel: nat): (p: nat)
    requires channel < channels
    ensures p < channels
  {
    var r := round % channels;
    if r <= channel then channel - r else channel + channels - r
  }

  lemma StandsOnlyAt(channels: nat, round: nat, position: nat, channel: nat)
    requires channel < channels
    ensures StandsAt(channels, round, position, channel) <==> position == PositionOf(channels, round, channel)
  {
    if position < channels {
      WhoIsAt(channels, round, position, channel);
    }
  }

  /** Every round is a permutation of the channels: each has exactly one position. */
  lemma RoundIsPermutation(channels: nat, round: nat, channel: nat)
    requires channel < channels
    ensures exists p: nat :: StandsAt(channels, round, p, channel)
              && forall q: nat :: StandsAt(channels, round, q, channel) ==> q == p
  {
    forall p: nat ensures StandsAt(channels, round, p, channel) <==> p == PositionOf(channels, round, channel) {
      StandsOnlyAt(channels, round, p, channel);
    }
    assert StandsAt(channels, round, PositionOf(channels, round, channel), channel);
  }

  /** In any window of as many rounds as channels, each channel takes each position exactly once. */
  lemma WindowIsLatin(channels: nat, start: nat, position: nat, channel: nat)
    requires position < channels && channel < channels
    ensures exists r :: start <= r < start + channels && StandsAt(channels, r, position, channel)
              && forall t :: start <= t < start + channels && StandsAt(channels, t, position, channel) ==> t == r
  {
    var s, d := start % channels, Residue(channels, position, channel);
    var k := if s <= d then start + (d - s) else start + (d + channels - s);
    forall r | start <= r < start + channels ensures StandsAt(channels, r, position, channel) <==> r == k {
      WhoIsAt(channels, r, position, channel);
      StepOn(channels, start, r - start);
    }
    assert StandsAt(channels, k, position, channel);
  }

  /** In how many of the first `rounds` rounds `channel` stands at `position`. */
  function Turns(channels: nat, rounds: nat, position: nat, channel: nat): nat
  {
    if rounds == 0 then 0
    else Turns(channels, rounds - 1, position, channel)
         + (if StandsAt(channels, rounds - 1, position, channel) then 1 else 0)
  }

  lemma {:induction false} TurnsAre(channels: nat, rounds: nat, position: nat, channel: nat)
    requires position < channels && channel < channels
    ensures Turns(channels, rounds, position, channel)
         == rounds / channels + (if Residue(channels, position, channel) < rounds % channels then 1 else 0)
  {
    if rounds == 0 {
      ModIs(0, channels, 0, 0);
    } else {
      TurnsAre(channels, rounds - 1, position, channel);
      WhoIsAt(channels, rounds - 1, position, channel);
      if channels == 1 {
        assert rounds % 1 == 0 && (rounds - 1) % 1 == 0;
      } else {
        StepOn(channels, rounds - 1, 1);
      }
    }
  }

  /** No channel is favoured: over any number of rounds, its turns at two positions differ by at most one. */
  lemma PositionsAreBalanced(channels: nat, rounds: nat, channel: nat, p: nat, q: nat)
    requires p < channels && q < channels && channel < channels
    ensures -1 <= Turns(channels, rounds, p, channel) - Turns(channels, rounds, q, channel) <= 1
  {
    TurnsAre(channels, rounds, p, channel);
    TurnsAre(channels, rounds, q, channel);
  }
}
