/**
 The resolve-once protocol of a multiversioned function (native/bridge/ckc_llvm.cpp,
 `ckc_llvm_module_add_multiversion_dispatch`).

 A shared slot starts at the resolver entry (the sentinel).  Each call loads the slot and jumps there;
 the resolver entry detects the capabilities, selects a target, publishes it with one strong
 compare-exchange, and jumps to whatever ended up published.  Any number of calls interleave, and each
 one may get a different answer from the detection.
 */
module DispatchProtocol {
  import opened SelectChain

  datatype Phase =
    | Idle
    | Loaded(target: Target)
    | Resolving
    | Selected(target: Target)
    | Resolved(target: Target)
    | Running(target: Target)

  /** One call: where it is, and how often it has entered the resolver. */
  datatype Call = Call(phase: Phase, passes: nat)

  datatype State = State(slot: Target, calls: seq<Call>)

  /** `detected` is what the capability detection answers should this step be a detection. */
  datatype Label = Arrive | Advance(call: nat, detected: bv32)

  /** The tail call: the sentinel is the resolver entry, anything else is the function itself. */
  function Jump(call: Call, target: Target): Call {
    if target == Sentinel then Call(Resolving, call.passes + 1) else Call(Running(target), call.passes)
  }

  /** The next atomic step of one call.  A weak exchange could also fail while the slot still holds the sentinel. */
  ghost predicate CallStep(chain: Chain, weak: bool, slot: Target, call: Call, detected: bv32, slot': Target,
                           call': Call)
  {
    match call.phase
    case Idle => slot' == slot && call' == call.(phase := Loaded(slot))
    case Loaded(target) => slot' == slot && call' == Jump(call, target)
    case Resolving => slot' == slot && call' == call.(phase := Selected(Eval(chain, detected)))
    case Selected(target) =>
      || (slot == Sentinel && slot' == target && call' == call.(phase := Resolved(target)))
      || ((weak || slot != Sentinel) && slot' == slot && call' == call.(phase := Resolved(slot)))
    case Resolved(target) => slot' == slot && call' == Jump(call, target)
    case Running(_) => false
  }

  ghost predicate Step(chain: Chain, weak: bool, s: State, event: Label, s': State) {
    match event
    case Arrive => s' == s.(calls := s.calls + [Call(Idle, 0)])
    case Advance(k, detected) =>
      && k < |s.calls| && |s'.calls| == |s.calls|
      && s'.calls == s.calls[k := s'.calls[k]]
      && CallStep(chain, weak, s.slot, s.calls[k], detected, s'.slot, s'.calls[k])
  }

  ghost predicate IsRun(chain: Chain, weak: bool, states: seq<State>, labels: seq<Label>) {
    && |states| == |labels| + 1
    && states[0] == State(Sentinel, [])
    && forall i :: 0 <= i < |labels| ==> Step(chain, weak, states[i], labels[i], states[i + 1])
  }

  ghost predicate CallInv(slot: Target, call: Call) {
    match call.phase
    case Idle => call.passes == 0
    case Loaded(target) => call.passes == 0 && (target == Sentinel || target == slot)
    case Resolving => call.passes == 1
    case Selected(target) => call.passes == 1 && target != Sentinel
    case Resolved(target) => call.passes == 1 && target == slot && slot != Sentinel
    case Running(target) => call.passes <= 1 && target == slot && slot != Sentinel
  }

  ghost predicate Selectable(chain: Chain, target: Target) {
    exists capabilities :: target == Eval(chain, capabilities)
  }

  /** What every interleaving keeps. */
  ghost predicate Inv(chain: Chain, s: State) {
    && (s.slot == Sentinel || Selectable(chain, s.slot))
    && (forall k :: 0 <= k < |s.calls| ==> CallInv(s.slot, s.calls[k]))
    && (forall k :: 0 <= k < |s.calls| && s.calls[k].phase.Selected? ==> Selectable(chain, s.calls[k].phase.target))
  }

  lemma StepKeepsInv(chain: Chain, s: State, event: Label, s': State)
    requires Inv(chain, s) && Step(chain, false, s, event, s')
    ensures Inv(chain, s')
    ensures s.slot != Sentinel ==> s'.slot == s.slot
  {
    if event.Advance? {
      var call := s.calls[event.call];
      assert CallInv(s.slot, call);
      forall k | 0 <= k < |s'.calls|
        ensures CallInv(s'.slot, s'.calls[k])
        ensures s'.calls[k].phase.Selected? ==> Selectable(chain, s'.calls[k].phase.target)
      {
        if k != event.call {
          assert CallInv(s.slot, s.calls[k]) && s'.calls[k] == s.calls[k];
        }
      }
    }
  }

  lemma {:induction false} RunKeepsInv(chain: Chain, states: seq<State>, labels: seq<Label>, i: nat)
    requires IsRun(chain, false, states, labels) && i < |states|
    ensures Inv(chain, states[i])
  {
    if i > 0 {
      RunKeepsInv(chain, states, labels, i - 1);
      StepKeepsInv(chain, states[i - 1], labels[i - 1], states[i]);
    }
  }

  /** The slot leaves the sentinel at most once, and then never changes. */
  lemma {:induction false} PublishedOnce(chain: Chain, states: seq<State>, labels: seq<Label>, i: nat, j: nat)
    requires IsRun(chain, false, states, labels) && i <= j < |states|
    requires states[i].slot != Sentinel
    ensures states[j].slot == states[i].slot
    decreases j
  {
    if i < j {
      PublishedOnce(chain, states, labels, i, j - 1);
      RunKeepsInv(chain, states, labels, j - 1);
      StepKeepsInv(chain, states[j - 1], labels[j - 1], states[j]);
    }
  }

  /** In step j call k detects the capability word. */
  ghost predicate Detects(states: seq<State>, labels: seq<Label>, j: nat, k: nat, word: bv32) {
    && j < |labels| && j < |states| && labels[j] == Advance(k, word)
    && k < |states[j].calls| && states[j].calls[k].phase == Resolving
  }

  /** In step i call k wins the exchange. */
  ghost predicate Wins(states: seq<State>, labels: seq<Label>, i: nat, k: nat) {
    && i < |labels| && |states| == |labels| + 1 && IsOf(labels[i], k)
    && states[i].slot == Sentinel && states[i + 1].slot != Sentinel
  }

  /** A selection waiting to be published is the one for the word that its call detected. */
  lemma {:induction false} SelectedWasDetected(chain: Chain, states: seq<State>, labels: seq<Label>, i: nat, k: nat)
    returns (j: nat, word: bv32)
    requires IsRun(chain, false, states, labels) && i < |states|
    requires k < |states[i].calls| && states[i].calls[k].phase.Selected?
    ensures j < i && Detects(states, labels, j, k, word)
    ensures states[i].calls[k].phase.target == Eval(chain, word)
  {
    assert Step(chain, false, states[i - 1], labels[i - 1], states[i]);
    if IsOf(labels[i - 1], k) {
      j, word := i - 1, labels[i - 1].detected;
    } else {
      j, word := SelectedWasDetected(chain, states, labels, i - 1, k);
    }
  }

  ghost predicate PastResolving(call: Call) {
    call.phase.Selected? || call.phase.Resolved? || call.phase.Running?
  }

  /** A call that has detected never detects again. */
  lemma {:induction false} DetectsOnce(chain: Chain, states: seq<State>, labels: seq<Label>, i: nat, j: nat, k: nat,
                                       word: bv32)
    requires IsRun(chain, false, states, labels) && j < i < |states|
    requires Detects(states, labels, j, k, word)
    ensures k < |states[i].calls| && PastResolving(states[i].calls[k])
    decreases i
  {
    RunKeepsInv(chain, states, labels, i - 1);
    assert Step(chain, false, states[i - 1], labels[i - 1], states[i]);
    if j < i - 1 {
      DetectsOnce(chain, states, labels, i - 1, j, k, word);
      assert CallInv(states[i - 1].slot, states[i - 1].calls[k]);
    }
  }

  /** The step that won, and what its call had detected. */
  lemma {:induction false} WinnerOf(chain: Chain, states: seq<State>, labels: seq<Label>, i: nat)
    returns (win: nat, j: nat, k: nat, word: bv32)
    requires IsRun(chain, false, states, labels) && i < |states| && states[i].slot != Sentinel
    ensures j < win < i && Wins(states, labels, win, k) && Detects(states, labels, j, k, word)
    ensures states[i].slot == Eval(chain, word)
  {
    assert Step(chain, false, states[i - 1], labels[i - 1], states[i]);
    if states[i - 1].slot != Sentinel {
      win, j, k, word := WinnerOf(chain, states, labels, i - 1);
      PublishedOnce(chain, states, labels, i - 1, i);
    } else {
      win, k := i - 1, labels[i - 1].call;
      j, word := SelectedWasDetected(chain, states, labels, win, k);
    }
  }

  /**
   In every run the published target is the first variant whose requirement is contained in the word that the winner
   of the exchange detected, or the baseline; there is one winner, and it detected once.
   */
  lemma PublishedIsTheWinnersSelection(required: seq<bv32>, chain: Chain, states: seq<State>, labels: seq<Label>,
                                       i: nat) returns (win: nat, j: nat, k: nat, word: bv32)
    requires BuiltFor(required, chain)
    requires IsRun(chain, false, states, labels) && i < |states| && states[i].slot != Sentinel
    ensures j < win < i && Wins(states, labels, win, k) && Detects(states, labels, j, k, word)
    ensures Selects(required, word, states[i].slot)
    ensures forall other, l :: Wins(states, labels, other, l) ==> other == win && l == k
    ensures forall other, w :: Detects(states, labels, other, k, w) ==> other == j && w == word
  {
    win, j, k, word := WinnerOf(chain, states, labels, i);
    forall other: nat, l: nat | Wins(states, labels, other, l) ensures other == win && l == k {
      if other < win {
        PublishedOnce(chain, states, labels, other + 1, win);
      } else if win < other {
        PublishedOnce(chain, states, labels, win + 1, other);
      }
    }
    forall other: nat, w | Detects(states, labels, other, k, w) ensures other == j && w == word {
      if other < j {
        DetectsOnce(chain, states, labels, j, other, k, w);
      } else if j < other {
        DetectsOnce(chain, states, labels, other, j, k, word);
      }
    }
  }

  /** For every word some run publishes its selection, and calls it. */
  lemma EveryWordCanBePublished(required: seq<bv32>, chain: Chain, word: bv32)
    returns (states: seq<State>, labels: seq<Label>)
    requires BuiltFor(required, chain)
    ensures IsRun(chain, false, states, labels) && Detects(states, labels, 3, 0, word)
    ensures Selects(required, word, states[|labels|].slot)
    ensures states[|labels|].calls == [Call(Running(states[|labels|].slot), 1)]
  {
    var choice := Eval(chain, word);
    var alone := (phase: Phase, passes: nat) => State(Sentinel, [Call(phase, passes)]);
    states := [
      State(Sentinel, []), alone(Idle, 0), alone(Loaded(Sentinel), 0), alone(Resolving, 1),
      alone(Selected(choice), 1), State(choice, [Call(Resolved(choice), 1)]),
      State(choice, [Call(Running(choice), 1)])];
    labels := [Arrive] + seq(5, _ => Advance(0, word));
    assert states[3].calls[0].(phase := Selected(choice)) == states[4].calls[0];
  }

  /**
   In every run, all calls that ever reach a function reach the same one: the published target, which is
   never the sentinel and is the selection for some capability word; none resolves more than once.
   */
  lemma EveryCallRunsThePublishedTarget(chain: Chain, states: seq<State>, labels: seq<Label>, i: nat, k: nat)
    requires IsRun(chain, false, states, labels) && i < |states| && k < |states[i].calls|
    ensures states[i].calls[k].passes <= 1
    ensures states[i].calls[k].phase.Running? ==>
              var target := states[i].calls[k].phase.target;
              && target != Sentinel && Selectable(chain, target) && states[i].slot == target
              && forall j :: 0 <= j < |states| ==>
                   && states[j].slot in {Sentinel, target}
                   && forall l :: 0 <= l < |states[j].calls| && states[j].calls[l].phase.Running? ==>
                        states[j].calls[l].phase.target == target
  {
    RunKeepsInv(chain, states, labels, i);
    assert CallInv(states[i].slot, states[i].calls[k]);
    if states[i].calls[k].phase.Running? {
      var target := states[i].calls[k].phase.target;
      forall j | 0 <= j < |states|
        ensures states[j].slot in {Sentinel, target}
        ensures forall l :: 0 <= l < |states[j].calls| && states[j].calls[l].phase.Running? ==>
                  states[j].calls[l].phase.target == target
      {
        RunKeepsInv(chain, states, labels, j);
        if states[j].slot != Sentinel {
          if i <= j {
            PublishedOnce(chain, states, labels, i, j);
          } else {
            PublishedOnce(chain, states, labels, j, i);
          }
        }
        forall l | 0 <= l < |states[j].calls| && states[j].calls[l].phase.Running?
          ensures states[j].calls[l].phase.target == target
        {
          assert CallInv(states[j].slot, states[j].calls[l]);
        }
      }
    }
  }

  /** Steps a call still has to take. */
  function Rank(call: Call): nat {
    match call.phase
    case Idle => 5
    case Loaded(_) => 4
    case Resolving => 3
    case Selected(_) => 2
    case Resolved(_) => 1
    case Running(_) => 0
  }

  predicate IsOf(event: Label, k: nat) {
    event.Advance? && event.call == k
  }

  function StepsOf(labels: seq<Label>, k: nat): nat {
    if labels == [] then 0
    else StepsOf(labels[..|labels| - 1], k) + (if IsOf(labels[|labels| - 1], k) then 1 else 0)
  }

  /** No call waits for another: whatever the others do, five own steps bring it to its function. */
  lemma {:induction false} CallsAreWaitFree(chain: Chain, states: seq<State>, labels: seq<Label>, k: nat)
    requires IsRun(chain, false, states, labels)
    ensures var last := states[|labels|];
            if k < |last.calls| then StepsOf(labels, k) + Rank(last.calls[k]) <= 5 else StepsOf(labels, k) == 0
  {
    var n := |labels|;
    if n > 0 {
      CallsAreWaitFree(chain, states[..n], labels[..n - 1], k);
      RunKeepsInv(chain, states, labels, n - 1);
      assert Step(chain, false, states[n - 1], labels[n - 1], states[n]);
      if k < |states[n - 1].calls| {
        assert CallInv(states[n - 1].slot, states[n - 1].calls[k]);
      }
    }
  }

  /** A call that has not reached its function can always take its next step. */
  lemma CallsAreNeverStuck(chain: Chain, s: State, k: nat, detected: bv32)
    requires k < |s.calls| && !s.calls[k].phase.Running?
    ensures exists s' :: Step(chain, false, s, Advance(k, detected), s')
  {
    var call := s.calls[k];
    var (slot', call') := match call.phase
      case Idle => (s.slot, call.(phase := Loaded(s.slot)))
      case Loaded(target) => (s.slot, Jump(call, target))
      case Resolving => (s.slot, call.(phase := Selected(Eval(chain, detected))))
      case Selected(target) =>
        if s.slot == Sentinel then (target, call.(phase := Resolved(target)))
        else (s.slot, call.(phase := Resolved(s.slot)))
      case Resolved(target) => (s.slot, Jump(call, target))
      case Running(_) => (s.slot, call);
    var s' := State(slot', s.calls[k := call']);
    assert Step(chain, false, s, Advance(k, detected), s');
  }

  /** The exchange has to be strong: a weak one may send a call through the resolver a second time. */
  lemma WeakExchangeResolvesTwice(chain: Chain) returns (states: seq<State>, labels: seq<Label>)
    ensures IsRun(chain, true, states, labels)
    ensures states[|labels|].calls == [Call(Resolving, 2)]
  {
    var choice := Eval(chain, 0);
    var alone := (phase: Phase, passes: nat) => State(Sentinel, [Call(phase, passes)]);
    states := [
      State(Sentinel, []), alone(Idle, 0), alone(Loaded(Sentinel), 0), alone(Resolving, 1),
      alone(Selected(choice), 1), alone(Resolved(Sentinel), 1), alone(Resolving, 2)];
    labels := [Arrive] + seq(5, _ => Advance(0, 0));
    assert states[3].calls[0].(phase := Selected(Eval(chain, 0))) == states[4].calls[0];
  }
}
