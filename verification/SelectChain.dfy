/**
 Choosing a function variant from the detected capability word, in the two places that do it: the
 select chain of the generated resolver (native/bridge/ckc_llvm.cpp) and the ranked scan of the
 dispatch runtime (native/dispatch_runtime/dispatch_runtime.c).
 */
module SelectChain {
  import opened Basics

  datatype Target = Sentinel | Baseline | Variant(index: nat)

  /** The generated value: a chain of selects ending in the baseline. */
  datatype Chain = Fallback | Select(required: bv32, index: nat, otherwise: Chain)

  const CLOSED_SET: bv32 := 0x0f
  const NO_SELECTION: nat := 0xffff_ffff

  predicate Fits(capabilities: bv32, required: bv32) {
    capabilities & required == required
  }

  /** Bit i of a word. */
  predicate Bit(word: bv32, i: bv32)
    requires i < 32
  {
    (word >> i) & 1 == 1
  }

  /** A requirement fits exactly when each of its 32 bits is set in the capabilities too. */
  lemma FitsIsContainment(capabilities: bv32, required: bv32)
    ensures Fits(capabilities, required) <==>
              forall i: bv32 :: i < 32 && Bit(required, i) ==> Bit(capabilities, i)
  {
    hide Bit;
    if Fits(capabilities, required) {
      forall i: bv32 | i < 32 && Bit(required, i) ensures Bit(capabilities, i) {
        FitsAtBit(capabilities, required, i);
      }
    } else {
      MissingIsNotZero(capabilities, required);
      var i := SomeBit(required & !capabilities);
      MissingAtBit(capabilities, required, i);
    }
  }

  lemma FitsAtBit(capabilities: bv32, required: bv32, i: bv32)
    requires i < 32 && Fits(capabilities, required) && Bit(required, i)
    ensures Bit(capabilities, i)
  {
    assert ((capabilities & required) >> i) & 1 == (capabilities >> i) & (required >> i) & 1;
  }

  lemma MissingIsNotZero(capabilities: bv32, required: bv32)
    requires !Fits(capabilities, required)
    ensures required & !capabilities != 0
  {
  }

  lemma MissingAtBit(capabilities: bv32, required: bv32, i: bv32)
    requires i < 32 && Bit(required & !capabilities, i)
    ensures Bit(required, i) && !Bit(capabilities, i)
  {
  }

  /** A word other than zero has a bit, found by halving. */
  lemma SomeBit(word: bv32) returns (i: bv32)
    requires word != 0
    ensures i < 32 && Bit(word, i)
  {
    i := if word & 0xffff == 0 then 16 else 0;
    i := if (word >> i) & 0xff == 0 then i + 8 else i;
    i := if (word >> i) & 0xf == 0 then i + 4 else i;
    i := if (word >> i) & 0x3 == 0 then i + 2 else i;
    i := if (word >> i) & 0x1 == 0 then i + 1 else i;
  }

  /** What the generated chain computes. */
  function Eval(chain: Chain, capabilities: bv32): (t: Target)
    ensures t != Sentinel
  {
    match chain
    case Fallback => Baseline
    case Select(required, index, otherwise) =>
      if Fits(capabilities, required) then Variant(index) else Eval(otherwise, capabilities)
  }

  /** `t` is the first requirement from `from` on that the capabilities contain, or else the baseline. */
  ghost predicate SelectsFrom(required: seq<bv32>, from: nat, capabilities: bv32, t: Target) {
    match t
    case Sentinel => false
    case Baseline => forall j :: from <= j < |required| ==> !Fits(capabilities, required[j])
    case Variant(i) =>
      && from <= i < |required| && Fits(capabilities, required[i])
      && forall j :: from <= j < i ==> !Fits(capabilities, required[j])
  }

  ghost predicate Selects(required: seq<bv32>, capabilities: bv32, t: Target) {
    SelectsFrom(required, 0, capabilities, t)
  }

  /** For every capability word the chain picks the first requirement from `from` on that the word contains. */
  ghost predicate BuiltFrom(required: seq<bv32>, from: nat, chain: Chain) {
    forall capabilities :: SelectsFrom(required, from, capabilities, Eval(chain, capabilities))
  }

  /** For every capability word the chain picks the first requirement that the word contains. */
  ghost predicate BuiltFor(required: seq<bv32>, chain: Chain) {
    forall capabilities :: Selects(required, capabilities, Eval(chain, capabilities))
  }

  lemma SelectOneMore(required: seq<bv32>, index: nat, chain: Chain)
    requires index < |required| && BuiltFrom(required, index + 1, chain)
    ensures BuiltFrom(required, index, Select(required[index], index, chain))
  {
    hide Fits;
    var next := index + 1;
    forall capabilities
      ensures SelectsFrom(required, index, capabilities, Eval(Select(required[index], index, chain), capabilities))
    {
      assert SelectsFrom(required, next, capabilities, Eval(chain, capabilities));
    }
  }

  lemma BuiltFromEnds(required: seq<bv32>, chain: Chain)
    ensures BuiltFrom(required, |required|, Fallback)
    ensures BuiltFrom(required, 0, chain) ==> BuiltFor(required, chain)
  {
    hide Fits;
  }

  /** The requirement is not the baseline and stays inside the closed set of capability bits. */
  predicate Admissible(required: bv32) {
    required != 0 && required & !CLOSED_SET == 0
  }

  /** A word of the closed set of four bits, other than zero. */
  predicate FourBits(required: bv32) {
    1 <= required <= 15
  }

  lemma AdmissibleRange(required: bv32)
    ensures Admissible(required) <==> FourBits(required)
  {
  }

  /** The chain is built from the last variant to the first, so the first one is tested first. */
  method BuildSelectChain(required: seq<bv32>) returns (r: Result<Chain, string>)
    ensures r.Ok? <==> forall i :: 0 <= i < |required| ==> FourBits(required[i])
    ensures r.Ok? ==> BuiltFor(required, r.value)
  {
    hide Admissible, FourBits, BuiltFrom, BuiltFor;
    var selected := Fallback;
    var reverse := |required|;
    BuiltFromEnds(required, selected);
    while reverse > 0
      invariant 0 <= reverse <= |required|
      invariant forall i :: reverse <= i < |required| ==> FourBits(required[i])
      invariant BuiltFrom(required, reverse, selected)
    {
      var index := reverse - 1;
      AdmissibleRange(required[index]);
      if !Admissible(required[index]) {
        return Err("multiversion requirement is baseline or outside the closed set");
      }
      SelectOneMore(required, index, selected);
      selected := Select(required[index], index, selected);
      reverse := index;
    }
    BuiltFromEnds(required, selected);
    return Ok(selected);
  }

  /** `index` is what the ranked scan over `required` returns. */
  ghost predicate Ranked(required: seq<bv32>, capabilities: bv32, index: nat) {
    && index < |required|
    && (forall j :: 0 <= j < index ==> !Fits(capabilities, required[j]))
    && (index < |required| - 1 ==> Fits(capabilities, required[index]))
  }

  /** The runtime's scan; a null or empty table has no selection, and without a match the last entry is taken. */
  method SelectRanked(required: Option<seq<bv32>>, capabilities: bv32) returns (selection: nat)
    requires required.Some? ==> |required.value| <= 0xffff_ffff
    ensures required.None? || required.value == [] ==> selection == 4_294_967_295
    ensures required.Some? && required.value != [] ==> Ranked(required.value, capabilities, selection)
  {
    if required.None? || |required.value| == 0 {
      return NO_SELECTION;
    }
    for index := 0 to |required.value|
      invariant forall j :: 0 <= j < index ==> !Fits(capabilities, required.value[j])
    {
      if Fits(capabilities, required.value[index]) {
        return index;
      }
    }
    return |required.value| - 1;
  }

  /**
   The chain and the scan agree: over the same table followed by the zero requirement of the baseline,
   the scan returns the chosen variant's index, or the index of that last entry for the baseline.
   */
  lemma ChainAgreesWithScan(required: seq<bv32>, chain: Chain, capabilities: bv32, selection: nat)
    requires Selects(required, capabilities, Eval(chain, capabilities))
    requires Ranked(required + [0], capabilities, selection)
    ensures Eval(chain, capabilities) == if selection == |required| then Baseline else Variant(selection)
  {
    var table := required + [0];
    assert forall j :: 0 <= j < |required| ==> table[j] == required[j];
    match Eval(chain, capabilities)
    case Variant(i) =>
      assert Fits(capabilities, table[i]);
    case Baseline =>
  }
}
