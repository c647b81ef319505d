/**
 Finding the hardware capability words on AArch64 Linux (native/dispatch_runtime/dispatch_runtime.c):
 from the initial process stack, or record by record from the kernel's auxiliary-vector file.
 */
module StackCapture {
  import opened Basics

  type Word = w: int | 0 <= w < 0x1_0000_0000_0000_0000

  /** One auxiliary-vector entry. */
  datatype Entry = Entry(key: Word, value: Word)

  const AT_NULL: Word := 0
  const AT_HWCAP: Word := 16
  const AT_HWCAP2: Word := 26

  datatype Tier = BaselineTier | Sve | Sve2

  function Flatten(aux: seq<Entry>): (r: seq<Word>)
    ensures |r| == 2 * |aux|
    ensures forall i :: 0 <= i < |aux| ==> r[2 * i] == aux[i].key && r[2 * i + 1] == aux[i].value
  {
    if aux == [] then []
    else
      var n := |aux| - 1;
      Flatten(aux[..n]) + [aux[n].key, aux[n].value]
  }

  /** The words at the start of a process: argc, the arguments and a null, the environment and a null, the vector. */
  function Image(argv: seq<Word>, env: seq<Word>, aux: seq<Entry>, rest: seq<Word>): seq<Word>
    requires |argv| < 0x1_0000_0000_0000_0000
  {
    [|argv|] + argv + [0] + env + [0] + Flatten(aux) + [0] + rest
  }

  ghost predicate WellFormed(argv: seq<Word>, env: seq<Word>, aux: seq<Entry>) {
    && |argv| < 0x1_0000_0000_0000_0000
    && (forall i :: 0 <= i < |env| ==> env[i] != 0)
    && (forall i :: 0 <= i < |aux| ==> aux[i].key != 0)
  }

  /** The value of the last entry with this key. */
  function Last(aux: seq<Entry>, key: Word): Option<Word> {
    if aux == [] then None
    else
      var n := |aux| - 1;
      if aux[n].key == key then Some(aux[n].value) else Last(aux[..n], key)
  }

  /** The entries before the first terminator. */
  function Terminated(records: seq<Entry>): (r: seq<Entry>)
    ensures r <= records && (forall i :: 0 <= i < |r| ==> r[i].key != 0)
    ensures |r| < |records| ==> records[|r|].key == 0
  {
    if records == [] || records[0].key == AT_NULL then [] else [records[0]] + Terminated(records[1..])
  }

  function OrZero(value: Option<Word>): Word {
    if value.Some? then value.value else 0
  }

  function TierOf(hwcap: Word, hwcap2: Word): Tier {
    if hwcap / 0x40_0000 % 2 == 0 then BaselineTier
    else if hwcap2 / 2 % 2 != 0 then Sve2
    else Sve
  }

  /** The tier that a list of entries stands for: both keys are needed. */
  function TierOfEntries(aux: seq<Entry>): Tier {
    if Last(aux, AT_HWCAP).None? || Last(aux, AT_HWCAP2).None? then BaselineTier
    else TierOf(Last(aux, AT_HWCAP).value, Last(aux, AT_HWCAP2).value)
  }

  function Power2(i: nat): (r: nat)
    ensures r > 0
  {
    if i == 0 then 1 else 2 * Power2(i - 1)
  }

  /** In binary the word has a one at place i: `high`, the one, and i digits `low`. */
  ghost predicate HasBit(word: Word, i: nat) {
    exists high: nat :: BitBelow(word, i, high)
  }

  ghost predicate BitBelow(word: Word, i: nat, high: nat) {
    0 <= word - (2 * high + 1) * Power2(i) < Power2(i)
  }

  /** Entry i is the last one with this key. */
  ghost predicate LastAt(aux: seq<Entry>, key: int, i: nat) {
    i < |aux| && aux[i].key == key && forall j :: i < j < |aux| ==> aux[j].key != key
  }

  lemma {:induction false} LastIsAt(aux: seq<Entry>, key: Word, i: nat)
    requires LastAt(aux, key, i)
    ensures Last(aux, key) == Some(aux[i].value)
  {
    var n := |aux| - 1;
    if i < n {
      LastIsAt(aux[..n], key, i);
    }
  }

  lemma {:induction false} LastHasPlace(aux: seq<Entry>, key: Word) returns (i: nat)
    requires Last(aux, key).Some?
    ensures LastAt(aux, key, i)
  {
    var n := |aux| - 1;
    if aux[n].key == key {
      i := n;
    } else {
      i := LastHasPlace(aux[..n], key);
    }
  }

  /** The two tests of the words are tests of bit 22 and of bit 1. */
  lemma TierByBits(hwcap: Word, hwcap2: Word)
    ensures TierOf(hwcap, hwcap2) == BaselineTier <==> !HasBit(hwcap, 22)
    ensures TierOf(hwcap, hwcap2) == Sve2 <==> HasBit(hwcap, 22) && HasBit(hwcap2, 1)
  {
    assert Power2(1) == 2;
    TwentyTwo();
    BitIsDigit(hwcap, 22, 0x40_0000);
    BitIsDigit(hwcap2, 1, 2);
  }

  lemma TwentyTwo()
    ensures Power2(22) == 0x40_0000
  {
    assert Power2(5) == 32;
    assert Power2(10) == 1024;
    assert Power2(16) == 65536;
  }

  lemma BitIsDigit(word: Word, i: nat, power: nat)
    requires power == Power2(i)
    ensures HasBit(word, i) <==> word / power % 2 != 0
  {
    if word / power % 2 != 0 {
      assert BitBelow(word, i, word / power / 2);
    }
    if HasBit(word, i) {
      var high: nat :| BitBelow(word, i, high);
      QuotientIs(word, power, 2 * high + 1);
    }
  }

  lemma QuotientIs(word: nat, power: nat, q: nat)
    requires power > 0 && 0 <= word - q * power < power
    ensures word / power == q
  {
    ProductsGrow(word / power, q, power);
    ProductsGrow(q, word / power, power);
  }

  lemma ProductsGrow(a: nat, b: nat, power: nat)
    ensures a < b ==> (a + 1) * power <= b * power
  {
    assert (b - a - 1) * power + (a + 1) * power == b * power;
  }

  /**
   A tier above the baseline needs the keys 16 and 26, and bit 22 in the last value of the first key; the highest tier
   also needs bit 1 in the last value of the second.
   */
  lemma TierIsDecidedBy(aux: seq<Entry>)
    ensures TierOfEntries(aux) != BaselineTier <==>
              exists i: nat, j: nat :: LastAt(aux, 16, i) && LastAt(aux, 26, j) && HasBit(aux[i].value, 22)
    ensures TierOfEntries(aux) == Sve2 <==>
              exists i: nat, j: nat ::
                LastAt(aux, 16, i) && LastAt(aux, 26, j) && HasBit(aux[i].value, 22) && HasBit(aux[j].value, 1)
  {
    hide HasBit, TierOf;
    if Last(aux, AT_HWCAP).Some? && Last(aux, AT_HWCAP2).Some? {
      var i := LastHasPlace(aux, AT_HWCAP);
      var j := LastHasPlace(aux, AT_HWCAP2);
      LastIsAt(aux, AT_HWCAP, i);
      LastIsAt(aux, AT_HWCAP2, j);
      TierByBits(aux[i].value, aux[j].value);
      assert forall k: nat :: LastAt(aux, 16, k) ==> k == i;
      assert forall k: nat :: LastAt(aux, 26, k) ==> k == j;
    } else {
      forall i: nat, j: nat | LastAt(aux, 16, i) && LastAt(aux, 26, j) ensures false {
        LastIsAt(aux, AT_HWCAP, i);
        LastIsAt(aux, AT_HWCAP2, j);
      }
    }
  }

  lemma ImageLayout(argv: seq<Word>, env: seq<Word>, aux: seq<Entry>, rest: seq<Word>)
    requires WellFormed(argv, env, aux)
    ensures var image, base := Image(argv, env, aux, rest), |argv| + 2 + |env| + 1;
            && |image| > base + 2 * |aux|
            && image[0] == |argv|
            && (forall i :: 0 <= i < |env| ==> image[|argv| + 2 + i] == env[i])
            && image[base - 1] == 0
            && (forall i :: 0 <= i < |aux| ==>
                  image[base + 2 * i] == aux[i].key && image[base + 2 * i + 1] == aux[i].value)
            && image[base + 2 * |aux|] == 0
  {
    var head := [|argv|] + argv + [0];
    var middle := head + env + [0];
    var pairs := Flatten(aux);
    assert Image(argv, env, aux, rest) == middle + pairs + [0] + rest;
    forall i | 0 <= i < |aux|
      ensures (middle + pairs)[|middle| + 2 * i] == aux[i].key && (middle + pairs)[|middle| + 2 * i + 1] == aux[i].value
    {
    }
  }

  /** The static variables of the runtime. */
  class Runtime {
    var initialHwcap: Word
    var initialHwcap2: Word
    var initialValid: bool

    constructor ()
      ensures !initialValid
    {
      initialHwcap, initialHwcap2, initialValid := 0, 0, false;
    }

    /**
     Walks the initial stack.  Every index is inside the image; a valid capture records the last value of
     each key and is never replaced.
     */
    method CaptureInitialStack(stack: Option<seq<Word>>,
                               ghost argv: seq<Word>, ghost env: seq<Word>, ghost aux: seq<Entry>,
                               ghost rest: seq<Word>)
      requires WellFormed(argv, env, aux)
      requires stack.Some? ==> stack.value == Image(argv, env, aux, rest)
      modifies this
      ensures stack.None? || old(initialValid) ==> unchanged(this)
      ensures stack.Some? && !old(initialValid) ==>
                && (initialValid <==> Last(aux, AT_HWCAP).Some? && Last(aux, AT_HWCAP2).Some?)
                && initialHwcap == OrZero(Last(aux, AT_HWCAP))
                && initialHwcap2 == OrZero(Last(aux, AT_HWCAP2))
    {
      if stack.None? || initialValid {
        return;
      }
      ImageLayout(argv, env, aux, rest);
      var image := stack.value;
      var hwcap, hwcap2: Word := 0, 0;
      var sawHwcap, sawHwcap2 := false, false;
      var argc: int := image[0];
      var cursor := argc + 2;
      ghost var e := 0;
      while image[cursor] != 0
        invariant 0 <= e <= |env| && cursor == |argv| + 2 + e
        invariant cursor < |image|
        decreases |env| - e
      {
        cursor := cursor + 1;
        e := e + 1;
      }
      cursor := cursor + 1;
      assert e == |env|;
      ghost var a := 0;
      assert aux[..0] == [];
      while image[cursor] != AT_NULL
        invariant 0 <= a <= |aux| && cursor == |argv| + 2 + |env| + 1 + 2 * a
        invariant cursor < |image|
        invariant a < |aux| ==> image[cursor] == aux[a].key && image[cursor + 1] == aux[a].value
        invariant sawHwcap == Last(aux[..a], AT_HWCAP).Some? && hwcap == OrZero(Last(aux[..a], AT_HWCAP))
        invariant sawHwcap2 == Last(aux[..a], AT_HWCAP2).Some? && hwcap2 == OrZero(Last(aux[..a], AT_HWCAP2))
        decreases |aux| - a
      {
        assert aux[..a + 1][..a] == aux[..a];
        if image[cursor] == AT_HWCAP {
          hwcap, sawHwcap := image[cursor + 1], true;
        } else if image[cursor] == AT_HWCAP2 {
          hwcap2, sawHwcap2 := image[cursor + 1], true;
        }
        cursor := cursor + 2;
        a := a + 1;
      }
      assert aux[..a] == aux;
      initialHwcap, initialHwcap2, initialValid := hwcap, hwcap2, sawHwcap && sawHwcap2;
    }

    /** Detection prefers a valid capture and otherwise reads the kernel's file. */
    method DetectUncached(file: Option<seq<Entry>>) returns (tier: Tier)
      ensures initialValid ==> tier == TierOf(initialHwcap, initialHwcap2)
      ensures !initialValid && file.Some? ==> tier == TierOfEntries(Terminated(file.value))
      ensures !initialValid && file.None? ==> tier == BaselineTier
    {
      var hwcap, hwcap2 := initialHwcap, initialHwcap2;
      if !initialValid {
        var found;
        found, hwcap, hwcap2 := ReadProcAuxv(file, hwcap, hwcap2);
        if !found {
          return BaselineTier;
        }
      }
      if hwcap / 0x40_0000 % 2 == 0 {
        return BaselineTier;
      }
      if hwcap2 / 2 % 2 != 0 {
        return Sve2;
      }
      return Sve;
    }
  }

  /** Reads records until a terminator or the first short read; `file` lists the records that can be read in full. */
  method ReadProcAuxv(file: Option<seq<Entry>>, hwcapBefore: Word, hwcap2Before: Word)
    returns (found: bool, hwcap: Word, hwcap2: Word)
    ensures file.None? ==> !found
    ensures file.Some? ==>
              var aux := Terminated(file.value);
              && (found <==> Last(aux, AT_HWCAP).Some? && Last(aux, AT_HWCAP2).Some?)
              && (found ==> hwcap == Last(aux, AT_HWCAP).value && hwcap2 == Last(aux, AT_HWCAP2).value)
  {
    hwcap, hwcap2 := hwcapBefore, hwcap2Before;
    var sawHwcap, sawHwcap2 := false, false;
    if file.None? {
      return false, hwcap, hwcap2;
    }
    var records := file.value;
    ghost var aux := Terminated(records);
    var n := 0;
    assert aux[..0] == [];
    while n < |records| && records[n].key != AT_NULL
      invariant 0 <= n <= |aux|
      invariant sawHwcap == Last(aux[..n], AT_HWCAP).Some? && (sawHwcap ==> hwcap == Last(aux[..n], AT_HWCAP).value)
      invariant sawHwcap2 == Last(aux[..n], AT_HWCAP2).Some?
      invariant sawHwcap2 ==> hwcap2 == Last(aux[..n], AT_HWCAP2).value
    {
      var entry := records[n];
      assert aux[n] == entry && aux[..n + 1][..n] == aux[..n];
      if entry.key == AT_HWCAP {
        hwcap, sawHwcap := entry.value, true;
      } else if entry.key == AT_HWCAP2 {
        hwcap2, sawHwcap2 := entry.value, true;
      }
      n := n + 1;
    }
    assert aux[..n] == aux;
    return sawHwcap && sawHwcap2, hwcap, hwcap2;
  }

  lemma {:induction false} TerminatedStopsAtNull(aux: seq<Entry>, terminator: Entry, more: seq<Entry>)
    requires forall i :: 0 <= i < |aux| ==> aux[i].key != AT_NULL
    requires terminator.key == AT_NULL
    ensures Terminated(aux + [terminator] + more) == aux
  {
    if aux != [] {
      TerminatedStopsAtNull(aux[1..], terminator, more);
      assert (aux + [terminator] + more)[1..] == aux[1..] + [terminator] + more;
    }
  }

  /** Whether the entries come from the stack or from the file, the same tier is selected. */
  method BothRoutesAgree(argv: seq<Word>, env: seq<Word>, aux: seq<Entry>, rest: seq<Word>, value: Word,
      more: seq<Entry>)
    returns (fromStack: Tier, fromFile: Tier)
    requires WellFormed(argv, env, aux)
    ensures fromStack == fromFile == TierOfEntries(aux)
  {
    var file := Some(aux + [Entry(AT_NULL, value)] + more);
    TerminatedStopsAtNull(aux, Entry(AT_NULL, value), more);
    var captured := new Runtime();
    captured.CaptureInitialStack(Some(Image(argv, env, aux, rest)), argv, env, aux, rest);
    fromStack := captured.DetectUncached(file);
    var uncaptured := new Runtime();
    fromFile := uncaptured.DetectUncached(file);
  }
}
