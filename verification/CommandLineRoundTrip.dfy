/** What accepted command lines look like: they can be written down again and parse to the same options. */
module CommandLineRoundTrip {
  import opened Basics
  import opened CommandLine

  predicate TextFits(command: Command, flag: Flag, value: Option<string>) {
    value.Some? ==> Allowed(command, flag) && FitsAfter(flag, value.value)
  }

  predicate GivenFits(command: Command, flag: Flag, given: bool) {
    given ==> Allowed(command, flag)
  }

  /** Every option is one the command takes, and no value looks like an option. */
  predicate Fit(p: ParsedArgs) {
    && (forall i :: 0 <= i < |p.positionals| ==> !("-" <= p.positionals[i]))
    && TextFits(p.command, Out, p.out) && TextFits(p.command, Overflow, p.overflow)
    && TextFits(p.command, Bounds, p.bounds)
    && TextFits(p.command, Target, p.target) && TextFits(p.command, Header, p.header)
    && TextFits(p.command, ProfileOut, p.profileOut)
    && TextFits(p.command, PgoGenerate, p.pgoGenerate) && TextFits(p.command, PgoUse, p.pgoUse)
    && GivenFits(p.command, OptLevel, p.optLevel.Some?)
    && GivenFits(p.command, Kind, p.kind.Some?) && GivenFits(p.command, Cpu, p.cpu.Some?)
    && GivenFits(p.command, Consumer, p.consumer.Some?) && GivenFits(p.command, WasmFeatures, p.wasmFeatures.Some?)
    && GivenFits(p.command, NoCache, p.noCache) && GivenFits(p.command, PrintFacts, p.printFacts)
    && GivenFits(p.command, PrintEffectSummaries, p.printEffectSummaries)
    && GivenFits(p.command, ExplainOptimization, p.explainOptimization)
    && GivenFits(p.command, SanitizeContracts, p.sanitizeContracts)
  }

  lemma AssignFits(p: ParsedArgs, flag: Flag, value: string)
    requires Fit(p) && TakesValue(flag) && Allowed(p.command, flag) && FitsAfter(flag, value)
    requires Assign(p, flag, value).Ok?
    ensures Fit(Assign(p, flag, value).value) && Assign(p, flag, value).value.command == p.command
  {
    hide Allowed, ParseKind, ParseCpu, ParseConsumer, ParseWasm;
    assert Allowed(p.command, OutShort) == Allowed(p.command, Out) by {
      OneOutput(p.command);
    }
  }

  lemma OneOutput(command: Command)
    ensures Allowed(command, OutShort) == Allowed(command, Out)
  {
  }

  lemma SwitchFits(p: ParsedArgs, flag: Flag)
    requires Fit(p) && !TakesValue(flag) && Allowed(p.command, flag)
    ensures Fit(SwitchOn(p, flag)) && SwitchOn(p, flag).command == p.command
  {
    hide Allowed, FitsAfter;
  }

  lemma LevelFits(p: ParsedArgs, level: string)
    requires Fit(p) && Allowed(p.command, OptLevel)
    ensures Fit(p.(optLevel := Some(level)))
  {
    hide Allowed, FitsAfter;
  }

  lemma PositionalFits(p: ParsedArgs, word: string)
    requires Fit(p) && Recognize(word) == Positional
    ensures Fit(p.(positionals := p.positionals + [word]))
  {
    PositionalIsRecognized(word);
    hide Allowed, FitsAfter, Recognize;
  }

  lemma {:induction false} ReadAllFits(args: seq<string>, p: ParsedArgs)
    requires Fit(p) && ReadAll(args, p).Ok?
    ensures Fit(ReadAll(args, p).value) && ReadAll(args, p).value.command == p.command
  {
    hide Allowed, FitsAfter, Recognize, Fit, Assign, SwitchOn, TakesValue;
    if args != [] {
      match Recognize(args[0])
      case Positional =>
        PositionalFits(p, args[0]);
        ReadAllFits(args[1..], p.(positionals := p.positionals + [args[0]]));
      case Level(level) =>
        LevelFits(p, level);
        ReadAllFits(args[1..], p.(optLevel := Some(level)));
      case Named(flag) =>
        if TakesValue(flag) {
          AssignFits(p, flag, args[1]);
          ReadAllFits(args[2..], Assign(p, flag, args[1]).value);
        } else {
          SwitchFits(p, flag);
          ReadAllFits(args[1..], SwitchOn(p, flag));
        }
    }
  }

  /** The checks at the end keep fit options fit, and pass what they return. */
  lemma FinishFits(p: ParsedArgs)
    requires Fit(p) && Finish(p).Ok?
    ensures Fit(Finish(p).value) && Finish(Finish(p).value) == Finish(p) && Finish(p).value.command == p.command
  {
    assert p.command == EmitKir ==> Allowed(p.command, Cpu);
    hide Allowed, FitsAfter, ProfileOptionsFit;
  }

  /** Accepted options fit the command and pass the final checks unchanged. */
  lemma AcceptedIsFit(command: Command, args: seq<string>)
    requires Parse(command, args).Ok?
    ensures var p := Parse(command, args).value;
            p.command == command && Fit(p) && Finish(p) == Ok(p)
  {
    assert Fit(NoOptions(command));
    hide Fit, ReadAll, Finish;
    ReadAllFits(args, NoOptions(command));
    FinishFits(ReadAll(args, NoOptions(command)).value);
  }

  /** A once-only option keeps its first value through any accepted rest. */
  predicate SameOnce(p: ParsedArgs, q: ParsedArgs) {
    && (p.wasmFeatures.Some? ==> q.wasmFeatures == p.wasmFeatures)
    && (p.profileOut.Some? ==> q.profileOut == p.profileOut)
    && (p.pgoGenerate.Some? ==> q.pgoGenerate == p.pgoGenerate) && (p.pgoUse.Some? ==> q.pgoUse == p.pgoUse)
  }

  lemma {:induction false} OnceOnlyStays(args: seq<string>, p: ParsedArgs)
    requires ReadAll(args, p).Ok?
    ensures SameOnce(p, ReadAll(args, p).value)
    decreases |args|, 0
  {
    hide Allowed, FitsAfter, Recognize, Assign, SwitchOn, TakesValue;
    if args != [] {
      match Recognize(args[0])
      case Positional =>
        ReadAllOnce(args[1..], p, p.(positionals := p.positionals + [args[0]]));
      case Level(level) =>
        ReadAllOnce(args[1..], p, p.(optLevel := Some(level)));
      case Named(flag) =>
        if TakesValue(flag) {
          AssignOnce(p, flag, args[1]);
          ReadAllOnce(args[2..], p, Assign(p, flag, args[1]).value);
        } else {
          SwitchOnce(p, flag);
          ReadAllOnce(args[1..], p, SwitchOn(p, flag));
        }
    }
  }

  lemma {:induction false} ReadAllOnce(args: seq<string>, p: ParsedArgs, q: ParsedArgs)
    requires SameOnce(p, q) && ReadAll(args, q).Ok?
    ensures SameOnce(p, ReadAll(args, q).value)
    decreases |args|, 1
  {
    hide ReadAll;
    OnceOnlyStays(args, q);
  }

  predicate IsOnce(flag: Flag) {
    flag.WasmFeatures? || flag.ProfileOut? || flag.PgoGenerate? || flag.PgoUse?
  }

  lemma AssignOnce(p: ParsedArgs, flag: Flag, value: string)
    requires TakesValue(flag) && Assign(p, flag, value).Ok?
    ensures SameOnce(p, Assign(p, flag, value).value)
  {
    hide ParseKind, ParseCpu, ParseConsumer, ParseWasm, SameOnce;
    if IsOnce(flag) {
      OnceAssigned(p, flag, value);
    } else {
      OthersAssigned(p, flag, value);
    }
  }

  lemma OnceAssigned(p: ParsedArgs, flag: Flag, value: string)
    requires IsOnce(flag) && Assign(p, flag, value).Ok?
    ensures SameOnce(p, Assign(p, flag, value).value)
  {
    hide ParseKind, ParseCpu, ParseConsumer, ParseWasm;
  }

  lemma OthersAssigned(p: ParsedArgs, flag: Flag, value: string)
    requires TakesValue(flag) && !IsOnce(flag) && Assign(p, flag, value).Ok?
    ensures SameOnce(p, Assign(p, flag, value).value)
  {
    hide ParseKind, ParseCpu, ParseConsumer, ParseWasm;
  }

  lemma SwitchOnce(p: ParsedArgs, flag: Flag)
    requires !TakesValue(flag)
    ensures SameOnce(p, SwitchOn(p, flag))
  {
  }

  // ---------- writing options down ----------

  function Segment(flag: Flag, value: Option<string>): seq<string> {
    if value.None? then [] else [Spelling(flag), value.value]
  }

  function LevelSegment(level: Option<string>): seq<string> {
    if level.None? then [] else ["-O" + level.value]
  }

  function SwitchSegment(flag: Flag, on: bool): seq<string> {
    if on then [Spelling(flag)] else []
  }

  function KindValue(kind: Option<ArtifactKind>): Option<string> {
    if kind.None? then None else Some(KindText(kind.value))
  }

  function CpuValue(cpu: Option<CpuPolicy>): Option<string> { if cpu.None? then None else Some(CpuText(cpu.value)) }

  function ConsumerValue(c: Option<KirConsumer>): Option<string> {
    if c.None? then None else Some(ConsumerText(c.value))
  }

  function WasmValue(w: Option<WasmFeatureSet>): Option<string> { if w.None? then None else Some(WasmText(w.value)) }

  /** The options, from the inputs on, in a fixed order. */
  function Render(p: ParsedArgs): seq<string> {
    p.positionals + (Segment(Out, p.out) + RenderArtifact(p))
  }

  function RenderArtifact(p: ParsedArgs): seq<string> {
    Segment(Kind, KindValue(p.kind)) + (Segment(PgoGenerate, p.pgoGenerate)
    + (LevelSegment(p.optLevel) + RenderModes(p)))
  }

  function RenderModes(p: ParsedArgs): seq<string> {
    Segment(PgoUse, p.pgoUse) + (Segment(Overflow, p.overflow) + (Segment(Bounds, p.bounds)
    + (Segment(Cpu, CpuValue(p.cpu)) + (Segment(Target, p.target) + RenderOutputs(p)))))
  }

  function RenderOutputs(p: ParsedArgs): seq<string> {
    Segment(Consumer, ConsumerValue(p.consumer)) + (Segment(WasmFeatures, WasmValue(p.wasmFeatures))
    + (Segment(Header, p.header) + (Segment(ProfileOut, p.profileOut) + RenderSwitches(p))))
  }

  function RenderSwitches(p: ParsedArgs): seq<string> {
    SwitchSegment(NoCache, p.noCache) + (SwitchSegment(PrintFacts, p.printFacts)
    + (SwitchSegment(PrintEffectSummaries, p.printEffectSummaries) + RenderChecks(p)))
  }

  function RenderChecks(p: ParsedArgs): seq<string> {
    SwitchSegment(ExplainOptimization, p.explainOptimization)
    + (SwitchSegment(SanitizeContracts, p.sanitizeContracts) + [])
  }

  /** The options once each part of the rendering has been read. */
  function Front(p: ParsedArgs): ParsedArgs {
    NoOptions(p.command).(positionals := p.positionals, out := p.out, kind := p.kind, pgoGenerate := p.pgoGenerate,
        optLevel := p.optLevel)
  }

  function WithModes(p: ParsedArgs): ParsedArgs {
    Front(p).(pgoUse := p.pgoUse, overflow := p.overflow, bounds := p.bounds, cpu := p.cpu, target := p.target)
  }

  function WithOutputs(p: ParsedArgs): ParsedArgs {
    WithModes(p).(consumer := p.consumer, wasmFeatures := p.wasmFeatures, header := p.header,
        profileOut := p.profileOut)
  }

  lemma SegmentRuns(flag: Flag, value: Option<string>, rest: seq<string>, p: ParsedArgs, q: ParsedArgs)
    requires TakesValue(flag)
    requires value.None? ==> q == p
    requires value.Some? ==>
               Allowed(p.command, flag) && FitsAfter(flag, value.value) && Assign(p, flag, value.value) == Ok(q)
    ensures ReadAll(Segment(flag, value) + rest, p) == ReadAll(rest, q)
  {
    hide Allowed, FitsAfter, Recognize, Spelling, Assign;
    var args := Segment(flag, value) + rest;
    if value.None? {
      assert args == rest;
    } else {
      SpellingIsRecognized(flag);
      assert args[0] == Spelling(flag) && args[1] == value.value && args[2..] == rest;
    }
  }

  lemma LevelRuns(level: Option<string>, rest: seq<string>, p: ParsedArgs)
    requires level.Some? ==> Allowed(p.command, OptLevel)
    requires p.optLevel.None?
    ensures ReadAll(LevelSegment(level) + rest, p) == ReadAll(rest, p.(optLevel := level))
  {
    hide Allowed, FitsAfter, Recognize;
    var args := LevelSegment(level) + rest;
    if level.None? {
      assert args == rest;
    } else {
      LevelIsRecognized(level.value);
      assert args[0] == "-O" + level.value && args[1..] == rest;
    }
  }

  lemma SwitchRuns(flag: Flag, on: bool, rest: seq<string>, p: ParsedArgs, q: ParsedArgs)
    requires !TakesValue(flag)
    requires if on then Allowed(p.command, flag) && q == SwitchOn(p, flag) else q == p
    ensures ReadAll(SwitchSegment(flag, on) + rest, p) == ReadAll(rest, q)
  {
    hide Allowed, FitsAfter, Recognize, Spelling;
    var args := SwitchSegment(flag, on) + rest;
    if on {
      SpellingIsRecognized(flag);
      assert args[0] == Spelling(flag) && args[1..] == rest;
    } else {
      assert args == rest;
    }
  }

  lemma {:induction false} PositionalsRun(words: seq<string>, rest: seq<string>, p: ParsedArgs)
    requires forall i :: 0 <= i < |words| ==> !("-" <= words[i])
    ensures ReadAll(words + rest, p) == ReadAll(rest, p.(positionals := p.positionals + words))
  {
    hide Allowed, FitsAfter, Recognize;
    if words == [] {
      assert words + rest == rest && p.positionals + words == p.positionals;
    } else {
      PositionalIsRecognized(words[0]);
      var q := p.(positionals := p.positionals + [words[0]]);
      assert (words + rest)[1..] == words[1..] + rest;
      assert q.positionals + words[1..] == p.positionals + words;
      PositionalsRun(words[1..], rest, q);
    }
  }

  lemma NoDashes(value: string)
    requires value == "" || value[0] != '-'
    ensures !("--" <= value)
  {
    assert "--"[0] == '-';
  }

  lemma KindReadsBack(kind: ArtifactKind)
    ensures ParseKind(KindText(kind)) == Some(kind) && FitsAfter(Kind, KindText(kind))
  {
    NoDashes(KindText(kind));
  }

  lemma CpuReadsBack(cpu: CpuPolicy)
    ensures ParseCpu(CpuText(cpu)) == Some(cpu) && FitsAfter(Cpu, CpuText(cpu))
  {
    NoDashes(CpuText(cpu));
  }

  lemma ConsumerReadsBack(consumer: KirConsumer)
    ensures ParseConsumer(ConsumerText(consumer)) == Some(consumer) && FitsAfter(Consumer, ConsumerText(consumer))
  {
    NoDashes(ConsumerText(consumer));
  }

  lemma WasmReadsBack(features: WasmFeatureSet)
    ensures ParseWasm(WasmText(features)) == Some(features) && FitsAfter(WasmFeatures, WasmText(features))
  {
    NoDashes(WasmText(features));
  }

  /** The options that are plain text. */
  function TextOf(p: ParsedArgs, flag: Flag): Option<string> {
    match flag
    case Out => p.out
    case Overflow => p.overflow
    case Bounds => p.bounds
    case Target => p.target
    case Header => p.header
    case ProfileOut => p.profileOut
    case PgoGenerate => p.pgoGenerate
    case PgoUse => p.pgoUse
    case Kind => KindValue(p.kind)
    case Cpu => CpuValue(p.cpu)
    case Consumer => ConsumerValue(p.consumer)
    case WasmFeatures => WasmValue(p.wasmFeatures)
    case _ => None
  }

  /** `p` with one option taken over from `from`. */
  function Take(p: ParsedArgs, flag: Flag, from: ParsedArgs): ParsedArgs {
    match flag
    case Out => p.(out := from.out)
    case Overflow => p.(overflow := from.overflow)
    case Bounds => p.(bounds := from.bounds)
    case Target => p.(target := from.target)
    case Header => p.(header := from.header)
    case ProfileOut => p.(profileOut := from.profileOut)
    case PgoGenerate => p.(pgoGenerate := from.pgoGenerate)
    case PgoUse => p.(pgoUse := from.pgoUse)
    case Kind => p.(kind := from.kind)
    case Cpu => p.(cpu := from.cpu)
    case Consumer => p.(consumer := from.consumer)
    case WasmFeatures => p.(wasmFeatures := from.wasmFeatures)
    case NoCache => p.(noCache := from.noCache)
    case PrintFacts => p.(printFacts := from.printFacts)
    case PrintEffectSummaries => p.(printEffectSummaries := from.printEffectSummaries)
    case ExplainOptimization => p.(explainOptimization := from.explainOptimization)
    case SanitizeContracts => p.(sanitizeContracts := from.sanitizeContracts)
    case OutShort => p.(out := from.out)
    case OptLevel => p.(optLevel := from.optLevel)
  }

  predicate IsOn(p: ParsedArgs, flag: Flag) {
    match flag
    case NoCache => p.noCache
    case PrintFacts => p.printFacts
    case PrintEffectSummaries => p.printEffectSummaries
    case ExplainOptimization => p.explainOptimization
    case SanitizeContracts => p.sanitizeContracts
    case _ => false
  }

  predicate IsChoice(flag: Flag) { flag.Kind? || flag.Cpu? || flag.Consumer? || flag.WasmFeatures? }

  lemma TextAssigns(p: ParsedArgs, flag: Flag, from: ParsedArgs)
    requires Fit(from) && p.command == from.command && TakesValue(flag) && TextOf(p, flag) == None
    requires !flag.OutShort? && !flag.OptLevel? && !IsChoice(flag)
    ensures TextOf(from, flag).None? ==> Take(p, flag, from) == p
    ensures TextOf(from, flag).Some? ==>
      && Allowed(p.command, flag) && FitsAfter(flag, TextOf(from, flag).value)
      && Assign(p, flag, TextOf(from, flag).value) == Ok(Take(p, flag, from))
  {
    hide Allowed, FitsAfter, ParseKind, ParseCpu, ParseConsumer, ParseWasm;
  }

  lemma ChoiceAssigns(p: ParsedArgs, flag: Flag, from: ParsedArgs)
    requires Fit(from) && p.command == from.command && TakesValue(flag) && TextOf(p, flag) == None
    requires IsChoice(flag)
    ensures TextOf(from, flag).None? ==> Take(p, flag, from) == p
    ensures TextOf(from, flag).Some? ==>
      && Allowed(p.command, flag) && FitsAfter(flag, TextOf(from, flag).value)
      && Assign(p, flag, TextOf(from, flag).value) == Ok(Take(p, flag, from))
  {
    if TextOf(from, flag).Some? {
      ChoiceReadsBack(from, flag);
    }
    hide Allowed, FitsAfter, ParseKind, ParseCpu, ParseConsumer, ParseWasm, KindText, CpuText, ConsumerText, WasmText;
  }

  lemma ChoiceReadsBack(p: ParsedArgs, flag: Flag)
    requires IsChoice(flag) && TextOf(p, flag).Some?
    ensures FitsAfter(flag, TextOf(p, flag).value)
    ensures match flag
            case Kind => ParseKind(TextOf(p, flag).value) == p.kind
            case Cpu => ParseCpu(TextOf(p, flag).value) == p.cpu
            case Consumer => ParseConsumer(TextOf(p, flag).value) == p.consumer
            case _ => ParseWasm(TextOf(p, flag).value) == p.wasmFeatures
  {
    hide ParseKind, ParseCpu, ParseConsumer, ParseWasm, KindText, CpuText, ConsumerText, WasmText, FitsAfter;
    if flag.Kind? {
      KindReadsBack(p.kind.value);
    } else if flag.Cpu? {
      CpuReadsBack(p.cpu.value);
    } else if flag.Consumer? {
      ConsumerReadsBack(p.consumer.value);
    } else {
      WasmReadsBack(p.wasmFeatures.value);
    }
  }

  /** An option that `p` lacks is taken over from its written form. */
  lemma TextRuns(p: ParsedArgs, flag: Flag, from: ParsedArgs, rest: seq<string>)
    requires Fit(from) && p.command == from.command && TakesValue(flag) && TextOf(p, flag) == None
    requires !flag.OutShort? && !flag.OptLevel?
    ensures ReadAll(Segment(flag, TextOf(from, flag)) + rest, p) == ReadAll(rest, Take(p, flag, from))
  {
    if IsChoice(flag) {
      ChoiceAssigns(p, flag, from);
    } else {
      TextAssigns(p, flag, from);
    }
    hide Fit, TextOf, Take, Assign, Allowed, FitsAfter, ReadAll, Segment;
    SegmentRuns(flag, TextOf(from, flag), rest, p, Take(p, flag, from));
  }

  lemma LevelTaken(p: ParsedArgs, from: ParsedArgs, rest: seq<string>)
    requires Fit(from) && p.command == from.command && p.optLevel.None?
    ensures ReadAll(LevelSegment(from.optLevel) + rest, p) == ReadAll(rest, p.(optLevel := from.optLevel))
  {
    hide Allowed, FitsAfter, ReadAll, LevelSegment;
    LevelRuns(from.optLevel, rest, p);
  }

  lemma SwitchTaken(p: ParsedArgs, flag: Flag, from: ParsedArgs, rest: seq<string>)
    requires Fit(from) && p.command == from.command && !TakesValue(flag) && !IsOn(p, flag)
    ensures ReadAll(SwitchSegment(flag, IsOn(from, flag)) + rest, p) == ReadAll(rest, Take(p, flag, from))
  {
    hide Allowed, FitsAfter, ReadAll, SwitchSegment;
    SwitchRuns(flag, IsOn(from, flag), rest, p, Take(p, flag, from));
  }

  lemma InputsRun(p: ParsedArgs)
    requires Fit(p)
    ensures ReadAll(Render(p), NoOptions(p.command))
         == ReadAll(RenderArtifact(p), NoOptions(p.command).(positionals := p.positionals, out := p.out))
  {
    var p0 := NoOptions(p.command);
    var p1 := p0.(positionals := p.positionals);
    assert forall i :: 0 <= i < |p.positionals| ==> !("-" <= p.positionals[i]);
    assert p0.positionals + p.positionals == p.positionals;
    hide ReadAll, Segment, RenderArtifact, Fit;
    PositionalsRun(p.positionals, Segment(Out, p.out) + RenderArtifact(p), p0);
    TextRuns(p1, Out, p, RenderArtifact(p));
  }

  lemma ArtifactRuns(p: ParsedArgs)
    requires Fit(p)
    ensures ReadAll(RenderArtifact(p), NoOptions(p.command).(positionals := p.positionals, out := p.out))
         == ReadAll(RenderModes(p), Front(p))
  {
    var p0 := NoOptions(p.command).(positionals := p.positionals, out := p.out);
    var p1 := Take(p0, Kind, p);
    var p2 := Take(p1, PgoGenerate, p);
    var r2 := LevelSegment(p.optLevel) + RenderModes(p);
    var r1 := Segment(PgoGenerate, p.pgoGenerate) + r2;
    hide ReadAll, Segment, LevelSegment, RenderModes, Fit;
    TextRuns(p0, Kind, p, r1);
    TextRuns(p1, PgoGenerate, p, r2);
    LevelTaken(p2, p, RenderModes(p));
  }

  lemma ModesRun(p: ParsedArgs)
    requires Fit(p)
    ensures ReadAll(RenderModes(p), Front(p)) == ReadAll(RenderOutputs(p), WithModes(p))
  {
    var p0 := Front(p);
    var p1 := Take(p0, PgoUse, p);
    var p2 := Take(p1, Overflow, p);
    var p3 := Take(p2, Bounds, p);
    var p4 := Take(p3, Cpu, p);
    var r4 := Segment(Target, p.target) + RenderOutputs(p);
    var r3 := Segment(Cpu, CpuValue(p.cpu)) + r4;
    var r2 := Segment(Bounds, p.bounds) + r3;
    var r1 := Segment(Overflow, p.overflow) + r2;
    hide ReadAll, Segment, RenderOutputs, Fit;
    TextRuns(p0, PgoUse, p, r1);
    TextRuns(p1, Overflow, p, r2);
    TextRuns(p2, Bounds, p, r3);
    TextRuns(p3, Cpu, p, r4);
    TextRuns(p4, Target, p, RenderOutputs(p));
  }

  lemma OutputsRun(p: ParsedArgs)
    requires Fit(p)
    ensures ReadAll(RenderOutputs(p), WithModes(p)) == ReadAll(RenderSwitches(p), WithOutputs(p))
  {
    var p0 := WithModes(p);
    var p1 := Take(p0, Consumer, p);
    var p2 := Take(p1, WasmFeatures, p);
    var p3 := Take(p2, Header, p);
    var r3 := Segment(ProfileOut, p.profileOut) + RenderSwitches(p);
    var r2 := Segment(Header, p.header) + r3;
    var r1 := Segment(WasmFeatures, WasmValue(p.wasmFeatures)) + r2;
    hide ReadAll, Segment, RenderSwitches, Fit;
    TextRuns(p0, Consumer, p, r1);
    TextRuns(p1, WasmFeatures, p, r2);
    TextRuns(p2, Header, p, r3);
    TextRuns(p3, ProfileOut, p, RenderSwitches(p));
  }

  lemma SwitchesRun(p: ParsedArgs)
    requires Fit(p)
    ensures ReadAll(RenderSwitches(p), WithOutputs(p))
         == ReadAll(RenderChecks(p), p.(explainOptimization := false, sanitizeContracts := false))
  {
    var p0 := WithOutputs(p);
    var p1 := Take(p0, NoCache, p);
    var p2 := Take(p1, PrintFacts, p);
    var r2 := SwitchSegment(PrintEffectSummaries, p.printEffectSummaries) + RenderChecks(p);
    var r1 := SwitchSegment(PrintFacts, p.printFacts) + r2;
    hide ReadAll, SwitchSegment, RenderChecks, Fit;
    SwitchTaken(p0, NoCache, p, r1);
    SwitchTaken(p1, PrintFacts, p, r2);
    SwitchTaken(p2, PrintEffectSummaries, p, RenderChecks(p));
  }

  lemma ChecksRun(p: ParsedArgs)
    requires Fit(p)
    ensures ReadAll(RenderChecks(p), p.(explainOptimization := false, sanitizeContracts := false)) == ReadAll([], p)
  {
    var p0 := p.(explainOptimization := false, sanitizeContracts := false);
    hide ReadAll, SwitchSegment, Fit;
    SwitchTaken(p0, ExplainOptimization, p, SwitchSegment(SanitizeContracts, p.sanitizeContracts) + []);
    SwitchTaken(Take(p0, ExplainOptimization, p), SanitizeContracts, p, []);
  }

  /** Fit options, written down, parse to what the final checks make of them. */
  lemma RenderingParses(p: ParsedArgs)
    requires Fit(p)
    ensures Parse(p.command, Render(p)) == Finish(p)
  {
    assert ReadAll([], p) == Ok(p);
    hide Fit, Render, RenderArtifact, RenderModes, RenderOutputs, RenderSwitches, RenderChecks;
    hide Front, WithModes, WithOutputs, ReadAll, Finish;
    InputsRun(p);
    ArtifactRuns(p);
    ModesRun(p);
    OutputsRun(p);
    SwitchesRun(p);
    ChecksRun(p);
  }

  /** Every accepted command line is equivalent to the rendering of what it parsed to. */
  lemma RoundTrip(command: Command, args: seq<string>)
    requires Parse(command, args).Ok?
    ensures Parse(command, Render(Parse(command, args).value)) == Parse(command, args)
  {
    hide Parse, Render, Finish, Fit;
    AcceptedIsFit(command, args);
    RenderingParses(Parse(command, args).value);
  }
}
