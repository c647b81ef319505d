/** Parsing of command-line options (src/cli/args.rs). */
module CommandLine {
  import opened Basics

  datatype Command =
    | EmitMir | EmitKir | EmitC | EmitWat | EmitWasm | EmitLlvm
    | Build | BuildLlvm | Run | PgoBuild | OtherCommand(name: string)

  datatype Flag =
    | Out | OutShort | Overflow | Bounds | OptLevel | Target | Kind | Cpu | Consumer | WasmFeatures | Header
    | ProfileOut | PgoGenerate | PgoUse
    | NoCache | PrintFacts | PrintEffectSummaries | ExplainOptimization | SanitizeContracts

  datatype ArtifactKind = Executable | Dynamic | Static | Object

  datatype CpuPolicy = BaselineCpu | NativeCpu | Multiversion

  datatype KirConsumer = Inspection | CSource | WebAssembly | NativeLibrary | NativeExecutable

  datatype WasmFeatureSet = BaselineWasm | Simd128

  datatype ParsedArgs = ParsedArgs(
    command: Command,
    positionals: seq<string>,
    out: Option<string>,
    overflow: Option<string>,
    bounds: Option<string>,
    optLevel: Option<string>,
    target: Option<string>,
    kind: Option<ArtifactKind>,
    cpu: Option<CpuPolicy>,
    consumer: Option<KirConsumer>,
    wasmFeatures: Option<WasmFeatureSet>,
    header: Option<string>,
    profileOut: Option<string>,
    pgoGenerate: Option<string>,
    pgoUse: Option<string>,
    noCache: bool,
    printFacts: bool,
    printEffectSummaries: bool,
    explainOptimization: bool,
    sanitizeContracts: bool)

  /** Why a command line is refused. */
  datatype UsageError =
    | UnknownOption | NotForCommand | MissingValue | ProvidedTwice | InvalidValue | IncompatibleOptions
    | WrongInputs | MissingOutput | AliasedProfile

  type Parsing = Result<ParsedArgs, UsageError>

  function NoOptions(command: Command): ParsedArgs {
    ParsedArgs(command, [], None, None, None, None, None, None, None, None, None, None, None, None, None,
               false, false, false, false, false)
  }

  // ---------- spelling ----------

  function Spelling(flag: Flag): string {
    match flag
    case Out => "--out"
    case OutShort => "-o"
    case Overflow => "--overflow"
    case Bounds => "--bounds"
    case OptLevel => "--opt-level"
    case Target => "--target"
    case Kind => "--kind"
    case Cpu => "--cpu"
    case Consumer => "--consumer"
    case WasmFeatures => "--wasm-features"
    case Header => "--header"
    case ProfileOut => "--profile-out"
    case PgoGenerate => "--pgo-generate"
    case PgoUse => "--pgo-use"
    case NoCache => "--no-cache"
    case PrintFacts => "--print-facts"
    case PrintEffectSummaries => "--print-effect-summaries"
    case ExplainOptimization => "--explain-optimization"
    case SanitizeContracts => "--sanitize-contracts"
  }

  /** What one argument is: an option, a level written `-O…`, another word with a dash, or a positional. */
  datatype Token = Named(flag: Flag) | Level(level: string) | Unknown | Positional

  function Recognize(arg: string): Token {
    if arg == "--out" then Named(Out)
    else if arg == "-o" then Named(OutShort)
    else if arg == "--overflow" then Named(Overflow)
    else if arg == "--bounds" then Named(Bounds)
    else if arg == "--opt-level" then Named(OptLevel)
    else if "-O" <= arg then Level(arg[2..])
    else if arg == "--target" then Named(Target)
    else if arg == "--kind" then Named(Kind)
    else if arg == "--cpu" then Named(Cpu)
    else if arg == "--consumer" then Named(Consumer)
    else if arg == "--wasm-features" then Named(WasmFeatures)
    else if arg == "--header" then Named(Header)
    else if arg == "--profile-out" then Named(ProfileOut)
    else if arg == "--pgo-generate" then Named(PgoGenerate)
    else if arg == "--pgo-use" then Named(PgoUse)
    else if arg == "--no-cache" then Named(NoCache)
    else if arg == "--print-facts" then Named(PrintFacts)
    else if arg == "--print-effect-summaries" then Named(PrintEffectSummaries)
    else if arg == "--explain-optimization" then Named(ExplainOptimization)
    else if arg == "--sanitize-contracts" then Named(SanitizeContracts)
    else if "-" <= arg then Unknown
    else Positional
  }

  lemma SpellingIsRecognized(flag: Flag)
    ensures Recognize(Spelling(flag)) == Named(flag)
  {
    if flag.Out? || flag.OutShort? || flag.Overflow? || flag.Bounds? || flag.OptLevel? || flag.Target? || flag.Kind? {
      CommonSpelling(flag);
    } else if flag.Cpu? || flag.Consumer? || flag.WasmFeatures? || flag.Header? || flag.ProfileOut? {
      TargetSpelling(flag);
    } else if flag.PgoGenerate? || flag.PgoUse? || flag.NoCache? {
      ProfileSpelling(flag);
    } else if flag.PrintFacts? || flag.PrintEffectSummaries? {
      SwitchSpelling(flag);
    } else {
      ContractSpelling(flag);
    }
  }

  lemma CommonSpelling(flag: Flag)
    requires flag.Out? || flag.OutShort? || flag.Overflow? || flag.Bounds? || flag.OptLevel? || flag.Target?
      || flag.Kind?
    ensures Recognize(Spelling(flag)) == Named(flag)
  {
    match flag
    case Out => assert "--out"[1] == '-' && "--out"[2] == 'o';
    case OutShort => assert "-o"[1] == 'o';
    case Overflow => assert "--overflow"[1] == '-' && "--overflow"[2] == 'o';
    case Bounds => assert "--bounds"[1] == '-' && "--bounds"[2] == 'b';
    case OptLevel => assert "--opt-level"[1] == '-';
    case Target => assert "--target"[1] == '-' && "--target"[2] == 't';
    case Kind => assert "--kind"[1] == '-';
    case _ =>
  }

  lemma TargetSpelling(flag: Flag)
    requires flag.Cpu? || flag.Consumer? || flag.WasmFeatures? || flag.Header? || flag.ProfileOut?
    ensures Recognize(Spelling(flag)) == Named(flag)
  {
    match flag
    case Cpu => assert "--cpu"[1] == '-' && "--cpu"[2] == 'c';
    case Consumer => assert "--consumer"[1] == '-' && "--consumer"[2] == 'c';
    case WasmFeatures => assert "--wasm-features"[1] == '-';
    case Header => assert "--header"[1] == '-' && "--header"[2] == 'h';
    case ProfileOut => assert "--profile-out"[1] == '-' && "--profile-out"[4] == 'o';
    case _ =>
  }

  lemma ProfileSpelling(flag: Flag)
    requires flag.PgoGenerate? || flag.PgoUse? || flag.NoCache?
    ensures Recognize(Spelling(flag)) == Named(flag)
  {
    match flag
    case PgoGenerate => assert "--pgo-generate"[1] == '-';
    case PgoUse => assert "--pgo-use"[1] == '-';
    case NoCache => assert "--no-cache"[1] == '-' && "--no-cache"[2] == 'n';
    case _ =>
  }

  lemma SwitchSpelling(flag: Flag)
    requires flag.PrintFacts? || flag.PrintEffectSummaries?
    ensures Recognize(Spelling(flag)) == Named(flag)
  {
    match flag
    case PrintFacts => assert "--print-facts"[1] == '-' && "--print-facts"[4] == 'i';
    case PrintEffectSummaries => assert "--print-effect-summaries"[1] == '-';
    case _ =>
  }

  lemma ContractSpelling(flag: Flag)
    requires flag.ExplainOptimization? || flag.SanitizeContracts?
    ensures Recognize(Spelling(flag)) == Named(flag)
  {
    match flag
    case ExplainOptimization => assert "--explain-optimization"[1] == '-';
    case SanitizeContracts => assert "--sanitize-contracts"[1] == '-';
    case _ =>
  }

  lemma LevelIsRecognized(level: string)
    ensures Recognize("-O" + level) == Level(level)
  {
    var arg := "-O" + level;
    assert arg[0] == '-' && arg[1] == 'O' && arg[2..] == level;
  }

  lemma PositionalIsRecognized(arg: string)
    ensures Recognize(arg) == Positional <==> !("-" <= arg)
  {
    if arg != "" && "-" <= arg {
      assert arg[0] == '-';
    }
  }

  // ---------- values ----------

  function KindText(kind: ArtifactKind): string {
    match kind
    case Executable => "executable"
    case Dynamic => "dynamic"
    case Static => "static"
    case Object => "object"
  }

  function ParseKind(value: string): Option<ArtifactKind> {
    match value
    case "executable" => Some(Executable)
    case "dynamic" => Some(Dynamic)
    case "static" => Some(Static)
    case "object" => Some(Object)
    case _ => None
  }

  function CpuText(cpu: CpuPolicy): string {
    match cpu
    case BaselineCpu => "baseline"
    case NativeCpu => "native"
    case Multiversion => "multiversion"
  }

  function ParseCpu(value: string): Option<CpuPolicy> {
    match value
    case "baseline" => Some(BaselineCpu)
    case "native" => Some(NativeCpu)
    case "multiversion" => Some(Multiversion)
    case _ => None
  }

  function ConsumerText(consumer: KirConsumer): string {
    match consumer
    case Inspection => "inspection"
    case CSource => "c"
    case WebAssembly => "wasm"
    case NativeLibrary => "native-library"
    case NativeExecutable => "native-executable"
  }

  function ParseConsumer(value: string): Option<KirConsumer> {
    match value
    case "inspection" => Some(Inspection)
    case "c" => Some(CSource)
    case "wasm" => Some(WebAssembly)
    case "native-library" => Some(NativeLibrary)
    case "native-executable" => Some(NativeExecutable)
    case _ => None
  }

  function WasmText(features: WasmFeatureSet): string {
    match features
    case BaselineWasm => "baseline"
    case Simd128 => "simd128"
  }

  function ParseWasm(value: string): Option<WasmFeatureSet> {
    match value
    case "baseline" => Some(BaselineWasm)
    case "simd128" => Some(Simd128)
    case _ => None
  }

  predicate IsNative(consumer: KirConsumer) { consumer.NativeLibrary? || consumer.NativeExecutable? }

  /** A value after a long option must not look like a long option, one after `-o` like no option at all. */
  predicate FitsAfter(flag: Flag, value: string) {
    if flag == OutShort then !("-" <= value) else !("--" <= value)
  }

  // ---------- permissions ----------

  /** The commands that take an option. */
  predicate Allowed(command: Command, flag: Flag) {
    match flag
    case Out | OutShort => command !in {Run} && !command.OtherCommand?
    case Overflow | Bounds => command !in {EmitMir} && !command.OtherCommand?
    case OptLevel => !command.OtherCommand?
    case Target => command in {EmitLlvm, Build, BuildLlvm}
    case Kind => command in {Build, BuildLlvm}
    case Cpu => command in {Build, EmitKir, PgoBuild}
    case Consumer => command == EmitKir
    case WasmFeatures => command in {EmitKir, EmitWat, EmitWasm}
    case Header => command == EmitC
    case NoCache => command == Run
    case PrintFacts | PrintEffectSummaries | ExplainOptimization =>
      command !in {EmitMir, PgoBuild} && !command.OtherCommand?
    case SanitizeContracts => command in {Run, Build, BuildLlvm, PgoBuild}
    case ProfileOut => command == PgoBuild
    case PgoGenerate => command == Build
    case PgoUse => command in {Build, EmitKir}
  }

  predicate TakesValue(flag: Flag) {
    && !flag.NoCache? && !flag.PrintFacts? && !flag.PrintEffectSummaries? && !flag.ExplainOptimization?
    && !flag.SanitizeContracts?
  }

  // ---------- one option ----------

  function SetOnce<T>(slot: Option<T>, value: T): Result<Option<T>, UsageError> {
    if slot.Some? then Err(ProvidedTwice) else Ok(Some(value))
  }

  /** Stores the value of an option: later values replace earlier ones, except for the once-only options. */
  function Assign(p: ParsedArgs, flag: Flag, value: string): Parsing
    requires TakesValue(flag)
  {
    match flag
    case Out | OutShort => Ok(p.(out := Some(value)))
    case Overflow => Ok(p.(overflow := Some(value)))
    case Bounds => Ok(p.(bounds := Some(value)))
    case OptLevel => Ok(p.(optLevel := Some(value)))
    case Target => Ok(p.(target := Some(value)))
    case Kind => if ParseKind(value).None? then Err(InvalidValue) else Ok(p.(kind := ParseKind(value)))
    case Cpu => if ParseCpu(value).None? then Err(InvalidValue) else Ok(p.(cpu := ParseCpu(value)))
    case Consumer =>
      if ParseConsumer(value).None? then Err(InvalidValue) else Ok(p.(consumer := ParseConsumer(value)))
    case WasmFeatures =>
      if ParseWasm(value).None? then Err(InvalidValue)
      else
        var slot := SetOnce(p.wasmFeatures, ParseWasm(value).value);
        if slot.Err? then Err(slot.error) else Ok(p.(wasmFeatures := slot.value))
    case Header => Ok(p.(header := Some(value)))
    case ProfileOut =>
      var slot := SetOnce(p.profileOut, value);
      if slot.Err? then Err(slot.error) else Ok(p.(profileOut := slot.value))
    case PgoGenerate =>
      var slot := SetOnce(p.pgoGenerate, value);
      if slot.Err? then Err(slot.error) else Ok(p.(pgoGenerate := slot.value))
    case PgoUse =>
      var slot := SetOnce(p.pgoUse, value);
      if slot.Err? then Err(slot.error) else Ok(p.(pgoUse := slot.value))
  }

  function SwitchOn(p: ParsedArgs, flag: Flag): ParsedArgs
    requires !TakesValue(flag)
  {
    match flag
    case NoCache => p.(noCache := true)
    case PrintFacts => p.(printFacts := true)
    case PrintEffectSummaries => p.(printEffectSummaries := true)
    case ExplainOptimization => p.(explainOptimization := true)
    case SanitizeContracts => p.(sanitizeContracts := true)
  }

  /** Reads all arguments into `p`. */
  function ReadAll(args: seq<string>, p: ParsedArgs): Parsing {
    if args == [] then Ok(p)
    else
      match Recognize(args[0])
      case Positional => ReadAll(args[1..], p.(positionals := p.positionals + [args[0]]))
      case Unknown => Err(UnknownOption)
      case Level(level) =>
        if Allowed(p.command, OptLevel) then ReadAll(args[1..], p.(optLevel := Some(level))) else Err(NotForCommand)
      case Named(flag) =>
        if !Allowed(p.command, flag) then Err(NotForCommand)
        else if !TakesValue(flag) then ReadAll(args[1..], SwitchOn(p, flag))
        else if |args| < 2 || !FitsAfter(flag, args[1]) then Err(MissingValue)
        else
          match Assign(p, flag, args[1])
          case Err(error) => Err(error)
          case Ok(next) => ReadAll(args[2..], next)
  }

  // ---------- checks over all options ----------

  function ParseOptLevelValue(value: string): Option<nat> {
    match value
    case "0" => Some(0)
    case "1" => Some(1)
    case "2" => Some(2)
    case "3" => Some(3)
    case _ => None
  }

  function DefaultOptLevel(command: Command): nat {
    if command in {Run, Build, BuildLlvm, PgoBuild} then 3 else 0
  }

  function ParseOptLevel(p: ParsedArgs): Option<nat> {
    if p.optLevel.None? then Some(DefaultOptLevel(p.command)) else ParseOptLevelValue(p.optLevel.value)
  }

  function ConsumerOf(p: ParsedArgs): KirConsumer {
    if p.consumer.Some? then p.consumer.value else Inspection
  }

  /** No two options contradict each other in what they ask about profiles, sanitizing and multiversioning. */
  predicate ProfileOptionsFit(p: ParsedArgs) {
    var profile, level := p.pgoGenerate.Some? || p.pgoUse.Some?, ParseOptLevel(p);
    && !(p.pgoGenerate.Some? && p.pgoUse.Some?)
    && (p.sanitizeContracts ==> !profile && p.command != PgoBuild && p.cpu != Some(Multiversion))
    && (p.pgoGenerate.Some? ==> p.kind != Some(Object))
    && (p.command == EmitKir && p.pgoUse.Some? ==> IsNative(ConsumerOf(p)))
    && level.Some? && (profile ==> 2 <= level.value)
    && (p.cpu == Some(Multiversion) ==> level.value == 3 && !(p.command == Build && p.kind == Some(Object)))
  }

  predicate SanitizerFits(p: ParsedArgs) {
    p.sanitizeContracts ==> (p.command == Build ==> p.kind == Some(Executable)) && p.command != BuildLlvm
  }

  predicate KirOptionsFit(p: ParsedArgs) {
    p.command == EmitKir ==>
      && (p.cpu.Some? ==> IsNative(ConsumerOf(p)))
      && (p.wasmFeatures.Some? ==> ConsumerOf(p) == WebAssembly)
  }

  /** A native consumer without a CPU policy gets the baseline. */
  function WithDefaultCpu(p: ParsedArgs): ParsedArgs {
    if p.command == EmitKir && IsNative(ConsumerOf(p)) && p.cpu.None? then p.(cpu := Some(BaselineCpu)) else p
  }

  function Finish(p: ParsedArgs): Parsing {
    if SanitizerFits(p) && KirOptionsFit(p) && ProfileOptionsFit(WithDefaultCpu(p)) then Ok(WithDefaultCpu(p))
    else Err(IncompatibleOptions)
  }

  function Parse(command: Command, args: seq<string>): Parsing {
    var read := ReadAll(args, NoOptions(command));
    if read.Err? then read else Finish(read.value)
  }

  /** The parser's loop over the arguments, and the checks behind it. */
  method ParseArguments(command: Command, args: seq<string>) returns (r: Parsing)
    ensures r == Parse(command, args)
  {
    hide Allowed, FitsAfter, Recognize, Assign, SwitchOn, TakesValue, Finish;
    var parsed, index := NoOptions(command), 0;
    while index < |args|
      invariant 0 <= index <= |args| && parsed.command == command
      invariant ReadAll(args, NoOptions(command)) == ReadAll(args[index..], parsed)
    {
      ghost var rest := args[index..];
      assert rest[0] == args[index] && rest[1..] == args[index + 1..];
      match Recognize(args[index]) {
        case Positional =>
          parsed := parsed.(positionals := parsed.positionals + [args[index]]);
        case Unknown =>
          return Err(UnknownOption);
        case Level(level) =>
          if !Allowed(command, OptLevel) {
            return Err(NotForCommand);
          }
          parsed := parsed.(optLevel := Some(level));
        case Named(flag) =>
          if !Allowed(command, flag) {
            return Err(NotForCommand);
          }
          if TakesValue(flag) {
            index := index + 1;
            if |args| <= index || !FitsAfter(flag, args[index]) {
              return Err(MissingValue);
            }
            assert rest[1] == args[index] && rest[2..] == args[index + 1..];
            var stored := Assign(parsed, flag, args[index]);
            if stored.Err? {
              return Err(stored.error);
            }
            AssignKeepsCommand(parsed, flag, args[index]);
            parsed := stored.value;
          } else {
            SwitchKeepsCommand(parsed, flag);
            parsed := SwitchOn(parsed, flag);
          }
      }
      index := index + 1;
    }
    assert args[index..] == [];
    r := CheckCombinations(parsed);
  }

  /** The checks of the options against each other, in the parser's order. */
  method CheckCombinations(parsed: ParsedArgs) returns (r: Parsing)
    ensures r == Finish(parsed)
  {
    if parsed.sanitizeContracts && parsed.command == Build && parsed.kind != Some(Executable) {
      return Err(IncompatibleOptions);
    }
    if parsed.sanitizeContracts && parsed.command == BuildLlvm {
      return Err(IncompatibleOptions);
    }
    var checked := parsed;
    if parsed.command == EmitKir {
      var consumer := if parsed.consumer.Some? then parsed.consumer.value else Inspection;
      if parsed.cpu.Some? && !IsNative(consumer) {
        return Err(IncompatibleOptions);
      }
      if IsNative(consumer) && parsed.cpu.None? {
        checked := parsed.(cpu := Some(BaselineCpu));
      }
      if parsed.wasmFeatures.Some? && consumer != WebAssembly {
        return Err(IncompatibleOptions);
      }
    }
    var fits := ValidateProfileOptions(checked);
    return if fits then Ok(checked) else Err(IncompatibleOptions);
  }

  method ValidateProfileOptions(p: ParsedArgs) returns (fits: bool)
    ensures fits <==> ProfileOptionsFit(p)
  {
    if p.pgoGenerate.Some? && p.pgoUse.Some? {
      return false;
    }
    var requested := p.pgoGenerate.Some? || p.pgoUse.Some?;
    if p.sanitizeContracts && (requested || p.command == PgoBuild || p.cpu == Some(Multiversion)) {
      return false;
    }
    if p.pgoGenerate.Some? && p.kind == Some(Object) {
      return false;
    }
    if p.command == EmitKir && p.pgoUse.Some? {
      var consumer := if p.consumer.Some? then p.consumer.value else Inspection;
      if !IsNative(consumer) {
        return false;
      }
    }
    var level := ParseOptLevel(p);
    if level.None? || (requested && level.value < 2) {
      return false;
    }
    if p.cpu == Some(Multiversion) {
      if level.value != 3 {
        return false;
      }
      if p.command == Build && p.kind == Some(Object) {
        return false;
      }
    }
    return true;
  }

  lemma SwitchKeepsCommand(p: ParsedArgs, flag: Flag)
    requires !TakesValue(flag)
    ensures SwitchOn(p, flag).command == p.command
  {
  }

  lemma AssignKeepsCommand(p: ParsedArgs, flag: Flag, value: string)
    requires TakesValue(flag) && Assign(p, flag, value).Ok?
    ensures Assign(p, flag, value).value.command == p.command
  {
  }
}
