/** The two builds that `pgo build` asks for, written as argument lists (src/cli/pgo.rs). */
module PgoWorkflow {
  import opened Basics
  import opened CommandLine
  import opened CommandLineRoundTrip

  /** Where the workflow keeps its intermediate files. */
  datatype TemporaryPaths = TemporaryPaths(collection: string, generationBase: string, finalBase: string,
      profile: string)

  /** A value that the parser takes after a long option. */
  predicate Usable(path: string) { !("--" <= path) }

  predicate AllUsable(paths: TemporaryPaths) {
    Usable(paths.collection) && Usable(paths.generationBase) && Usable(paths.finalBase) && Usable(paths.profile)
  }

  /** An accepted request with one input and an output. */
  predicate Requested(p: ParsedArgs) {
    p.command == PgoBuild && Fit(p) && Finish(p) == Ok(p) && |p.positionals| == 1 && p.out.Some?
  }

  /** A level 3 build of an executable from the same input with the same modes, asking for nothing else. */
  function BuildOf(p: ParsedArgs, out: string): ParsedArgs {
    NoOptions(Build).(positionals := p.positionals, out := Some(out), kind := Some(Executable), optLevel := Some("3"),
      overflow := p.overflow, bounds := p.bounds, cpu := p.cpu)
  }

  function GenerationBuild(p: ParsedArgs, paths: TemporaryPaths): ParsedArgs {
    BuildOf(p, paths.generationBase).(pgoGenerate := Some(paths.collection))
  }

  function FinalBuild(p: ParsedArgs, paths: TemporaryPaths): ParsedArgs {
    BuildOf(p, paths.finalBase).(pgoUse := Some(paths.profile))
  }

  function Modes(p: ParsedArgs): seq<string> {
    Segment(Overflow, p.overflow) + (Segment(Bounds, p.bounds)
    + (Segment(Cpu, CpuValue(p.cpu)) + Segment(Target, p.target)))
  }

  /** Adds the modes that both builds share with the request. */
  method AppendProfileBuildModes(p: ParsedArgs, output: seq<string>) returns (r: seq<string>)
    ensures r == output + Modes(p)
  {
    r := output;
    hide Spelling, CpuText;
    if p.overflow.Some? {
      r := r + [Spelling(Overflow), p.overflow.value];
    }
    if p.bounds.Some? {
      r := r + [Spelling(Bounds), p.bounds.value];
    }
    if p.cpu.Some? {
      r := r + [Spelling(Cpu), CpuText(p.cpu.value)];
    }
    if p.target.Some? {
      r := r + [Spelling(Target), p.target.value];
    }
    assert r == output + Modes(p);
  }

  lemma RequestHasNoTarget(p: ParsedArgs)
    requires Requested(p)
    ensures p.target.None? && !p.sanitizeContracts
    ensures p.cpu == Some(Multiversion) ==> ParseOptLevel(p) == Some(3)
  {
    hide FitsAfter, ParseOptLevel;
  }

  lemma BuildFits(p: ParsedArgs, out: string)
    requires Requested(p) && Usable(out)
    ensures Fit(BuildOf(p, out))
  {
    hide Finish;
  }

  lemma BothFit(p: ParsedArgs, paths: TemporaryPaths)
    requires Requested(p) && AllUsable(paths)
    ensures Fit(GenerationBuild(p, paths)) && Fit(FinalBuild(p, paths))
  {
    BuildFits(p, paths.generationBase);
    BuildFits(p, paths.finalBase);
    hide Finish, Requested;
  }

  lemma BuildFinishes(p: ParsedArgs, paths: TemporaryPaths)
    ensures Finish(GenerationBuild(p, paths)) == Ok(GenerationBuild(p, paths))
    ensures Finish(FinalBuild(p, paths)) == Ok(FinalBuild(p, paths))
  {
  }

  lemma SameModes(p: ParsedArgs, b: ParsedArgs)
    requires b.overflow == p.overflow && b.bounds == p.bounds && b.cpu == p.cpu && b.target == p.target
    ensures Modes(p) == Modes(b)
  {
  }

  lemma LevelThree()
    ensures LevelSegment(Some("3")) == ["-O3"]
  {
    assert "-O" + "3" == "-O3";
  }

  /** How the rendering of a build of an executable begins. */
  lemma BuildRendered(b: ParsedArgs)
    requires |b.positionals| == 1 && b.out.Some? && b.kind == Some(Executable) && b.optLevel == Some("3")
    requires RenderOutputs(b) == []
    ensures Render(b) == [b.positionals[0], "--out", b.out.value, "--kind", "executable"]
                       + (Segment(PgoGenerate, b.pgoGenerate) + (["-O3"] + (Segment(PgoUse, b.pgoUse) + Modes(b))))
  {
    LevelThree();
    ModesRendered(b);
    hide RenderModes, Modes, LevelSegment, RenderOutputs;
    assert b.positionals == [b.positionals[0]];
    assert RenderArtifact(b)
        == ["--kind", "executable"] + (Segment(PgoGenerate, b.pgoGenerate) + (["-O3"] + RenderModes(b)));
    assert Render(b) == [b.positionals[0]] + (["--out", b.out.value] + RenderArtifact(b));
  }

  /** The list that asks for the generation build is its rendering. */
  lemma GenerationList(p: ParsedArgs, paths: TemporaryPaths)
    requires p.target.None? && |p.positionals| == 1
    ensures [p.positionals[0], "--out", paths.generationBase, "--kind", "executable", "--pgo-generate",
              paths.collection, "-O3"]
            + Modes(p) == Render(GenerationBuild(p, paths))
  {
    var b := GenerationBuild(p, paths);
    NothingElse(b);
    SameModes(p, b);
    hide Modes, Render, RenderOutputs;
    BuildRendered(b);
  }

  lemma FinalList(p: ParsedArgs, paths: TemporaryPaths)
    requires p.target.None? && |p.positionals| == 1
    ensures [p.positionals[0], "--out", paths.finalBase, "--kind", "executable", "-O3", "--pgo-use", paths.profile]
            + Modes(p) == Render(FinalBuild(p, paths))
  {
    var b := FinalBuild(p, paths);
    NothingElse(b);
    SameModes(p, b);
    hide Modes, Render, RenderOutputs;
    BuildRendered(b);
  }

  lemma NothingElse(b: ParsedArgs)
    requires b.consumer.None? && b.wasmFeatures.None? && b.header.None? && b.profileOut.None? && !b.noCache
    requires !b.printFacts && !b.printEffectSummaries && !b.explainOptimization && !b.sanitizeContracts
    ensures RenderOutputs(b) == []
  {
    hide Spelling;
  }

  lemma ModesRendered(b: ParsedArgs)
    requires RenderOutputs(b) == []
    ensures RenderModes(b) == Segment(PgoUse, b.pgoUse) + Modes(b)
  {
    hide Segment, RenderOutputs, CpuValue;
  }

  /** Both lists parse, and to exactly the builds meant. */
  lemma ListsParse(p: ParsedArgs, paths: TemporaryPaths)
    requires Requested(p) && AllUsable(paths)
    ensures Parse(Build, Render(GenerationBuild(p, paths))) == Ok(GenerationBuild(p, paths))
    ensures Parse(Build, Render(FinalBuild(p, paths))) == Ok(FinalBuild(p, paths))
  {
    BothFit(p, paths);
    BuildFinishes(p, paths);
    hide Fit, Finish, Parse, Render;
    RenderingParses(GenerationBuild(p, paths));
    RenderingParses(FinalBuild(p, paths));
  }

  /** When the workflow starts: the request is accepted, has one input and an output, and its profile goes elsewhere. */
  predicate Starts(args: seq<string>, absolutize: string -> string) {
    var request := Parse(PgoBuild, args);
    && request.Ok? && |request.value.positionals| == 1 && request.value.out.Some?
    && absolutize(request.value.out.value) != absolutize(ProfileOutput(request.value))
  }

  function ProfileOutput(p: ParsedArgs): string
    requires p.out.Some?
  {
    if p.profileOut.Some? then p.profileOut.value else p.out.value + ".ckprof"
  }

  /** The workflow up to its two builds: it returns their argument lists, which never fail to parse. */
  method RunBuildWorkflow(args: seq<string>, paths: TemporaryPaths, absolutize: string -> string)
    returns (r: Result<(seq<string>, seq<string>), UsageError>)
    requires AllUsable(paths)
    ensures r.Ok? <==> Starts(args, absolutize)
    ensures r.Ok? ==>
      && Parse(Build, r.value.0) == Ok(GenerationBuild(Parse(PgoBuild, args).value, paths))
      && Parse(Build, r.value.1) == Ok(FinalBuild(Parse(PgoBuild, args).value, paths))
  {
    hide Parse, Finish, Fit, Render, GenerationBuild, FinalBuild, Modes;
    var request := ParseArguments(PgoBuild, args);
    if request.Err? {
      return Err(request.error);
    }
    var parsed := request.value;
    if |parsed.positionals| != 1 {
      return Err(WrongInputs);
    }
    if parsed.out.None? {
      return Err(MissingOutput);
    }
    var profile := if parsed.profileOut.Some? then parsed.profileOut.value else parsed.out.value + ".ckprof";
    if absolutize(parsed.out.value) == absolutize(profile) {
      return Err(AliasedProfile);
    }
    AcceptedIsFit(PgoBuild, args);
    RequestHasNoTarget(parsed);
    ListsParse(parsed, paths);
    GenerationList(parsed, paths);
    FinalList(parsed, paths);
    var input := parsed.positionals[0];
    var generationArgs := [input, "--out", paths.generationBase, "--kind", "executable", "--pgo-generate",
        paths.collection, "-O3"];
    generationArgs := AppendProfileBuildModes(parsed, generationArgs);
    var generation := ParseArguments(Build, generationArgs);
    if generation.Err? {
      return Err(IncompatibleOptions);
    }
    var finalArgs := [input, "--out", paths.finalBase, "--kind", "executable", "-O3", "--pgo-use", paths.profile];
    finalArgs := AppendProfileBuildModes(parsed, finalArgs);
    var finalBuild := ParseArguments(Build, finalArgs);
    if finalBuild.Err? {
      return Err(IncompatibleOptions);
    }
    return Ok((generationArgs, finalArgs));
  }

  /** The builds are at the level asked for exactly when that is level 3, asked for or by default. */
  lemma LevelIsKeptOnlyAtThree(p: ParsedArgs, paths: TemporaryPaths)
    requires Requested(p)
    ensures ParseOptLevel(GenerationBuild(p, paths)) == ParseOptLevel(p) <==> ParseOptLevel(p) == Some(3)
    ensures ParseOptLevel(FinalBuild(p, paths)) == ParseOptLevel(p) <==> ParseOptLevel(p) == Some(3)
    ensures ParseOptLevel(p) == Some(3) <==> p.optLevel in {None, Some("3")}
  {
    assert "0" != "3" && "1" != "3" && "2" != "3";
  }

  /** Exactly the levels from 0 to 3 can be asked for, and with multiversioning only level 3. */
  lemma AcceptedLevels(p: ParsedArgs, level: string)
    requires Requested(p)
    ensures Requested(p.(optLevel := Some(level))) <==>
              ParseOptLevelValue(level).Some? && (p.cpu == Some(Multiversion) ==> level == "3")
    ensures Requested(p.(optLevel := Some(level))) ==>
              Parse(PgoBuild, Render(p.(optLevel := Some(level)))) == Ok(p.(optLevel := Some(level)))
  {
    var q := p.(optLevel := Some(level));
    LevelFits(p, level);
    assert Requested(q) <==> ParseOptLevelValue(level).Some? && (p.cpu == Some(Multiversion) ==> level == "3") by {
      RequestHasNoTarget(p);
      hide Fit;
    }
    if Requested(q) {
      hide Fit, Finish, Parse, Render;
      RenderingParses(q);
    }
  }

  /** A request for level 0 is accepted, although both builds run at level 3. */
  lemma RequestedLevelIsNotUsed(paths: TemporaryPaths)
    requires AllUsable(paths)
    ensures var p := NoOptions(PgoBuild).(positionals := ["input.ck"], out := Some("app"), optLevel := Some("0"));
            && Parse(PgoBuild, Render(p)) == Ok(p) && ParseOptLevel(p) == Some(0)
            && ParseOptLevel(GenerationBuild(p, paths)) == Some(3) && ParseOptLevel(FinalBuild(p, paths)) == Some(3)
  {
    var p := NoOptions(PgoBuild).(positionals := ["input.ck"], out := Some("app"), optLevel := Some("0"));
    NoDashes("app");
    assert "input.ck"[0] == 'i' && "-"[0] == '-';
    assert Fit(p);
    hide Parse, Render, Fit;
    RenderingParses(p);
  }
}
