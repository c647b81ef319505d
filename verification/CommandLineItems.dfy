/**
 The command line as a list of items (src/cli/args.rs): which lists of arguments are read at all, and what each option
 is afterwards, without following the parser.
 */
module CommandLineItems {
  import opened Basics
  import opened CommandLine
  import opened CommandLineRoundTrip

  /** A word on its own, a level written `-O…`, a switch, or an option with its value. */
  datatype Item =
    | Word(text: string)
    | ShortLevel(level: string)
    | Switch(flag: Flag)
    | Setting(flag: Flag, value: string)

  function Written(item: Item): seq<string> {
    match item
    case Word(text) => [text]
    case ShortLevel(level) => ["-O" + level]
    case Switch(flag) => [Spelling(flag)]
    case Setting(flag, value) => [Spelling(flag), value]
  }

  function WrittenAll(items: seq<Item>): seq<string> {
    if items == [] then [] else Written(items[0]) + WrittenAll(items[1..])
  }

  predicate IsSwitch(flag: Flag) {
    flag in {NoCache, PrintFacts, PrintEffectSummaries, ExplainOptimization, SanitizeContracts}
  }

  const INSPECTION: set<Flag> := {PrintFacts, PrintEffectSummaries, ExplainOptimization}

  /** The options of each command. */
  function OptionsOf(command: Command): set<Flag> {
    match command
    case EmitMir => {Out, OutShort, OptLevel}
    case EmitKir => {Out, OutShort, OptLevel, Overflow, Bounds, Cpu, Consumer, WasmFeatures, PgoUse} + INSPECTION
    case EmitC => {Out, OutShort, OptLevel, Overflow, Bounds, Header} + INSPECTION
    case EmitWat => {Out, OutShort, OptLevel, Overflow, Bounds, WasmFeatures} + INSPECTION
    case EmitWasm => {Out, OutShort, OptLevel, Overflow, Bounds, WasmFeatures} + INSPECTION
    case EmitLlvm => {Out, OutShort, OptLevel, Overflow, Bounds, Target} + INSPECTION
    case Build =>
      {Out, OutShort, OptLevel, Overflow, Bounds, Target, Kind, Cpu, PgoGenerate, PgoUse, SanitizeContracts}
      + INSPECTION
    case BuildLlvm => {Out, OutShort, OptLevel, Overflow, Bounds, Target, Kind, SanitizeContracts} + INSPECTION
    case Run => {OptLevel, Overflow, Bounds, NoCache, SanitizeContracts} + INSPECTION
    case PgoBuild => {Out, OutShort, OptLevel, Overflow, Bounds, Cpu, ProfileOut, SanitizeContracts}
    case OtherCommand(_) => {}
  }

  lemma PermissionTable(command: Command, flag: Flag)
    ensures Allowed(command, flag) <==> flag in OptionsOf(command)
  {
    if IsSwitch(flag) {
    } else if flag in {Out, OutShort, OptLevel, Overflow, Bounds} {
    }
  }

  /** The option's own values; `-o` takes nothing that begins with a dash, the others nothing with two. */
  ghost predicate ValueFit(flag: Flag, value: string) {
    && (|value| > 0 && value[0] == '-' ==> flag != OutShort && (|value| > 1 ==> value[1] != '-'))
    && (flag == Kind ==> exists kind :: value == KindText(kind))
    && (flag == Cpu ==> exists cpu :: value == CpuText(cpu))
    && (flag == Consumer ==> exists consumer :: value == ConsumerText(consumer))
    && (flag == WasmFeatures ==> exists features :: value == WasmText(features))
  }

  ghost predicate ItemFit(command: Command, item: Item) {
    match item
    case Word(text) => text == "" || text[0] != '-'
    case ShortLevel(_) => OptLevel in OptionsOf(command)
    case Switch(flag) => IsSwitch(flag) && flag in OptionsOf(command)
    case Setting(flag, value) => !IsSwitch(flag) && flag in OptionsOf(command) && ValueFit(flag, value)
  }

  /** The item sets this option; `-o` is another name of `--out`. */
  predicate Sets(item: Item, flag: Flag) {
    match item
    case ShortLevel(_) => flag == OptLevel
    case Setting(own, _) => own == flag || (own == OutShort && flag == Out)
    case _ => false
  }

  predicate AtMostOnce(flag: Flag) {
    flag in {WasmFeatures, ProfileOut, PgoGenerate, PgoUse}
  }

  /** The option is set by two of the items. */
  ghost predicate SetTwice(items: seq<Item>, flag: Flag) {
    exists i, j :: 0 <= i < j < |items| && Sets(items[i], flag) && Sets(items[j], flag)
  }

  /** Every item is one the command takes, and four options are given at most once. */
  ghost predicate ItemsFit(command: Command, items: seq<Item>) {
    && (forall i :: 0 <= i < |items| ==> ItemFit(command, items[i]))
    && forall flag :: AtMostOnce(flag) ==> !SetTwice(items, flag)
  }

  function WordsOf(items: seq<Item>): seq<string> {
    if items == [] then []
    else
      var n := |items| - 1;
      WordsOf(items[..n]) + (if items[n].Word? then [items[n].text] else [])
  }

  /** The value of the last item that sets this option. */
  function LastValue(items: seq<Item>, flag: Flag): Option<string> {
    if items == [] then None
    else
      var n := |items| - 1;
      if !Sets(items[n], flag) then LastValue(items[..n], flag)
      else Some(if items[n].Setting? then items[n].value else items[n].level)
  }

  /** The text an option has among the parsed ones. */
  function ValueOf(p: ParsedArgs, flag: Flag): Option<string> {
    if flag == OptLevel then p.optLevel else TextOf(p, flag)
  }

  /** What the items mean: words in order, the last value of each option, the switches that occur. */
  ghost predicate Gives(command: Command, items: seq<Item>, p: ParsedArgs) {
    && p.command == command && p.positionals == WordsOf(items)
    && (forall flag: Flag :: flag != OutShort && !IsSwitch(flag) ==> ValueOf(p, flag) == LastValue(items, flag))
    && forall flag: Flag :: IsSwitch(flag) ==> (IsOn(p, flag) <==> Switch(flag) in items)
  }

  // ---------- one item ----------

  /** The field of the option has this value, and the others are as they were. */
  ghost predicate OnlySet(p: ParsedArgs, q: ParsedArgs, field: Flag, value: string) {
    && q.command == p.command && q.positionals == p.positionals
    && ValueOf(q, field) == Some(value)
    && (forall flag: Flag :: flag != field && flag != OutShort && !IsSwitch(flag) ==>
          ValueOf(q, flag) == ValueOf(p, flag))
    && forall flag: Flag :: IsSwitch(flag) ==> (IsOn(q, flag) <==> IsOn(p, flag))
  }

  function FieldOf(flag: Flag): Flag { if flag == OutShort then Out else flag }

  lemma KindIsText(value: string)
    ensures ParseKind(value).Some? ==> KindText(ParseKind(value).value) == value
    ensures forall kind :: value == KindText(kind) ==> ParseKind(value) == Some(kind)
  {
  }

  lemma CpuIsText(value: string)
    ensures ParseCpu(value).Some? ==> CpuText(ParseCpu(value).value) == value
    ensures forall cpu :: value == CpuText(cpu) ==> ParseCpu(value) == Some(cpu)
  {
  }

  lemma ConsumerIsText(value: string)
    ensures ParseConsumer(value).Some? ==> ConsumerText(ParseConsumer(value).value) == value
    ensures forall consumer :: value == ConsumerText(consumer) ==> ParseConsumer(value) == Some(consumer)
  {
  }

  lemma WasmIsText(value: string)
    ensures ParseWasm(value).Some? ==> WasmText(ParseWasm(value).value) == value
    ensures forall features :: value == WasmText(features) ==> ParseWasm(value) == Some(features)
  {
  }

  /** Storing a value works for the option's own values, unless it is a second one of a once-only option. */
  lemma AssignMeans(p: ParsedArgs, flag: Flag, value: string)
    requires TakesValue(flag) && FitsAfter(flag, value)
    ensures Assign(p, flag, value).Ok? <==> ValueFit(flag, value) && (AtMostOnce(flag) ==> ValueOf(p, flag) == None)
    ensures Assign(p, flag, value).Ok? ==> OnlySet(p, Assign(p, flag, value).value, FieldOf(flag), value)
  {
    DashesMatter(flag, value);
    if IsChoice(flag) {
      ChoiceMeans(p, flag, value);
    } else {
      TextMeans(p, flag, value);
    }
    hide ParseKind, ParseCpu, ParseConsumer, ParseWasm, KindText, CpuText, ConsumerText, WasmText, FitsAfter, Assign,
      OnlySet, ValueOf;
  }

  lemma ChoiceMeans(p: ParsedArgs, flag: Flag, value: string)
    requires IsChoice(flag)
    ensures Assign(p, flag, value).Ok? <==>
              && (flag == Kind ==> exists kind :: value == KindText(kind))
              && (flag == Cpu ==> exists cpu :: value == CpuText(cpu))
              && (flag == Consumer ==> exists consumer :: value == ConsumerText(consumer))
              && (flag == WasmFeatures ==>
                    (exists features :: value == WasmText(features)) && ValueOf(p, flag) == None)
    ensures Assign(p, flag, value).Ok? ==> OnlySet(p, Assign(p, flag, value).value, flag, value)
  {
    KindIsText(value);
    CpuIsText(value);
    ConsumerIsText(value);
    WasmIsText(value);
    hide ParseKind, ParseCpu, ParseConsumer, ParseWasm, KindText, CpuText, ConsumerText, WasmText;
  }

  lemma TextMeans(p: ParsedArgs, flag: Flag, value: string)
    requires TakesValue(flag) && !IsChoice(flag)
    ensures Assign(p, flag, value).Ok? <==> (AtMostOnce(flag) ==> ValueOf(p, flag) == None)
    ensures Assign(p, flag, value).Ok? ==> OnlySet(p, Assign(p, flag, value).value, FieldOf(flag), value)
  {
    hide ParseKind, ParseCpu, ParseConsumer, ParseWasm, KindText, CpuText, ConsumerText, WasmText;
  }

  lemma DashesMatter(flag: Flag, value: string)
    ensures FitsAfter(flag, value) <==>
              (|value| > 0 && value[0] == '-' ==> flag != OutShort && (|value| > 1 ==> value[1] != '-'))
  {
    if |value| > 0 {
      assert "-" <= value <==> value[0] == '-';
    }
    if |value| > 1 {
      assert "--" <= value <==> value[0] == '-' && value[1] == '-';
    }
  }

  lemma {:induction false} NeverSet(items: seq<Item>, flag: Flag)
    ensures LastValue(items, flag) == None <==> forall i :: 0 <= i < |items| ==> !Sets(items[i], flag)
  {
    if items != [] {
      NeverSet(items[..|items| - 1], flag);
    }
  }

  lemma OneMoreItem(items: seq<Item>, item: Item)
    ensures WordsOf(items + [item]) == WordsOf(items) + (if item.Word? then [item.text] else [])
    ensures forall flag :: LastValue(items + [item], flag) ==
              if !Sets(item, flag) then LastValue(items, flag)
              else Some(if item.Setting? then item.value else item.level)
  {
    assert (items + [item])[..|items|] == items;
  }

  lemma SetTwiceOneMore(items: seq<Item>, item: Item, flag: Flag)
    ensures SetTwice(items + [item], flag) <==>
              SetTwice(items, flag) || (Sets(item, flag) && LastValue(items, flag) != None)
  {
    NeverSet(items, flag);
    SetTwiceIn(items, items + [item], flag);
    hide LastValue, Sets, SetTwice;
  }

  lemma SetTwiceIn(items: seq<Item>, all: seq<Item>, flag: Flag)
    requires |all| == |items| + 1 && forall k :: 0 <= k < |items| ==> all[k] == items[k]
    ensures SetTwice(all, flag) <==>
              SetTwice(items, flag)
              || (Sets(all[|items|], flag) && exists k :: 0 <= k < |items| && Sets(items[k], flag))
  {
    hide Sets;
    if k :| 0 <= k < |items| && Sets(items[k], flag) {
      assert Sets(all[k], flag);
    }
    if SetTwice(items, flag) {
      var i, j :| 0 <= i < j < |items| && Sets(items[i], flag) && Sets(items[j], flag);
      assert Sets(all[i], flag) && Sets(all[j], flag);
    }
  }

  lemma FitOneMore(command: Command, items: seq<Item>, item: Item)
    requires ItemsFit(command, items)
    ensures ItemsFit(command, items + [item]) <==>
              && ItemFit(command, item)
              && forall flag :: AtMostOnce(flag) && Sets(item, flag) ==> LastValue(items, flag) == None
  {
    var all := items + [item];
    forall flag: Flag
      ensures SetTwice(all, flag) <==>
                SetTwice(items, flag) || (Sets(item, flag) && LastValue(items, flag) != None)
    {
      SetTwiceOneMore(items, item, flag);
    }
    assert all[|items|] == item;
    hide SetTwice, Sets, LastValue, ItemFit, AtMostOnce;
  }

  lemma SettingGiven(command: Command, items: seq<Item>, p: ParsedArgs, q: ParsedArgs, flag: Flag, value: string)
    requires Gives(command, items, p) && OnlySet(p, q, FieldOf(flag), value)
    ensures Gives(command, items + [Setting(flag, value)], q)
  {
    OneMoreItem(items, Setting(flag, value));
    hide LastValue, WordsOf, ValueOf, IsOn;
  }

  lemma SettingFits(command: Command, items: seq<Item>, p: ParsedArgs, flag: Flag, value: string)
    requires Gives(command, items, p) && ItemsFit(command, items) && !IsSwitch(flag)
    ensures ItemsFit(command, items + [Setting(flag, value)]) <==>
              && flag in OptionsOf(command) && ValueFit(flag, value)
              && (AtMostOnce(flag) ==> ValueOf(p, flag) == None)
  {
    FitOneMore(command, items, Setting(flag, value));
    assert forall other :: AtMostOnce(other) && Sets(Setting(flag, value), other) ==> other == flag;
    assert AtMostOnce(flag) ==> ValueOf(p, flag) == LastValue(items, flag);
    hide OptionsOf, LastValue, WordsOf, ValueOf, IsOn, ItemsFit, ValueFit, Gives;
  }

  /** One setting read: the item fits exactly when the parser stores its value. */
  lemma SettingRead(command: Command, items: seq<Item>, p: ParsedArgs, flag: Flag, value: string)
    requires Gives(command, items, p) && ItemsFit(command, items) && TakesValue(flag)
    ensures ItemsFit(command, items + [Setting(flag, value)]) <==>
              Allowed(command, flag) && FitsAfter(flag, value) && Assign(p, flag, value).Ok?
    ensures FitsAfter(flag, value) && Assign(p, flag, value).Ok? ==>
              Gives(command, items + [Setting(flag, value)], Assign(p, flag, value).value)
  {
    SwitchesTakeNone(flag);
    ValueFitsAfter(flag, value);
    hide *;
    PermissionTable(command, flag);
    SettingFits(command, items, p, flag, value);
    if FitsAfter(flag, value) {
      AssignMeans(p, flag, value);
      if Assign(p, flag, value).Ok? {
        SettingGiven(command, items, p, Assign(p, flag, value).value, flag, value);
      }
    }
  }

  lemma SwitchesTakeNone(flag: Flag)
    ensures TakesValue(flag) <==> !IsSwitch(flag)
  {
  }

  lemma ValueFitsAfter(flag: Flag, value: string)
    ensures ValueFit(flag, value) ==> FitsAfter(flag, value)
  {
    DashesMatter(flag, value);
  }

  lemma SwitchedOn(p: ParsedArgs, flag: Flag)
    requires !TakesValue(flag)
    ensures SwitchOn(p, flag).command == p.command && SwitchOn(p, flag).positionals == p.positionals
    ensures forall other: Flag :: IsSwitch(other) ==>
              (IsOn(SwitchOn(p, flag), other) <==> other == flag || IsOn(p, other))
  {
  }

  lemma SwitchSetsNothing(p: ParsedArgs, flag: Flag, other: Flag)
    requires !TakesValue(flag)
    ensures ValueOf(SwitchOn(p, flag), other) == ValueOf(p, other)
  {
    hide KindValue, CpuValue, ConsumerValue, WasmValue;
    var q := SwitchOn(p, flag);
    assert q == p.(noCache := q.noCache, printFacts := q.printFacts, printEffectSummaries := q.printEffectSummaries,
                   explainOptimization := q.explainOptimization, sanitizeContracts := q.sanitizeContracts);
    hide SwitchOn;
  }

  lemma SwitchRead(command: Command, items: seq<Item>, p: ParsedArgs, flag: Flag)
    requires Gives(command, items, p) && ItemsFit(command, items) && !TakesValue(flag)
    ensures ItemsFit(command, items + [Switch(flag)]) <==> Allowed(command, flag)
    ensures Gives(command, items + [Switch(flag)], SwitchOn(p, flag))
  {
    SwitchesTakeNone(flag);
    SwitchedOn(p, flag);
    forall other: Flag ensures ValueOf(SwitchOn(p, flag), other) == ValueOf(p, other) {
      SwitchSetsNothing(p, flag, other);
    }
    PermissionTable(command, flag);
    FitOneMore(command, items, Switch(flag));
    OneMoreItem(items, Switch(flag));
    hide Allowed, OptionsOf, LastValue, WordsOf, ItemsFit, SwitchOn, ValueOf, IsOn, IsSwitch, TakesValue;
  }

  lemma LevelRead(command: Command, items: seq<Item>, p: ParsedArgs, level: string)
    requires Gives(command, items, p) && ItemsFit(command, items)
    ensures ItemsFit(command, items + [ShortLevel(level)]) <==> Allowed(command, OptLevel)
    ensures Gives(command, items + [ShortLevel(level)], p.(optLevel := Some(level)))
  {
    hide *;
    PermissionTable(command, OptLevel);
    ShortLevelFits(command, items, level);
    LevelSet(p, level);
    ShortLevelGiven(command, items, p, p.(optLevel := Some(level)), level);
  }

  lemma ShortLevelFits(command: Command, items: seq<Item>, level: string)
    requires ItemsFit(command, items)
    ensures ItemsFit(command, items + [ShortLevel(level)]) <==> OptLevel in OptionsOf(command)
  {
    FitOneMore(command, items, ShortLevel(level));
    hide ItemsFit, OptionsOf, LastValue;
  }

  lemma LevelSet(p: ParsedArgs, level: string)
    ensures OnlySet(p, p.(optLevel := Some(level)), OptLevel, level)
  {
    hide KindValue, CpuValue, ConsumerValue, WasmValue;
  }

  lemma ShortLevelGiven(command: Command, items: seq<Item>, p: ParsedArgs, q: ParsedArgs, level: string)
    requires Gives(command, items, p) && OnlySet(p, q, OptLevel, level)
    ensures Gives(command, items + [ShortLevel(level)], q)
  {
    OneMoreItem(items, ShortLevel(level));
    hide LastValue, WordsOf, ValueOf, IsOn;
  }

  lemma WordFits(text: string)
    ensures Recognize(text) == Positional <==> text == "" || text[0] != '-'
  {
    PositionalIsRecognized(text);
    hide Recognize;
    assert text != "" ==> ("-" <= text <==> text[0] == '-');
  }

  lemma WordRead(command: Command, items: seq<Item>, p: ParsedArgs, text: string)
    requires Gives(command, items, p) && ItemsFit(command, items)
    ensures ItemsFit(command, items + [Word(text)]) <==> Recognize(text) == Positional
    ensures Gives(command, items + [Word(text)], p.(positionals := p.positionals + [text]))
  {
    WordFits(text);
    hide Recognize, LastValue, WordsOf, ItemsFit;
    FitOneMore(command, items, Word(text));
    OneMoreItem(items, Word(text));
  }

  /** What an argument in option position is. */
  lemma RecognizedAs(arg: string)
    ensures match Recognize(arg)
            case Named(flag) => arg == Spelling(flag)
            case Level(level) => arg == "-O" + level
            case Positional => arg == "" || arg[0] != '-'
            case Unknown => |arg| > 0 && arg[0] == '-'
  {
    PositionalIsRecognized(arg);
    assert arg != "" ==> ("-" <= arg <==> arg[0] == '-');
    if "-O" <= arg {
      assert arg == "-O" + arg[2..];
    }
  }

  // ---------- whole lists ----------

  lemma FitPrefix(command: Command, a: seq<Item>, b: seq<Item>)
    requires ItemsFit(command, a + b)
    ensures ItemsFit(command, a)
  {
    var all := a + b;
    hide ItemFit, Sets;
    assert forall k :: 0 <= k < |a| ==> all[k] == a[k];
    forall flag: Flag | SetTwice(a, flag) ensures SetTwice(all, flag) {
      var i, j :| 0 <= i < j < |a| && Sets(a[i], flag) && Sets(a[j], flag);
      assert Sets(all[i], flag) && Sets(all[j], flag);
    }
  }

  /** The first item of a list that is read. */
  lemma FirstItem(command: Command, done: seq<Item>, args: seq<string>, p: ParsedArgs)
    returns (item: Item, rest: seq<string>, q: ParsedArgs)
    requires Gives(command, done, p) && ItemsFit(command, done) && args != [] && ReadAll(args, p).Ok?
    ensures args == Written(item) + rest && ReadAll(args, p) == ReadAll(rest, q)
    ensures ItemsFit(command, done + [item]) && Gives(command, done + [item], q)
  {
    hide *;
    CommandOf(command, done, p);
    RecognizedAs(args[0]);
    WordIsRead(args, p);
    match Recognize(args[0])
    case Positional =>
      item, rest, q := Word(args[0]), args[1..], p.(positionals := p.positionals + [args[0]]);
      WordRead(command, done, p, args[0]);
    case Level(level) =>
      item, rest, q := ShortLevel(level), args[1..], p.(optLevel := Some(level));
      LevelRead(command, done, p, level);
    case Named(flag) =>
      item, rest, q := FirstNamed(command, done, args, p, flag);
  }

  lemma WordIsRead(args: seq<string>, p: ParsedArgs)
    requires args != [] && ReadAll(args, p).Ok?
    ensures match Recognize(args[0])
            case Positional =>
              && args == Written(Word(args[0])) + args[1..]
              && ReadAll(args, p) == ReadAll(args[1..], p.(positionals := p.positionals + [args[0]]))
            case Level(level) =>
              && (args[0] == "-O" + level ==> args == Written(ShortLevel(level)) + args[1..])
              && Allowed(p.command, OptLevel)
              && ReadAll(args, p) == ReadAll(args[1..], p.(optLevel := Some(level)))
            case Named(_) => true
            case Unknown => false
  {
    hide Allowed, FitsAfter, Recognize, Assign, SwitchOn, TakesValue, Spelling;
  }

  lemma FirstNamed(command: Command, done: seq<Item>, args: seq<string>, p: ParsedArgs, flag: Flag)
    returns (item: Item, rest: seq<string>, q: ParsedArgs)
    requires Gives(command, done, p) && ItemsFit(command, done) && args != [] && ReadAll(args, p).Ok?
    requires Recognize(args[0]) == Named(flag) && args[0] == Spelling(flag)
    ensures args == Written(item) + rest && ReadAll(args, p) == ReadAll(rest, q)
    ensures ItemsFit(command, done + [item]) && Gives(command, done + [item], q)
  {
    hide *;
    CommandOf(command, done, p);
    NamedIsRead(args, p, flag);
    WrittenNamed(args, flag);
    if TakesValue(flag) {
      item, rest, q := Setting(flag, args[1]), args[2..], Assign(p, flag, args[1]).value;
      SettingRead(command, done, p, flag, args[1]);
    } else {
      item, rest, q := Switch(flag), args[1..], SwitchOn(p, flag);
      SwitchRead(command, done, p, flag);
    }
  }

  lemma CommandOf(command: Command, items: seq<Item>, p: ParsedArgs)
    requires Gives(command, items, p)
    ensures p.command == command
  {
  }

  lemma WrittenNamed(args: seq<string>, flag: Flag)
    requires args != [] && args[0] == Spelling(flag)
    ensures args == Written(Switch(flag)) + args[1..]
    ensures |args| > 1 ==> args == Written(Setting(flag, args[1])) + args[2..]
  {
    hide Spelling;
  }

  lemma NamedIsRead(args: seq<string>, p: ParsedArgs, flag: Flag)
    requires args != [] && ReadAll(args, p).Ok? && Recognize(args[0]) == Named(flag)
    ensures Allowed(p.command, flag)
    ensures TakesValue(flag) ==>
              && |args| > 1 && FitsAfter(flag, args[1]) && Assign(p, flag, args[1]).Ok?
              && ReadAll(args, p) == ReadAll(args[2..], Assign(p, flag, args[1]).value)
    ensures !TakesValue(flag) ==> ReadAll(args, p) == ReadAll(args[1..], SwitchOn(p, flag))
  {
    hide Allowed, FitsAfter, Recognize, Assign, SwitchOn, TakesValue;
  }

  lemma {:induction false} ReadsItems(command: Command, done: seq<Item>, args: seq<string>, p: ParsedArgs)
    returns (items: seq<Item>)
    requires Gives(command, done, p) && ItemsFit(command, done) && ReadAll(args, p).Ok?
    ensures args == WrittenAll(items)
    ensures ItemsFit(command, done + items) && Gives(command, done + items, ReadAll(args, p).value)
    decreases |args|
  {
    hide Gives, ItemsFit, Written;
    if args == [] {
      items := [];
      assert done + items == done;
    } else {
      var item, rest, q := FirstItem(command, done, args, p);
      hide ReadAll;
      SomethingWritten(item);
      var more := ReadsItems(command, done + [item], rest, q);
      items := [item] + more;
      assert items[1..] == more && done + items == done + [item] + more;
    }
  }

  lemma SomethingWritten(item: Item)
    ensures Written(item) != []
  {
  }

  /** An item that fits is read. */
  lemma ItemIsRead(command: Command, done: seq<Item>, item: Item, rest: seq<string>, p: ParsedArgs)
    returns (q: ParsedArgs)
    requires Gives(command, done, p) && ItemsFit(command, done + [item])
    ensures ReadAll(Written(item) + rest, p) == ReadAll(rest, q) && Gives(command, done + [item], q)
  {
    FitPrefix(command, done, [item]);
    ItemShape(command, done, item);
    assert p.command == command;
    hide Gives, ItemsFit, Allowed, FitsAfter, Recognize, Assign, SwitchOn, TakesValue, Spelling, ItemFit;
    var args := Written(item) + rest;
    match item
    case Word(text) =>
      q := p.(positionals := p.positionals + [text]);
      WordRead(command, done, p, text);
      assert args[1..] == rest;
    case ShortLevel(level) =>
      q := p.(optLevel := Some(level));
      LevelIsRecognized(level);
      LevelRead(command, done, p, level);
      assert args[1..] == rest;
    case Switch(flag) =>
      q := SwitchOn(p, flag);
      SpellingIsRecognized(flag);
      SwitchRead(command, done, p, flag);
      assert args[1..] == rest;
    case Setting(flag, value) =>
      SpellingIsRecognized(flag);
      SettingRead(command, done, p, flag, value);
      q := Assign(p, flag, value).value;
      assert args[1] == value && args[2..] == rest;
  }

  lemma ItemShape(command: Command, done: seq<Item>, item: Item)
    requires ItemsFit(command, done + [item])
    ensures item.Switch? ==> !TakesValue(item.flag)
    ensures item.Setting? ==> TakesValue(item.flag)
  {
    assert (done + [item])[|done|] == item && ItemFit(command, item);
    if item.Switch? || item.Setting? {
      SwitchesTakeNone(item.flag);
    }
  }

  lemma {:induction false} ItemsAreRead(command: Command, done: seq<Item>, items: seq<Item>, p: ParsedArgs)
    requires Gives(command, done, p) && ItemsFit(command, done + items)
    ensures ReadAll(WrittenAll(items), p).Ok?
    ensures Gives(command, done + items, ReadAll(WrittenAll(items), p).value)
    decreases |items|
  {
    if items == [] {
      assert done + items == done;
    } else {
      var item, more := items[0], items[1..];
      assert done + items == done + [item] + more;
      FitPrefix(command, done + [item], more);
      hide Gives, ItemsFit, Written, ReadAll;
      var q := ItemIsRead(command, done, item, WrittenAll(more), p);
      ItemsAreRead(command, done + [item], more, q);
    }
  }

  /** Items that fit, written down, are these arguments. */
  ghost predicate ListOf(command: Command, items: seq<Item>, args: seq<string>) {
    args == WrittenAll(items) && ItemsFit(command, items)
  }

  lemma NothingGiven(command: Command)
    ensures Gives(command, [], NoOptions(command)) && ItemsFit(command, [])
  {
  }

  /** The arguments are read exactly when they are fitting items, and then the options are what those mean. */
  lemma ReadExactly(command: Command, args: seq<string>)
    ensures ReadAll(args, NoOptions(command)).Ok? <==> exists items :: ListOf(command, items, args)
    ensures forall items :: ListOf(command, items, args) ==>
              Gives(command, items, ReadAll(args, NoOptions(command)).value)
  {
    NothingGiven(command);
    hide Gives, ItemsFit, ReadAll, WrittenAll;
    if ReadAll(args, NoOptions(command)).Ok? {
      var items := ReadsItems(command, [], args, NoOptions(command));
      assert [] + items == items && ListOf(command, items, args);
    }
    forall items | ListOf(command, items, args)
      ensures ReadAll(args, NoOptions(command)).Ok? && Gives(command, items, ReadAll(args, NoOptions(command)).value)
    {
      assert [] + items == items;
      ItemsAreRead(command, [], items, NoOptions(command));
    }
  }

  /** A word with a dash that is no option of any command. */
  ghost predicate IsUnknown(word: string) {
    && |word| > 0 && word[0] == '-' && !("-O" <= word)
    && forall flag :: word != Spelling(flag)
  }

  /** Words without a dash, switches, and options with some value. */
  ghost predicate Shaped(item: Item) {
    match item
    case Word(text) => text == "" || text[0] != '-'
    case ShortLevel(_) => true
    case Switch(flag) => IsSwitch(flag)
    case Setting(flag, _) => !IsSwitch(flag)
  }

  /** An unknown option after any items, fitting or not, is never accepted. */
  lemma {:induction false} UnknownIsRefused(items: seq<Item>, word: string, rest: seq<string>, p: ParsedArgs)
    requires IsUnknown(word) && forall i :: 0 <= i < |items| ==> Shaped(items[i])
    ensures ReadAll(WrittenAll(items) + ([word] + rest), p).Err?
    decreases |items|
  {
    var tail := [word] + rest;
    if items == [] {
      RecognizedAs(word);
      hide Recognize, Spelling;
      assert WrittenAll(items) + tail == tail;
    } else {
      assert WrittenAll(items) + tail == Written(items[0]) + (WrittenAll(items[1..]) + tail);
      forall q ensures ReadAll(WrittenAll(items[1..]) + tail, q).Err? {
        UnknownIsRefused(items[1..], word, rest, q);
      }
      ShapedIsRead(items[0], WrittenAll(items[1..]) + tail, p);
    }
  }

  lemma ShapedIsRead(item: Item, rest: seq<string>, p: ParsedArgs)
    requires Shaped(item) && forall q :: ReadAll(rest, q).Err?
    ensures ReadAll(Written(item) + rest, p).Err?
  {
    if item.Switch? || item.Setting? {
      SwitchesTakeNone(item.flag);
      SpellingIsRecognized(item.flag);
    }
    var args := Written(item) + rest;
    hide Allowed, FitsAfter, Assign, SwitchOn, TakesValue, Spelling, IsSwitch;
    match item {
      case Word(text) =>
        WordFits(text);
      case ShortLevel(level) =>
        LevelIsRecognized(level);
      case _ =>
    }
    hide Recognize;
    assert args[1..] == rest || (|args| >= 2 && args[2..] == rest);
  }

  lemma UnknownIsNeverAccepted(command: Command, items: seq<Item>, word: string, rest: seq<string>)
    requires IsUnknown(word) && forall i :: 0 <= i < |items| ==> Shaped(items[i])
    ensures Parse(command, WrittenAll(items) + ([word] + rest)).Err?
  {
    UnknownIsRefused(items, word, rest, NoOptions(command));
  }

  // ---------- options against each other ----------

  /** The level asked for, as one digit, or by default 3 where code is run or built and 0 elsewhere. */
  ghost predicate AsksLevel(p: ParsedArgs, level: nat) {
    match p.optLevel
    case Some(text) => level <= 3 && |text| == 1 && text[0] == '0' + level as char
    case None => level == if p.command in {Run, Build, BuildLlvm, PgoBuild} then 3 else 0
  }

  lemma LevelMeans(p: ParsedArgs, level: nat)
    ensures ParseOptLevel(p) == Some(level) <==> AsksLevel(p, level)
  {
    if p.optLevel.Some? {
      var text := p.optLevel.value;
      if |text| == 1 {
        assert text == [text[0]];
      }
    }
  }

  /** Two options that must not meet, or an option beside a level it cannot have. */
  ghost predicate Contradicts(p: ParsedArgs) {
    || (p.pgoGenerate.Some? && (p.pgoUse.Some? || p.kind == Some(Object)))
    || (p.sanitizeContracts && (p.pgoGenerate.Some? || p.pgoUse.Some? || p.cpu == Some(Multiversion)))
    || (p.sanitizeContracts
        && (p.command in {PgoBuild, BuildLlvm} || (p.command == Build && p.kind != Some(Executable))))
    || (p.command == EmitKir && (p.cpu.Some? || p.pgoUse.Some?) && p.consumer != Some(NativeLibrary)
        && p.consumer != Some(NativeExecutable))
    || (p.command == EmitKir && p.wasmFeatures.Some? && p.consumer != Some(WebAssembly))
    || (p.cpu == Some(Multiversion) && p.command == Build && p.kind == Some(Object))
    || forall level: nat :: AsksLevel(p, level) ==>
         || ((p.pgoGenerate.Some? || p.pgoUse.Some?) && level < 2)
         || (p.cpu == Some(Multiversion) && level != 3)
  }

  /** Options are accepted unless they contradict each other; a native consumer without a CPU gets the baseline. */
  lemma AcceptedUnlessContradicting(p: ParsedArgs)
    ensures Finish(p).Ok? <==> !Contradicts(p)
    ensures Finish(p).Ok? ==>
              Finish(p).value ==
                if p.command == EmitKir && p.consumer in {Some(NativeLibrary), Some(NativeExecutable)} && p.cpu == None
                then p.(cpu := Some(BaselineCpu)) else p
  {
    forall level: nat ensures ParseOptLevel(p) == Some(level) <==> AsksLevel(p, level) {
      LevelMeans(p, level);
    }
    assert ParseOptLevel(WithDefaultCpu(p)) == ParseOptLevel(p);
    hide ParseOptLevel, AsksLevel;
  }

  /**
   The whole parser, without its steps: a command line is accepted exactly when it is a list of fitting items whose
   options do not contradict each other.
   */
  lemma AcceptedLines(command: Command, args: seq<string>)
    ensures Parse(command, args).Ok? <==>
              exists items, p :: ListOf(command, items, args) && Gives(command, items, p) && !Contradicts(p)
  {
    ReadExactly(command, args);
    var read := ReadAll(args, NoOptions(command));
    hide ListOf, Gives, Contradicts, ReadAll, Finish;
    if read.Ok? {
      var items :| ListOf(command, items, args);
      AcceptedUnlessContradicting(read.value);
      forall other, p | ListOf(command, other, args) && Gives(command, other, p) ensures p == read.value {
        SameMeaning(command, other, p, read.value);
      }
    }
  }

  /** The items determine the options. */
  lemma SameMeaning(command: Command, items: seq<Item>, p: ParsedArgs, q: ParsedArgs)
    requires Gives(command, items, p) && Gives(command, items, q)
    ensures p == q
  {
    TextsAgree(command, items, p, q);
    ChoicesAgree(command, items, p, q);
    SwitchesAgree(command, items, p, q);
    hide Gives;
  }

  lemma TextsAgree(command: Command, items: seq<Item>, p: ParsedArgs, q: ParsedArgs)
    requires Gives(command, items, p) && Gives(command, items, q)
    ensures p.command == q.command && p.positionals == q.positionals && p.optLevel == q.optLevel
    ensures p.out == q.out && p.overflow == q.overflow && p.bounds == q.bounds && p.target == q.target
    ensures p.header == q.header && p.profileOut == q.profileOut
    ensures p.pgoGenerate == q.pgoGenerate && p.pgoUse == q.pgoUse
  {
    hide LastValue, WordsOf, IsOn, KindValue, CpuValue, ConsumerValue, WasmValue;
    assert ValueOf(p, Out) == ValueOf(q, Out) && ValueOf(p, Overflow) == ValueOf(q, Overflow);
    assert ValueOf(p, Bounds) == ValueOf(q, Bounds) && ValueOf(p, Target) == ValueOf(q, Target);
    assert ValueOf(p, Header) == ValueOf(q, Header) && ValueOf(p, ProfileOut) == ValueOf(q, ProfileOut);
    assert ValueOf(p, PgoGenerate) == ValueOf(q, PgoGenerate) && ValueOf(p, PgoUse) == ValueOf(q, PgoUse);
    assert ValueOf(p, OptLevel) == ValueOf(q, OptLevel);
  }

  lemma ChoicesAgree(command: Command, items: seq<Item>, p: ParsedArgs, q: ParsedArgs)
    requires Gives(command, items, p) && Gives(command, items, q)
    ensures p.kind == q.kind && p.cpu == q.cpu && p.consumer == q.consumer && p.wasmFeatures == q.wasmFeatures
  {
    assert ValueOf(p, Kind) == ValueOf(q, Kind) && ValueOf(p, Cpu) == ValueOf(q, Cpu);
    assert ValueOf(p, Consumer) == ValueOf(q, Consumer) && ValueOf(p, WasmFeatures) == ValueOf(q, WasmFeatures);
    hide Gives, LastValue, KindText, CpuText, ConsumerText, WasmText;
    TextDecides(p);
    TextDecides(q);
  }

  lemma TextDecides(p: ParsedArgs)
    ensures p.kind.Some? ==> ParseKind(KindText(p.kind.value)) == p.kind
    ensures p.cpu.Some? ==> ParseCpu(CpuText(p.cpu.value)) == p.cpu
    ensures p.consumer.Some? ==> ParseConsumer(ConsumerText(p.consumer.value)) == p.consumer
    ensures p.wasmFeatures.Some? ==> ParseWasm(WasmText(p.wasmFeatures.value)) == p.wasmFeatures
  {
    if p.kind.Some? { KindReadsBack(p.kind.value); }
    if p.cpu.Some? { CpuReadsBack(p.cpu.value); }
    if p.consumer.Some? { ConsumerReadsBack(p.consumer.value); }
    if p.wasmFeatures.Some? { WasmReadsBack(p.wasmFeatures.value); }
  }

  lemma SwitchesAgree(command: Command, items: seq<Item>, p: ParsedArgs, q: ParsedArgs)
    requires Gives(command, items, p) && Gives(command, items, q)
    ensures p.noCache == q.noCache && p.printFacts == q.printFacts && p.printEffectSummaries == q.printEffectSummaries
    ensures p.explainOptimization == q.explainOptimization && p.sanitizeContracts == q.sanitizeContracts
  {
    assert IsOn(p, NoCache) == IsOn(q, NoCache) && IsOn(p, PrintFacts) == IsOn(q, PrintFacts);
    assert IsOn(p, PrintEffectSummaries) == IsOn(q, PrintEffectSummaries);
    assert IsOn(p, ExplainOptimization) == IsOn(q, ExplainOptimization);
    assert IsOn(p, SanitizeContracts) == IsOn(q, SanitizeContracts);
  }
}
