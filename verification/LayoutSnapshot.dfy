/**
 The text that stands for a module when a late layout is judged (native/bridge/ckc_llvm.cpp,
 `late_layout_snapshot`), and what it determines: in its plain form the order of everything, in its
 structural form everything but the order.
 */
module LayoutSnapshot {
  import opened Basics
  import opened Sequences
  import opened Sorting
  import opened LayoutPlan
  import LayoutParser

  /** A basic block: its identity, its name, and the text of its instructions. */
  datatype Block = Block(id: nat, name: string, text: string)

  datatype IrFunction = IrFunction(name: string, declaration: bool, blocks: seq<Block>)

  function BlockText(b: Block): string {
    "block\t" + b.name + "\n" + b.text
  }

  function InOrder(texts: seq<string>, structural: bool): seq<string> {
    if structural then Sort(StringLe, texts) else texts
  }

  function FunctionText(f: IrFunction, structural: bool): string {
    "function\t" + f.name + "\n" + Concat(InOrder(Map(BlockText, f.blocks), structural))
  }

  function Defined(functions: seq<IrFunction>): seq<IrFunction> {
    if functions == [] then []
    else
      var n := |functions| - 1;
      Defined(functions[..n]) + (if functions[n].declaration then [] else [functions[n]])
  }

  /** The module as text; the structural form does not depend on any order. */
  function Snapshot(functions: seq<IrFunction>, structural: bool): string {
    "CK-LATE-LAYOUT-SNAPSHOT-1\n"
    + Concat(InOrder(Map(f => FunctionText(f, structural), Defined(functions)), structural))
  }

  /** Each function keeps its name and its blocks, in whatever order. */
  ghost predicate SameUpToOrder(was: seq<IrFunction>, now: seq<IrFunction>) {
    && |was| == |now|
    && forall i :: 0 <= i < |was| ==>
         && now[i].name == was[i].name && now[i].declaration == was[i].declaration
         && multiset(now[i].blocks) == multiset(was[i].blocks)
  }

  lemma {:induction false} DefinedSameUpToOrder(was: seq<IrFunction>, now: seq<IrFunction>)
    requires SameUpToOrder(was, now)
    ensures SameUpToOrder(Defined(was), Defined(now))
  {
    if was != [] {
      DefinedSameUpToOrder(was[..|was| - 1], now[..|now| - 1]);
    }
  }

  /** Reordering blocks within functions leaves the structural snapshot as it was. */
  lemma StructureIgnoresOrder(was: seq<IrFunction>, now: seq<IrFunction>)
    requires SameUpToOrder(was, now)
    ensures Snapshot(was, true) == Snapshot(now, true)
  {
    DefinedSameUpToOrder(was, now);
    var before, after := Defined(was), Defined(now);
    forall i | 0 <= i < |before| ensures FunctionText(before[i], true) == FunctionText(after[i], true) {
      MapOfPermutation(BlockText, before[i].blocks, after[i].blocks);
      StringsAreOrdered();
      SortOfPermutation(StringLe, Map(BlockText, before[i].blocks), Map(BlockText, after[i].blocks));
    }
    assert Map(f => FunctionText(f, true), before) == Map(f => FunctionText(f, true), after);
  }

  // ---------------------------------------------------------------- what the plain form determines

  datatype BlockListing = BlockListing(name: string, lines: seq<string>)

  datatype FunctionListing = FunctionListing(name: string, blocks: seq<BlockListing>)

  function BlockListingOf(b: Block): BlockListing {
    BlockListing(b.name, LayoutParser.Lines(b.text))
  }

  function FunctionListingOf(f: IrFunction): FunctionListing {
    FunctionListing(f.name, Map(BlockListingOf, f.blocks))
  }

  /** The defined functions with their blocks, in order. */
  function Listing(functions: seq<IrFunction>): seq<FunctionListing> {
    Map(FunctionListingOf, Defined(functions))
  }

  /** An instruction's line: it does not begin like the line of a block or of a function. */
  predicate PlainLine(line: string) {
    '\n' !in line && !("block\t" <= line) && !("function\t" <= line)
  }

  /** The text of a block is whole lines of instructions. */
  ghost predicate PlainBlock(b: Block) {
    && '\n' !in b.name && b.text == Terminated(LayoutParser.Lines(b.text))
    && forall i :: 0 <= i < |LayoutParser.Lines(b.text)| ==> PlainLine(LayoutParser.Lines(b.text)[i])
  }

  ghost predicate PlainFunction(f: IrFunction) {
    '\n' !in f.name && forall b :: b in f.blocks ==> PlainBlock(b)
  }

  ghost predicate Plain(functions: seq<IrFunction>) {
    forall i :: 0 <= i < |functions| && !functions[i].declaration ==> PlainFunction(functions[i])
  }

  function BlockLines(b: BlockListing): seq<string> {
    ["block\t" + b.name] + b.lines
  }

  function FunctionLines(f: FunctionListing): seq<string> {
    ["function\t" + f.name] + Concat(Map(BlockLines, f.blocks))
  }

  function AllLines(functions: seq<FunctionListing>): seq<string> {
    Concat(Map(FunctionLines, functions))
  }

  lemma {:induction false} TerminatedConcat(parts: seq<seq<string>>)
    ensures Terminated(Concat(parts)) == Concat(Map(Terminated, parts))
  {
    if parts != [] {
      var n := |parts| - 1;
      TerminatedConcat(parts[..n]);
      TerminatedMore(Concat(parts[..n]), parts[n]);
      assert Map(Terminated, parts)[..n] == Map(Terminated, parts[..n]);
    }
  }

  lemma HeadLine(line: string, rest: seq<string>)
    ensures Terminated([line] + rest) == line + "\n" + Terminated(rest)
  {
    assert [line][..0] == [];
    TerminatedMore([line], rest);
  }

  lemma BlockTextIs(b: Block)
    requires PlainBlock(b)
    ensures BlockText(b) == Terminated(BlockLines(BlockListingOf(b)))
  {
    HeadLine("block\t" + b.name, LayoutParser.Lines(b.text));
  }

  lemma FunctionTextIs(f: IrFunction)
    requires PlainFunction(f)
    ensures FunctionText(f, false) == Terminated(FunctionLines(FunctionListingOf(f)))
  {
    var parts := Map(BlockLines, FunctionListingOf(f).blocks);
    HeadLine("function\t" + f.name, Concat(parts));
    TerminatedConcat(parts);
    forall k | 0 <= k < |f.blocks| ensures BlockText(f.blocks[k]) == Terminated(parts[k]) {
      BlockTextIs(f.blocks[k]);
    }
    assert Map(BlockText, f.blocks) == Map(Terminated, parts);
  }

  lemma {:induction false} DefinedIsPlain(functions: seq<IrFunction>)
    requires Plain(functions)
    ensures forall i :: 0 <= i < |Defined(functions)| ==> PlainFunction(Defined(functions)[i])
  {
    if functions != [] {
      DefinedIsPlain(functions[..|functions| - 1]);
    }
  }

  const HEADER := "CK-LATE-LAYOUT-SNAPSHOT-1"

  lemma SnapshotIs(functions: seq<IrFunction>)
    requires Plain(functions)
    ensures Snapshot(functions, false) == Terminated([HEADER] + AllLines(Listing(functions)))
  {
    var defined := Defined(functions);
    var parts := Map(FunctionLines, Listing(functions));
    DefinedIsPlain(functions);
    HeadLine(HEADER, Concat(parts));
    TerminatedConcat(parts);
    forall i | 0 <= i < |defined| ensures FunctionText(defined[i], false) == Terminated(parts[i]) {
      FunctionTextIs(defined[i]);
    }
    assert Map(f => FunctionText(f, false), defined) == Map(Terminated, parts);
  }

  /** The next line opens a function, opens a block of the last function, or belongs to the last block. */
  function ReadLine(functions: seq<FunctionListing>, line: string): seq<FunctionListing> {
    if "function\t" <= line then functions + [FunctionListing(line[9..], [])]
    else if functions == [] then []
    else
      var n := |functions| - 1;
      var blocks := functions[n].blocks;
      if "block\t" <= line then
        functions[..n] + [FunctionListing(functions[n].name, blocks + [BlockListing(line[6..], [])])]
      else if blocks == [] then functions
      else
        var last := BlockListing(blocks[|blocks| - 1].name, blocks[|blocks| - 1].lines + [line]);
        functions[..n] + [FunctionListing(functions[n].name, blocks[..|blocks| - 1] + [last])]
  }

  function ReadLines(functions: seq<FunctionListing>, lines: seq<string>): seq<FunctionListing> {
    if lines == [] then functions else ReadLine(ReadLines(functions, lines[..|lines| - 1]), lines[|lines| - 1])
  }

  /** Reading a snapshot without knowing the module. */
  function ReadSnapshot(text: string): seq<FunctionListing> {
    var lines := LayoutParser.Lines(text);
    if lines == [] then [] else ReadLines([], lines[1..])
  }

  lemma {:induction false} ReadLinesMore(functions: seq<FunctionListing>, a: seq<string>, b: seq<string>)
    ensures ReadLines(functions, a + b) == ReadLines(ReadLines(functions, a), b)
  {
    if b == [] {
      assert a + b == a;
    } else {
      var n := |b| - 1;
      assert (a + b)[..|a| + n] == a + b[..n];
      ReadLinesMore(functions, a, b[..n]);
    }
  }

  lemma TaggedLine(name: string)
    ensures "function\t" <= "function\t" + name && ("function\t" + name)[9..] == name
    ensures "block\t" <= "block\t" + name && ("block\t" + name)[6..] == name
    ensures !("function\t" <= "block\t" + name)
  {
    assert ("block\t" + name)[0] == 'b' && "function\t"[0] == 'f';
  }

  /** Instructions join the block that was opened last. */
  lemma {:induction false} InstructionsRead(functions: seq<FunctionListing>, name: string, blocks: seq<BlockListing>,
                                            block: string, lines: seq<string>)
    requires forall i :: 0 <= i < |lines| ==> PlainLine(lines[i])
    ensures ReadLines(functions + [FunctionListing(name, blocks + [BlockListing(block, [])])], lines)
         == functions + [FunctionListing(name, blocks + [BlockListing(block, lines)])]
  {
    if lines != [] {
      var n := |lines| - 1;
      InstructionsRead(functions, name, blocks, block, lines[..n]);
      var all := blocks + [BlockListing(block, lines[..n])];
      var before := functions + [FunctionListing(name, all)];
      assert before[..|functions|] == functions && all[..|blocks|] == blocks;
      assert lines[..n] + [lines[n]] == lines;
    }
  }

  lemma BlockRead(functions: seq<FunctionListing>, name: string, blocks: seq<BlockListing>, b: BlockListing)
    requires forall i :: 0 <= i < |b.lines| ==> PlainLine(b.lines[i])
    ensures ReadLines(functions + [FunctionListing(name, blocks)], BlockLines(b))
         == functions + [FunctionListing(name, blocks + [b])]
  {
    var start := functions + [FunctionListing(name, blocks)];
    var line := "block\t" + b.name;
    TaggedLine(b.name);
    assert start[..|functions|] == functions && [line][..0] == [];
    ReadLinesMore(start, [line], b.lines);
    InstructionsRead(functions, name, blocks, b.name, b.lines);
  }

  lemma {:induction false} BlocksRead(functions: seq<FunctionListing>, name: string, blocks: seq<BlockListing>)
    requires forall b, i :: b in blocks && 0 <= i < |b.lines| ==> PlainLine(b.lines[i])
    ensures ReadLines(functions + [FunctionListing(name, [])], Concat(Map(BlockLines, blocks)))
         == functions + [FunctionListing(name, blocks)]
  {
    if blocks != [] {
      var n := |blocks| - 1;
      BlocksRead(functions, name, blocks[..n]);
      assert Map(BlockLines, blocks)[..n] == Map(BlockLines, blocks[..n]) && blocks[..n] + [blocks[n]] == blocks;
      ReadLinesMore(functions + [FunctionListing(name, [])], Concat(Map(BlockLines, blocks[..n])),
                    BlockLines(blocks[n]));
      BlockRead(functions, name, blocks[..n], blocks[n]);
    }
  }

  /** The lines of instructions are plain, and nothing contains a newline. */
  ghost predicate PlainListing(f: FunctionListing) {
    && '\n' !in f.name && (forall b :: b in f.blocks ==> '\n' !in b.name)
    && forall b, i :: b in f.blocks && 0 <= i < |b.lines| ==> PlainLine(b.lines[i])
  }

  lemma FunctionRead(functions: seq<FunctionListing>, f: FunctionListing)
    requires PlainListing(f)
    ensures ReadLines(functions, FunctionLines(f)) == functions + [f]
  {
    var line := "function\t" + f.name;
    TaggedLine(f.name);
    assert [line][..0] == [];
    ReadLinesMore(functions, [line], Concat(Map(BlockLines, f.blocks)));
    BlocksRead(functions, f.name, f.blocks);
  }

  lemma {:induction false} ListingRead(functions: seq<FunctionListing>)
    requires forall i :: 0 <= i < |functions| ==> PlainListing(functions[i])
    ensures ReadLines([], AllLines(functions)) == functions
  {
    if functions != [] {
      var n := |functions| - 1;
      ListingRead(functions[..n]);
      assert Map(FunctionLines, functions)[..n] == Map(FunctionLines, functions[..n]);
      assert functions[..n] + [functions[n]] == functions;
      ReadLinesMore([], AllLines(functions[..n]), FunctionLines(functions[n]));
      FunctionRead(functions[..n], functions[n]);
    }
  }

  ghost predicate NoNewlines(lines: seq<string>) {
    forall i :: 0 <= i < |lines| ==> '\n' !in lines[i]
  }

  lemma {:induction false} ConcatHasNoNewlines(parts: seq<seq<string>>)
    requires forall k :: 0 <= k < |parts| ==> NoNewlines(parts[k])
    ensures NoNewlines(Concat(parts))
  {
    if parts != [] {
      ConcatHasNoNewlines(parts[..|parts| - 1]);
    }
  }

  lemma ListingHasNoNewlines(functions: seq<FunctionListing>)
    requires forall i :: 0 <= i < |functions| ==> PlainListing(functions[i])
    ensures NoNewlines(AllLines(functions))
  {
    forall i | 0 <= i < |functions| ensures NoNewlines(FunctionLines(functions[i])) {
      var blocks := functions[i].blocks;
      forall k | 0 <= k < |blocks| ensures NoNewlines(BlockLines(blocks[k])) {
        assert blocks[k] in blocks;
      }
      ConcatHasNoNewlines(Map(BlockLines, blocks));
    }
    ConcatHasNoNewlines(Map(FunctionLines, functions));
  }

  lemma ListingIsPlain(f: IrFunction)
    requires PlainFunction(f)
    ensures PlainListing(FunctionListingOf(f))
  {
    var blocks := FunctionListingOf(f).blocks;
    forall b | b in blocks
      ensures '\n' !in b.name && forall i :: 0 <= i < |b.lines| ==> PlainLine(b.lines[i])
    {
      var k :| 0 <= k < |blocks| && blocks[k] == b;
      assert f.blocks[k] in f.blocks && PlainBlock(f.blocks[k]);
    }
  }

  lemma ListingsArePlain(functions: seq<IrFunction>)
    requires Plain(functions)
    ensures forall i :: 0 <= i < |Listing(functions)| ==> PlainListing(Listing(functions)[i])
  {
    DefinedIsPlain(functions);
    hide PlainListing, PlainFunction;
    forall i | 0 <= i < |Listing(functions)| ensures PlainListing(Listing(functions)[i]) {
      ListingIsPlain(Defined(functions)[i]);
    }
  }

  lemma LinesAreRead(first: string, rest: seq<string>)
    requires '\n' !in first && NoNewlines(rest)
    ensures ReadSnapshot(Terminated([first] + rest)) == ReadLines([], rest)
  {
    var lines := [first] + rest;
    LayoutParser.LinesReadBack(lines);
    hide LayoutParser.Lines, Terminated;
    assert lines[1..] == rest;
  }

  /** The plain snapshot can be read back: names and instructions, in order. */
  lemma SnapshotReadsBack(functions: seq<IrFunction>)
    requires Plain(functions)
    ensures ReadSnapshot(Snapshot(functions, false)) == Listing(functions)
  {
    assert '\n' !in HEADER;
    hide *;
    var listing := Listing(functions);
    ListingsArePlain(functions);
    SnapshotIs(functions);
    ListingRead(listing);
    ListingHasNoNewlines(listing);
    LinesAreRead(HEADER, AllLines(listing));
  }

  /** The same blocks by name and text, in the same order. */
  ghost predicate SameBlocks(a: seq<Block>, b: seq<Block>) {
    |a| == |b| && forall k :: 0 <= k < |a| ==> a[k].name == b[k].name && a[k].text == b[k].text
  }

  /** The same functions by name with the same blocks, all in the same order. */
  ghost predicate SameFunctions(a: seq<IrFunction>, b: seq<IrFunction>) {
    |a| == |b| && forall i :: 0 <= i < |a| ==> a[i].name == b[i].name && SameBlocks(a[i].blocks, b[i].blocks)
  }

  lemma SameListing(a: IrFunction, b: IrFunction)
    requires PlainFunction(a) && PlainFunction(b)
    ensures FunctionListingOf(a) == FunctionListingOf(b) <==> a.name == b.name && SameBlocks(a.blocks, b.blocks)
  {
    var s, t := Map(BlockListingOf, a.blocks), Map(BlockListingOf, b.blocks);
    if |a.blocks| == |b.blocks| {
      forall k | 0 <= k < |a.blocks|
        ensures s[k] == t[k] <==> a.blocks[k].name == b.blocks[k].name && a.blocks[k].text == b.blocks[k].text
      {
        assert PlainBlock(a.blocks[k]) && PlainBlock(b.blocks[k]);
      }
    }
    assert s == t ==> SameBlocks(a.blocks, b.blocks);
  }

  lemma ListingDecides(a: seq<IrFunction>, b: seq<IrFunction>)
    requires Plain(a) && Plain(b)
    ensures Listing(a) == Listing(b) <==> SameFunctions(Defined(a), Defined(b))
  {
    DefinedIsPlain(a);
    DefinedIsPlain(b);
    hide Defined, PlainFunction, FunctionListingOf, SameBlocks;
    var s, t := Defined(a), Defined(b);
    if |s| == |t| {
      forall i | 0 <= i < |s|
        ensures FunctionListingOf(s[i]) == FunctionListingOf(t[i]) <==>
                  s[i].name == t[i].name && SameBlocks(s[i].blocks, t[i].blocks)
      {
        SameListing(s[i], t[i]);
      }
    }
    assert Listing(a) == Listing(b) ==> SameFunctions(s, t);
  }

  /** Two modules have one plain snapshot exactly when their defined functions are the same, in the same order. */
  lemma PlainSnapshotDecides(a: seq<IrFunction>, b: seq<IrFunction>)
    requires Plain(a) && Plain(b)
    ensures Snapshot(a, false) == Snapshot(b, false) <==> SameFunctions(Defined(a), Defined(b))
  {
    hide *;
    SnapshotReadsBack(a);
    SnapshotReadsBack(b);
    SnapshotIs(a);
    SnapshotIs(b);
    ListingDecides(a, b);
  }

  // ---------------------------------------------------------------- what the structural form determines

  /** A block as the snapshot shows it. */
  datatype BlockShape = BlockShape(name: string, text: string)

  /** A function up to the order of its blocks. */
  datatype Shape = Shape(name: string, blocks: multiset<BlockShape>)

  function BlockShapeOf(b: Block): BlockShape {
    BlockShape(b.name, b.text)
  }

  function ShapeOf(f: IrFunction): Shape {
    Shape(f.name, multiset(Map(BlockShapeOf, f.blocks)))
  }

  /** The defined functions up to all order. */
  function Shapes(functions: seq<IrFunction>): multiset<Shape> {
    multiset(Map(ShapeOf, Defined(functions)))
  }

  predicate BlockLe(a: Block, b: Block) {
    StringLe(BlockText(a), BlockText(b))
  }

  predicate FunctionLe(a: IrFunction, b: IrFunction) {
    StringLe(FunctionText(a, false), FunctionText(b, false))
  }

  function SortedBlocks(f: IrFunction): IrFunction {
    f.(blocks := Sort(BlockLe, f.blocks))
  }

  /** The defined functions, sorted, each with its blocks sorted. */
  function SortedModule(functions: seq<IrFunction>): seq<IrFunction> {
    Sort(FunctionLe, Map(SortedBlocks, Defined(functions)))
  }

  lemma SortedBlocksText(f: IrFunction)
    ensures FunctionText(SortedBlocks(f), false) == FunctionText(f, true)
  {
    SortByImage(BlockText, StringLe, BlockLe, f.blocks);
  }

  lemma {:induction false} AllDefined(functions: seq<IrFunction>)
    requires forall f :: f in functions ==> !f.declaration
    ensures Defined(functions) == functions
  {
    if functions != [] {
      var n := |functions| - 1;
      AllDefined(functions[..n]);
      assert functions[n] in functions && functions[..n] + [functions[n]] == functions;
    }
  }

  lemma {:induction false} NoDeclarations(functions: seq<IrFunction>)
    ensures forall f :: f in Defined(functions) ==> !f.declaration
  {
    if functions != [] {
      NoDeclarations(functions[..|functions| - 1]);
    }
  }

  lemma SortedModuleIs(functions: seq<IrFunction>)
    ensures multiset(SortedModule(functions)) == multiset(Map(SortedBlocks, Defined(functions)))
    ensures Defined(SortedModule(functions)) == SortedModule(functions)
  {
    var all := Map(SortedBlocks, Defined(functions));
    SortKeepsElements(FunctionLe, all);
    NoDeclarations(functions);
    forall f | f in SortedModule(functions) ensures !f.declaration {
      assert f in multiset(SortedModule(functions)) && f in multiset(all) && f in all;
      var i :| 0 <= i < |all| && all[i] == f;
      assert Defined(functions)[i] in Defined(functions);
    }
    AllDefined(SortedModule(functions));
  }

  /** The structural snapshot is the plain one of the sorted module. */
  lemma StructuralIsSorted(functions: seq<IrFunction>)
    ensures Snapshot(functions, true) == Snapshot(SortedModule(functions), false)
  {
    var defined := Defined(functions);
    var all, text := Map(SortedBlocks, defined), (f: IrFunction) => FunctionText(f, false);
    SortedModuleIs(functions);
    SortByImage(text, StringLe, FunctionLe, all);
    forall i | 0 <= i < |defined| ensures text(all[i]) == FunctionText(defined[i], true) {
      SortedBlocksText(defined[i]);
    }
    assert Map(text, all) == Map(f => FunctionText(f, true), defined);
    assert Map(text, SortedModule(functions)) == Map(f => FunctionText(f, false), SortedModule(functions));
  }

  lemma SortedIsPlain(functions: seq<IrFunction>)
    requires Plain(functions)
    ensures Plain(SortedModule(functions))
  {
    DefinedIsPlain(functions);
    SortedModuleIs(functions);
    var all, sorted := Map(SortedBlocks, Defined(functions)), SortedModule(functions);
    forall i | 0 <= i < |sorted| ensures PlainFunction(sorted[i]) {
      assert sorted[i] in multiset(all) && sorted[i] in all;
      var k :| 0 <= k < |all| && all[k] == sorted[i];
      SortedBlocksPlain(Defined(functions)[k]);
    }
  }

  lemma SortedBlocksPlain(f: IrFunction)
    requires PlainFunction(f)
    ensures PlainFunction(SortedBlocks(f))
  {
    SortKeepsElements(BlockLe, f.blocks);
    forall b | b in Sort(BlockLe, f.blocks) ensures PlainBlock(b) {
      assert b in multiset(f.blocks) && b in f.blocks;
    }
  }

  lemma ShapesOfSorted(functions: seq<IrFunction>)
    ensures multiset(Map(ShapeOf, SortedModule(functions))) == Shapes(functions)
  {
    var defined := Defined(functions);
    var all := Map(SortedBlocks, defined);
    SortedModuleIs(functions);
    MapOfPermutation(ShapeOf, SortedModule(functions), all);
    forall i | 0 <= i < |defined| ensures ShapeOf(all[i]) == ShapeOf(defined[i]) {
      SortKeepsElements(BlockLe, defined[i].blocks);
      MapOfPermutation(BlockShapeOf, all[i].blocks, defined[i].blocks);
    }
    assert Map(ShapeOf, all) == Map(ShapeOf, defined);
  }

  lemma SameFunctionsSameShapes(a: seq<IrFunction>, b: seq<IrFunction>)
    requires SameFunctions(a, b)
    ensures Map(ShapeOf, a) == Map(ShapeOf, b)
  {
    forall i | 0 <= i < |a| ensures ShapeOf(a[i]) == ShapeOf(b[i]) {
      assert SameBlocks(a[i].blocks, b[i].blocks);
      assert Map(BlockShapeOf, a[i].blocks) == Map(BlockShapeOf, b[i].blocks);
    }
  }

  function ShapeText(b: BlockShape): string {
    "block\t" + b.name + "\n" + b.text
  }

  /** The structural text of a function depends on its shape only. */
  lemma ShapeDecidesText(f: IrFunction, g: IrFunction)
    requires ShapeOf(f) == ShapeOf(g)
    ensures FunctionText(f, true) == FunctionText(g, true)
  {
    var s, t := Map(BlockShapeOf, f.blocks), Map(BlockShapeOf, g.blocks);
    MapOfPermutation(ShapeText, s, t);
    assert Map(ShapeText, s) == Map(BlockText, f.blocks) && Map(ShapeText, t) == Map(BlockText, g.blocks);
    StringsAreOrdered();
    SortOfPermutation(StringLe, Map(BlockText, f.blocks), Map(BlockText, g.blocks));
  }

  ghost function TextOfShape(shape: Shape): string {
    if f: IrFunction :| ShapeOf(f) == shape then FunctionText(f, true) else ""
  }

  lemma TextsByShape(functions: seq<IrFunction>)
    ensures Map(TextOfShape, Map(ShapeOf, functions)) == Map(f => FunctionText(f, true), functions)
  {
    forall i | 0 <= i < |functions| ensures TextOfShape(ShapeOf(functions[i])) == FunctionText(functions[i], true) {
      forall f: IrFunction | ShapeOf(f) == ShapeOf(functions[i])
        ensures FunctionText(f, true) == FunctionText(functions[i], true)
      {
        ShapeDecidesText(f, functions[i]);
      }
    }
  }

  lemma SameShapesSameText(a: seq<IrFunction>, b: seq<IrFunction>)
    requires Shapes(a) == Shapes(b)
    ensures Snapshot(a, true) == Snapshot(b, true)
  {
    TextsByShape(Defined(a));
    TextsByShape(Defined(b));
    MapOfPermutation(TextOfShape, Map(ShapeOf, Defined(a)), Map(ShapeOf, Defined(b)));
    StringsAreOrdered();
    SortOfPermutation(StringLe, Map(f => FunctionText(f, true), Defined(a)),
                      Map(f => FunctionText(f, true), Defined(b)));
  }

  /** Two modules have one structural snapshot exactly when their defined functions are the same but for the order. */
  lemma StructuralSnapshotDecides(a: seq<IrFunction>, b: seq<IrFunction>)
    requires Plain(a) && Plain(b)
    ensures Snapshot(a, true) == Snapshot(b, true) <==> Shapes(a) == Shapes(b)
  {
    hide *;
    if Snapshot(a, true) == Snapshot(b, true) {
      StructuralIsSorted(a);
      StructuralIsSorted(b);
      SortedIsPlain(a);
      SortedIsPlain(b);
      SortedModuleIs(a);
      SortedModuleIs(b);
      PlainSnapshotDecides(SortedModule(a), SortedModule(b));
      SameFunctionsSameShapes(SortedModule(a), SortedModule(b));
      ShapesOfSorted(a);
      ShapesOfSorted(b);
    }
    if Shapes(a) == Shapes(b) {
      SameShapesSameText(a, b);
    }
  }
}
