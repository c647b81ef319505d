/**
 The late-layout plan as text: rendering on the Rust side (src/backend/llvm/late_layout.rs) and parsing
 on the C++ side (native/bridge/ckc_llvm.cpp, `parse_late_layout_plan`).
 */
module LayoutPlan {
  import opened Basics

  datatype Directive = Directive(function_: string, blocks: seq<string>)

  /** One line of a plan: a function and one of its blocks. */
  datatype Entry = Entry(function_: string, block: string)

  /** Why a plan is refused: when it is rendered, parsed or applied. */
  datatype LayoutError =
    | MalformedName | DuplicateBlock | DuplicateFunction
    | ContainsNul | InvalidSchema | UnknownRecord | MalformedRecord | DuplicateRecord
    | UnknownFunction | UnknownBlock | MovesEntryBlock | ChangedStructure

  const SCHEMA: string := "CKLAYOUT1"

  // ---------------------------------------------------------------- rendering

  predicate Separator(c: char) {
    c == '\0' || c == '\n' || c == '\r' || c == '\t'
  }

  ghost predicate ValidName(name: string) {
    name != "" && '\0' !in name && '\n' !in name && '\r' !in name && '\t' !in name
  }

  ghost predicate DistinctNames(names: seq<string>) {
    forall i, j :: 0 <= i < j < |names| ==> names[i] != names[j]
  }

  ghost predicate EncodableDirective(d: Directive) {
    && ValidName(d.function_) && DistinctNames(d.blocks)
    && forall k :: 0 <= k < |d.blocks| ==> ValidName(d.blocks[k])
  }

  /** What the renderer accepts. */
  ghost predicate Encodable(plan: seq<Directive>) {
    && (forall i :: 0 <= i < |plan| ==> EncodableDirective(plan[i]))
    && DistinctNames(FunctionNames(plan))
  }

  function EntryLine(e: Entry): string {
    "B\t" + e.function_ + "\t" + e.block
  }

  function DirectiveEntries(d: Directive): (r: seq<Entry>)
    ensures |r| == |d.blocks| && forall k :: 0 <= k < |r| ==> r[k] == Entry(d.function_, d.blocks[k])
  {
    seq(|d.blocks|, k requires 0 <= k < |d.blocks| => Entry(d.function_, d.blocks[k]))
  }

  /** All entries of a plan, in order. */
  function Entries(plan: seq<Directive>): seq<Entry> {
    if plan == [] then [] else Entries(plan[..|plan| - 1]) + DirectiveEntries(plan[|plan| - 1])
  }

  function EntryLines(entries: seq<Entry>): (r: seq<string>)
    ensures |r| == |entries| && forall k :: 0 <= k < |r| ==> r[k] == EntryLine(entries[k])
  {
    seq(|entries|, k requires 0 <= k < |entries| => EntryLine(entries[k]))
  }

  /** Lines, each ended by a newline. */
  function Terminated(lines: seq<string>): string {
    if lines == [] then "" else Terminated(lines[..|lines| - 1]) + lines[|lines| - 1] + "\n"
  }

  /** The text of a plan. */
  function Render(plan: seq<Directive>): string {
    Terminated([SCHEMA] + EntryLines(Entries(plan)))
  }

  lemma {:induction false} TerminatedMore(a: seq<string>, b: seq<string>)
    ensures Terminated(a + b) == Terminated(a) + Terminated(b)
  {
    if b == [] {
      assert a + b == a;
    } else {
      var n := |b| - 1;
      assert (a + b)[..|a + b| - 1] == a + b[..n];
      TerminatedMore(a, b[..n]);
    }
  }

  lemma EntryLinesMore(a: seq<Entry>, b: seq<Entry>)
    ensures EntryLines(a + b) == EntryLines(a) + EntryLines(b)
  {
  }

  method ValidateName(name: string) returns (ok: bool)
    ensures ok <==> ValidName(name)
  {
    if name == "" {
      return false;
    }
    for i := 0 to |name|
      invariant forall k :: 0 <= k < i ==> !Separator(name[k])
    {
      if Separator(name[i]) {
        return false;
      }
    }
    return true;
  }

  /** The given lines and those of the first k blocks. */
  ghost function LinesUpTo(lines: seq<string>, d: Directive, k: nat): seq<string>
    requires k <= |d.blocks|
  {
    lines + EntryLines(DirectiveEntries(d))[..k]
  }

  lemma NoLinesYet(lines: seq<string>, d: Directive)
    ensures LinesUpTo(lines, d, 0) == lines
    ensures LinesUpTo(lines, d, |d.blocks|) == lines + EntryLines(DirectiveEntries(d))
  {
    assert EntryLines(DirectiveEntries(d))[..|d.blocks|] == EntryLines(DirectiveEntries(d));
  }

  function BlockLine(f: string, block: string): string {
    "B\t" + f + "\t" + block + "\n"
  }

  lemma OneLineMore(lines: seq<string>, line: string)
    ensures Terminated(lines + [line]) == Terminated(lines) + line + "\n"
  {
    assert (lines + [line])[..|lines|] == lines;
  }

  lemma LinesUpToMore(lines: seq<string>, d: Directive, k: nat)
    requires k < |d.blocks|
    ensures LinesUpTo(lines, d, k + 1) == LinesUpTo(lines, d, k) + [EntryLine(Entry(d.function_, d.blocks[k]))]
  {
  }

  /** Pushing the parts of a line one by one pushes the line. */
  lemma PushLine(text: string, lines: seq<string>, d: Directive, k: nat)
    requires k < |d.blocks| && text == Terminated(LinesUpTo(lines, d, k))
    ensures text + BlockLine(d.function_, d.blocks[k]) == Terminated(LinesUpTo(lines, d, k + 1))
  {
    LinesUpToMore(lines, d, k);
    OneLineMore(LinesUpTo(lines, d, k), EntryLine(Entry(d.function_, d.blocks[k])));
    hide LinesUpTo, Terminated;
  }

  /** The set holds the first k names, and these are distinct. */
  ghost predicate Seen(seen: set<string>, names: seq<string>, k: nat) {
    && k <= |names|
    && (forall j :: 0 <= j < k ==> names[j] in seen)
    && (forall n :: n in seen ==> exists j :: 0 <= j < k && names[j] == n)
    && (forall i, j :: 0 <= i < j < k ==> names[i] != names[j])
  }

  lemma SeenNone(names: seq<string>)
    ensures Seen({}, names, 0)
  {
  }

  lemma SchemaIsTerminated()
    ensures Terminated([SCHEMA]) == "CKLAYOUT1\n"
  {
    assert [SCHEMA][..0] == [];
  }

  lemma SeenStep(seen: set<string>, names: seq<string>, k: nat)
    requires Seen(seen, names, k) && k < |names|
    ensures names[k] in seen ==> !DistinctNames(names)
    ensures names[k] !in seen ==> Seen(seen + {names[k]}, names, k + 1)
  {
  }

  lemma SeenAll(seen: set<string>, names: seq<string>)
    requires Seen(seen, names, |names|)
    ensures DistinctNames(names)
  {
  }

  lemma DirectiveIsEncodable(d: Directive)
    requires ValidName(d.function_)
    ensures EncodableDirective(d) <==>
              DistinctNames(d.blocks) && forall k :: 0 <= k < |d.blocks| ==> ValidName(d.blocks[k])
  {
  }

  method EncodeDirective(output: string, d: Directive, ghost lines: seq<string>)
      returns (r: Result<string, LayoutError>)
    requires ValidName(d.function_) && output == Terminated(lines)
    ensures r.Ok? <==> EncodableDirective(d)
    ensures r.Ok? ==> r.value == Terminated(lines + EntryLines(DirectiveEntries(d)))
  {
    var text := output;
    var blocks: set<string> := {};
    NoLinesYet(lines, d);
    SeenNone(d.blocks);
    DirectiveIsEncodable(d);
    hide *;
    for k := 0 to |d.blocks|
      invariant text == Terminated(LinesUpTo(lines, d, k))
      invariant Seen(blocks, d.blocks, k) && forall j :: 0 <= j < k ==> ValidName(d.blocks[j])
    {
      var block := d.blocks[k];
      SeenStep(blocks, d.blocks, k);
      var valid := ValidateName(block);
      if !valid {
        return Err(MalformedName);
      }
      if block in blocks {
        return Err(DuplicateBlock);
      }
      blocks := blocks + {block};
      PushLine(text, lines, d, k);
      text := text + BlockLine(d.function_, block);
    }
    SeenAll(blocks, d.blocks);
    return Ok(text);
  }

  function FunctionNames(plan: seq<Directive>): (r: seq<string>)
    ensures |r| == |plan| && forall i :: 0 <= i < |r| ==> r[i] == plan[i].function_
  {
    seq(|plan|, i requires 0 <= i < |plan| => plan[i].function_)
  }

  lemma EntriesMore(plan: seq<Directive>, i: nat, lines: seq<string>)
    requires i < |plan| && lines == [SCHEMA] + EntryLines(Entries(plan[..i]))
    ensures lines + EntryLines(DirectiveEntries(plan[i])) == [SCHEMA] + EntryLines(Entries(plan[..i + 1]))
  {
    assert plan[..i + 1][..i] == plan[..i];
    EntryLinesMore(Entries(plan[..i]), DirectiveEntries(plan[i]));
  }

  method Encode(plan: seq<Directive>) returns (r: Result<string, LayoutError>)
    ensures r.Ok? <==> Encodable(plan)
    ensures r.Ok? ==> r.value == Render(plan)
  {
    var output := "CKLAYOUT1\n";
    var functions: set<string> := {};
    ghost var names, lines := FunctionNames(plan), [SCHEMA];
    SchemaIsTerminated();
    SeenNone(names);
    hide Seen, Terminated;
    for i := 0 to |plan|
      invariant output == Terminated(lines) && lines == [SCHEMA] + EntryLines(Entries(plan[..i]))
      invariant Seen(functions, names, i) && forall j :: 0 <= j < i ==> EncodableDirective(plan[j])
    {
      var d := plan[i];
      SeenStep(functions, names, i);
      var valid := ValidateName(d.function_);
      if !valid {
        assert !EncodableDirective(d);
        return Err(MalformedName);
      }
      if d.function_ in functions {
        return Err(DuplicateFunction);
      }
      var body := EncodeDirective(output, d, lines);
      if body.Err? {
        return Err(body.error);
      }
      functions := functions + {d.function_};
      EntriesMore(plan, i, lines);
      output := body.value;
      lines := lines + EntryLines(DirectiveEntries(d));
    }
    SeenAll(functions, names);
    assert plan[..|plan|] == plan;
    return Ok(output);
  }
}
