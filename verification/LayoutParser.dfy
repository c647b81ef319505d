/**
 Parsing a late-layout plan (native/bridge/ckc_llvm.cpp, `parse_late_layout_plan`), what an accepted plan
 is like, and the round trip with the renderer.
 */
module LayoutParser {
  import opened Basics
  import opened LayoutPlan

  /** The first position at or after `from` that holds c, or the length. */
  function IndexOf(s: string, c: char, from: nat): (r: nat)
    requires from <= |s|
    ensures from <= r <= |s| && (forall i :: from <= i < r ==> s[i] != c) && (r < |s| ==> s[r] == c)
    decreases |s| - from
  {
    if from == |s| || s[from] == c then from else IndexOf(s, c, from + 1)
  }

  /** The lines that `getline` delivers: a final newline starts no further line. */
  function Lines(input: string): seq<string> {
    if input == "" then []
    else
      var n := IndexOf(input, '\n', 0);
      if n == |input| then [input] else [input[..n]] + Lines(input[n + 1..])
  }

  /** A block record: the tag, a nonempty function, a nonempty block, which alone may contain tabs. */
  function ParseEntry(line: string): Option<Entry> {
    if |line| < 2 || line[0] != 'B' || line[1] != '\t' then None
    else
      var separator := IndexOf(line, '\t', 2);
      if separator == |line| || separator == 2 || separator + 1 == |line| then None
      else Some(Entry(line[2..separator], line[separator + 1..]))
  }

  predicate GoodLine(line: string) {
    line == "" || ParseEntry(line).Some?
  }

  /** The records of some lines, blank lines skipped. */
  function EntriesOf(lines: seq<string>): seq<Entry> {
    if lines == [] then []
    else
      var n := |lines| - 1;
      EntriesOf(lines[..n]) + (if ParseEntry(lines[n]).Some? then [ParseEntry(lines[n]).value] else [])
  }

  ghost predicate DistinctEntries(entries: seq<Entry>) {
    forall i, j :: 0 <= i < j < |entries| ==> entries[i] != entries[j]
  }

  ghost predicate Acceptable(input: string) {
    var lines := Lines(input);
    && '\0' !in input && lines != [] && lines[0] == SCHEMA
    && (forall i :: 1 <= i < |lines| ==> GoodLine(lines[i]))
    && DistinctEntries(EntriesOf(lines[1..]))
  }

  /** Where the function is among the directives, or the length. */
  function Position(directives: seq<Directive>, f: string): (r: nat)
    ensures r <= |directives|
    ensures r < |directives| ==> directives[r].function_ == f
    ensures forall i :: 0 <= i < r ==> directives[i].function_ != f
  {
    if directives == [] then 0
    else
      var n := |directives| - 1;
      var before := Position(directives[..n], f);
      if before < n then before else if directives[n].function_ == f then n else n + 1
  }

  /** A record joins its function's directive; the first record of a function opens one. */
  function AddEntry(directives: seq<Directive>, e: Entry): seq<Directive> {
    var p := Position(directives, e.function_);
    if p < |directives| then directives[p := Directive(e.function_, directives[p].blocks + [e.block])]
    else directives + [Directive(e.function_, [e.block])]
  }

  function Group(entries: seq<Entry>): seq<Directive> {
    if entries == [] then [] else AddEntry(Group(entries[..|entries| - 1]), entries[|entries| - 1])
  }

  // ---------------------------------------------------------------- the parser

  method GetLine(input: string, position: nat) returns (found: bool, line: string, next: nat)
    requires position <= |input|
    ensures found <==> position < |input|
    ensures found ==> position < next <= |input| && Lines(input[position..]) == [line] + Lines(input[next..])
  {
    if position == |input| {
      return false, "", position;
    }
    var end := position;
    while end < |input| && input[end] != '\n'
      invariant position <= end <= |input|
      invariant forall i :: position <= i < end ==> input[i] != '\n'
    {
      end := end + 1;
    }
    found, line, next := true, input[position..end], if end < |input| then end + 1 else end;
    ghost var rest := input[position..];
    FirstAt(rest, '\n', end - position);
    if end < |input| {
      assert rest[..end - position] == line && rest[end - position + 1..] == input[next..];
    } else {
      assert rest == line && input[next..] == "";
    }
  }

  lemma FirstAt(s: string, c: char, n: nat)
    requires n <= |s| && (forall i :: 0 <= i < n ==> s[i] != c) && (n < |s| ==> s[n] == c)
    ensures IndexOf(s, c, 0) == n
  {
  }

  /** The map knows every directive's position, and nothing else. */
  ghost predicate Indexed(functions: map<string, nat>, directives: seq<Directive>) {
    && (forall f :: f in functions ==> functions[f] < |directives| && directives[functions[f]].function_ == f)
    && (forall i :: 0 <= i < |directives| ==>
          directives[i].function_ in functions && functions[directives[i].function_] == i)
  }

  /** The directives and their index, after these records. */
  ghost predicate Built(entries: seq<Entry>, directives: seq<Directive>, functions: map<string, nat>) {
    directives == Group(entries) && Indexed(functions, directives)
  }

  lemma IndexedPosition(functions: map<string, nat>, directives: seq<Directive>, f: string)
    requires Indexed(functions, directives)
    ensures Position(directives, f) == if f in functions then functions[f] else |directives|
  {
    if f in functions && Position(directives, f) < |directives| {
      assert functions[directives[Position(directives, f)].function_] == Position(directives, f);
    }
  }

  lemma OpenDirective(functions: map<string, nat>, directives: seq<Directive>, f: string)
    requires Indexed(functions, directives) && f !in functions
    ensures Indexed(functions[f := |directives|], directives + [Directive(f, [])])
  {
    var more := directives + [Directive(f, [])];
    assert forall i :: 0 <= i < |directives| ==> more[i] == directives[i];
  }

  lemma ExtendDirective(functions: map<string, nat>, directives: seq<Directive>, f: string, block: string)
    requires Indexed(functions, directives) && f in functions
    ensures var p := functions[f];
            Indexed(functions, directives[p := Directive(directives[p].function_, directives[p].blocks + [block])])
  {
  }

  lemma BuiltStep(entries: seq<Entry>, directives: seq<Directive>, functions: map<string, nat>, e: Entry,
                  grown: seq<Directive>, index: map<string, nat>)
    requires Built(entries, directives, functions)
    requires if e.function_ in functions then grown == directives && index == functions
             else grown == directives + [Directive(e.function_, [])] && index == functions[e.function_ := |directives|]
    ensures e.function_ in index && index[e.function_] < |grown|
    ensures var p := index[e.function_];
            Built(entries + [e], grown[p := Directive(grown[p].function_, grown[p].blocks + [e.block])], index)
  {
    IndexedPosition(functions, directives, e.function_);
    if e.function_ !in functions {
      OpenDirective(functions, directives, e.function_);
    }
    ExtendDirective(index, grown, e.function_, e.block);
    assert (entries + [e])[..|entries|] == entries;
    var p := index[e.function_];
    if e.function_ !in functions {
      assert grown[p].blocks + [e.block] == [e.block];
      assert grown[p := Directive(e.function_, [e.block])] == directives + [Directive(e.function_, [e.block])];
    }
    assert grown[p := Directive(grown[p].function_, grown[p].blocks + [e.block])] == AddEntry(directives, e);
  }

  /** The first n lines are good, and these are their records, without repetition. */
  ghost predicate Read(lines: seq<string>, n: nat, entries: seq<Entry>, blocks: set<Entry>) {
    && n <= |lines|
    && (forall i :: 0 <= i < n ==> GoodLine(lines[i]))
    && entries == EntriesOf(lines[..n]) && DistinctEntries(entries)
    && (forall e :: e in blocks <==> e in entries)
  }

  lemma ReadBlank(lines: seq<string>, n: nat, entries: seq<Entry>, blocks: set<Entry>)
    requires Read(lines, n, entries, blocks) && n < |lines| && lines[n] == ""
    ensures Read(lines, n + 1, entries, blocks)
  {
    assert lines[..n + 1][..n] == lines[..n];
  }

  lemma EntriesOneMore(lines: seq<string>, n: nat, e: Entry)
    requires n < |lines| && ParseEntry(lines[n]) == Some(e)
    ensures EntriesOf(lines[..n + 1]) == EntriesOf(lines[..n]) + [e] && GoodLine(lines[n])
  {
    assert lines[..n + 1][..n] == lines[..n];
  }

  lemma ReadEntry(lines: seq<string>, n: nat, entries: seq<Entry>, blocks: set<Entry>, e: Entry)
    requires Read(lines, n, entries, blocks) && n < |lines| && ParseEntry(lines[n]) == Some(e)
    ensures e !in blocks ==> Read(lines, n + 1, entries + [e], blocks + {e})
    ensures e in blocks ==> !DistinctEntries(EntriesOf(lines))
  {
    hide *;
    var all := EntriesOf(lines);
    if e in blocks {
      EntriesOneMore(lines, n, e);
      EntriesPrefix(lines, n + 1);
      ReadSoFar(lines, n, entries, blocks);
      Repeated(entries, e, all);
    } else {
      ReadNew(lines, n, entries, blocks, e);
    }
  }

  lemma ReadSoFar(lines: seq<string>, n: nat, entries: seq<Entry>, blocks: set<Entry>)
    requires Read(lines, n, entries, blocks)
    ensures n <= |lines| && entries == EntriesOf(lines[..n]) && forall e :: e in blocks <==> e in entries
  {
  }

  lemma Repeated(entries: seq<Entry>, e: Entry, all: seq<Entry>)
    requires entries + [e] <= all && e in entries
    ensures !DistinctEntries(all)
  {
    var j :| 0 <= j < |entries| && entries[j] == e;
    assert (entries + [e])[j] == (entries + [e])[|entries|];
    assert all[j] == all[|entries|];
  }

  lemma ReadNew(lines: seq<string>, n: nat, entries: seq<Entry>, blocks: set<Entry>, e: Entry)
    requires Read(lines, n, entries, blocks) && n < |lines| && ParseEntry(lines[n]) == Some(e) && e !in blocks
    ensures Read(lines, n + 1, entries + [e], blocks + {e})
  {
    EntriesOneMore(lines, n, e);
    hide EntriesOf, ParseEntry, GoodLine;
  }

  method ParseLateLayoutPlan(input: string) returns (r: Result<seq<Directive>, LayoutError>)
    ensures r.Ok? <==> Acceptable(input)
    ensures r.Ok? ==> r.value == Group(EntriesOf(Lines(input)[1..]))
  {
    if '\0' in input {
      return Err(ContainsNul);
    }
    assert input[0..] == input;
    ghost var all := Lines(input);
    var found, line, position := GetLine(input, 0);
    if !found || line != SCHEMA {
      return Err(InvalidSchema);
    }
    ghost var lines := all[1..];
    ghost var n := 0;
    ghost var entries: seq<Entry> := [];
    var directives: seq<Directive> := [];
    var functions: map<string, nat> := map[];
    var blocks: set<Entry> := {};
    assert Read(lines, 0, entries, blocks) by {
      assert lines[..0] == [];
    }
    assert Built(entries, directives, functions);
    hide Read, Built, Lines, Group, EntriesOf, DistinctEntries;
    while true
      invariant position <= |input| && n <= |lines| && Lines(input[position..]) == lines[n..]
      invariant Read(lines, n, entries, blocks) && Built(entries, directives, functions)
      decreases |input| - position
    {
      var next;
      found, line, next := GetLine(input, position);
      if !found {
        break;
      }
      assert lines[n] == line && lines[n + 1..] == lines[n..][1..] by {
        assert lines[n..][0] == line;
      }
      position := next;
      if line == "" {
        ReadBlank(lines, n, entries, blocks);
        n := n + 1;
        continue;
      }
      var parsed := ParseRecord(line);
      if parsed.Err? {
        assert !GoodLine(all[n + 1]);
        return Err(parsed.error);
      }
      var e := parsed.value;
      ReadEntry(lines, n, entries, blocks, e);
      if e in blocks {
        return Err(DuplicateRecord);
      }
      blocks := blocks + {e};
      ghost var before, index := directives, functions;
      if e.function_ !in functions {
        functions := functions[e.function_ := |directives|];
        directives := directives + [Directive(e.function_, [])];
      }
      BuiltStep(entries, before, index, e, directives, functions);
      var p := functions[e.function_];
      directives := directives[p := Directive(directives[p].function_, directives[p].blocks + [e.block])];
      entries := entries + [e];
      n := n + 1;
    }
    ReadAll(input, lines, n, entries, blocks, directives, functions);
    return Ok(directives);
  }

  lemma ReadAll(input: string, lines: seq<string>, n: nat, entries: seq<Entry>, blocks: set<Entry>,
                directives: seq<Directive>, functions: map<string, nat>)
    requires '\0' !in input && Lines(input) == [SCHEMA] + lines
    requires Read(lines, n, entries, blocks) && Built(entries, directives, functions) && lines[n..] == Lines("")
    ensures Acceptable(input) && directives == Group(EntriesOf(Lines(input)[1..]))
  {
    assert n == |lines| && lines[..n] == lines && Lines(input)[1..] == lines;
  }

  method ParseRecord(line: string) returns (r: Result<Entry, LayoutError>)
    requires line != ""
    ensures r.Ok? <==> GoodLine(line)
    ensures r.Ok? ==> Some(r.value) == ParseEntry(line)
  {
    if |line| < 2 || line[..2] != "B\t" {
      return Err(UnknownRecord);
    }
    assert line[..2][0] == 'B' && line[..2][1] == '\t';
    var separator := IndexOf(line, '\t', 2);
    if separator == |line| || separator == 2 || separator + 1 == |line| {
      return Err(MalformedRecord);
    }
    return Ok(Entry(line[2..separator], line[separator + 1..]));
  }

  /** The records of the first lines are the first records. */
  lemma {:induction false} EntriesPrefix(lines: seq<string>, n: nat)
    requires n <= |lines|
    ensures EntriesOf(lines[..n]) <= EntriesOf(lines)
  {
    if n == |lines| {
      assert lines[..n] == lines;
    } else {
      var m := |lines| - 1;
      EntriesPrefix(lines[..m], n);
      assert lines[..m][..n] == lines[..n];
    }
  }

  // ---------------------------------------------------------------- what grouping means

  /** The blocks recorded for one function, in order. */
  function BlocksOf(entries: seq<Entry>, f: string): seq<string> {
    if entries == [] then []
    else
      var n := |entries| - 1;
      BlocksOf(entries[..n], f) + (if entries[n].function_ == f then [entries[n].block] else [])
  }

  /** The first record of the function, or the number of records. */
  function FirstEntry(entries: seq<Entry>, f: string): (r: nat)
    ensures r <= |entries| && (r < |entries| ==> entries[r].function_ == f)
    ensures forall i :: 0 <= i < r ==> entries[i].function_ != f
  {
    if entries == [] then 0
    else
      var n := |entries| - 1;
      var before := FirstEntry(entries[..n], f);
      if before < n then before else if entries[n].function_ == f then n else n + 1
  }

  /** The directive holds its function's blocks in order. */
  ghost predicate Collects(entries: seq<Entry>, d: Directive) {
    FirstEntry(entries, d.function_) < |entries| && d.blocks == BlocksOf(entries, d.function_)
  }

  /** The directives stand in the order in which their functions first appear. */
  ghost predicate ByFirstEntry(entries: seq<Entry>, directives: seq<Directive>) {
    forall i, j :: 0 <= i < j < |directives| ==>
      FirstEntry(entries, directives[i].function_) < FirstEntry(entries, directives[j].function_)
  }

  ghost predicate Covers(entries: seq<Entry>, directives: seq<Directive>) {
    forall k :: 0 <= k < |entries| ==> HasFunction(directives, entries[k].function_)
  }

  /** One directive for each function, in order of first appearance, each with its function's blocks in order. */
  ghost predicate GroupedBy(entries: seq<Entry>, directives: seq<Directive>) {
    && (forall i :: 0 <= i < |directives| ==> Collects(entries, directives[i]))
    && ByFirstEntry(entries, directives) && Covers(entries, directives)
  }

  ghost predicate HasFunction(directives: seq<Directive>, f: string) {
    exists i :: 0 <= i < |directives| && directives[i].function_ == f
  }

  lemma {:induction false} NoBlocksYet(entries: seq<Entry>, f: string)
    requires forall k :: 0 <= k < |entries| ==> entries[k].function_ != f
    ensures BlocksOf(entries, f) == []
  {
    if entries != [] {
      NoBlocksYet(entries[..|entries| - 1], f);
    }
  }

  lemma PositionOf(directives: seq<Directive>, f: string, i: nat)
    requires i < |directives| && directives[i].function_ == f
    ensures Position(directives, f) <= i
  {
  }

  /** Interleaved records are grouped by first appearance with block order kept. */
  lemma {:induction false} GroupIsByFirstAppearance(entries: seq<Entry>)
    ensures GroupedBy(entries, Group(entries))
  {
    if entries != [] {
      var n := |entries| - 1;
      GroupIsByFirstAppearance(entries[..n]);
      assert entries == entries[..n] + [entries[n]];
      hide GroupedBy;
      GroupedByStep(entries[..n], entries[n], Group(entries[..n]));
    }
  }

  /** One more record changes only its own function. */
  lemma OneMoreEntry(front: seq<Entry>, e: Entry, f: string)
    ensures BlocksOf(front + [e], f) == BlocksOf(front, f) + (if e.function_ == f then [e.block] else [])
    ensures FirstEntry(front, f) < |front| ==> FirstEntry(front + [e], f) == FirstEntry(front, f)
    ensures FirstEntry(front, f) == |front| && e.function_ == f ==> FirstEntry(front + [e], f) == |front|
  {
    assert (front + [e])[..|front|] == front;
  }

  /** A record of a known function: its directive is the only one that changes. */
  lemma JoinGroup(front: seq<Entry>, e: Entry, before: seq<Directive>, p: nat)
    requires GroupedBy(front, before) && p < |before| && before[p].function_ == e.function_
    ensures GroupedBy(front + [e], before[p := Directive(e.function_, before[p].blocks + [e.block])])
  {
    var entries, after := front + [e], before[p := Directive(e.function_, before[p].blocks + [e.block])];
    assert Collects(front, before[p]);
    hide BlocksOf, FirstEntry;
    forall i | 0 <= i < |after|
      ensures after[i].function_ == before[i].function_ && Collects(entries, after[i])
      ensures FirstEntry(entries, after[i].function_) == FirstEntry(front, before[i].function_)
    {
      assert Collects(front, before[i]);
      assert i != p ==> before[i].function_ != e.function_;
      OneMoreEntry(front, e, before[i].function_);
    }
    forall k | 0 <= k < |entries| ensures HasFunction(after, entries[k].function_) {
      assert k < |front| ==> HasFunction(before, front[k].function_);
      assert after[p].function_ == e.function_;
    }
  }

  lemma NewFunction(front: seq<Entry>, e: Entry, before: seq<Directive>)
    requires GroupedBy(front, before) && !HasFunction(before, e.function_)
    ensures FirstEntry(front, e.function_) == |front|
    ensures Collects(front + [e], Directive(e.function_, [e.block]))
    ensures FirstEntry(front + [e], e.function_) == |front|
  {
    forall k | 0 <= k < |front| ensures front[k].function_ != e.function_ {
      assert HasFunction(before, front[k].function_);
    }
    NoBlocksYet(front, e.function_);
    assert FirstEntry(front, e.function_) == |front|;
    hide BlocksOf, FirstEntry, GroupedBy, HasFunction;
    OneMoreEntry(front, e, e.function_);
  }

  lemma OldFunction(front: seq<Entry>, e: Entry, d: Directive)
    requires Collects(front, d) && d.function_ != e.function_
    ensures Collects(front + [e], d) && FirstEntry(front + [e], d.function_) == FirstEntry(front, d.function_) < |front|
  {
    OneMoreEntry(front, e, d.function_);
    hide BlocksOf, FirstEntry;
  }

  lemma CoversMore(front: seq<Entry>, e: Entry, before: seq<Directive>, d: Directive)
    requires Covers(front, before) && d.function_ == e.function_
    ensures Covers(front + [e], before + [d])
  {
    var after := before + [d];
    forall k | 0 <= k < |front + [e]| ensures HasFunction(after, (front + [e])[k].function_) {
      if k < |front| {
        var i :| 0 <= i < |before| && before[i].function_ == front[k].function_;
        assert after[i].function_ == front[k].function_;
      } else {
        assert after[|before|].function_ == e.function_;
      }
    }
  }

  lemma OtherFunction(before: seq<Directive>, f: string, i: nat)
    requires !HasFunction(before, f) && i < |before|
    ensures before[i].function_ != f
  {
  }

  /** The first record of a function: one more directive, at the end. */
  lemma OpenGroup(front: seq<Entry>, e: Entry, before: seq<Directive>)
    requires GroupedBy(front, before) && !HasFunction(before, e.function_)
    ensures GroupedBy(front + [e], before + [Directive(e.function_, [e.block])])
  {
    hide BlocksOf, FirstEntry, Collects, HasFunction, Covers;
    var entries, d := front + [e], Directive(e.function_, [e.block]);
    NewFunction(front, e, before);
    CoversMore(front, e, before, d);
    forall i | 0 <= i < |before|
      ensures Collects(entries, before[i])
      ensures FirstEntry(entries, before[i].function_) == FirstEntry(front, before[i].function_) < |front|
    {
      OtherFunction(before, e.function_, i);
      OldFunction(front, e, before[i]);
    }
  }

  lemma GroupedByStep(front: seq<Entry>, e: Entry, before: seq<Directive>)
    requires GroupedBy(front, before)
    ensures GroupedBy(front + [e], AddEntry(before, e))
  {
    var p := Position(before, e.function_);
    hide GroupedBy;
    if p < |before| {
      JoinGroup(front, e, before, p);
    } else {
      OpenGroup(front, e, before);
    }
  }

  /** An accepted plan names no function twice, and no block of a function twice. */
  lemma AcceptedPlansRepeatNothing(entries: seq<Entry>)
    requires DistinctEntries(entries)
    ensures DistinctNames(FunctionNames(Group(entries)))
    ensures forall i :: 0 <= i < |Group(entries)| ==>
              DistinctNames(Group(entries)[i].blocks) && Group(entries)[i].blocks != []
  {
    GroupIsByFirstAppearance(entries);
    var directives := Group(entries);
    forall i | 0 <= i < |directives| ensures DistinctNames(directives[i].blocks) && directives[i].blocks != [] {
      BlocksAreDistinct(entries, directives[i].function_);
    }
  }

  lemma {:induction false} BlocksAreDistinct(entries: seq<Entry>, f: string)
    requires DistinctEntries(entries)
    ensures DistinctNames(BlocksOf(entries, f))
    ensures forall b :: b in BlocksOf(entries, f) ==> Entry(f, b) in entries
    ensures FirstEntry(entries, f) < |entries| ==> BlocksOf(entries, f) != []
  {
    if entries != [] {
      var n := |entries| - 1;
      BlocksAreDistinct(entries[..n], f);
      assert entries == entries[..n] + [entries[n]];
      assert entries[n] !in entries[..n];
    }
  }

  // ---------------------------------------------------------------- the round trip

  ghost predicate OneLine(line: string) {
    '\n' !in line && '\0' !in line
  }

  lemma {:induction false} LinesReadBack(lines: seq<string>)
    requires forall i :: 0 <= i < |lines| ==> '\n' !in lines[i]
    ensures Lines(Terminated(lines)) == lines
    ensures (forall i :: 0 <= i < |lines| ==> '\0' !in lines[i]) ==> '\0' !in Terminated(lines)
  {
    if lines != [] {
      LinesReadBack(lines[1..]);
      assert lines == [lines[0]] + lines[1..];
      TerminatedMore([lines[0]], lines[1..]);
      assert [lines[0]][..0] == [];
      var line, rest := lines[0], Terminated(lines[1..]);
      var text := Terminated(lines);
      assert text == line + "\n" + rest;
      FirstAt(text, '\n', |line|);
      assert text[..|line|] == line && text[|line| + 1..] == rest;
    }
  }

  lemma LinesOfTerminated(lines: seq<string>)
    requires forall i :: 0 <= i < |lines| ==> OneLine(lines[i])
    ensures Lines(Terminated(lines)) == lines && '\0' !in Terminated(lines)
  {
    LinesReadBack(lines);
  }

  lemma LineParsesBack(e: Entry)
    requires ValidName(e.function_) && ValidName(e.block)
    ensures OneLine(EntryLine(e)) && ParseEntry(EntryLine(e)) == Some(e)
  {
    var line := EntryLine(e);
    var separator := 2 + |e.function_|;
    forall i | 2 <= i < separator ensures line[i] != '\t' {
      assert line[i] == e.function_[i - 2];
    }
    TabAt(line, 2, separator);
    assert line[2..separator] == e.function_ && line[separator + 1..] == e.block;
  }

  lemma TabAt(line: string, from: nat, n: nat)
    requires from <= n < |line| && line[n] == '\t' && forall i :: from <= i < n ==> line[i] != '\t'
    ensures IndexOf(line, '\t', from) == n
  {
  }

  ghost predicate ValidEntries(entries: seq<Entry>) {
    forall k :: 0 <= k < |entries| ==> ValidName(entries[k].function_) && ValidName(entries[k].block)
  }

  lemma {:induction false} EntriesParseBack(entries: seq<Entry>)
    requires ValidEntries(entries)
    ensures EntriesOf(EntryLines(entries)) == entries
    ensures forall i :: 0 <= i < |entries| ==> OneLine(EntryLines(entries)[i]) && GoodLine(EntryLines(entries)[i])
  {
    if entries != [] {
      var n := |entries| - 1;
      EntriesParseBack(entries[..n]);
      LineParsesBack(entries[n]);
      assert EntryLines(entries)[..n] == EntryLines(entries[..n]);
      assert forall i :: 0 <= i < n ==> EntryLines(entries)[i] == EntryLines(entries[..n])[i];
    }
  }

  /** The plan without directives that name no block: these have no line in the text. */
  function WithBlocks(plan: seq<Directive>): seq<Directive> {
    if plan == [] then []
    else
      var n := |plan| - 1;
      WithBlocks(plan[..n]) + (if plan[n].blocks == [] then [] else [plan[n]])
  }

  lemma {:induction false} WithBlocksSelects(plan: seq<Directive>)
    ensures |WithBlocks(plan)| <= |plan|
    ensures forall d :: d in WithBlocks(plan) ==> d in plan && d.blocks != []
  {
    if plan != [] {
      var n := |plan| - 1;
      WithBlocksSelects(plan[..n]);
      assert forall d :: d in plan[..n] ==> d in plan;
    }
  }

  lemma {:induction false} NothingDropped(plan: seq<Directive>)
    requires forall i :: 0 <= i < |plan| ==> plan[i].blocks != []
    ensures WithBlocks(plan) == plan
  {
    if plan != [] {
      NothingDropped(plan[..|plan| - 1]);
    }
  }

  lemma WithBlocksIsSame(plan: seq<Directive>)
    ensures WithBlocks(plan) == plan <==> forall i :: 0 <= i < |plan| ==> plan[i].blocks != []
  {
    hide WithBlocks;
    if WithBlocks(plan) == plan {
      WithBlocksSelects(plan);
      assert forall i :: 0 <= i < |plan| ==> plan[i] in plan;
    }
    if forall i :: 0 <= i < |plan| ==> plan[i].blocks != [] {
      NothingDropped(plan);
    }
  }

  /** No selected directive before the n-th has its name. */
  lemma OtherNames(plan: seq<Directive>, n: nat)
    requires n < |plan| && DistinctNames(FunctionNames(plan))
    ensures DistinctNames(FunctionNames(plan[..n]))
    ensures forall i :: 0 <= i < |WithBlocks(plan[..n])| ==> WithBlocks(plan[..n])[i].function_ != plan[n].function_
  {
    var base := WithBlocks(plan[..n]);
    WithBlocksSelects(plan[..n]);
    hide WithBlocks;
    assert forall i :: 0 <= i <= n ==> FunctionNames(plan)[i] == plan[i].function_;
    forall i | 0 <= i < |base| ensures base[i].function_ != plan[n].function_ {
      assert base[i] in plan[..n];
      var j :| 0 <= j < n && plan[j] == base[i];
    }
  }

  /** Grouping the records of a plan gives the plan back, less the directives without blocks. */
  lemma {:induction false} GroupOfEntries(plan: seq<Directive>)
    requires DistinctNames(FunctionNames(plan))
    ensures Group(Entries(plan)) == WithBlocks(plan)
  {
    if plan != [] {
      var n := |plan| - 1;
      GroupOfEntries(plan[..n]);
      var d, base := plan[n], WithBlocks(plan[..n]);
      OtherNames(plan, n);
      GroupOfDirective(Entries(plan[..n]), d, |d.blocks|);
      assert DirectiveEntries(d)[..|d.blocks|] == DirectiveEntries(d) && d.blocks[..|d.blocks|] == d.blocks;
    }
  }

  /** The directives so far, and the first k blocks of one more. */
  function Partial(base: seq<Directive>, d: Directive, k: nat): seq<Directive>
    requires k <= |d.blocks|
  {
    if k == 0 then base else base + [Directive(d.function_, d.blocks[..k])]
  }

  lemma {:induction false} GroupOfDirective(entries: seq<Entry>, d: Directive, k: nat)
    requires k <= |d.blocks|
    requires forall i :: 0 <= i < |Group(entries)| ==> Group(entries)[i].function_ != d.function_
    ensures Group(entries + DirectiveEntries(d)[..k]) == Partial(Group(entries), d, k)
  {
    hide *;
    var more, base := DirectiveEntries(d), Group(entries);
    if k == 0 {
      NoPart(entries, d);
    } else {
      GroupOfDirective(entries, d, k - 1);
      GroupMore(entries, more, k - 1);
      AddToLast(base, d, k);
      assert Group(entries + more[..k]) == Partial(base, d, k);
    }
  }

  lemma NoPart(entries: seq<Entry>, d: Directive)
    ensures Group(entries + DirectiveEntries(d)[..0]) == Partial(Group(entries), d, 0)
  {
    assert entries + DirectiveEntries(d)[..0] == entries;
  }

  lemma GroupMore(entries: seq<Entry>, more: seq<Entry>, k: nat)
    requires k < |more|
    ensures Group(entries + more[..k + 1]) == AddEntry(Group(entries + more[..k]), more[k])
  {
    var text := entries + more[..k + 1];
    assert text[..|text| - 1] == entries + more[..k];
  }

  /** The k-th record of a directive, after the earlier ones. */
  lemma AddToLast(base: seq<Directive>, d: Directive, k: nat)
    requires 0 < k <= |d.blocks| && forall i :: 0 <= i < |base| ==> base[i].function_ != d.function_
    ensures AddEntry(Partial(base, d, k - 1), Entry(d.function_, d.blocks[k - 1])) == Partial(base, d, k)
  {
    assert d.blocks[..k] == d.blocks[..k - 1] + [d.blocks[k - 1]];
    var before := Partial(base, d, k - 1);
    if k == 1 {
      assert d.blocks[..1] == [d.blocks[0]];
      assert Position(base, d.function_) == |base|;
    } else {
      assert before[|base|].function_ == d.function_;
      PositionOf(before, d.function_, |base|);
      assert Position(before, d.function_) == |base|;
    }
  }

  lemma {:induction false} EntriesAreValid(plan: seq<Directive>)
    requires forall i :: 0 <= i < |plan| ==> EncodableDirective(plan[i])
    ensures ValidEntries(Entries(plan))
  {
    if plan != [] {
      EntriesAreValid(plan[..|plan| - 1]);
    }
  }

  lemma {:induction false} EntriesAreDistinct(plan: seq<Directive>)
    requires Encodable(plan)
    ensures DistinctEntries(Entries(plan))
    ensures forall e :: e in Entries(plan) ==> e.function_ in FunctionNames(plan)
  {
    if plan != [] {
      var n := |plan| - 1;
      assert FunctionNames(plan) == FunctionNames(plan[..n]) + [plan[n].function_];
      EntriesAreDistinct(plan[..n]);
      assert plan[n].function_ !in FunctionNames(plan[..n]);
      assert EncodableDirective(plan[n]);
    }
  }

  /** Parsing inverts rendering on every plan the renderer accepts. */
  lemma RoundTrip(plan: seq<Directive>)
    requires Encodable(plan)
    ensures Acceptable(Render(plan))
    ensures Group(EntriesOf(Lines(Render(plan))[1..])) == WithBlocks(plan)
  {
    var entries := Entries(plan);
    EntriesAreValid(plan);
    EntriesAreDistinct(plan);
    EntriesParseBack(entries);
    var lines := [SCHEMA] + EntryLines(entries);
    assert OneLine(SCHEMA);
    LinesOfTerminated(lines);
    assert lines[1..] == EntryLines(entries);
    GroupOfEntries(plan);
  }

  /**
   The two programs in sequence: what one renders the other accepts, and the plan comes back whole unless a directive
   names no block.
   */
  method EncodeThenParse(plan: seq<Directive>) returns (r: Result<seq<Directive>, LayoutError>)
    ensures r.Ok? <==> Encodable(plan)
    ensures r.Ok? ==> r.value == WithBlocks(plan)
    ensures r.Ok? ==> (r.value == plan <==> forall i :: 0 <= i < |plan| ==> plan[i].blocks != [])
  {
    var text := Encode(plan);
    if text.Err? {
      return Err(text.error);
    }
    RoundTrip(plan);
    WithBlocksIsSame(plan);
    r := ParseLateLayoutPlan(text.value);
  }
}
