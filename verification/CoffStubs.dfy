/**
 The COFF x64 pass that routes direct calls of process symbols through local stubs
 (native/bridge/ckc_llvm.cpp, `add_coff_x64_process_stubs`).
 */
module CoffStubs {
  import opened Basics

  /** A symbol: an external one has only a name; a local one sits at the start of a block. */
  datatype Symbol = External(name: Option<string>) | Local(name: Option<string>, block: nat)

  datatype Edge = Edge(kind: string, offset: nat, target: nat)

  datatype Block = Block(section: string, content: seq<bv8>, edges: seq<Edge>)

  const CALL_KIND := "PCRel32"
  const CALL_OPCODE: bv8 := 0xe8
  const GOT := "$__CKC_PROCESS_GOT"
  const STUBS := "$__CKC_PROCESS_STUBS"
  const POINTER64 := "Pointer64"
  const JUMP := "BranchPCRel32"

  /** Where an edge is: its block and its place in the block's list. */
  datatype Site = Site(block: nat, edge: nat)

  predicate IsProcessSymbol(s: Symbol) {
    s.External? && s.name.Some? && s.name.value in ["GetStdHandle", "WriteFile", "ExitProcess"]
  }

  /** The process symbols are three, none of them local. */
  lemma ProcessSymbols(s: Symbol)
    ensures IsProcessSymbol(s) <==>
              || s == External(Some("GetStdHandle"))
              || s == External(Some("WriteFile"))
              || s == External(Some("ExitProcess"))
  {
  }

  /** All edges point to symbols, all local symbols to blocks. */
  ghost predicate Closed(symbols: seq<Symbol>, blocks: seq<Block>) {
    && (forall b, e :: 0 <= b < |blocks| && 0 <= e < |blocks[b].edges| ==> blocks[b].edges[e].target < |symbols|)
    && (forall s :: 0 <= s < |symbols| && symbols[s].Local? ==> symbols[s].block < |blocks|)
  }

  predicate IsSite(blocks: seq<Block>, site: Site) {
    site.block < |blocks| && site.edge < |blocks[site.block].edges|
  }

  function EdgeAt(blocks: seq<Block>, site: Site): Edge
    requires IsSite(blocks, site)
  {
    blocks[site.block].edges[site.edge]
  }

  /** The edge names a process symbol. */
  predicate IsProcessCall(symbols: seq<Symbol>, blocks: seq<Block>, site: Site)
    requires IsSite(blocks, site)
  {
    var target := EdgeAt(blocks, site).target;
    target < |symbols| && IsProcessSymbol(symbols[target])
  }

  /** The edge is the operand of a direct call instruction. */
  predicate IsDirectCall(blocks: seq<Block>, site: Site)
    requires IsSite(blocks, site)
  {
    var edge, content := EdgeAt(blocks, site), blocks[site.block].content;
    edge.kind == "PCRel32" && 0 < edge.offset <= |content| && content[edge.offset - 1] == 0xe8
  }

  /** `stub` is an indirect jump (FF 25 and a displacement) through a pointer that holds the address of `target`. */
  ghost predicate Reaches(symbols: seq<Symbol>, blocks: seq<Block>, stub: nat, target: nat) {
    && stub < |symbols| && symbols[stub].Local? && symbols[stub].block < |blocks|
    && var code := blocks[symbols[stub].block];
       && code.section == "$__CKC_PROCESS_STUBS" && code.content == [0xff, 0x25, 0, 0, 0, 0] && |code.edges| == 1
       && var pointer := code.edges[0].target;
          && code.edges[0] == Edge("BranchPCRel32", 2, pointer)
          && pointer < |symbols| && symbols[pointer].Local? && symbols[pointer].block < |blocks|
          && blocks[symbols[pointer].block] ==
               Block("$__CKC_PROCESS_GOT", [0, 0, 0, 0, 0, 0, 0, 0], [Edge("Pointer64", 0, target)])
  }

  /** A stub reaches one symbol only. */
  lemma ReachesOne(symbols: seq<Symbol>, blocks: seq<Block>, stub: nat, a: nat, b: nat)
    requires Reaches(symbols, blocks, stub, a) && Reaches(symbols, blocks, stub, b)
    ensures a == b
  {
    var slot := blocks[symbols[blocks[symbols[stub].block].edges[0].target].block];
    assert slot.edges[0] == Edge(POINTER64, 0, a) && slot.edges[0] == Edge(POINTER64, 0, b);
  }

  function Retarget(blocks: seq<Block>, site: Site, target: nat): seq<Block>
    requires IsSite(blocks, site)
  {
    var block := blocks[site.block];
    blocks[site.block := block.(edges := block.edges[site.edge := block.edges[site.edge].(target := target)])]
  }

  /** The original blocks are still there, with their contents and as many edges. */
  ghost predicate SameShape(was: seq<Block>, now: seq<Block>) {
    && |was| <= |now|
    && forall b :: 0 <= b < |was| ==>
         now[b].section == was[b].section && now[b].content == was[b].content && |now[b].edges| == |was[b].edges|
  }

  /** Only the target of the edge at `site` may differ, and it is `target`. */
  ghost predicate EdgeMoved(was: seq<Block>, now: seq<Block>, site: Site, target: nat) {
    IsSite(was, site) && IsSite(now, site) && EdgeAt(now, site) == EdgeAt(was, site).(target := target)
  }

  /** The target the edge at `site` has after the calls in `calls` were sent to their stubs. */
  ghost predicate Redirected(was: seq<Block>, now: seq<Block>, calls: set<Site>, stubs: map<nat, nat>, site: Site)
    requires IsSite(was, site)
  {
    var target := EdgeAt(was, site).target;
    if site in calls then target in stubs && EdgeMoved(was, now, site, stubs[target])
    else EdgeMoved(was, now, site, target)
  }

  ghost predicate Rewritten(was: seq<Block>, now: seq<Block>, calls: set<Site>, stubs: map<nat, nat>) {
    && SameShape(was, now)
    && forall site :: IsSite(was, site) ==> Redirected(was, now, calls, stubs, site)
  }

  /** The stub reaches `target` through blocks that are not among the first `n`. */
  ghost predicate ReachesBeyond(symbols: seq<Symbol>, blocks: seq<Block>, n: nat, stub: nat, target: nat) {
    && Reaches(symbols, blocks, stub, target)
    && n <= symbols[stub].block && n <= symbols[blocks[symbols[stub].block].edges[0].target].block
  }

  ghost predicate StubsReach(symbols: seq<Symbol>, blocks: seq<Block>, n: nat, stubs: map<nat, nat>) {
    forall t :: t in stubs ==> ReachesBeyond(symbols, blocks, n, stubs[t], t)
  }

  /** A pointer to `target`, its symbol, a stub jumping through it, and the symbol of the stub. */
  function PointerBlock(target: nat): Block { Block(GOT, [0, 0, 0, 0, 0, 0, 0, 0], [Edge(POINTER64, 0, target)]) }

  function StubBlock(pointer: nat): Block { Block(STUBS, [0xff, 0x25, 0, 0, 0, 0], [Edge(JUMP, 2, pointer)]) }

  /** A stub for a symbol that has none. */
  lemma StubAdded(
    symbols: seq<Symbol>, blocks: seq<Block>, was: seq<Block>, calls: set<Site>, stubs: map<nat, nat>, target: nat,
    symbols2: seq<Symbol>, blocks2: seq<Block>, stubs2: map<nat, nat>
  )
    requires Rewritten(was, blocks, calls, stubs) && StubsReach(symbols, blocks, |was|, stubs) && target !in stubs
    requires symbols2 == symbols + [Local(None, |blocks|), Local(None, |blocks| + 1)]
    requires blocks2 == blocks + [PointerBlock(target), StubBlock(|symbols|)]
    requires stubs2 == stubs[target := |symbols| + 1]
    ensures Rewritten(was, blocks2, calls, stubs2) && StubsReach(symbols2, blocks2, |was|, stubs2)
  {
    forall site | IsSite(was, site) ensures Redirected(was, blocks2, calls, stubs2, site) {
      assert Redirected(was, blocks, calls, stubs, site);
    }
    forall t | t in stubs2 ensures ReachesBeyond(symbols2, blocks2, |was|, stubs2[t], t) {
      if t != target {
        assert ReachesBeyond(symbols, blocks, |was|, stubs[t], t);
      }
    }
  }

  /** One call is sent to its stub. */
  lemma CallRetargeted(
    symbols: seq<Symbol>, blocks: seq<Block>, was: seq<Block>, calls: set<Site>, stubs: map<nat, nat>, call: Site,
    blocks2: seq<Block>
  )
    requires Rewritten(was, blocks, calls, stubs) && StubsReach(symbols, blocks, |was|, stubs)
    requires IsSite(was, call) && IsSite(blocks, call) && call !in calls && EdgeAt(was, call).target in stubs
    requires blocks2 == Retarget(blocks, call, stubs[EdgeAt(was, call).target])
    ensures Rewritten(was, blocks2, calls + {call}, stubs) && StubsReach(symbols, blocks2, |was|, stubs)
  {
    forall site | IsSite(was, site) ensures Redirected(was, blocks2, calls + {call}, stubs, site) {
      assert Redirected(was, blocks, calls, stubs, site);
    }
    forall t | t in stubs ensures ReachesBeyond(symbols, blocks2, |was|, stubs[t], t) {
      assert ReachesBeyond(symbols, blocks, |was|, stubs[t], t);
    }
  }

  /** `sites` are the process calls before place `(block, edge)`, in order, and all are direct calls. */
  ghost predicate CallsBefore(symbols: seq<Symbol>, blocks: seq<Block>, block: nat, edge: nat, sites: seq<Site>) {
    && (forall i, j :: 0 <= i < j < |sites| ==> Before(sites[i], sites[j]))
    && (forall site :: site in sites ==> IsSite(blocks, site) && Before(site, Site(block, edge)))
    && (forall site :: IsSite(blocks, site) && Before(site, Site(block, edge)) ==>
          (site in sites <==> IsProcessCall(symbols, blocks, site)))
    && (forall site :: site in sites ==> IsSite(blocks, site) && IsDirectCall(blocks, site))
  }

  predicate Before(a: Site, b: Site) {
    a.block < b.block || (a.block == b.block && a.edge < b.edge)
  }

  /** The collected calls are different places, and together all process calls. */
  lemma CallsAreDistinct(symbols: seq<Symbol>, blocks: seq<Block>, calls: seq<Site>)
    requires CallsBefore(symbols, blocks, |blocks|, 0, calls)
    ensures forall i, j :: 0 <= i < j < |calls| ==> calls[i] != calls[j]
    ensures forall site :: site in calls ==> IsSite(blocks, site)
    ensures forall site :: IsSite(blocks, site) ==> (site in calls <==> IsProcessCall(symbols, blocks, site))
  {
    forall i, j | 0 <= i < j < |calls| ensures calls[i] != calls[j] {
      assert Before(calls[i], calls[j]);
    }
    forall site | IsSite(blocks, site) ensures site in calls <==> IsProcessCall(symbols, blocks, site) {
      assert Before(site, Site(|blocks|, 0));
    }
  }

  /** A call not yet rewritten still has its original target. */
  lemma StillThere(was: seq<Block>, now: seq<Block>, calls: set<Site>, stubs: map<nat, nat>, call: Site)
    requires Rewritten(was, now, calls, stubs) && IsSite(was, call) && call !in calls
    ensures IsSite(now, call) && EdgeAt(now, call) == EdgeAt(was, call)
  {
    assert Redirected(was, now, calls, stubs, call);
  }

  /** Every use of a process symbol is a direct call. */
  ghost predicate OnlyDirectCalls(symbols: seq<Symbol>, blocks: seq<Block>) {
    forall site :: IsSite(blocks, site) && IsProcessCall(symbols, blocks, site) ==> IsDirectCall(blocks, site)
  }

  ghost predicate CallsProcess(symbols: seq<Symbol>, blocks: seq<Block>) {
    exists site :: IsSite(blocks, site) && IsProcessCall(symbols, blocks, site)
  }

  /**
   What an accepted run leaves of one edge: a process call reaches the same symbol through a stub, any other edge is
   as it was.
   */
  ghost predicate CallKept(
    symbols: seq<Symbol>, blocks: seq<Block>, symbols2: seq<Symbol>, blocks2: seq<Block>, site: Site
  )
    requires IsSite(blocks, site)
  {
    && IsSite(blocks2, site)
    && var before, after := EdgeAt(blocks, site), EdgeAt(blocks2, site);
       && after == before.(target := after.target)
       && (if IsProcessCall(symbols, blocks, site) then Reaches(symbols2, blocks2, after.target, before.target)
           else after == before)
  }

  /** Two process calls share a stub exactly when they named the same symbol. */
  ghost predicate StubsShared(symbols: seq<Symbol>, blocks: seq<Block>, blocks2: seq<Block>) {
    forall a, b :: IsSite(blocks, a) && IsSite(blocks, b) && IsSite(blocks2, a) && IsSite(blocks2, b)
                   && IsProcessCall(symbols, blocks, a) && IsProcessCall(symbols, blocks, b) ==>
      (EdgeAt(blocks2, a).target == EdgeAt(blocks2, b).target <==> EdgeAt(blocks, a).target == EdgeAt(blocks, b).target)
  }

  ghost predicate CallsKept(symbols: seq<Symbol>, blocks: seq<Block>, symbols2: seq<Symbol>, blocks2: seq<Block>) {
    && |symbols| <= |symbols2| && symbols2[..|symbols|] == symbols
    && SameShape(blocks, blocks2)
    && (forall site :: IsSite(blocks, site) ==> CallKept(symbols, blocks, symbols2, blocks2, site))
    && StubsShared(symbols, blocks, blocks2)
  }

  /** A complete rewriting keeps what every call reaches. */
  lemma RewritingKeepsCalls(
    symbols: seq<Symbol>, blocks: seq<Block>, symbols2: seq<Symbol>, blocks2: seq<Block>,
    calls: set<Site>, stubs: map<nat, nat>
  )
    requires Rewritten(blocks, blocks2, calls, stubs) && StubsReach(symbols2, blocks2, |blocks|, stubs)
    requires |symbols| <= |symbols2| && symbols2[..|symbols|] == symbols
    requires forall site :: IsSite(blocks, site) ==> (site in calls <==> IsProcessCall(symbols, blocks, site))
    ensures CallsKept(symbols, blocks, symbols2, blocks2)
  {
    forall site | IsSite(blocks, site) ensures CallKept(symbols, blocks, symbols2, blocks2, site) {
      assert Redirected(blocks, blocks2, calls, stubs, site);
      if site in calls {
        var target := EdgeAt(blocks, site).target;
        assert ReachesBeyond(symbols2, blocks2, |blocks|, stubs[target], target);
      }
    }
    forall a, b | IsSite(blocks, a) && IsSite(blocks, b) && IsSite(blocks2, a) && IsSite(blocks2, b)
                  && IsProcessCall(symbols, blocks, a) && IsProcessCall(symbols, blocks, b)
      ensures EdgeAt(blocks2, a).target == EdgeAt(blocks2, b).target <==>
              EdgeAt(blocks, a).target == EdgeAt(blocks, b).target
    {
      var s, t := EdgeAt(blocks, a).target, EdgeAt(blocks, b).target;
      assert Redirected(blocks, blocks2, calls, stubs, a) && Redirected(blocks, blocks2, calls, stubs, b);
      if stubs[s] == stubs[t] {
        assert ReachesBeyond(symbols2, blocks2, |blocks|, stubs[s], s);
        assert ReachesBeyond(symbols2, blocks2, |blocks|, stubs[t], t);
        ReachesOne(symbols2, blocks2, stubs[s], s, t);
      }
    }
  }

  class LinkGraph {
    var symbols: seq<Symbol>
    var blocks: seq<Block>
    var sections: set<string>

    constructor (symbols: seq<Symbol>, blocks: seq<Block>, sections: set<string>)
      ensures this.symbols == symbols && this.blocks == blocks && this.sections == sections
    {
      this.symbols, this.blocks, this.sections := symbols, blocks, sections;
    }

    /** The uses of process symbols in graph order, unless one of them is not a direct call. */
    method ProcessCalls() returns (r: Result<seq<Site>, string>)
      requires Closed(symbols, blocks)
      ensures r.Ok? <==> OnlyDirectCalls(symbols, blocks)
      ensures r.Ok? ==> CallsBefore(symbols, blocks, |blocks|, 0, r.value)
    {
      var sites := [];
      var b := 0;
      while b < |blocks|
        invariant 0 <= b <= |blocks| && CallsBefore(symbols, blocks, b, 0, sites)
      {
        var e := 0;
        while e < |blocks[b].edges|
          invariant 0 <= e <= |blocks[b].edges| && CallsBefore(symbols, blocks, b, e, sites)
        {
          var site := Site(b, e);
          var edge, content := blocks[b].edges[e], blocks[b].content;
          if IsProcessSymbol(symbols[edge.target]) {
            if edge.kind != CALL_KIND {
              assert IsProcessCall(symbols, blocks, site) && !IsDirectCall(blocks, site);
              return Err("COFF x64 process symbol has a non-PCRel32 relocation");
            }
            if edge.offset == 0 || |content| < edge.offset || content[edge.offset - 1] != CALL_OPCODE {
              assert IsProcessCall(symbols, blocks, site) && !IsDirectCall(blocks, site);
              return Err("COFF x64 process symbol PCRel32 is not a direct call opcode");
            }
            sites := sites + [site];
          }
          e := e + 1;
        }
        b := b + 1;
      }
      return Ok(sites);
    }

    /** A graph is refused, untouched, exactly for a use that is no direct call or a reserved section beside calls. */
    method AddProcessStubs() returns (r: Result<(), string>)
      requires Closed(symbols, blocks)
      modifies this
      ensures r.Ok? <==> (
          && old(OnlyDirectCalls(symbols, blocks))
          && (old(CallsProcess(symbols, blocks)) ==>
                "$__CKC_PROCESS_GOT" !in old(sections) && "$__CKC_PROCESS_STUBS" !in old(sections)))
      ensures r.Err? || !old(CallsProcess(symbols, blocks)) ==>
          symbols == old(symbols) && blocks == old(blocks) && sections == old(sections)
      ensures r.Ok? ==> CallsKept(old(symbols), old(blocks), symbols, blocks)
      ensures r.Ok? && old(CallsProcess(symbols, blocks)) ==>
          sections == old(sections) + {"$__CKC_PROCESS_GOT", "$__CKC_PROCESS_STUBS"}
    {
      var collected := ProcessCalls();
      if collected.Err? {
        return Err(collected.error);
      }
      var calls := collected.value;
      if calls == [] {
        return Ok(());
      }
      assert CallsProcess(symbols, blocks) by {
        assert calls[0] in calls && Before(calls[0], Site(|blocks|, 0));
        assert IsProcessCall(symbols, blocks, calls[0]);
      }
      if GOT in sections || STUBS in sections {
        return Err("COFF x64 object defines a reserved process-stub section");
      }
      sections := sections + {GOT} + {STUBS};
      RouteCalls(calls);
      return Ok(());
    }

    /** Sends the calls to stubs, one stub for each symbol called. */
    method RouteCalls(calls: seq<Site>)
      requires Closed(symbols, blocks) && CallsBefore(symbols, blocks, |blocks|, 0, calls)
      modifies this`symbols, this`blocks
      ensures CallsKept(old(symbols), old(blocks), symbols, blocks)
    {
      ghost var symbols0, blocks0 := symbols, blocks;
      var stubs: map<nat, nat> := map[];
      var i := 0;
      ghost var done: set<Site> := {};
      CallsAreDistinct(symbols, blocks, calls);
      assert Rewritten(blocks, blocks, {}, map[]);
      assert StubsReach(symbols, blocks, |blocks|, map[]);
      hide *;
      while i < |calls|
        invariant 0 <= i <= |calls| && done == set k | 0 <= k < i :: calls[k]
        invariant |symbols0| <= |symbols| && symbols[..|symbols0|] == symbols0
        invariant Rewritten(blocks0, blocks, done, stubs) && StubsReach(symbols, blocks, |blocks0|, stubs)
      {
        var call := calls[i];
        assert call in calls && call !in done && IsSite(blocks0, call);
        StillThere(blocks0, blocks, done, stubs, call);
        var target := EdgeAt(blocks, call).target;
        if target !in stubs {
          var stub := |symbols| + 1;
          var symbols2 := symbols + [Local(None, |blocks|), Local(None, |blocks| + 1)];
          var blocks2 := blocks + [PointerBlock(target), StubBlock(|symbols|)];
          StubAdded(symbols, blocks, blocks0, done, stubs, target, symbols2, blocks2, stubs[target := stub]);
          symbols, blocks, stubs := symbols2, blocks2, stubs[target := stub];
          StillThere(blocks0, blocks, done, stubs, call);
        }
        CallRetargeted(symbols, blocks, blocks0, done, stubs, call, Retarget(blocks, call, stubs[target]));
        blocks := Retarget(blocks, call, stubs[target]);
        done := done + {call};
        i := i + 1;
      }
      RewritingKeepsCalls(symbols0, blocks0, symbols, blocks, done, stubs);
    }
  }
}
