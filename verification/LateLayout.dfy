/**
 Applying a late-layout plan to a module (native/bridge/ckc_llvm.cpp, `ckc_llvm_module_apply_late_layout`):
 blocks are spliced behind the entry, and nothing else changes.
 */
module LateLayout {
  import opened Basics
  import opened Sequences
  import opened Sorting
  import LayoutPlan
  import LayoutParser
  import opened LayoutSnapshot

  // ---------------------------------------------------------------- block lists

  ghost predicate DistinctBlocks(blocks: seq<Block>) {
    forall i, j :: 0 <= i < j < |blocks| ==> blocks[i] != blocks[j]
  }

  /** The blocks that are not among `taken`, in order. */
  function Rest(blocks: seq<Block>, taken: seq<Block>): seq<Block> {
    if blocks == [] then []
    else
      var n := |blocks| - 1;
      Rest(blocks[..n], taken) + (if blocks[n] in taken then [] else [blocks[n]])
  }

  lemma {:induction false} RestMembers(blocks: seq<Block>, taken: seq<Block>)
    ensures forall b :: b in Rest(blocks, taken) <==> b in blocks && b !in taken
  {
    if blocks != [] {
      RestMembers(blocks[..|blocks| - 1], taken);
    }
  }

  /** Unlinking a block: each block is in its list once. */
  function Unlink(blocks: seq<Block>, b: Block): seq<Block> {
    if blocks == [] then []
    else
      var n := |blocks| - 1;
      Unlink(blocks[..n], b) + (if blocks[n] == b then [] else [blocks[n]])
  }

  /** Linking a block in right behind the anchor. */
  function LinkAfter(blocks: seq<Block>, b: Block, anchor: Block): seq<Block> {
    if blocks == [] then []
    else if blocks[0] == anchor then [anchor, b] + blocks[1..]
    else [blocks[0]] + LinkAfter(blocks[1..], b, anchor)
  }

  /** One splice of the list. */
  function MoveAfter(blocks: seq<Block>, b: Block, anchor: Block): seq<Block>
    requires b in blocks && anchor in blocks && b != anchor
  {
    LinkAfter(Unlink(blocks, b), b, anchor)
  }

  lemma {:induction false} UnlinkConcat(a: seq<Block>, c: seq<Block>, b: Block)
    ensures Unlink(a + c, b) == Unlink(a, b) + Unlink(c, b)
  {
    if c == [] {
      assert a + c == a;
    } else {
      var n := |c| - 1;
      assert (a + c)[..|a + c| - 1] == a + c[..n];
      UnlinkConcat(a, c[..n], b);
    }
  }

  lemma {:induction false} UnlinkAbsent(blocks: seq<Block>, b: Block)
    requires b !in blocks
    ensures Unlink(blocks, b) == blocks
  {
    if blocks != [] {
      UnlinkAbsent(blocks[..|blocks| - 1], b);
    }
  }

  lemma {:induction false} LinkAfterHead(head: seq<Block>, rest: seq<Block>, b: Block, anchor: Block)
    requires anchor !in head
    ensures LinkAfter(head + [anchor] + rest, b, anchor) == head + [anchor] + [b] + rest
  {
    var all := head + [anchor] + rest;
    if head == [] {
      assert all[1..] == rest;
    } else {
      LinkAfterHead(head[1..], rest, b, anchor);
      assert all[1..] == head[1..] + [anchor] + rest;
    }
  }

  lemma {:induction false} RestMore(blocks: seq<Block>, taken: seq<Block>, b: Block)
    ensures Rest(blocks, taken + [b]) == Unlink(Rest(blocks, taken), b)
  {
    if blocks != [] {
      var n := |blocks| - 1;
      RestMore(blocks[..n], taken, b);
      UnlinkConcat(Rest(blocks[..n], taken), if blocks[n] in taken then [] else [blocks[n]], b);
    }
  }

  lemma {:induction false} RestOfNothing(blocks: seq<Block>)
    ensures Rest(blocks, []) == blocks
  {
    if blocks != [] {
      var n := |blocks| - 1;
      RestOfNothing(blocks[..n]);
      assert Rest(blocks, []) == Rest(blocks[..n], []) + [blocks[n]];
    }
  }

  /** The entry and the first k planned blocks: what the splices so far have put in front. */
  function Front(blocks: seq<Block>, plan: seq<Block>, k: nat): (r: seq<Block>)
    requires blocks != [] && k <= |plan|
    ensures |r| == k + 1 && r[0] == blocks[0] && forall i :: 0 <= i < k ==> r[i + 1] == plan[i]
  {
    [blocks[0]] + plan[..k]
  }

  /** The order after the first k splices. */
  function ReorderedTo(blocks: seq<Block>, plan: seq<Block>, k: nat): seq<Block>
    requires blocks != [] && k <= |plan|
  {
    Front(blocks, plan, k) + Rest(blocks[1..], plan[..k])
  }

  /** The order a plan asks for: the entry, the planned blocks, the others as they were. */
  function Reordered(blocks: seq<Block>, plan: seq<Block>): seq<Block>
    requires blocks != []
  {
    [blocks[0]] + plan + Rest(blocks[1..], plan)
  }

  /** The blocks of a plan: present, distinct, and not the entry. */
  ghost predicate Movable(blocks: seq<Block>, plan: seq<Block>) {
    && blocks != [] && DistinctBlocks(blocks) && DistinctBlocks(plan)
    && forall b :: b in plan ==> b in blocks[1..]
  }

  lemma SpliceBehindHead(head: seq<Block>, rest: seq<Block>, b: Block)
    requires head != [] && b !in head && b in rest && head[|head| - 1] !in head[..|head| - 1]
    ensures b in head + rest && head[|head| - 1] in head + rest
    ensures MoveAfter(head + rest, b, head[|head| - 1]) == head + [b] + Unlink(rest, b)
  {
    var k := |head| - 1;
    UnlinkConcat(head, rest, b);
    UnlinkAbsent(head, b);
    assert head == head[..k] + [head[k]];
    LinkAfterHead(head[..k], Unlink(rest, b), b, head[k]);
    assert (head + rest)[k] == head[k];
  }

  lemma FrontIsFresh(blocks: seq<Block>, plan: seq<Block>, k: nat)
    requires Movable(blocks, plan) && k < |plan|
    ensures var head := Front(blocks, plan, k);
            && plan[k] !in head && head[k] !in head[..k] && plan[k] in Rest(blocks[1..], plan[..k])
  {
    var head := Front(blocks, plan, k);
    RestMembers(blocks[1..], plan[..k]);
    assert plan[k] in plan;
    assert forall i :: 0 <= i < k ==> plan[i] in plan && plan[i] != plan[k];
    assert blocks[0] !in blocks[1..];
    assert forall i, j :: 0 <= i < j <= k ==> head[i] != head[j];
  }

  /** The k-th splice takes the order for k blocks to the order for k + 1. */
  lemma OneMove(blocks: seq<Block>, plan: seq<Block>, k: nat)
    requires Movable(blocks, plan) && k < |plan|
    ensures var before := ReorderedTo(blocks, plan, k);
            var anchor := Front(blocks, plan, k)[k];
            && plan[k] in before && anchor in before && anchor != plan[k]
            && MoveAfter(before, plan[k], anchor) == ReorderedTo(blocks, plan, k + 1)
  {
    var head, rest, next := Front(blocks, plan, k), Rest(blocks[1..], plan[..k]), Rest(blocks[1..], plan[..k + 1]);
    FrontIsFresh(blocks, plan, k);
    assert next == Unlink(rest, plan[k]) by {
      RestMore(blocks[1..], plan[..k], plan[k]);
      assert plan[..k + 1] == plan[..k] + [plan[k]];
    }
    assert Front(blocks, plan, k + 1) == head + [plan[k]];
    assert ReorderedTo(blocks, plan, k) == head + rest && ReorderedTo(blocks, plan, k + 1) == head + [plan[k]] + next;
    hide *;
    SpliceBehindHead(head, rest, plan[k]);
  }

  lemma NothingMoved(blocks: seq<Block>, plan: seq<Block>)
    requires blocks != []
    ensures ReorderedTo(blocks, plan, 0) == blocks
  {
    assert plan[..0] == [];
    RestOfNothing(blocks[1..]);
  }

  /** The splice loop of one function. */
  method SpliceFunction(blocks: seq<Block>, plan: seq<Block>) returns (r: seq<Block>)
    requires Movable(blocks, plan)
    ensures r == Reordered(blocks, plan)
  {
    r := blocks;
    var anchor := blocks[0];
    NothingMoved(blocks, plan);
    for k := 0 to |plan|
      invariant r == ReorderedTo(blocks, plan, k)
      invariant anchor == Front(blocks, plan, k)[k]
    {
      OneMove(blocks, plan, k);
      r := MoveAfter(r, plan[k], anchor);
      anchor := plan[k];
    }
    assert plan[..|plan|] == plan;
  }

  /** The new order has the same entry and the same blocks. */
  lemma ReorderedIsPermutation(blocks: seq<Block>, plan: seq<Block>)
    requires Movable(blocks, plan)
    ensures multiset(Reordered(blocks, plan)) == multiset(blocks)
    ensures Reordered(blocks, plan)[0] == blocks[0] && DistinctBlocks(Reordered(blocks, plan))
  {
    var others := blocks[1..];
    var moved := plan + Rest(others, plan);
    assert blocks == [blocks[0]] + others && Reordered(blocks, plan) == [blocks[0]] + moved;
    RestIsDistinct(others, plan);
    RestMembers(others, plan);
    assert DistinctBlocks(moved) by {
      forall i, j | 0 <= i < j < |moved| ensures moved[i] != moved[j] {
        assert j >= |plan| ==> moved[j] in Rest(others, plan);
        assert i < |plan| ==> moved[i] in plan;
      }
    }
    SameElements(others, moved);
    assert forall b :: b in moved ==> b in others;
    assert blocks[0] !in others;
  }

  lemma {:induction false} RestIsDistinct(blocks: seq<Block>, taken: seq<Block>)
    requires DistinctBlocks(blocks)
    ensures DistinctBlocks(Rest(blocks, taken))
  {
    if blocks != [] {
      var n := |blocks| - 1;
      RestIsDistinct(blocks[..n], taken);
      RestMembers(blocks[..n], taken);
      assert blocks[n] !in blocks[..n];
    }
  }

  /** Two lists without repetition and with the same members are permutations of each other. */
  lemma SameElements(a: seq<Block>, b: seq<Block>)
    requires DistinctBlocks(a) && DistinctBlocks(b) && forall x :: x in a <==> x in b
    ensures multiset(a) == multiset(b)
  {
    forall x ensures multiset(a)[x] == multiset(b)[x] {
      CountDistinct(a, x);
      CountDistinct(b, x);
    }
  }

  lemma {:induction false} CountDistinct(a: seq<Block>, x: Block)
    requires DistinctBlocks(a)
    ensures multiset(a)[x] == if x in a then 1 else 0
  {
    if a != [] {
      var n := |a| - 1;
      assert a == a[..n] + [a[n]] && a[n] !in a[..n];
      CountDistinct(a[..n], x);
    }
  }

  // ---------------------------------------------------------------- applying a plan

  /** The first function of that name, or the number of functions. */
  function FindFunction(functions: seq<IrFunction>, name: string): (r: nat)
    ensures r <= |functions| && (r < |functions| ==> functions[r].name == name)
    ensures forall i :: 0 <= i < r ==> functions[i].name != name
  {
    if functions == [] then 0
    else if functions[0].name == name then 0 else 1 + FindFunction(functions[1..], name)
  }

  /** The first block of that name, or the number of blocks. */
  function FindBlock(blocks: seq<Block>, name: string): (r: nat)
    ensures r <= |blocks| && (r < |blocks| ==> blocks[r].name == name)
    ensures forall i :: 0 <= i < r ==> blocks[i].name != name
  {
    if blocks == [] then 0
    else if blocks[0].name == name then 0 else 1 + FindBlock(blocks[1..], name)
  }

  /** The name is that of a block other than the entry. */
  ghost predicate NamesMovable(blocks: seq<Block>, name: string) {
    0 < FindBlock(blocks, name) < |blocks|
  }

  ghost predicate AllNamesMovable(blocks: seq<Block>, names: seq<string>) {
    forall k :: 0 <= k < |names| ==> NamesMovable(blocks, names[k])
  }

  ghost predicate Resolvable(functions: seq<IrFunction>, d: LayoutPlan.Directive) {
    var p := FindFunction(functions, d.function_);
    && p < |functions| && !functions[p].declaration && functions[p].blocks != []
    && AllNamesMovable(functions[p].blocks, d.blocks)
  }

  ghost predicate AllResolvable(functions: seq<IrFunction>, directives: seq<LayoutPlan.Directive>) {
    forall d :: 0 <= d < |directives| ==> Resolvable(functions, directives[d])
  }

  ghost function Named(blocks: seq<Block>, names: seq<string>): (r: seq<Block>)
    requires AllNamesMovable(blocks, names)
    ensures |r| == |names| && forall k :: 0 <= k < |r| ==> r[k] == blocks[FindBlock(blocks, names[k])]
  {
    seq(|names|, k requires 0 <= k < |names| =>
      assert NamesMovable(blocks, names[k]); blocks[FindBlock(blocks, names[k])])
  }

  lemma NamedIsMovable(blocks: seq<Block>, names: seq<string>)
    requires blocks != [] && DistinctBlocks(blocks) && LayoutPlan.DistinctNames(names)
    requires AllNamesMovable(blocks, names)
    ensures Movable(blocks, Named(blocks, names))
  {
    var plan := Named(blocks, names);
    forall b | b in plan ensures b in blocks[1..] {
      var k :| 0 <= k < |plan| && plan[k] == b;
      assert blocks[1..][FindBlock(blocks, names[k]) - 1] == b;
    }
  }

  ghost predicate ResolvedTo(functions: seq<IrFunction>, d: LayoutPlan.Directive, blocks: seq<Block>) {
    && Resolvable(functions, d)
    && blocks == Named(functions[FindFunction(functions, d.function_)].blocks, d.blocks)
  }

  /** The function as its directive asks for it. */
  ghost function LaidFunction(f: IrFunction, d: LayoutPlan.Directive): IrFunction
    requires f.blocks != [] && AllNamesMovable(f.blocks, d.blocks)
  {
    f.(blocks := Reordered(f.blocks, Named(f.blocks, d.blocks)))
  }

  /** The functions of the first k directives are laid out, the others are as they were. */
  ghost predicate LaidOut(was: seq<IrFunction>, now: seq<IrFunction>, directives: seq<LayoutPlan.Directive>, k: nat)
  {
    && |now| == |was| && k <= |directives|
    && (forall d :: 0 <= d < k ==>
          && Resolvable(was, directives[d])
          && var p := FindFunction(was, directives[d].function_);
             now[p] == LaidFunction(was[p], directives[d]))
    && (forall i :: 0 <= i < |was| && Unnamed(was, directives, k, i) ==> now[i] == was[i])
  }

  /** None of the first k directives is about the i-th function. */
  ghost predicate Unnamed(was: seq<IrFunction>, directives: seq<LayoutPlan.Directive>, k: nat, i: nat)
    requires k <= |directives|
  {
    forall d :: 0 <= d < k ==> FindFunction(was, directives[d].function_) != i
  }

  ghost predicate WellFormed(functions: seq<IrFunction>) {
    forall i :: 0 <= i < |functions| ==> DistinctBlocks(functions[i].blocks)
  }

  ghost predicate WellFormedPlan(directives: seq<LayoutPlan.Directive>) {
    && LayoutPlan.DistinctNames(LayoutPlan.FunctionNames(directives))
    && forall d :: 0 <= d < |directives| ==> LayoutPlan.DistinctNames(directives[d].blocks)
  }

  lemma DirectiveIsMovable(functions: seq<IrFunction>, d: LayoutPlan.Directive)
    requires WellFormed(functions) && Resolvable(functions, d) && LayoutPlan.DistinctNames(d.blocks)
    ensures var f := functions[FindFunction(functions, d.function_)];
            && Movable(f.blocks, Named(f.blocks, d.blocks))
            && multiset(LaidFunction(f, d).blocks) == multiset(f.blocks)
            && LaidFunction(f, d).blocks[0] == f.blocks[0]
            && DistinctBlocks(LaidFunction(f, d).blocks)
  {
    var f := functions[FindFunction(functions, d.function_)];
    NamedIsMovable(f.blocks, d.blocks);
    ReorderedIsPermutation(f.blocks, Named(f.blocks, d.blocks));
  }

  lemma LaidOutNames(was: seq<IrFunction>, now: seq<IrFunction>, directives: seq<LayoutPlan.Directive>, k: nat)
    requires LaidOut(was, now, directives, k)
    ensures forall i :: 0 <= i < |was| ==> now[i].name == was[i].name
  {
    forall i | 0 <= i < |was| ensures now[i].name == was[i].name {
      if d :| 0 <= d < k && FindFunction(was, directives[d].function_) == i {
        assert now[i] == LaidFunction(was[i], directives[d]);
      }
    }
  }

  lemma OtherPlace(was: seq<IrFunction>, directives: seq<LayoutPlan.Directive>, d: nat, k: nat)
    requires WellFormedPlan(directives) && d < k < |directives|
    requires Resolvable(was, directives[d]) && Resolvable(was, directives[k])
    ensures FindFunction(was, directives[d].function_) != FindFunction(was, directives[k].function_)
  {
    assert LayoutPlan.FunctionNames(directives)[d] != LayoutPlan.FunctionNames(directives)[k];
  }

  /** The next directive's function has not been touched yet. */
  lemma LaidOutStep(was: seq<IrFunction>, now: seq<IrFunction>, directives: seq<LayoutPlan.Directive>, k: nat)
    requires WellFormedPlan(directives) && LaidOut(was, now, directives, k)
    requires k < |directives| && Resolvable(was, directives[k])
    ensures var p := FindFunction(was, directives[k].function_);
            && FindFunction(now, directives[k].function_) == p && now[p] == was[p]
            && LaidOut(was, now[p := LaidFunction(was[p], directives[k])], directives, k + 1)
  {
    var p := FindFunction(was, directives[k].function_);
    LaidOutNames(was, now, directives, k);
    SameNamesSameIndex(was, now, directives[k].function_);
    forall d | 0 <= d < k ensures FindFunction(was, directives[d].function_) != p {
      assert Resolvable(was, directives[d]);
      OtherPlace(was, directives, d, k);
    }
    assert Unnamed(was, directives, k, p);
    hide FindFunction, LaidFunction, Resolvable, WellFormedPlan;
    LaidOutMore(was, now, now[p := LaidFunction(was[p], directives[k])], directives, k);
  }

  lemma LaidOutMore(was: seq<IrFunction>, before: seq<IrFunction>, now: seq<IrFunction>,
                    directives: seq<LayoutPlan.Directive>, k: nat)
    requires LaidOut(was, before, directives, k) && k < |directives| && Resolvable(was, directives[k])
    requires var p := FindFunction(was, directives[k].function_);
             && now == before[p := LaidFunction(was[p], directives[k])]
             && forall d :: 0 <= d < k ==> FindFunction(was, directives[d].function_) != p
    ensures LaidOut(was, now, directives, k + 1)
  {
    hide LaidFunction, Named;
    var p := FindFunction(was, directives[k].function_);
    forall i | 0 <= i < |was| && Unnamed(was, directives, k + 1, i) ensures now[i] == was[i] {
      assert FindFunction(was, directives[k].function_) != i && Unnamed(was, directives, k, i);
    }
  }

  /** A laid-out module has the same functions, each with the same entry and the same blocks. */
  lemma LaidOutKeepsBlocks(was: seq<IrFunction>, now: seq<IrFunction>, directives: seq<LayoutPlan.Directive>)
    requires WellFormed(was) && WellFormedPlan(directives)
    requires LaidOut(was, now, directives, |directives|)
    ensures SameUpToOrder(was, now) && WellFormed(now)
    ensures forall i :: 0 <= i < |was| && was[i].blocks != [] ==>
              now[i].blocks != [] && now[i].blocks[0] == was[i].blocks[0]
  {
    forall i | 0 <= i < |was|
      ensures now[i].name == was[i].name && now[i].declaration == was[i].declaration
      ensures multiset(now[i].blocks) == multiset(was[i].blocks) && DistinctBlocks(now[i].blocks)
      ensures was[i].blocks != [] ==> now[i].blocks != [] && now[i].blocks[0] == was[i].blocks[0]
    {
      if d :| 0 <= d < |directives| && FindFunction(was, directives[d].function_) == i {
        DirectiveIsMovable(was, directives[d]);
      }
    }
  }

  // ---------------------------------------------------------------- when an order changes

  lemma {:induction false} RestKeepsOrder(blocks: seq<Block>, taken: seq<Block>, i: nat, j: nat)
    returns (m: nat, n: nat)
    requires i < j < |blocks| && blocks[i] !in taken && blocks[j] !in taken
    ensures m < n < |Rest(blocks, taken)|
    ensures Rest(blocks, taken)[m] == blocks[i] && Rest(blocks, taken)[n] == blocks[j]
  {
    var last := |blocks| - 1;
    if j < last {
      m, n := RestKeepsOrder(blocks[..last], taken, i, j);
    } else {
      RestMembers(blocks[..last], taken);
      assert blocks[..last][i] == blocks[i];
      m :| 0 <= m < |Rest(blocks[..last], taken)| && Rest(blocks[..last], taken)[m] == blocks[i];
      n := |Rest(blocks[..last], taken)|;
    }
  }

  /** A plan names the first block of a name only. */
  lemma SecondIsNotNamed(blocks: seq<Block>, names: seq<string>, i: nat, j: nat)
    requires DistinctBlocks(blocks) && AllNamesMovable(blocks, names)
    requires i < j < |blocks| && blocks[i].name == blocks[j].name
    ensures blocks[j] !in Named(blocks, names)
  {
    forall k | 0 <= k < |names| ensures Named(blocks, names)[k] != blocks[j] {
      assert NamesMovable(blocks, names[k]);
    }
  }

  /** A block that is not planned stays behind any that was before it. */
  lemma UnplannedStaysBehind(blocks: seq<Block>, plan: seq<Block>, i: nat, j: nat) returns (m: nat, n: nat)
    requires i < j < |blocks| && blocks[j] !in plan
    ensures m < n < |Reordered(blocks, plan)|
    ensures Reordered(blocks, plan)[m] == blocks[i] && Reordered(blocks, plan)[n] == blocks[j]
  {
    var others := blocks[1..];
    var rest := Rest(others, plan);
    var front := [blocks[0]] + plan;
    assert others[j - 1] == blocks[j] && (i > 0 ==> others[i - 1] == blocks[i]);
    RestMembers(others, plan);
    assert |front| == 1 + |plan| && Reordered(blocks, plan) == front + rest;
    if i > 0 && blocks[i] !in plan {
      m, n := RestKeepsOrder(others, plan, i - 1, j - 1);
      m, n := |front| + m, |front| + n;
    } else {
      n :| 0 <= n < |rest| && rest[n] == blocks[j];
      n := |front| + n;
      assert blocks[i] in front;
      m :| 0 <= m < |front| && front[m] == blocks[i];
    }
  }

  /** Of two blocks with one name, the first comes first in both orders. */
  ghost predicate NamesakesInOrder(blocks: seq<Block>, r: seq<Block>) {
    forall i, j :: 0 <= i < j < |blocks| && blocks[i].name == blocks[j].name ==> Precedes(r, blocks[i], blocks[j])
  }

  ghost predicate Precedes(r: seq<Block>, x: Block, y: Block) {
    exists m, n :: 0 <= m < n < |r| && r[m] == x && r[n] == y
  }

  lemma NamesakesKeepOrder(blocks: seq<Block>, names: seq<string>)
    requires blocks != [] && DistinctBlocks(blocks) && LayoutPlan.DistinctNames(names)
    requires AllNamesMovable(blocks, names)
    ensures var r := Reordered(blocks, Named(blocks, names));
            NamesakesInOrder(blocks, r) && DistinctBlocks(r) && multiset(r) == multiset(blocks)
  {
    var plan := Named(blocks, names);
    var r := Reordered(blocks, plan);
    NamedIsMovable(blocks, names);
    ReorderedIsPermutation(blocks, plan);
    hide Reordered, Named, AllNamesMovable, Movable;
    forall i, j | 0 <= i < j < |blocks| && blocks[i].name == blocks[j].name
      ensures Precedes(r, blocks[i], blocks[j])
    {
      SecondIsNotNamed(blocks, names, i, j);
      var m, n := UnplannedStaysBehind(blocks, plan, i, j);
    }
  }

  /** A permutation that shows the same names and texts is the same list. */
  lemma {:induction false} SameUpTo(blocks: seq<Block>, r: seq<Block>, n: nat)
    requires DistinctBlocks(blocks) && DistinctBlocks(r) && multiset(r) == multiset(blocks)
    requires NamesakesInOrder(blocks, r) && SameBlocks(blocks, r) && n <= |blocks|
    ensures forall k :: 0 <= k < n ==> r[k] == blocks[k]
  {
    if n > 0 {
      SameUpTo(blocks, r, n - 1);
      NextAgrees(blocks, r, n - 1);
    }
  }

  lemma NextAgrees(blocks: seq<Block>, r: seq<Block>, i: nat)
    requires DistinctBlocks(blocks) && DistinctBlocks(r) && multiset(r) == multiset(blocks)
    requires NamesakesInOrder(blocks, r) && SameBlocks(blocks, r) && i < |blocks|
    requires forall k :: 0 <= k < i ==> r[k] == blocks[k]
    ensures r[i] == blocks[i]
  {
    assert r[i] in multiset(blocks) && r[i] in blocks;
    var j: nat :| j < |blocks| && blocks[j] == r[i];
    hide Precedes;
    assert j >= i;
    if j > i {
      NotFromBehind(blocks, r, i, j);
    }
  }

  /** A later namesake cannot have come here: the block that was here would have to be in front of it. */
  lemma NotFromBehind(blocks: seq<Block>, r: seq<Block>, i: nat, j: nat)
    requires DistinctBlocks(blocks) && DistinctBlocks(r) && i < j < |blocks| == |r|
    requires Precedes(r, blocks[i], blocks[j])
    requires forall k :: 0 <= k < i ==> r[k] == blocks[k]
    ensures r[i] != blocks[j]
  {
    var m, n :| 0 <= m < n < |r| && r[m] == blocks[i] && r[n] == blocks[j];
  }

  lemma {:induction false} RestOfTaken(blocks: seq<Block>, taken: seq<Block>)
    requires forall b :: b in blocks ==> b in taken
    ensures Rest(blocks, taken) == []
  {
    if blocks != [] {
      RestOfTaken(blocks[..|blocks| - 1], taken);
    }
  }

  lemma {:induction false} RestOfFresh(blocks: seq<Block>, taken: seq<Block>)
    requires forall b :: b in blocks ==> b !in taken
    ensures Rest(blocks, taken) == blocks
  {
    if blocks != [] {
      RestOfFresh(blocks[..|blocks| - 1], taken);
    }
  }

  lemma {:induction false} RestConcat(a: seq<Block>, b: seq<Block>, taken: seq<Block>)
    ensures Rest(a + b, taken) == Rest(a, taken) + Rest(b, taken)
  {
    if b == [] {
      assert a + b == a;
    } else {
      var n := |b| - 1;
      assert (a + b)[..|a + b| - 1] == a + b[..n];
      RestConcat(a, b[..n], taken);
    }
  }

  lemma RestBehind(front: seq<Block>, rest: seq<Block>)
    requires DistinctBlocks(front + rest)
    ensures Rest(front + rest, front) == rest
  {
    RestConcat(front, rest, front);
    RestOfTaken(front, front);
    var all := front + rest;
    forall b | b in rest ensures b !in front {
      var k :| 0 <= k < |rest| && rest[k] == b;
      assert all[|front| + k] == b && forall i :: 0 <= i < |front| ==> all[i] == front[i];
    }
    RestOfFresh(rest, front);
  }

  /** The directive names the very blocks that follow the entry. */
  ghost predicate AlreadyThere(blocks: seq<Block>, names: seq<string>) {
    forall k :: 0 <= k < |names| ==> NamedAt(blocks, names, k)
  }

  ghost predicate NamedAt(blocks: seq<Block>, names: seq<string>, k: nat)
    requires k < |names|
  {
    FindBlock(blocks, names[k]) == k + 1
  }

  ghost predicate BehindEntry(blocks: seq<Block>, plan: seq<Block>, k: nat)
    requires k < |plan|
  {
    k + 1 < |blocks| && plan[k] == blocks[k + 1]
  }

  /** A directive leaves the order exactly when it names the blocks that follow the entry already. */
  lemma OrderStays(blocks: seq<Block>, names: seq<string>)
    requires blocks != [] && DistinctBlocks(blocks) && LayoutPlan.DistinctNames(names)
    requires AllNamesMovable(blocks, names)
    ensures Reordered(blocks, Named(blocks, names)) == blocks <==> AlreadyThere(blocks, names)
  {
    var plan := Named(blocks, names);
    PlanIsThere(blocks, plan);
    forall k: nat | k < |names| ensures NamedAt(blocks, names, k) <==> BehindEntry(blocks, plan, k) {
      assert NamesMovable(blocks, names[k]);
    }
    hide Reordered, NamedAt, BehindEntry;
  }

  lemma PlanIsThere(blocks: seq<Block>, plan: seq<Block>)
    requires blocks != [] && DistinctBlocks(blocks)
    ensures Reordered(blocks, plan) == blocks <==>
              forall k :: 0 <= k < |plan| ==> BehindEntry(blocks, plan, k)
  {
    var r := Reordered(blocks, plan);
    if r == blocks {
      forall k: nat | k < |plan| ensures BehindEntry(blocks, plan, k) {
        assert r[k + 1] == plan[k];
      }
    }
    if forall k :: 0 <= k < |plan| ==> BehindEntry(blocks, plan, k) {
      var others := blocks[1..];
      if |plan| > 0 {
        assert BehindEntry(blocks, plan, |plan| - 1);
      }
      forall k: nat | k < |plan| ensures plan[k] == others[k] {
        assert BehindEntry(blocks, plan, k);
      }
      assert others == plan + others[|plan|..];
      RestBehind(plan, others[|plan|..]);
    }
  }

  /** The order of some named function's blocks is not what it was. */
  ghost predicate SomeOrderDiffers(was: seq<IrFunction>, now: seq<IrFunction>, directives: seq<LayoutPlan.Directive>)
    requires |was| == |now|
  {
    exists d :: 0 <= d < |directives| && OrderDiffers(was, now, directives[d])
  }

  ghost predicate OrderDiffers(was: seq<IrFunction>, now: seq<IrFunction>, d: LayoutPlan.Directive)
    requires |was| == |now|
  {
    var p := FindFunction(was, d.function_);
    p < |was| && now[p].blocks != was[p].blocks
  }

  /** Some directive names blocks other than those that follow the entry. */
  ghost predicate SomethingMoves(functions: seq<IrFunction>, directives: seq<LayoutPlan.Directive>) {
    exists d :: 0 <= d < |directives| && Moves(functions, directives[d])
  }

  ghost predicate Moves(functions: seq<IrFunction>, d: LayoutPlan.Directive) {
    var p := FindFunction(functions, d.function_);
    p < |functions| && !AlreadyThere(functions[p].blocks, d.blocks)
  }

  /** For one directive: what differs, what moves, and what the snapshot shows. */
  lemma DirectiveShows(was: seq<IrFunction>, now: seq<IrFunction>, directives: seq<LayoutPlan.Directive>, d: nat)
    requires WellFormed(was) && WellFormedPlan(directives) && LaidOut(was, now, directives, |directives|)
    requires d < |directives|
    ensures OrderDiffers(was, now, directives[d]) <==> Moves(was, directives[d])
    ensures var p := FindFunction(was, directives[d].function_);
            && !was[p].declaration
            && (SameBlocks(was[p].blocks, now[p].blocks) <==> was[p].blocks == now[p].blocks)
  {
    var names, p := directives[d].blocks, FindFunction(was, directives[d].function_);
    assert Resolvable(was, directives[d]) && now[p] == LaidFunction(was[p], directives[d]);
    OrderStays(was[p].blocks, names);
    NamesakesKeepOrder(was[p].blocks, names);
    if SameBlocks(was[p].blocks, now[p].blocks) {
      SameUpTo(was[p].blocks, now[p].blocks, |was[p].blocks|);
    }
  }

  lemma {:induction false} SameDefined(was: seq<IrFunction>, now: seq<IrFunction>)
    requires |was| == |now|
    requires forall i :: 0 <= i < |was| ==> now[i].name == was[i].name && now[i].declaration == was[i].declaration
    ensures SameFunctions(Defined(was), Defined(now)) <==>
              forall i :: 0 <= i < |was| && !was[i].declaration ==> SameBlocks(was[i].blocks, now[i].blocks)
    ensures |Defined(was)| == |Defined(now)|
  {
    if was != [] {
      var n := |was| - 1;
      SameDefined(was[..n], now[..n]);
      var a, b, s, t := Defined(was[..n]), Defined(now[..n]), Defined(was), Defined(now);
      hide SameBlocks;
      assert forall i :: 0 <= i < |a| ==> s[i] == a[i] && t[i] == b[i];
      assert !was[n].declaration ==> s[|a|] == was[n] && t[|a|] == now[n];
    }
  }

  lemma LaidOutIsPlain(was: seq<IrFunction>, now: seq<IrFunction>)
    requires Plain(was) && SameUpToOrder(was, now)
    ensures Plain(now)
  {
    forall i | 0 <= i < |now| && !now[i].declaration ensures PlainFunction(now[i]) {
      assert PlainFunction(was[i]);
      forall b | b in now[i].blocks ensures PlainBlock(b) {
        assert b in multiset(was[i].blocks) && b in was[i].blocks;
      }
    }
  }

  /** The plain snapshot changes exactly when the order of some named function's blocks does. */
  lemma SnapshotShowsTheOrder(was: seq<IrFunction>, now: seq<IrFunction>, directives: seq<LayoutPlan.Directive>)
    requires WellFormed(was) && WellFormedPlan(directives) && Plain(was)
    requires LaidOut(was, now, directives, |directives|) && SameUpToOrder(was, now)
    ensures Snapshot(was, false) != Snapshot(now, false) <==> SomeOrderDiffers(was, now, directives)
    ensures SomeOrderDiffers(was, now, directives) <==> SomethingMoves(was, directives)
  {
    LaidOutIsPlain(was, now);
    PlainSnapshotDecides(was, now);
    SameDefined(was, now);
    forall d: nat | d < |directives|
      ensures OrderDiffers(was, now, directives[d]) <==> Moves(was, directives[d])
      ensures var p := FindFunction(was, directives[d].function_);
              && p < |was| && !was[p].declaration
              && (SameBlocks(was[p].blocks, now[p].blocks) <==> was[p].blocks == now[p].blocks)
    {
      assert Resolvable(was, directives[d]);
      DirectiveShows(was, now, directives, d);
    }
    forall i | 0 <= i < |was| && !SameBlocks(was[i].blocks, now[i].blocks)
      ensures SomeOrderDiffers(was, now, directives)
    {
      assert !Unnamed(was, directives, |directives|, i);
      var d :| 0 <= d < |directives| && FindFunction(was, directives[d].function_) == i;
      assert OrderDiffers(was, now, directives[d]);
    }
  }

  // ---------------------------------------------------------------- the programs

  /** The directives of an accepted plan. */
  function Planned(plan: string): seq<LayoutPlan.Directive> {
    var lines := LayoutParser.Lines(plan);
    if lines == [] then [] else LayoutParser.Group(LayoutParser.EntriesOf(lines[1..]))
  }

  lemma PlannedIsWellFormed(plan: string)
    requires LayoutParser.Acceptable(plan)
    ensures WellFormedPlan(Planned(plan))
  {
    LayoutParser.AcceptedPlansRepeatNothing(LayoutParser.EntriesOf(LayoutParser.Lines(plan)[1..]));
  }

  /** An accepted plan is its records, grouped. */
  lemma PlannedIs(plan: string, directives: seq<LayoutPlan.Directive>)
    requires LayoutParser.Acceptable(plan)
    requires directives == LayoutParser.Group(LayoutParser.EntriesOf(LayoutParser.Lines(plan)[1..]))
    ensures directives == Planned(plan)
  {
  }

  lemma NothingToResolve(functions: seq<IrFunction>)
    ensures AllResolvable(functions, [])
  {
  }

  lemma NothingChanged(functions: seq<IrFunction>)
    ensures SameUpToOrder(functions, functions)
  {
  }

  lemma AllResolved(functions: seq<IrFunction>, directives: seq<LayoutPlan.Directive>, resolved: seq<seq<Block>>)
    requires |resolved| == |directives|
    requires forall k :: 0 <= k < |directives| ==> ResolvedTo(functions, directives[k], resolved[k])
    ensures AllResolvable(functions, directives)
  {
    assert forall k :: 0 <= k < |directives| ==> ResolvedTo(functions, directives[k], resolved[k]);
  }

  method AppendAll(start: string, parts: seq<string>) returns (text: string)
    ensures text == start + Concat(parts)
  {
    text := start;
    for i := 0 to |parts|
      invariant text == start + Concat(parts[..i])
    {
      assert parts[..i + 1][..i] == parts[..i];
      text := text + parts[i];
    }
    assert parts[..|parts|] == parts;
  }

  /** Why a run ended as it did. */
  datatype LayoutReason = UnsupportedTargetRepair | NoLayoutAuthority | Accepted | AcceptedNoOrderDelta

  datatype LayoutReport = LayoutReport(
    accepted: bool,
    changed: bool,
    preLayout: string,
    postLayout: string,
    preStructural: string,
    postStructural: string,
    reason: LayoutReason)

  class IrModule {
    var functions: seq<IrFunction>

    constructor (functions: seq<IrFunction>)
      ensures this.functions == functions
    {
      this.functions := functions;
    }

    /** The text of the module, block by block and function by function. */
    method LateLayoutSnapshot(structural: bool) returns (snapshot: string)
      ensures snapshot == Snapshot(functions, structural)
    {
      var texts: seq<string> := [];
      for i := 0 to |functions|
        invariant texts == Map(f => FunctionText(f, structural), Defined(functions[..i]))
      {
        assert functions[..i + 1][..i] == functions[..i];
        var f := functions[i];
        if f.declaration {
          continue;
        }
        var blocks: seq<string> := [];
        for k := 0 to |f.blocks|
          invariant blocks == Map(BlockText, f.blocks[..k])
        {
          blocks := blocks + ["block\t" + f.blocks[k].name + "\n" + f.blocks[k].text];
        }
        assert f.blocks[..|f.blocks|] == f.blocks;
        blocks := InOrder(blocks, structural);
        var body := AppendAll("function\t" + f.name + "\n", blocks);
        texts := texts + [body];
      }
      assert functions[..|functions|] == functions;
      snapshot := AppendAll("CK-LATE-LAYOUT-SNAPSHOT-1\n", InOrder(texts, structural));
    }

    /** Parse, resolve everything, and only then splice. */
    method ApplyLateLayout(plan: string, supported: bool) returns (r: Result<LayoutReport, LayoutPlan.LayoutError>)
      requires WellFormed(functions)
      modifies this
      ensures WellFormed(functions) && SameUpToOrder(old(functions), functions)
      ensures forall i :: 0 <= i < |functions| && functions[i].blocks != [] ==>
                old(functions)[i].blocks != [] && functions[i].blocks[0] == old(functions)[i].blocks[0]
      ensures r.Ok? <==> LayoutParser.Acceptable(plan) && (!supported || AllResolvable(old(functions), Planned(plan)))
      ensures r.Err? || !r.value.accepted ==> functions == old(functions)
      ensures r.Ok? ==>
                && (r.value.accepted <==> supported && Planned(plan) != [])
                && (r.value.accepted ==> LaidOut(old(functions), functions, Planned(plan), |Planned(plan)|))
                && r.value.preStructural == r.value.postStructural == Snapshot(old(functions), true)
                && r.value.preLayout == Snapshot(old(functions), false)
                && r.value.postLayout == Snapshot(functions, false)
                && r.value.changed == (r.value.preLayout != r.value.postLayout)
                && r.value.reason == (if !supported then UnsupportedTargetRepair
                                      else if Planned(plan) == [] then NoLayoutAuthority
                                      else if r.value.changed then Accepted else AcceptedNoOrderDelta)
      // What "changed" means: the plan moves a block, and some named function's order is not what it was.
      ensures r.Ok? && r.value.accepted && Plain(old(functions)) ==>
                && (r.value.changed <==> SomeOrderDiffers(old(functions), functions, Planned(plan)))
                && (r.value.changed <==> SomethingMoves(old(functions), Planned(plan)))
    {
      hide Snapshot, Planned, WellFormedPlan, ResolvedTo, AllResolvable, LaidOut, WellFormed, Plain;
      hide SomeOrderDiffers, SomethingMoves;
      hide LayoutParser.Acceptable, LayoutParser.Lines, LayoutParser.EntriesOf, LayoutParser.Group;
      var preLayout := LateLayoutSnapshot(false);
      var preStructural := LateLayoutSnapshot(true);
      var parsed := LayoutParser.ParseLateLayoutPlan(plan);
      if parsed.Err? {
        NothingChanged(functions);
        return Err(parsed.error);
      }
      PlannedIs(plan, parsed.value);
      if !supported {
        NothingChanged(functions);
        return Ok(LayoutReport(false, false, preLayout, preLayout, preStructural, preStructural,
                               UnsupportedTargetRepair));
      }
      var directives := parsed.value;
      if directives == [] {
        NothingChanged(functions);
        NothingToResolve(functions);
        return Ok(LayoutReport(false, false, preLayout, preLayout, preStructural, preStructural, NoLayoutAuthority));
      }
      PlannedIsWellFormed(plan);
      ghost var was := functions;
      var resolved := ResolveAll(directives);
      if resolved.Err? {
        NothingChanged(functions);
        return Err(resolved.error);
      }
      SpliceAll(directives, resolved.value);
      LaidOutKeepsBlocks(was, functions, directives);
      StructureIgnoresOrder(was, functions);
      if Plain(was) {
        SnapshotShowsTheOrder(was, functions, directives);
      }
      var postLayout := LateLayoutSnapshot(false);
      var postStructural := LateLayoutSnapshot(true);
      if preStructural != postStructural {
        assert false;
        return Err(LayoutPlan.ChangedStructure);
      }
      var changed := preLayout != postLayout;
      return Ok(LayoutReport(true, changed, preLayout, postLayout, preStructural, postStructural,
                             if changed then Accepted else AcceptedNoOrderDelta));
    }

    /** Finds the blocks of every directive, or refuses the plan at the first that cannot be resolved. */
    method ResolveAll(directives: seq<LayoutPlan.Directive>)
        returns (r: Result<seq<seq<Block>>, LayoutPlan.LayoutError>)
      ensures r.Ok? <==> AllResolvable(functions, directives)
      ensures r.Ok? ==> |r.value| == |directives|
                        && forall d :: 0 <= d < |directives| ==> ResolvedTo(functions, directives[d], r.value[d])
    {
      var resolved: seq<seq<Block>> := [];
      hide ResolvedTo, Resolvable;
      for d := 0 to |directives|
        invariant |resolved| == d && forall k :: 0 <= k < d ==> ResolvedTo(functions, directives[k], resolved[k])
      {
        var blocks := ResolveDirective(directives[d]);
        if blocks.Err? {
          return Err(blocks.error);
        }
        resolved := resolved + [blocks.value];
      }
      AllResolved(functions, directives, resolved);
      return Ok(resolved);
    }

    /** Finds the blocks of one directive; nothing is moved yet. */
    method ResolveDirective(d: LayoutPlan.Directive) returns (r: Result<seq<Block>, LayoutPlan.LayoutError>)
      ensures r.Ok? <==> Resolvable(functions, d)
      ensures r.Ok? ==> ResolvedTo(functions, d, r.value)
    {
      var p := FindFunction(functions, d.function_);
      if p == |functions| || functions[p].declaration || functions[p].blocks == [] {
        return Err(LayoutPlan.UnknownFunction);
      }
      var list := functions[p].blocks;
      var found: seq<Block> := [];
      for k := 0 to |d.blocks|
        invariant |found| == k
        invariant forall j :: 0 <= j < k ==>
                    NamesMovable(list, d.blocks[j]) && found[j] == list[FindBlock(list, d.blocks[j])]
      {
        var at := FindBlock(list, d.blocks[k]);
        if at == |list| {
          return Err(LayoutPlan.UnknownBlock);
        }
        if at == 0 {
          return Err(LayoutPlan.MovesEntryBlock);
        }
        found := found + [list[at]];
      }
      return Ok(found);
    }

    /** The second half: every resolved list of blocks is spliced behind its function's entry. */
    method SpliceAll(directives: seq<LayoutPlan.Directive>, resolved: seq<seq<Block>>)
      requires WellFormed(functions) && WellFormedPlan(directives)
      requires |resolved| == |directives|
      requires forall d :: 0 <= d < |directives| ==> ResolvedTo(functions, directives[d], resolved[d])
      modifies this
      ensures LaidOut(old(functions), functions, directives, |directives|)
    {
      ghost var was := functions;
      for k := 0 to |directives|
        invariant LaidOut(was, functions, directives, k)
      {
        assert ResolvedTo(was, directives[k], resolved[k]);
        LaidOutStep(was, functions, directives, k);
        DirectiveIsMovable(was, directives[k]);
        hide *;
        var p := FindFunction(functions, directives[k].function_);
        var spliced := SpliceFunction(functions[p].blocks, resolved[k]);
        functions := functions[p := functions[p].(blocks := spliced)];
      }
    }
  }

  lemma {:induction false} SameNamesSameIndex(a: seq<IrFunction>, b: seq<IrFunction>, name: string)
    requires |a| == |b| && forall i :: 0 <= i < |a| ==> a[i].name == b[i].name
    ensures FindFunction(a, name) == FindFunction(b, name)
  {
    if a != [] {
      SameNamesSameIndex(a[1..], b[1..], name);
    }
  }
}
