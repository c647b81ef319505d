/**
 Purely lexical path normalization (src/cli/output.rs, `lexical_output_identity`).

 A path is the component list that the standard library hands to the loop.  The only paths the
 loop ever sees are absolute ones, so every list starts with the root component.
 */
module LexicalPath {
  import opened Basics

  datatype Component = Root | CurDir | ParentDir | Normal(name: string)

  /** An absolute path: the root, and no second root after it. */
  ghost predicate Absolute(path: seq<Component>) {
    |path| > 0 && path[0] == Root && forall i :: 0 < i < |path| ==> path[i] != Root
  }

  /** A path as the standard library splits it: a root component comes first or not at all. */
  ghost predicate Components(path: seq<Component>) {
    forall i :: 0 < i < |path| ==> path[i] != Root
  }

  /** A relative path is taken from the working directory. */
  function Join(directory: seq<Component>, path: seq<Component>): seq<Component> {
    if path != [] && path[0] == Root then path else directory + path
  }

  predicate Rooted(path: seq<Component>) { path != [] && path[0] == Root }

  /** An absolute path does not depend on the directory; a relative one keeps all its components, behind those of it. */
  lemma JoinKeepsThePath(directory: seq<Component>, path: seq<Component>)
    ensures Rooted(path) ==> Join(directory, path) == path
    ensures !Rooted(path) ==>
              && |Join(directory, path)| == |directory| + |path|
              && Join(directory, path)[..|directory|] == directory && Join(directory, path)[|directory|..] == path
  {
  }

  /** The path has no `.` and no `..` component left. */
  ghost predicate Normalized(path: seq<Component>) {
    Absolute(path) && forall i :: 0 < i < |path| ==> path[i].Normal?
  }

  /** Names seen minus parent steps seen; `.` and the root count for neither. */
  function Depth(path: seq<Component>): int {
    if path == [] then 0
    else
      var last := path[|path| - 1];
      Depth(path[..|path| - 1]) + (match last case Normal(_) => 1 case ParentDir => -1 case _ => 0)
  }

  /** Some prefix of the path climbs above the root. */
  ghost predicate EscapesRoot(path: seq<Component>) {
    exists n :: 0 <= n <= |path| && Depth(path[..n]) < 0
  }

  /** A directory tree without links: what a name leads to, by nesting. */
  datatype Node = Node(children: map<string, Node>)

  /** Resolution by walking: the stack of nodes from the root down to the place reached so far. */
  function Walk(root: Node, path: seq<Component>): (r: Option<seq<Node>>)
    ensures r.Some? ==> |r.value| > 0
  {
    if path == [] then Some([root])
    else
      var before := Walk(root, path[..|path| - 1]);
      if before.None? then None
      else
        var stack := before.value;
        match path[|path| - 1]
        case Root => Some([root])
        case CurDir => Some(stack)
        case ParentDir => if |stack| == 1 then Some(stack) else Some(stack[..|stack| - 1])
        case Normal(name) =>
          var here := stack[|stack| - 1];
          if name in here.children then Some(stack + [here.children[name]]) else None
  }

  /** What the loop has accumulated after reading `path`; None once it has failed. */
  function Normalize(path: seq<Component>): Option<seq<Component>> {
    if path == [] then Some([])
    else
      var before := Normalize(path[..|path| - 1]);
      if before.None? then None
      else Push(before.value, path[|path| - 1])
  }

  /** One iteration: append a name, skip `.`, drop the last name at `..`; the root cannot be dropped. */
  function Push(buffer: seq<Component>, component: Component): Option<seq<Component>> {
    match component
    case Root => Some([Root])
    case Normal(_) => Some(buffer + [component])
    case CurDir => Some(buffer)
    case ParentDir => if |buffer| <= 1 then None else Some(buffer[..|buffer| - 1])
  }

  method LexicalOutputIdentity(path: seq<Component>) returns (r: Result<seq<Component>, string>)
    requires Absolute(path)
    ensures r.Err? <==> EscapesRoot(path)
    ensures r.Ok? ==> Normalized(r.value) && Normalize(path) == Some(r.value)
  {
    var normalized: seq<Component> := [];
    for i := 0 to |path|
      invariant Normalize(path[..i]) == Some(normalized)
      invariant i == 0 ==> normalized == []
      invariant i > 0 ==> Normalized(normalized) && |normalized| == 1 + Depth(path[..i])
      invariant forall n :: 0 <= n <= i ==> Depth(path[..n]) >= 0
    {
      assert path[..i + 1][..i] == path[..i];
      var component := path[i];
      match component
      case Root =>
        normalized := [component];
      case Normal(_) =>
        normalized := normalized + [component];
      case CurDir =>
      case ParentDir =>
        if |normalized| <= 1 {
          assert Depth(path[..i + 1]) < 0;
          return Err("output path escapes its filesystem root");
        }
        normalized := normalized[..|normalized| - 1];
    }
    assert path[..|path|] == path;
    return Ok(normalized);
  }

  /** The whole contract of the loop, as facts about the accumulated value. */
  lemma {:induction false} NormalizeShape(path: seq<Component>)
    requires Absolute(path)
    ensures Normalize(path).None? <==> EscapesRoot(path)
    ensures Normalize(path).Some? ==>
              Normalized(Normalize(path).value) && |Normalize(path).value| == 1 + Depth(path)
  {
    var n := |path| - 1;
    var front := path[..n];
    assert path[..|path|] == path;
    if n == 0 {
      assert Depth(front) == 0 && Depth(path) == 0;
      assert forall k :: 0 <= k <= |path| ==> path[..k] == [] || path[..k] == path;
    } else {
      NormalizeShape(front);
      forall k | 0 <= k <= |front| ensures front[..k] == path[..k] {}
      assert EscapesRoot(path) <==> EscapesRoot(front) || Depth(path) < 0;
    }
  }

  lemma {:induction false} NormalizedIsFixed(path: seq<Component>)
    requires Normalized(path)
    ensures Normalize(path) == Some(path)
  {
    var n := |path| - 1;
    if n == 0 {
      assert path == [Root];
    } else {
      NormalizedIsFixed(path[..n]);
      assert path == path[..n] + [path[n]];
    }
  }

  /** Normalizing an already normalized result changes nothing. */
  lemma NormalizeIsIdempotent(path: seq<Component>)
    requires Absolute(path) && !EscapesRoot(path)
    ensures Normalize(path).Some? && Normalize(Normalize(path).value) == Normalize(path)
  {
    NormalizeShape(path);
    NormalizedIsFixed(Normalize(path).value);
  }

  /** In a tree without links the normalized path leads where the original leads, whenever that leads anywhere. */
  lemma {:induction false} NormalizeKeepsTheNode(root: Node, path: seq<Component>)
    requires Absolute(path) && !EscapesRoot(path)
    requires Walk(root, path).Some?
    ensures Normalize(path).Some?
    ensures Walk(root, Normalize(path).value) == Walk(root, path)
    ensures |Walk(root, path).value| == |Normalize(path).value|
  {
    NormalizeShape(path);
    var n := |path| - 1;
    if n == 0 {
      assert path == [Root];
    } else {
      var front := path[..n];
      forall k | 0 <= k <= |front| ensures front[..k] == path[..k] {}
      NormalizeKeepsTheNode(root, front);
      var buffer := Normalize(front).value;
      match path[n]
      case CurDir =>
      case Normal(_) => assert (buffer + [path[n]])[..|buffer|] == buffer;
      case ParentDir =>
        NormalizeShape(front);
        WalkPrefix(root, buffer);
      case Root => assert false;
    }
  }

  /** Walking a normalized path minus its last name gives the stack minus its top. */
  lemma WalkPrefix(root: Node, path: seq<Component>)
    requires Normalized(path) && |path| > 1 && Walk(root, path).Some?
    ensures var stack := Walk(root, path).value;
            Walk(root, path[..|path| - 1]) == Some(stack[..|stack| - 1])
  {
    assert path[|path| - 1].Normal?;
  }
}
