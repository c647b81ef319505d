/**
 The file operations that the output transaction uses, over an abstract map from path to bytes.

 Every operation may fail.  Which ones do is decided by `fault`, an arbitrary function of the
 moment and of the operation, so a contract proved here holds for every pattern of failures.
 */
module FileSystem {
  import opened Basics
  import LexicalPath

  newtype byte = x: int | 0 <= x < 256
  type Bytes = seq<byte>

  datatype Role = Stage | Backup

  /** An output path, or the hidden file placed beside one with a serial number and a role. */
  datatype Path =
    | Output(components: seq<LexicalPath.Component>)
    | Sibling(of: Path, serial: nat, role: Role)

  type Files = map<Path, Bytes>

  datatype Op =
    | MakeParents(path: Path)
    | Identify(path: Path)
    | LinkCheck(path: Path)
    | Probe(path: Path)
    | Create(path: Path)
    | Permit(path: Path)
    | Rename(from: Path, to: Path)
    | Remove(path: Path)

  datatype Removal = Removed | NotFound | RemoveFailed

  /** `path` has the same content, or the same absence, in both. */
  ghost predicate SameAt(a: Files, b: Files, path: Path) {
    (path in a <==> path in b) && (path in a ==> a[path] == b[path])
  }

  ghost predicate Holds(files: Files, path: Path, content: Bytes) {
    path in files && files[path] == content
  }

  /** The effect of a successful rename: the target takes the content, the source is gone. */
  function Moved(files: Files, from: Path, to: Path): Files
    requires from in files
  {
    (files - {from})[to := files[from]]
  }

  const ATTEMPTS: nat := 128

  predicate IsBackupOf(path: Path, destination: Path) {
    path.Sibling? && path.of == destination && path.role == Backup
  }

  class Disk {
    const fault: (nat, Op) -> bool
    /** Which paths are names of the same file. */
    const sameFile: (Path, Path) -> bool
    const workingDirectory: seq<LexicalPath.Component>
    /** The directory that a normalized path leads to, links resolved. */
    const canonical: seq<LexicalPath.Component> -> seq<LexicalPath.Component>
    var files: Files
    var clock: nat
    var nextSerial: nat
    /** Every state of `files`, one for each operation performed. */
    ghost var history: seq<Files>

    constructor (files: Files, nextSerial: nat, fault: (nat, Op) -> bool, sameFile: (Path, Path) -> bool,
                 workingDirectory: seq<LexicalPath.Component>,
                 canonical: seq<LexicalPath.Component> -> seq<LexicalPath.Component>)
      ensures this.files == files && this.nextSerial == nextSerial && this.fault == fault && clock == 0
    {
      this.fault, this.sameFile := fault, sameFile;
      this.workingDirectory, this.canonical := workingDirectory, canonical;
      this.files, this.nextSerial := files, nextSerial;
      clock := 0;
      history := [];
    }

    /** The normal form of a path; the root, which has no name, has none. */
    ghost function Lexical(path: seq<LexicalPath.Component>): (lexical: Option<Path>)
      ensures lexical.Some? ==> lexical.value.Output? && |lexical.value.components| > 1
    {
      match LexicalPath.Normalize(LexicalPath.Join(workingDirectory, path))
      case None => None
      case Some(normal) => if |normal| <= 1 then None else Some(Output(normal))
    }

    /** The same name in the directory that the path leads to, links resolved. */
    ghost function Canonical(lexical: Path): (identity: Path)
      requires lexical.Output? && |lexical.components| > 0
      ensures identity.Output?
    {
      var n := |lexical.components| - 1;
      Output(canonical(lexical.components[..n]) + [lexical.components[n]])
    }

    /** The identity that decides whether two outputs are the same: canonical directory and name; the root has none. */
    ghost function Identity(path: seq<LexicalPath.Component>): (identity: Option<Path>)
      ensures identity.Some? ==> identity.value.Output?
    {
      if Lexical(path) == None then None else Some(Canonical(Lexical(path).value))
    }

    /** Two paths have one identity exactly when they name the same entry of the same canonical directory. */
    lemma SameIdentity(a: seq<LexicalPath.Component>, b: seq<LexicalPath.Component>)
      requires Lexical(a).Some? && Lexical(b).Some?
      ensures Identity(a) == Identity(b) <==>
                var s, t := Lexical(a).value.components, Lexical(b).value.components;
                && canonical(s[..|s| - 1]) == canonical(t[..|t| - 1])
                && s[|s| - 1] == t[|t| - 1]
    {
      var s, t := Lexical(a).value.components, Lexical(b).value.components;
      var p, q := canonical(s[..|s| - 1]) + [s[|s| - 1]], canonical(t[..|t| - 1]) + [t[|t| - 1]];
      assert p[..|p| - 1] == canonical(s[..|s| - 1]) && p[|p| - 1] == s[|s| - 1];
      assert q[..|q| - 1] == canonical(t[..|t| - 1]) && q[|q| - 1] == t[|t| - 1];
    }

    /** Both paths exist and name the same file. */
    predicate Alias(a: Path, b: Path)
      reads this`files
    {
      a in files && b in files && sameFile(a, b)
    }

    /** From now on no operation other than a removal fails. */
    ghost predicate OnlyRemovalsFail()
      reads this`clock
    {
      forall t: nat, op: Op :: t >= clock && !op.Remove? ==> !fault(t, op)
    }

    ghost predicate NothingFails()
      reads this`clock
    {
      forall t: nat, op: Op :: t >= clock ==> !fault(t, op)
    }

    /** From now on the operations of `Drop`, renames and deletions of stages, do not fail. */
    ghost predicate DropWorks()
      reads this`clock
    {
      forall t: nat, op: Op ::
        t >= clock && (op.Rename? || (op.Remove? && op.path.Sibling? && op.path.role == Stage)) ==>
        !fault(t, op)
    }

    /** From now on the operations of an undo, renames and deletions, do not fail. */
    ghost predicate UndoWorks()
      reads this`clock
    {
      forall t: nat, op: Op :: t >= clock && (op.Rename? || op.Remove?) ==> !fault(t, op)
    }

    /** From `from` on, deleting `path` fails at some moment; works at some moment. */
    ghost predicate RemovalMayFail(from: nat, path: Path) {
      exists t: nat :: t >= from && fault(t, Op.Remove(path))
    }

    ghost predicate RemovalMayWork(from: nat, path: Path) {
      exists t: nat :: t >= from && !fault(t, Op.Remove(path))
    }

    /** No hidden file carries a serial number that is still to be handed out. */
    ghost predicate SerialsUnused()
      reads this`files, this`nextSerial
    {
      forall p :: p in files && p.Sibling? ==> p.serial < nextSerial
    }

    /** A step that changes no file: identity, link and sibling checks, and making directories. */
    method Consult(op: Op) returns (ok: bool)
      modifies this`clock
      ensures ok <==> !fault(old(clock), op)
      ensures clock == old(clock) + 1
    {
      ok := !fault(clock, op);
      clock := clock + 1;
    }

    method Permit(path: Path) returns (ok: bool)
      modifies this`clock
      ensures ok <==> !fault(old(clock), Op.Permit(path))
      ensures clock == old(clock) + 1
    {
      ok := !fault(clock, Op.Permit(path));
      clock := clock + 1;
    }

    /** Exclusive creation: an existing file is never opened; a failed write may leave any part behind. */
    method CreateNew(path: Path, content: Bytes) returns (ok: bool)
      modifies this`files, this`clock, this`history
      ensures ok <==> path !in old(files) && !fault(old(clock), Op.Create(path))
      ensures ok ==> files == old(files)[path := content]
      ensures !ok ==> files == old(files) || (path !in old(files) && files - {path} == old(files))
      ensures clock == old(clock) + 1 && history == old(history) + [files]
    {
      ok := path !in files && !fault(clock, Op.Create(path));
      if ok {
        files := files[path := content];
      } else if path !in files {
        if * {
          var part :| 0 <= part <= |content|;
          files := files[path := content[..part]];
        }
      }
      clock := clock + 1;
      history := history + [files];
    }

    method Rename(from: Path, to: Path) returns (ok: bool)
      modifies this`files, this`clock, this`history
      ensures ok <==> from in old(files) && !fault(old(clock), Op.Rename(from, to))
      ensures files == if ok then Moved(old(files), from, to) else old(files)
      ensures clock == old(clock) + 1 && history == old(history) + [files]
    {
      ok := from in files && !fault(clock, Op.Rename(from, to));
      if ok {
        files := Moved(files, from, to);
      }
      clock := clock + 1;
      history := history + [files];
    }

    method Remove(path: Path) returns (removal: Removal)
      modifies this`files, this`clock, this`history
      ensures removal.RemoveFailed? <==> fault(old(clock), Op.Remove(path))
      ensures removal.Removed? ==> path in old(files)
      ensures removal.NotFound? ==> path !in old(files)
      ensures files == if removal.Removed? then old(files) - {path} else old(files)
      ensures clock == old(clock) + 1 && history == old(history) + [files]
    {
      if fault(clock, Op.Remove(path)) {
        removal := RemoveFailed;
      } else if path in files {
        removal := Removed;
        files := files - {path};
      } else {
        removal := NotFound;
      }
      clock := clock + 1;
      history := history + [files];
    }

    /** The first n serial numbers from `first` on were probed, from `moment` on, and each names a file. */
    ghost predicate Taken(moment: nat, first: nat, n: nat, destination: Path, role: Role)
      reads this`files
    {
      forall k: nat :: k < n ==> IsTaken(moment, first, k, destination, role)
    }

    ghost predicate IsTaken(moment: nat, first: nat, k: nat, destination: Path, role: Role)
      reads this`files
    {
      && !fault(moment + k, Op.Probe(Sibling(destination, first + k, role)))
      && Sibling(destination, first + k, role) in files
    }

    /** A path beside `destination` that is absent now; up to 128 serial numbers are tried, a failing probe ends it. */
    method UniqueSibling(destination: Path, role: Role) returns (r: Option<Path>)
      modifies this`clock, this`nextSerial
      ensures nextSerial - old(nextSerial) == clock - old(clock) && 1 <= clock - old(clock) <= 128
      ensures r.Some? ==>
                && r.value == Sibling(destination, nextSerial - 1, role) && r.value !in files
                && !fault(clock - 1, Op.Probe(r.value))
                && Taken(old(clock), old(nextSerial), clock - old(clock) - 1, destination, role)
      ensures r.None? ==>
                || (clock - old(clock) == 128 && Taken(old(clock), old(nextSerial), 128, destination, role))
                || (&& fault(clock - 1, Op.Probe(Sibling(destination, nextSerial - 1, role)))
                    && Taken(old(clock), old(nextSerial), clock - old(clock) - 1, destination, role))
      ensures old(SerialsUnused()) ==>
                && SerialsUnused() && clock == old(clock) + 1
                && (r.Some? <==> !fault(old(clock), Op.Probe(Sibling(destination, old(nextSerial), role))))
    {
      for attempt := 0 to ATTEMPTS
        invariant clock == old(clock) + attempt && nextSerial == old(nextSerial) + attempt
        invariant Taken(old(clock), old(nextSerial), attempt, destination, role)
        invariant attempt > 0 ==> !old(SerialsUnused())
      {
        var candidate := Sibling(destination, nextSerial, role);
        nextSerial := nextSerial + 1;
        var ok := Consult(Op.Probe(candidate));
        if !ok {
          return None;
        }
        if candidate !in files {
          return Some(candidate);
        }
      }
      return None;
    }
  }
}
