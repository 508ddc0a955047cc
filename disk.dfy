/**
 * The serialization folder as the database sees it: a map from file path to the record
 * serialized there. Writes, file deletions and recursive directory deletions are operations
 * on that map; a sequence of them is applied in order.
 */
module Disk {
  import opened Text
  import opened SyncItems

  /** PathUtils.Extension. */
  const Extension: string := ".item"

  /** The directory separator of the paths the mapping produces. */
  const Separator: char := '\\'

  type Files = map<string, SyncItem>

  datatype DiskOp =
    | Write(file: string, record: SyncItem)   // File.Open(FileMode.Create) and Serialize
    | Delete(file: string)                    // File.Delete, when the file exists
    | DeleteTree(directory: string)           // Directory.Delete(directory, true), when it exists

  /** The files that lie somewhere below `directory`. */
  predicate Below(file: string, directory: string)
  {
    StartsWith(file, directory + [Separator])
  }

  function Apply(files: Files, op: DiskOp): Files
  {
    match op
    case Write(f, r) => files[f := r]
    case Delete(f) => files - {f}
    case DeleteTree(d) => map k | k in files && !Below(k, d) :: files[k]
  }

  /** The operations applied first to last. */
  function ApplyAll(files: Files, ops: seq<DiskOp>): Files
    decreases |ops|
  {
    if |ops| == 0 then files else Apply(ApplyAll(files, ops[..|ops| - 1]), ops[|ops| - 1])
  }

  /** One more operation at the end. */
  lemma ApplyAllSnoc(files: Files, ops: seq<DiskOp>, op: DiskOp)
    ensures ApplyAll(files, ops + [op]) == Apply(ApplyAll(files, ops), op)
  {
    assert (ops + [op])[..|ops|] == ops;
  }

  /** Applying `a` then `b` is applying `a + b`. */
  lemma {:induction false} ApplyAllAppend(files: Files, a: seq<DiskOp>, b: seq<DiskOp>)
    ensures ApplyAll(files, a + b) == ApplyAll(ApplyAll(files, a), b)
    decreases |b|
  {
    if |b| == 0 {
      assert a + b == a;
    } else {
      assert (a + b)[..|a + b| - 1] == a + b[..|b| - 1];
      ApplyAllAppend(files, a, b[..|b| - 1]);
    }
  }

  /** Does `op` remove or overwrite the file `f`? */
  predicate Touches(op: DiskOp, f: string)
  {
    match op
    case Write(g, _) => g == f
    case Delete(g) => g == f
    case DeleteTree(d) => Below(f, d)
  }

  /** A file that no operation touches keeps its content. */
  lemma {:induction false} ApplyAllUntouched(files: Files, ops: seq<DiskOp>, f: string)
    requires forall i | 0 <= i < |ops| :: !Touches(ops[i], f)
    ensures f in ApplyAll(files, ops) <==> f in files
    ensures f in files ==> ApplyAll(files, ops)[f] == files[f]
    decreases |ops|
  {
    if |ops| > 0 {
      ApplyAllUntouched(files, ops[..|ops| - 1], f);
    }
  }

  /** A file written by some operation and touched by none after it holds what was written. */
  lemma LastWriteWins(files: Files, before: seq<DiskOp>, f: string, r: SyncItem, after: seq<DiskOp>)
    requires forall i | 0 <= i < |after| :: !Touches(after[i], f)
    ensures var result := ApplyAll(files, before + [Write(f, r)] + after);
      f in result && result[f] == r
  {
    ApplyAllAppend(files, before + [Write(f, r)], after);
    ApplyAllUntouched(ApplyAll(files, before + [Write(f, r)]), after, f);
    assert (before + [Write(f, r)])[..|before|] == before;
  }

  /** A file deleted by the last operation that touches it is gone. */
  lemma LastDeleteWins(files: Files, before: seq<DiskOp>, op: DiskOp, f: string, after: seq<DiskOp>)
    requires (op.Delete? && op.file == f) || (op.DeleteTree? && Below(f, op.directory))
    requires forall i | 0 <= i < |after| :: !Touches(after[i], f)
    ensures f !in ApplyAll(files, before + [op] + after)
  {
    ApplyAllAppend(files, before + [op], after);
    ApplyAllUntouched(ApplyAll(files, before + [op]), after, f);
    assert (before + [op])[..|before|] == before;
  }

  /** PathUtils.StripPath: the path without its extension, which names the folder of the item's children. */
  function StripPath(path: string): (r: string)
    ensures |path| >= |Extension| && path[|path| - |Extension|..] == Extension ==> r + Extension == path
  {
    if |path| >= |Extension| && path[|path| - |Extension|..] == Extension then path[..|path| - |Extension|] else path
  }

  lemma StripPathOfFile(directory: string)
    ensures StripPath(directory + Extension) == directory
  {
    var p := directory + Extension;
    assert p[|p| - |Extension|..] == Extension;
    assert p[..|p| - |Extension|] == directory;
  }
}
