/** The files of a disk and what can go wrong when one is written: a write may fail and leave anything in
    the one file it was writing, and a path can be obstructed by a file or directory in its way. A
    directory is a proper prefix of the path of a file. */
module FileSystem {

  /** An absolute path as its segments. */
  type Path = seq<string>

  type Files = map<Path, string>

  /** What happens to one write. */
  datatype Fate = Succeeds | Fails | FailsLeaving(content: string)

  function FailuresIn(fates: seq<Fate>): nat {
    if fates == [] then 0 else (if fates[0].Succeeds? then 0 else 1) + FailuresIn(fates[1..])
  }

  predicate Under(dir: Path, p: Path) {
    dir <= p
  }

  lemma PrefixFreeSubset(some: set<Path>, all: set<Path>)
    requires some <= all && PrefixFree(all)
    ensures PrefixFree(some)
  {
  }

  lemma FreeAmong(files: Files, paths: set<Path>, p: Path)
    requires PrefixFree(paths) && files.Keys <= paths && p in paths
    ensures Free(files, p)
  {
  }

  predicate IsDirectory(files: Files, d: Path) {
    exists p :: p in files && d < p
  }

  /** No path leads through another: what is a file is not also a directory. */
  predicate PrefixFree(paths: set<Path>) {
    forall p, q :: p in paths && q in paths ==> !(p < q)
  }

  /** Whether a file can be written here: no file is on the way and it is no directory. */
  predicate Free(files: Files, p: Path) {
    forall q :: q in files ==> !(q < p) && !(p < q)
  }

  /** Where copying a file really puts it: inside, if the target is a directory. */
  function Landing(files: Files, from: Path, to: Path): (p: Path)
    ensures to <= p
  {
    if IsDirectory(files, to) && from != [] then to + [from[|from| - 1]] else to
  }

  /** The same files with the same contents everywhere outside some directory. */
  ghost predicate SameOutside(dir: Path, a: Files, b: Files) {
    forall p :: !Under(dir, p) ==> (p in a <==> p in b) && (p in a && p in b ==> a[p] == b[p])
  }

  /** The same files and contents except possibly at one path, where no file disappears. */
  ghost predicate SameExcept(p: Path, a: Files, b: Files) {
    (p in a ==> p in b) &&
    forall q :: q != p ==> (q in a <==> q in b) && (q in a && q in b ==> a[q] == b[q])
  }

  /** The same files with the same contents everywhere inside some directory. */
  ghost predicate SameInside(dir: Path, a: Files, b: Files) {
    forall p :: Under(dir, p) ==> (p in a <==> p in b) && (p in a && p in b ==> a[p] == b[p])
  }

  /** No file disappeared and only the listed ones may differ. */
  ghost predicate OnlyThese(before: Files, now: Files, may: set<Path>) {
    before.Keys <= now.Keys &&
    forall p :: p !in may ==> (p in before <==> p in now) && (p in before && p in now ==> now[p] == before[p])
  }

  function WithoutTree(files: Files, dir: Path): Files {
    map p | p in files && !Under(dir, p) :: files[p]
  }

  /** The effect of writing a file; an obstructed write raises without being tried. */
  ghost predicate WriteEffect(before: Files, coming: seq<Fate>, after: Files, left: seq<Fate>,
                              path: Path, content: string, ok: bool)
  {
    if !Free(before, path) then !ok && after == before && left == coming
    else if ok then after == before[path := content] && FailuresIn(left) == FailuresIn(coming)
    else SameExcept(path, before, after) && FailuresIn(left) + 1 == FailuresIn(coming)
  }

  lemma WriteKeepsPrefixFree(before: Files, coming: seq<Fate>, after: Files, left: seq<Fate>,
                             path: Path, content: string, ok: bool)
    requires PrefixFree(before.Keys) && WriteEffect(before, coming, after, left, path, content, ok)
    ensures PrefixFree(after.Keys) && before.Keys <= after.Keys <= before.Keys + {path}
    ensures FailuresIn(left) <= FailuresIn(coming)
  {
    assert forall q :: q in after ==> q in before || q == path;
  }

  class Disk {
    var files: Files
    var fates: seq<Fate>  // of the coming writes; writes after the last one succeed

    predicate Valid()
      reads this
    {
      PrefixFree(files.Keys)
    }

    constructor (files: Files, fates: seq<Fate>)
      requires PrefixFree(files.Keys)
      ensures Valid() && this.files == files && this.fates == fates
    {
      this.files, this.fates := files, fates;
    }

    method Write(path: Path, content: string) returns (ok: bool)
      requires Valid()
      modifies this
      ensures Valid()
      ensures WriteEffect(old(files), old(fates), files, fates, path, content, ok)
    {
      ghost var before, coming := files, fates;
      if !Free(files, path) {
        return false;
      }
      var fate := Succeeds;
      if fates != [] {
        fate, fates := fates[0], fates[1..];
      }
      match fate {
        case Succeeds => files := files[path := content];
        case Fails =>
        case FailsLeaving(garbage) => files := files[path := garbage];
      }
      ok := fate.Succeeds?;
      WriteKeepsPrefixFree(before, coming, files, fates, path, content, ok);
    }

    method Copy(from: Path, to: Path) returns (ok: bool)
      requires Valid() && from in files
      modifies this
      ensures Valid()
      ensures WriteEffect(old(files), old(fates), files, fates, Landing(old(files), from, to), old(files)[from], ok)
    {
      ok := Write(Landing(files, from, to), files[from]);
    }

    method RemoveTree(dir: Path)
      requires Valid()
      modifies this`files
      ensures Valid() && files == WithoutTree(old(files), dir)
    {
      files := WithoutTree(files, dir);
    }
  }
}
