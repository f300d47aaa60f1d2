/** A directory as the map from the paths of its files, relative to it, to their
    contents. A path is its parts, so a directory is a prefix. */
module Trees {

  type Path = seq<string>
  type Tree = map<Path, string>

  /** `p` is `dir` or somewhere below it. */
  predicate Under(dir: Path, p: Path) { dir <= p }

  /** `path.exists()`: a file, or a directory with a file somewhere below. */
  predicate Exists(t: Tree, dir: Path) {
    exists p :: p in t && Under(dir, p)
  }

  /** `path.is_dir()` for a directory that holds a file. */
  predicate IsDir(t: Tree, dir: Path) {
    dir !in t && Exists(t, dir)
  }

  predicate SameAt(a: Tree, b: Tree, p: Path) {
    (p in a <==> p in b) && (p in a ==> a[p] == b[p])
  }

  lemma SameEverywhere(a: Tree, b: Tree)
    requires forall p :: SameAt(a, b, p)
    ensures a == b
  {
    forall p ensures p in a <==> p in b {
      assert SameAt(a, b, p);
    }
    forall p | p in a ensures a[p] == b[p] {
      assert SameAt(a, b, p);
    }
  }

  /** `shutil.rmtree`, or `unlink` for a file. */
  function Removed(t: Tree, dir: Path): Tree {
    map p | p in t && !Under(dir, p) :: t[p]
  }

  /** Where a file at or below `src` goes when that tree is copied to `dst`. */
  function Image(src: Path, dst: Path, p: Path): Path
    requires Under(src, p)
  {
    dst + p[|src|..]
  }

  lemma ImageInverse(src: Path, dst: Path, p: Path)
    requires Under(src, p)
    ensures Under(dst, Image(src, dst, p)) && Image(dst, src, Image(src, dst, p)) == p
  {
    assert Image(src, dst, p)[|dst|..] == p[|src|..];
    assert src + p[|src|..] == p;
  }

  function Images(t: Tree, src: Path, dst: Path): (s: set<Path>)
    ensures forall p :: p in t && Under(src, p) ==> Image(src, dst, p) in s
    ensures forall q :: q in s ==> Under(dst, q) && Image(dst, src, q) in t && Under(src, Image(dst, src, q))
  {
    var s := set p | p in t && Under(src, p) :: Image(src, dst, p);
    assert forall q :: q in s ==> Under(dst, q) && Image(dst, src, q) in t by {
      forall q | q in s ensures Under(dst, q) && Image(dst, src, q) in t {
        var p :| p in t && Under(src, p) && q == Image(src, dst, p);
        ImageInverse(src, dst, p);
      }
    }
    s
  }

  /** `shutil.copytree` into a place that holds nothing, or onto what is there. */
  function Copied(t: Tree, src: Path, dst: Path): Tree {
    map q | q in t.Keys + Images(t, src, dst) ::
      if q in Images(t, src, dst) then t[Image(dst, src, q)] else t[q]
  }

  lemma CopiedAt(t: Tree, src: Path, dst: Path, p: Path)
    requires p in t && Under(src, p)
    ensures Image(src, dst, p) in Copied(t, src, dst)
    ensures Copied(t, src, dst)[Image(src, dst, p)] == t[p]
  {
    ImageInverse(src, dst, p);
  }
}
