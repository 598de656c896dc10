/**
 * The path arithmetic of `targen`: `Path.parent`, `Path.relative_to`, `str()`
 * of a relative path, and the prefix derived from an entry and the base path.
 * Paths are sequences of already-encoded components.
 */
module Paths {
  import opened Bytes
  import opened Wrappers
  import opened Errors

  type Path = seq<seq<byte>>

  const SLASH: byte := 47
  const DOT: byte := 46

  /** Real path components are never empty. */
  predicate Components(p: Path)
  {
    forall i | 0 <= i < |p| :: p[i] != []
  }

  /** `Path.parent`: the path without its last component; the root and "." are their own parents. */
  function Parent(p: Path): Path
  {
    if p == [] then [] else p[..|p| - 1]
  }

  /**
   * `dir / name` as `pathlib` joins them: the name becomes the last
   * component, except the empty name of `Path('.')`, which adds none.
   */
  function Child(dir: Path, name: seq<byte>): Path
  {
    if name == [] then dir else dir + [name]
  }

  /** `Path.relative_to`: the components of `p` after `base`, or failure when `base` does not lead `p`. */
  function RelativeTo(p: Path, base: Path): (r: Option<Path>)
    ensures r.Some? ==> base + r.value == p
  {
    if base <= p then Some(p[|base|..]) else None
  }

  /** Components joined by '/'. */
  function Join(p: Path): seq<byte>
    requires p != []
  {
    if |p| == 1 then p[0] else Join(p[..|p| - 1]) + [SLASH] + p[|p| - 1]
  }

  /** `str()` of a relative path: its components joined by '/', and "." for the empty path. */
  function Render(p: Path): seq<byte>
  {
    if p == [] then [DOT] else Join(p)
  }

  /**
   * The prefix `targen` passes to `tar_header` for the entry at path `f`:
   * empty when `f`'s parent is the base, otherwise the parent's path
   * relative to the base.
   */
  function Prefix(f: Path, base: Path): Result<seq<byte>, Error>
  {
    if base == Parent(f) then Ok([])
    else
      match RelativeTo(f, base)
      case None => Err(NotRelativeToBase)
      case Some(rel) => Ok(Render(Parent(rel)))
  }

  /** How a ustar reader rebuilds a member's path from the header's prefix and name fields. */
  function HeaderPath(prefix: seq<byte>, name: seq<byte>): seq<byte>
  {
    if prefix == [] then name else prefix + [SLASH] + name
  }

  lemma {:induction false} JoinNonEmpty(p: Path)
    requires p != [] && Components(p)
    ensures Join(p) != []
  {
    if |p| > 1 {
      JoinNonEmpty(p[..|p| - 1]);
    }
  }

  /**
   * The four cases of the prefix: the base is the parent (empty prefix), the
   * entry is the base itself ("."), the base is a further ancestor (the
   * parent's path below the base), or the entry is not under the base
   * (`relative_to` fails).
   */
  lemma PrefixCases(f: Path, base: Path)
    ensures base == Parent(f) ==> Prefix(f, base) == Ok([])
    ensures f != [] && base == f ==> Prefix(f, base) == Ok([DOT])
    ensures base < Parent(f) ==> Prefix(f, base) == Ok(Join(Parent(f)[|base|..]))
    ensures base != Parent(f) && !(base <= f) ==> Prefix(f, base) == Err(NotRelativeToBase)
    ensures Prefix(f, base).Ok? <==> base == Parent(f) || base <= f
  {
    if base < Parent(f) {
      assert Parent(f[|base|..]) == Parent(f)[|base|..];
    }
  }

  /**
   * The tree under `Path('.')` archived with base ".": the root itself has
   * no component, each child gets the empty prefix, and each grandchild the
   * name of its parent directory.
   */
  lemma DotRootPrefixes(root: seq<byte>, child: seq<byte>, grandchild: seq<byte>)
    requires child != [] && grandchild != []
    ensures Child([], []) == [] && Prefix(Child([], []), []) == Ok([])
    ensures Prefix(Child(Child([], root), child), []) == Ok([]) <==> root == []
    ensures root == [] ==> Prefix(Child(Child(Child([], root), child), grandchild), []) == Ok(child)
  {
    if root == [] {
      var f := Child(Child([], child), grandchild);
      assert Parent(f) == [child];
      assert Join([child]) == child;
    }
  }

  /**
   * For an entry strictly below the base, a reader that joins the prefix and
   * the name with '/' gets back the entry's path relative to the base.
   */
  lemma PrefixRecomposes(f: Path, base: Path)
    requires f != [] && Components(f) && base <= Parent(f)
    ensures Prefix(f, base).Ok?
    ensures HeaderPath(Prefix(f, base).value, f[|f| - 1]) == Join(f[|base|..])
  {
    var rel := f[|base|..];
    if base == Parent(f) {
      assert rel == [f[|f| - 1]];
    } else {
      assert Parent(rel) == rel[..|rel| - 1];
      JoinNonEmpty(Parent(rel));
    }
  }
}
