/** Path lookup, and the split of a path into a parent and a last name. */
module Paths {
  import opened Bytes
  import opened Volumes
  import opened DirBlock
  import opened Directories
  import opened FileSystem

  type Path = seq<Byte>

  const SLASH: Byte := 47
  const TILDE: Byte := 126
  const MAX_PATH := 255

  datatype Component = Done | TooLong | Component(name: Name, rest: Path)

  /** Length of the run of bytes up to the next slash. */
  function NameLength(path: Path): (n: nat)
    ensures n <= |path|
    ensures forall k :: 0 <= k < n ==> path[k] != SLASH
    ensures n < |path| ==> path[n] == SLASH
  {
    if path == [] || path[0] == SLASH then 0 else 1 + NameLength(path[1..])
  }

  /** path_next_component. */
  function NextComponent(path: Path): (c: Component)
    ensures c.Component? ==> |c.rest| < |path| && 0 < |c.name| <= EXT2_MAX_NAME_LEN
  {
    if path == [] then Done
    else if path[0] == SLASH then NextComponent(path[1..])
    else
      var n := NameLength(path);
      if n > EXT2_MAX_NAME_LEN then TooLong else Component(path[..n], path[n..])
  }

  /** The component loop of ext2_find_inode_by_path from inode `i` on. */
  function Resolve(v: Volume, i: nat, path: Path): Option<nat>
    requires Shape(v)
    decreases |path|
  {
    match NextComponent(path)
    case Done => Some(i)
    case TooLong => None
    case Component(name, rest) =>
      if name == DOT then Resolve(v, i, rest)
      else
        match FindInDir(v, i, name)
        case None => None
        case Some(child) => Resolve(v, child, rest)
  }

  /** Does the path start at the root: with a slash, or with "~" alone as its first component? */
  predicate FromRoot(path: Path)
    requires path != []
  {
    path[0] == SLASH || (path[0] == TILDE && (|path| == 1 || path[1] == SLASH))
  }

  /** ext2_find_inode_by_path. */
  function FindByPath(v: Volume, cur: nat, path: Path): Option<nat>
    requires Shape(v)
  {
    if path == [] then None
    else if FromRoot(path) then Resolve(v, ROOT, if path[0] == TILDE then path[1..] else path)
    else Resolve(v, cur, path)
  }

  /** How many bytes of `path` come before its last component. */
  function NameStart(path: Path): (n: nat)
    ensures n <= |path|
    ensures forall k :: n <= k < |path| ==> path[k] != SLASH
    ensures n > 0 ==> path[n - 1] == SLASH
  {
    if path == [] then 0
    else if path[|path| - 1] == SLASH then |path|
    else NameStart(path[..|path| - 1])
  }

  datatype Parts = Parts(parent: Path, name: Name)

  /** split_parent_path. */
  function SplitParent(path: Path): Option<Parts> {
    var n := NameStart(path);
    if path == [] || |path| > MAX_PATH || n == |path| then None
    else Some(Parts(if n == 0 then [] else if n == 1 then [SLASH] else path[..n - 1], path[n..]))
  }

  /** The directory the engine works in for a split path. */
  function ParentOf(v: Volume, cur: nat, parent: Path): Option<nat>
    requires Shape(v)
  {
    if parent == [] then Some(cur) else FindByPath(v, cur, parent)
  }

  // ---- path agreement ----

  /** One component on its own. */
  function Last(v: Volume, i: nat, name: Name): Option<nat>
    requires Shape(v)
  {
    if name == DOT then Some(i) else FindInDir(v, i, name)
  }

  lemma SingleComponent(name: Name)
    requires 0 < |name| <= EXT2_MAX_NAME_LEN && forall k :: 0 <= k < |name| ==> name[k] != SLASH
    ensures NextComponent(name) == Component(name, [])
  {
    var n := NameLength(name);
    assert n == |name|;
    assert name[..n] == name && name[n..] == [];
  }

  lemma {:induction false} NameLengthOfPrefix(path: Path, tail: Path)
    requires tail == [] || tail[0] == SLASH
    ensures NameLength(path + tail) == NameLength(path)
  {
    if path == [] {
      assert path + tail == tail;
    } else if path[0] != SLASH {
      assert (path + tail)[1..] == path[1..] + tail;
      NameLengthOfPrefix(path[1..], tail);
    }
  }

  /** Resolving `path/name` is resolving `path` and then looking up `name`. */
  lemma {:induction false} ResolveAppend(v: Volume, i: nat, path: Path, name: Name, tail: Path)
    requires Shape(v) && tail == [SLASH] + name
    requires 0 < |name| <= EXT2_MAX_NAME_LEN && forall k :: 0 <= k < |name| ==> name[k] != SLASH
    ensures Resolve(v, i, path + tail)
         == match Resolve(v, i, path) { case None => None case Some(d) => Last(v, d, name) }
    decreases |path|
  {
    hide FindInDir;
    if path == [] {
      assert path + tail == tail && tail[1..] == name;
      SingleComponent(name);
      assert NextComponent(tail) == Component(name, []);
    } else if path[0] == SLASH {
      assert (path + tail)[1..] == path[1..] + tail;
      ResolveAppend(v, i, path[1..], name, tail);
      ResolveSkips(v, i, path);
      ResolveSkips(v, i, path + tail);
    } else {
      NameLengthOfPrefix(path, tail);
      var n := NameLength(path);
      assert (path + tail)[..n] == path[..n];
      assert (path + tail)[n..] == path[n..] + tail;
      if n <= EXT2_MAX_NAME_LEN {
        if path[..n] == DOT {
          ResolveAppend(v, i, path[n..], name, tail);
        } else {
          match FindInDir(v, i, path[..n])
          case None =>
          case Some(child) => ResolveAppend(v, child, path[n..], name, tail);
        }
      }
    }
  }

  lemma ResolveSkips(v: Volume, i: nat, path: Path)
    requires Shape(v) && path != [] && path[0] == SLASH
    ensures Resolve(v, i, path) == Resolve(v, i, path[1..])
  {
    assert NextComponent(path) == NextComponent(path[1..]);
  }

  lemma ResolveSingle(v: Volume, i: nat, name: Name)
    requires Shape(v)
    requires 0 < |name| <= EXT2_MAX_NAME_LEN && forall k :: 0 <= k < |name| ==> name[k] != SLASH
    ensures Resolve(v, i, name) == Last(v, i, name)
  {
    hide FindInDir;
    SingleComponent(name);
  }

  /** Where resolution starts, and how much of the path it passes over. */
  function Start(cur: nat, path: Path): nat
    requires path != []
  {
    if FromRoot(path) then ROOT else cur
  }

  function Skipped(path: Path): nat
    requires path != []
  {
    if FromRoot(path) && path[0] == TILDE then 1 else 0
  }

  /** Cutting a path at a slash does not change where it starts. */
  lemma PrefixStart(path: Path, n: nat)
    requires 0 < n < |path| && path[n] == SLASH
    ensures FromRoot(path[..n]) == FromRoot(path) && Skipped(path[..n]) == Skipped(path)
  {
    var p := path[..n];
    assert p[0] == path[0] && (n > 1 ==> p[1] == path[1]);
  }

  lemma ParentSteps(v: Volume, cur: nat, path: Path, n: nat)
    requires Shape(v) && 0 < n < |path| && path[n - 1] == SLASH
    ensures Skipped(path) <= n - 1
    ensures ParentOf(v, cur, if n == 1 then [SLASH] else path[..n - 1])
      == Resolve(v, Start(cur, path), path[Skipped(path)..n - 1])
  {
    hide FindInDir, Resolve;
    if n == 1 {
      ResolveSkips(v, ROOT, [SLASH]);
      assert [SLASH][1..] == path[0..0];
    } else {
      PrefixStart(path, n - 1);
      assert path[..n - 1][Skipped(path)..] == path[Skipped(path)..n - 1];
    }
  }

  /** A path resolves to what its last name leads to from its parent; only "~" is not looked up as a
      name, and only "." is not looked up at all. */
  lemma ResolvesThroughParent(v: Volume, cur: nat, path: Path)
    requires Shape(v) && SplitParent(path).Some? && path != [TILDE]
    ensures var parts := SplitParent(path).value;
      FindByPath(v, cur, path)
      == match ParentOf(v, cur, parts.parent) { case None => None case Some(d) => Last(v, d, parts.name) }
  {
    hide FindInDir, Resolve, NameStart, NextComponent, Last;
    var n := NameStart(path);
    var name := path[n..];
    if n == 0 {
      assert name == path;
      ResolveSingle(v, cur, name);
    } else {
      ParentSteps(v, cur, path, n);
      var steps := path[Skipped(path)..n - 1];
      assert path[Skipped(path)..] == steps + ([SLASH] + name);
      ResolveAppend(v, Start(cur, path), steps, name, [SLASH] + name);
    }
  }
}
