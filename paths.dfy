/** Relative links between pages (add_navigation.py, `get_relative_path`): the
    POSIX `os.path.relpath` on paths given as lists of components below the
    course root. */
module RelPaths {

  /** A path below the course root, one folder or file name per component. */
  type Path = seq<string>

  /** The folder that holds a file (`Path.parent`). */
  function Parent(p: Path): Path {
    if |p| == 0 then [] else p[..|p| - 1]
  }

  /** Length of the longest common leading run of components. */
  function CommonPrefix(a: Path, b: Path): (n: nat)
    ensures n <= |a| && n <= |b|
    ensures a[..n] == b[..n]
    ensures n < |a| && n < |b| ==> a[n] != b[n]
  {
    if |a| == 0 || |b| == 0 || a[0] != b[0] then 0
    else
      var n := 1 + CommonPrefix(a[1..], b[1..]);
      assert a[..n] == [a[0]] + a[1..][..n - 1];
      assert b[..n] == [b[0]] + b[1..][..n - 1];
      n
  }

  function Ups(n: nat): (r: Path)
    ensures |r| == n && forall i :: 0 <= i < n ==> r[i] == ".."
  {
    if n == 0 then [] else Ups(n - 1) + [".."]
  }

  /** The components of `relpath(to, start)`: one `..` per folder of `start` below the
      common part, then the rest of `to`; `.` when nothing is left. */
  function RelParts(start: Path, to: Path): (r: Path)
    ensures |r| > 0
  {
    var c := CommonPrefix(start, to);
    var parts := Ups(|start| - c) + to[c..];
    if |parts| == 0 then ["."] else parts
  }

  /** Components joined with `/`. */
  function Join(parts: Path): string {
    if |parts| == 0 then ""
    else if |parts| == 1 then parts[0]
    else parts[0] + "/" + Join(parts[1..])
  }

  /** `get_relative_path(from_file, to_file)` on a POSIX system. */
  function RelPath(fromFile: Path, toFile: Path): string {
    Join(RelParts(Parent(fromFile), toFile))
  }

  /** Following relative components from a folder: `..` goes up, `.` stays. */
  function Resolve(dir: Path, parts: Path): Path
    decreases |parts|
  {
    if |parts| == 0 then dir
    else if parts[0] == ".." then Resolve(Parent(dir), parts[1..])
    else if parts[0] == "." then Resolve(dir, parts[1..])
    else Resolve(dir + [parts[0]], parts[1..])
  }

  /** Components that name real folders and files. */
  predicate Proper(p: Path) {
    forall i :: 0 <= i < |p| ==> p[i] != ".." && p[i] != "."
  }

  lemma {:induction false} ResolveProper(dir: Path, parts: Path)
    requires Proper(parts)
    ensures Resolve(dir, parts) == dir + parts
    decreases |parts|
  {
    if |parts| > 0 {
      ResolveProper(dir + [parts[0]], parts[1..]);
      assert dir + [parts[0]] + parts[1..] == dir + parts;
    }
  }

  lemma {:induction false} ResolveUps(dir: Path, n: nat, rest: Path)
    requires n <= |dir|
    ensures Resolve(dir, Ups(n) + rest) == Resolve(dir[..|dir| - n], rest)
  {
    if n > 0 {
      assert Ups(n) + rest == [".."] + (Ups(n - 1) + rest) by {
        forall i | 0 <= i < n ensures (Ups(n) + rest)[i] == ([".."] + (Ups(n - 1) + rest))[i] {
        }
      }
      ResolveUps(Parent(dir), n - 1, rest);
      assert Parent(dir)[..|Parent(dir)| - (n - 1)] == dir[..|dir| - n];
    } else {
      assert Ups(0) + rest == rest;
      assert dir[..|dir|] == dir;
    }
  }

  /** Round trip: following `relpath(to, start)` from `start` leads back to `to`. */
  lemma RelPartsResolve(start: Path, to: Path)
    requires Proper(to)
    ensures Resolve(start, RelParts(start, to)) == to
  {
    var c := CommonPrefix(start, to);
    var parts := Ups(|start| - c) + to[c..];
    ResolveUps(start, |start| - c, to[c..]);
    assert Proper(to[c..]);
    ResolveProper(start[..c], to[c..]);
    assert start[..c] + to[c..] == to;
    if |parts| == 0 {
      assert start[..c] == start && to[c..] == [];
    }
  }

  /** A link to a file of a sibling folder: `../<folder>/<file>`. */
  lemma RelPathToSibling(pattern: string, lesson: string, page: string, other: string, target: string)
    requires lesson != other
    ensures RelPath([pattern, lesson, page], [pattern, other, target]) == "../" + other + "/" + target
  {
    var start, to := [pattern, lesson], [pattern, other, target];
    assert Parent([pattern, lesson, page]) == start;
    assert CommonPrefix(start[1..], to[1..]) == 0;
    assert CommonPrefix(start, to) == 1;
    assert Ups(1) == [".."];
    assert RelParts(start, to) == ["..", other, target];
    JoinThree("..", other, target);
  }

  lemma JoinThree(a: string, b: string, c: string)
    ensures Join([a, b, c]) == a + "/" + b + "/" + c
  {
    assert [a, b, c][1..] == [b, c];
    assert [b, c][1..] == [c];
    assert Join([b, c]) == b + "/" + c;
    assert a + "/" + (b + "/" + c) == a + "/" + b + "/" + c;
  }

  /** A link to a file of another pattern folder: `../../<pattern>/<folder>/<file>`. */
  lemma RelPathToOtherPattern(pattern: string, lesson: string, page: string,
                              otherPattern: string, other: string, target: string)
    requires pattern != otherPattern
    ensures RelPath([pattern, lesson, page], [otherPattern, other, target])
      == "../../" + otherPattern + "/" + other + "/" + target
  {
    var start, to := [pattern, lesson], [otherPattern, other, target];
    assert Parent([pattern, lesson, page]) == start;
    assert CommonPrefix(start, to) == 0;
    assert Ups(2) == ["..", ".."];
    assert RelParts(start, to) == ["..", "..", otherPattern, other, target];
    assert ["..", "..", otherPattern, other, target][1..] == ["..", otherPattern, other, target];
    assert ["..", otherPattern, other, target][1..] == [otherPattern, other, target];
    JoinThree(otherPattern, other, target);
    var tail := otherPattern + "/" + other + "/" + target;
    assert Join(["..", "..", otherPattern, other, target]) == ".." + "/" + (".." + "/" + tail);
    assert ".." + "/" + (".." + "/" + tail) == "../../" + otherPattern + "/" + other + "/" + target;
  }
}
