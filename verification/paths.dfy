/** The parts of Python's `os.path` the core uses to name files, in their
    POSIX form: `join`, `basename` and the stem half of `splitext`. */
module Paths {
  import opened Text

  const Sep: char := '/'

  /** The index of the last `c` in `s`, or -1. */
  function LastIndexOf(s: string, c: char): (i: int)
    ensures -1 <= i < |s|
    ensures i >= 0 ==> s[i] == c
    ensures forall k :: i < k < |s| ==> s[k] != c
  {
    if s == [] then -1
    else if s[|s| - 1] == c then |s| - 1
    else LastIndexOf(s[..|s| - 1], c)
  }

  /** The last `c` of `a + [c] + b` is the one after `a` when `b` has none. */
  lemma {:induction false} LastIndexAfter(a: string, c: char, b: string)
    requires c !in b
    ensures LastIndexOf(a + [c] + b, c) == |a|
    decreases |b|
  {
    var s := a + [c] + b;
    if b != [] {
      assert s[|s| - 1] == b[|b| - 1];
      assert s[..|s| - 1] == a + [c] + b[..|b| - 1];
      LastIndexAfter(a, c, b[..|b| - 1]);
    }
  }

  /** `os.path.join(dir, name)`: `name` alone when it is absolute, otherwise
      `dir` and `name` with one separator between them. */
  function PathJoin(dir: string, name: string): (p: string)
    ensures |name| <= |p| && p[|p| - |name|..] == name
  {
    if |name| > 0 && name[0] == Sep then name
    else if dir == [] || dir[|dir| - 1] == Sep then dir + name
    else dir + [Sep] + name
  }

  /** `os.path.basename(p)`: what follows the last separator. */
  function Basename(p: string): (b: string)
    decreases |p|
  {
    if p == [] || p[|p| - 1] == Sep then []
    else Basename(p[..|p| - 1]) + [p[|p| - 1]]
  }

  /** The base name holds no separator and ends the path. */
  lemma {:induction false} BasenameIsLastPart(p: string)
    ensures Sep !in Basename(p)
    ensures |Basename(p)| <= |p| && p[|p| - |Basename(p)|..] == Basename(p)
    decreases |p|
  {
    if p != [] && p[|p| - 1] != Sep {
      var init := p[..|p| - 1];
      var b := Basename(init);
      BasenameIsLastPart(init);
      assert p[|p| - |b| - 1..] == init[|init| - |b|..] + [p[|p| - 1]];
    }
  }

  /** The base name of a path whose last part, after a separator or at the
      start, holds no separator is that last part. */
  lemma {:induction false} BasenameOfPlain(dir: string, name: string)
    requires Sep !in name
    requires dir == [] || dir[|dir| - 1] == Sep
    ensures Basename(dir + name) == name
    decreases |name|
  {
    if name == [] {
      assert dir + name == dir;
    } else {
      var init := name[..|name| - 1];
      assert (dir + name)[..|dir + name| - 1] == dir + init;
      assert (dir + name)[|dir + name| - 1] == name[|name| - 1];
      BasenameOfPlain(dir, init);
      assert init + [name[|name| - 1]] == name;
    }
  }

  /** The base name of a joined path is the joined name when that name is a
      plain file name. */
  lemma BasenameOfJoin(dir: string, name: string)
    requires Sep !in name
    ensures Basename(PathJoin(dir, name)) == name
  {
    if name == [] {
      assert PathJoin(dir, name) == dir || PathJoin(dir, name) == dir + [Sep];
      if dir != [] && dir[|dir| - 1] != Sep {
        assert PathJoin(dir, name) == dir + [Sep];
      } else {
        assert PathJoin(dir, name) == dir;
      }
    } else if dir == [] || dir[|dir| - 1] == Sep {
      BasenameOfPlain(dir, name);
    } else {
      assert dir + [Sep] + name == (dir + [Sep]) + name;
      BasenameOfPlain(dir + [Sep], name);
    }
  }

  /** Whether some character before index `d` of `s` is not a dot. */
  predicate NonDotBefore(s: string, d: int)
    requires d <= |s|
  {
    exists k :: 0 <= k < d && s[k] != '.'
  }

  /** `os.path.splitext(name)[0]` for a name without separators: the name
      up to its last dot, unless that dot is preceded only by dots (a
      leading-dot name has no extension). */
  function Stem(name: string): (r: string)
    ensures |r| <= |name| && r == name[..|r|]
  {
    var d := LastIndexOf(name, '.');
    if d > 0 && NonDotBefore(name, d) then name[..d] else name
  }

  /** A name with no dots and at least one character, followed by an
      extension, has that name as its stem. */
  lemma StemOfExtension(base: string, ext: string)
    requires base != [] && '.' !in base && '.' !in ext
    ensures Stem(base + ['.'] + ext) == base
  {
    var n := base + ['.'] + ext;
    LastIndexAfter(base, '.', ext);
    assert n[0] == base[0] && n[0] != '.';
    assert n[..|base|] == base;
  }
}
