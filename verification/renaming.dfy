/** `rename_files_in_directory`: undoing the `%2F` escape that Velociraptor
    puts into the names of artifact files and directories inside an
    extracted collection. The file system is a tree value: the paths of its
    entries (relative to the directory being renamed) and which of them are
    directories. */
module Renaming {
  import opened Text
  import opened Names

  /** A path below the renamed directory, one name per component. */
  type Path = seq<string>

  /** Every entry below the root, and those entries that are directories. */
  datatype Tree = Tree(entries: set<Path>, dirs: set<Path>)

  /** Directories are entries, the root itself is not an entry, and the
      parent of every nested entry is a directory. */
  predicate Valid(t: Tree) {
    && t.dirs <= t.entries
    && [] !in t.entries
    && forall p :: p in t.entries && |p| > 1 ==> p[..|p| - 1] in t.dirs
  }

  function Files(t: Tree): set<Path> {
    t.entries - t.dirs
  }

  function Parent(p: Path): Path
    requires p != []
  {
    p[..|p| - 1]
  }

  function Name(p: Path): string
    requires p != []
  {
    p[|p| - 1]
  }

  /** `'%2F' in name`. */
  predicate Encoded(name: string) {
    Contains(name, EncodedSlash)
  }

  /** `old_path.parent / old_path.name.replace('%2F', '.')`: the same
      directory, the name without any `%2F`; a plain name is its own target. */
  function Target(p: Path): (q: Path)
    requires p != []
    ensures q != [] && Parent(q) == Parent(p) && !Encoded(Name(q))
    ensures !Encoded(Name(p)) ==> q == p
  {
    PlainKept(Name(p));
    Parent(p) + [Desanitize(Name(p))]
  }

  lemma PlainKept(name: string)
    ensures !Encoded(name) ==> Desanitize(name) == name
  {
    if !Encoded(name) {
      DesanitizePlain(name);
    }
  }

  /** `p` is `root` or lies below it. */
  predicate Under(root: Path, p: Path) {
    |root| <= |p| && p[..|root|] == root
  }

  /** Where `p` ends up when `from` is renamed to `to`. */
  function Moved(p: Path, from: Path, to: Path): Path {
    if Under(from, p) then to + p[|from|..] else p
  }

  /** `Path.rename(from, to)`: the entry and everything below it move. */
  function Rename(t: Tree, from: Path, to: Path): Tree {
    Tree(set p | p in t.entries :: Moved(p, from, to), set p | p in t.dirs :: Moved(p, from, to))
  }

  /** One step of either pass of `rename_files_in_directory`: `p` is renamed
      to its target unless the target exists (the `exists()` check) or `p`
      is gone (the `rename` raises and the error is only reported). */
  function RenameStep(t: Tree, p: Path): Tree {
    if p == [] || p !in t.entries || Target(p) in t.entries then t
    else Rename(t, p, Target(p))
  }

  /** The steps for `ps`, in order. */
  function RenameAll(t: Tree, ps: seq<Path>): Tree
    decreases |ps|
  {
    if ps == [] then t else RenameStep(RenameAll(t, ps[..|ps| - 1]), ps[|ps| - 1])
  }

  /** An entry strictly below another one has that one as a directory. */
  lemma {:induction false} AncestorIsDir(t: Tree, a: Path, q: Path)
    requires Valid(t) && q in t.entries
    requires 1 <= |a| < |q| && q[..|a|] == a
    ensures a in t.dirs
    decreases |q|
  {
    var up := q[..|q| - 1];
    assert up in t.dirs;
    if |a| < |up| {
      assert up[..|a|] == a;
      AncestorIsDir(t, a, up);
    } else {
      assert up == a;
    }
  }

  /** The parent of a moved nested entry is a moved directory. */
  lemma MovedParent(t: Tree, p: Path, q: Path) returns (up: Path)
    requires Valid(t) && p != [] && p in t.entries && q in t.entries
    requires |Moved(q, p, Target(p))| > 1
    ensures up in t.dirs
    ensures Moved(up, p, Target(p)) == Moved(q, p, Target(p))[..|Moved(q, p, Target(p))| - 1]
  {
    var to := Target(p);
    var q' := Moved(q, p, to);
    if Under(p, q) && |q| == |p| {
      assert q == p && q' == to;
      up := p[..|p| - 1];
      assert !Under(p, up);
    } else {
      up := q[..|q| - 1];
      if Under(p, q) {
        DropLastParts(q, |p|);
        var rest := q[|p|..];
        assert q' == to + rest;
        DropLastOfAppend(to, rest);
      } else if |p| <= |up| {
        DropLastParts(q, |p|);
      }
    }
  }

  /** Dropping the last component commutes with slicing below it. */
  lemma DropLastParts(q: Path, n: nat)
    requires n < |q|
    ensures q[..|q| - 1][..n] == q[..n]
    ensures q[n..][..|q| - n - 1] == q[..|q| - 1][n..]
  {
  }

  lemma DropLastOfAppend(a: Path, b: Path)
    requires b != []
    ensures (a + b)[..|a + b| - 1] == a + b[..|b| - 1]
  {
  }

  /** A rename step keeps the tree well formed. */
  lemma RenameStepValid(t: Tree, p: Path)
    requires Valid(t)
    ensures Valid(RenameStep(t, p))
  {
    if p != [] && p in t.entries && Target(p) !in t.entries {
      var to := Target(p);
      var r := Rename(t, p, to);
      forall q' | q' in r.entries && |q'| > 1
        ensures q'[..|q'| - 1] in r.dirs
      {
        var q :| q in t.entries && Moved(q, p, to) == q';
        var up := MovedParent(t, p, q);
        assert Moved(up, p, to) in r.dirs;
      }
      assert r.dirs <= r.entries;
      assert [] !in r.entries by {
        forall q | q in t.entries ensures Moved(q, p, to) != [] {
        }
      }
    }
  }

  /** The existence check means a step never lands two entries on one path:
      every entry keeps a path of its own. */
  lemma RenameStepInjective(t: Tree, p: Path, a: Path, b: Path)
    requires Valid(t) && a in t.entries && b in t.entries
    requires p != [] && p in t.entries && Target(p) !in t.entries
    requires Moved(a, p, Target(p)) == Moved(b, p, Target(p))
    ensures a == b
  {
    var to := Target(p);
    if Under(p, a) && Under(p, b) {
      assert a == p + a[|p|..] && b == p + b[|p|..];
      assert a[|p|..] == (to + a[|p|..])[|to|..];
    } else if Under(p, a) {
      HitsTargetSubtree(t, p, a, b);
    } else if Under(p, b) {
      HitsTargetSubtree(t, p, b, a);
    }
  }

  /** An entry outside `p` cannot be where something below `p` is moved to. */
  lemma HitsTargetSubtree(t: Tree, p: Path, a: Path, b: Path)
    requires Valid(t) && b in t.entries
    requires p != [] && Target(p) !in t.entries
    requires Under(p, a) && !Under(p, b)
    ensures Moved(a, p, Target(p)) != b
  {
    var to := Target(p);
    assert to != b;
    if |b| > |to| && b[..|to|] == to {
      AncestorIsDir(t, to, b);
    }
  }

  /** Paths listed with multiplicity one at most. */
  ghost predicate Distinct(ps: seq<Path>) {
    forall p :: multiset(ps)[p] <= 1
  }

  lemma DistinctAt(ps: seq<Path>, i: nat, j: nat)
    requires Distinct(ps) && i < j < |ps|
    ensures ps[i] != ps[j]
  {
    var x, y := ps[i], ps[j];
    assert ps == ps[..j] + ps[j..];
    assert x == ps[..j][i] && y == ps[j..][0];
    assert x in multiset(ps[..j]) && y in multiset(ps[j..]);
    assert multiset(ps) == multiset(ps[..j]) + multiset(ps[j..]);
    assert multiset(ps)[x] <= 1;
  }

  /** Deeper paths (more components) before shallower ones. */
  predicate DeepestFirstOrder(ps: seq<Path>) {
    forall i, j :: 0 <= i < j < |ps| ==> |ps[j]| <= |ps[i]|
  }

  /** `p` placed after every path at least as deep as itself. */
  function InsertByDepth(s: seq<Path>, p: Path): (r: seq<Path>)
    ensures multiset(r) == multiset(s) + multiset{p}
  {
    if s == [] then [p]
    else if |s[0]| < |p| then [p] + s
    else
      assert s == [s[0]] + s[1..];
      [s[0]] + InsertByDepth(s[1..], p)
  }

  lemma {:induction false} InsertByDepthOrdered(s: seq<Path>, p: Path)
    requires DeepestFirstOrder(s)
    ensures DeepestFirstOrder(InsertByDepth(s, p))
    decreases |s|
  {
    if s != [] && |s[0]| >= |p| {
      var rest := InsertByDepth(s[1..], p);
      InsertByDepthOrdered(s[1..], p);
      forall k | 0 <= k < |s[1..]| ensures |s[1..][k]| <= |s[0]| {
        assert s[1..][k] == s[k + 1];
      }
      InsertByDepthBound(s[1..], p, |s[0]|);
      PrependOrdered(s[0], rest);
    }
  }

  /** Inserting keeps every path within a depth bound that all meet. */
  lemma InsertByDepthBound(s: seq<Path>, p: Path, n: nat)
    requires forall k :: 0 <= k < |s| ==> |s[k]| <= n
    requires |p| <= n
    ensures forall k :: 0 <= k < |InsertByDepth(s, p)| ==> |InsertByDepth(s, p)[k]| <= n
  {
    var r := InsertByDepth(s, p);
    forall k | 0 <= k < |r| ensures |r[k]| <= n {
      var x := r[k];
      assert x in multiset(r);
      if x != p {
        assert x in multiset(s);
        var m :| 0 <= m < |s| && s[m] == x;
      }
    }
  }

  /** A path at least as deep as all of an ordered list can go in front. */
  lemma PrependOrdered(x: Path, rest: seq<Path>)
    requires DeepestFirstOrder(rest)
    requires forall k :: 0 <= k < |rest| ==> |rest[k]| <= |x|
    ensures DeepestFirstOrder([x] + rest)
  {
    var r := [x] + rest;
    forall i, j | 0 <= i < j < |r|
      ensures |r[j]| <= |r[i]|
    {
      assert r[j] == rest[j - 1];
      if i > 0 {
        assert r[i] == rest[i - 1];
      }
    }
  }

  /** `sort(key=lambda x: len(x.parts), reverse=True)`: deepest first, a
      rearrangement of the list. */
  function DeepestFirst(ps: seq<Path>): (r: seq<Path>)
    ensures multiset(r) == multiset(ps)
    ensures DeepestFirstOrder(r)
  {
    if ps == [] then []
    else
      assert ps == ps[..|ps| - 1] + [ps[|ps| - 1]];
      InsertByDepthOrdered(DeepestFirst(ps[..|ps| - 1]), ps[|ps| - 1]);
      InsertByDepth(DeepestFirst(ps[..|ps| - 1]), ps[|ps| - 1])
  }

  /** Deepest first, no step moves a path still waiting for its turn: each
      listed entry (and directory) is still where it was listed when it is
      renamed. */
  lemma {:induction false} StaysUntilItsTurn(t: Tree, ps: seq<Path>, i: nat, k: nat)
    requires DeepestFirstOrder(ps) && Distinct(ps)
    requires k <= i < |ps|
    ensures ps[i] in t.entries ==> ps[i] in RenameAll(t, ps[..k]).entries
    ensures ps[i] in t.dirs ==> ps[i] in RenameAll(t, ps[..k]).dirs
    decreases k
  {
    if k > 0 {
      assert ps[..k][..k - 1] == ps[..k - 1];
      StaysUntilItsTurn(t, ps, i, k - 1);
      var u := RenameAll(t, ps[..k - 1]);
      var p := ps[k - 1];
      DistinctAt(ps, k - 1, i);
      if p != [] && p in u.entries && Target(p) !in u.entries {
        assert |p| >= |ps[i]| && ps[i][..|ps[i]|] == ps[i];
        assert !Under(p, ps[i]);
        assert Moved(ps[i], p, Target(p)) == ps[i];
      }
    }
  }

  /** Renaming the directories deepest first, every listed directory is
      still in place when its turn comes. */
  lemma DirectoriesStayUntilTheirTurn(t: Tree, ps: seq<Path>)
    requires DeepestFirstOrder(ps) && Distinct(ps)
    ensures forall i :: 0 <= i < |ps| && ps[i] in t.dirs ==> ps[i] in RenameAll(t, ps[..i]).dirs
  {
    forall i | 0 <= i < |ps| && ps[i] in t.dirs
      ensures ps[i] in RenameAll(t, ps[..i]).dirs
    {
      StaysUntilItsTurn(t, ps, i, i);
    }
  }

  /** The entries of `listing` that are in `t`, directories or files as
      `dirs` says, whose names hold `%2F`, in listing order (the `rglob`
      scans). */
  function EncodedEntries(t: Tree, listing: seq<Path>, dirs: bool): (r: seq<Path>)
    ensures forall p :: p in r <==> p in listing && p != [] && p in t.entries && (p in t.dirs <==> dirs) && Encoded(Name(p))
    ensures multiset(r) <= multiset(listing)
    decreases |listing|
  {
    if listing == [] then []
    else
      var p := listing[|listing| - 1];
      var rest := EncodedEntries(t, listing[..|listing| - 1], dirs);
      assert listing == listing[..|listing| - 1] + [p];
      if p != [] && p in t.entries && (p in t.dirs <==> dirs) && Encoded(Name(p)) then rest + [p] else rest
  }

  /** The directories among `ps` that are in `t`, in order. */
  function Subdirs(t: Tree, ps: seq<Path>): (r: seq<Path>)
    ensures forall p :: p in r <==> p in ps && p in t.dirs
    decreases |ps|
  {
    if ps == [] then []
    else
      var p := ps[|ps| - 1];
      var rest := Subdirs(t, ps[..|ps| - 1]);
      assert ps == ps[..|ps| - 1] + [p];
      if p in t.dirs then rest + [p] else rest
  }

  /** The rename pass of `collector_manager.py`: first the `%2F` files of
      the first listing, then the `%2F` directories of a second listing of
      the tree as the files left it, deepest first. */
  function CollectorPass(t: Tree, listing: seq<Path>, relisting: seq<Path>): Tree {
    var afterFiles := RenameAll(t, EncodedEntries(t, listing, false));
    RenameAll(afterFiles, DeepestFirst(EncodedEntries(afterFiles, relisting, true)))
  }

  /** `rename_files_in_directory` of `collector_manager.py`. `listing` and
      `relisting` are the orders the two `rglob` scans yield the entries
      in. */
  method RenameFilesInDirectory(t: Tree, listing: seq<Path>, relisting: seq<Path>) returns (r: Tree)
    ensures r == CollectorPass(t, listing, relisting)
  {
    var files := EncodedEntries(t, listing, false);
    r := t;
    for i := 0 to |files|
      invariant r == RenameAll(t, files[..i])
    {
      assert files[..i + 1][..i] == files[..i];
      r := RenameStep(r, files[i]);
    }
    assert files[..|files|] == files;
    var afterFiles := r;
    var dirs := DeepestFirst(EncodedEntries(afterFiles, relisting, true));
    for i := 0 to |dirs|
      invariant r == RenameAll(afterFiles, dirs[..i])
    {
      assert dirs[..i + 1][..i] == dirs[..i];
      r := RenameStep(r, dirs[i]);
    }
    assert dirs[..|dirs|] == dirs;
  }

  /** No file name holds `%2F`. */
  predicate NoEncodedFile(t: Tree) {
    forall p :: p in Files(t) && p != [] ==> !Encoded(Name(p))
  }

  /** A step never brings back a `%2F` file name: the renamed entry gets a
      clean name and everything below it keeps its name. */
  lemma RenameStepKeepsClean(t: Tree, p: Path)
    requires NoEncodedFile(t)
    ensures NoEncodedFile(RenameStep(t, p))
  {
    if p != [] && p in t.entries && Target(p) !in t.entries {
      var to := Target(p);
      var r := Rename(t, p, to);
      forall q' | q' in Files(r) && q' != []
        ensures !Encoded(Name(q'))
      {
        var q :| q in t.entries && Moved(q, p, to) == q';
        assert q !in t.dirs;
        if Under(p, q) && |q| > |p| {
          assert Name(q') == Name(q);
        }
      }
    }
  }

  lemma {:induction false} RenameAllKeepsClean(t: Tree, ps: seq<Path>)
    requires NoEncodedFile(t)
    ensures NoEncodedFile(RenameAll(t, ps))
    decreases |ps|
  {
    if ps != [] {
      RenameAllKeepsClean(t, ps[..|ps| - 1]);
      RenameStepKeepsClean(RenameAll(t, ps[..|ps| - 1]), ps[|ps| - 1]);
    }
  }

  /** The targets of the first `k` listed files. */
  function TargetsOf(fs: seq<Path>, k: nat): set<Path>
    requires k <= |fs|
  {
    set j | 0 <= j < k && fs[j] != [] :: Target(fs[j])
  }

  /** The files of `fs` can all be renamed: listed once, none with a target
      that already exists or that another listed file takes. */
  ghost predicate FilesRenameable(t: Tree, fs: seq<Path>) {
    && Distinct(fs)
    && (forall j :: 0 <= j < |fs| ==> fs[j] != [] && fs[j] in Files(t) && Target(fs[j]) !in t.entries)
    && (forall i, j :: 0 <= i < j < |fs| ==> Target(fs[i]) != Target(fs[j]))
  }

  /** What holds after the first `k` files of the file pass. */
  ghost predicate FilePassState(t: Tree, fs: seq<Path>, u: Tree, k: nat)
    requires FilesRenameable(t, fs) && k <= |fs|
  {
    && Valid(u)
    && u.dirs == t.dirs
    && (forall q :: q in u.entries ==> q in t.entries || q in TargetsOf(fs, k))
    && (forall j :: k <= j < |fs| ==> fs[j] in u.entries)
    && (forall q :: q in Files(u) && q != [] && Encoded(Name(q)) ==> q in fs[k..])
  }

  /** Nothing lies below a file. */
  lemma NothingBelowFile(u: Tree, p: Path, q: Path)
    requires Valid(u) && p in Files(u) && q in u.entries && Under(p, q)
    ensures q == p
  {
    if |q| > |p| {
      AncestorIsDir(u, p, q);
    }
  }

  /** Renaming a file moves nothing but that file. */
  lemma RenameFile(u: Tree, p: Path, to: Path)
    requires Valid(u) && p in Files(u)
    ensures Rename(u, p, to).dirs == u.dirs
    ensures Rename(u, p, to).entries == u.entries - {p} + {to}
  {
    var r := Rename(u, p, to);
    forall x | x in u.entries && x != p
      ensures Moved(x, p, to) == x
    {
      if Under(p, x) {
        NothingBelowFile(u, p, x);
      }
    }
    assert r.dirs == u.dirs by {
      forall x | x in r.dirs ensures x in u.dirs {
        var d :| d in u.dirs && Moved(d, p, to) == x;
      }
      forall x | x in u.dirs ensures x in r.dirs {
        assert Moved(x, p, to) == x;
      }
    }
    assert Moved(p, p, to) == to;
    assert r.entries == u.entries - {p} + {to} by {
      forall x | x in r.entries ensures x in u.entries - {p} + {to} {
        var e :| e in u.entries && Moved(e, p, to) == x;
      }
      forall x | x in u.entries - {p} + {to} ensures x in r.entries {
        if x != to {
          assert Moved(x, p, to) == x;
        }
      }
    }
  }

  /** The target of the next file is free: it is not an original entry,
      and no earlier file took it. */
  lemma NextTargetFree(t: Tree, fs: seq<Path>, u: Tree, k: nat)
    requires FilesRenameable(t, fs) && k < |fs|
    requires forall q :: q in u.entries ==> q in t.entries || q in TargetsOf(fs, k)
    ensures Target(fs[k]) !in u.entries
  {
    assert forall j :: 0 <= j < k ==> Target(fs[j]) != Target(fs[k]);
  }

  lemma TargetsGrow(t: Tree, fs: seq<Path>, k: nat, old_entries: set<Path>, new_entries: set<Path>)
    requires FilesRenameable(t, fs) && k < |fs|
    requires forall q :: q in old_entries ==> q in t.entries || q in TargetsOf(fs, k)
    requires new_entries == old_entries - {fs[k]} + {Target(fs[k])}
    ensures forall q :: q in new_entries ==> q in t.entries || q in TargetsOf(fs, k + 1)
  {
    forall q | q in new_entries
      ensures q in t.entries || q in TargetsOf(fs, k + 1)
    {
      if q == Target(fs[k]) {
        assert q in TargetsOf(fs, k + 1);
      } else if q !in t.entries {
        assert q in TargetsOf(fs, k);
        var j :| 0 <= j < k && fs[j] != [] && Target(fs[j]) == q;
        assert q in TargetsOf(fs, k + 1);
      }
    }
  }

  lemma ListedRemain(fs: seq<Path>, k: nat, old_entries: set<Path>, new_entries: set<Path>, to: Path)
    requires Distinct(fs) && k < |fs|
    requires forall j :: k <= j < |fs| ==> fs[j] in old_entries
    requires new_entries == old_entries - {fs[k]} + {to}
    ensures forall j :: k + 1 <= j < |fs| ==> fs[j] in new_entries
  {
    forall j | k + 1 <= j < |fs|
      ensures fs[j] in new_entries
    {
      DistinctAt(fs, k, j);
    }
  }

  lemma EncodedListed(fs: seq<Path>, k: nat, u: Tree, r: Tree)
    requires k < |fs| && fs[k] != []
    requires forall q :: q in Files(u) && q != [] && Encoded(Name(q)) ==> q in fs[k..]
    requires r.dirs == u.dirs && r.entries == u.entries - {fs[k]} + {Target(fs[k])}
    ensures forall q :: q in Files(r) && q != [] && Encoded(Name(q)) ==> q in fs[k + 1..]
  {
    forall q | q in Files(r) && q != [] && Encoded(Name(q))
      ensures q in fs[k + 1..]
    {
      assert q in Files(u) && q != fs[k];
      assert q in fs[k..];
      var j :| k <= j < |fs| && fs[j] == q;
      assert fs[j] == fs[k..][j - k];
      assert fs[j] == fs[k + 1..][j - k - 1];
    }
  }

  /** One file of the file pass: its target is free, so it is renamed, and
      only it moves. */
  lemma FilePassStep(t: Tree, fs: seq<Path>, u: Tree, k: nat)
    requires FilesRenameable(t, fs) && k < |fs|
    requires FilePassState(t, fs, u, k)
    ensures FilePassState(t, fs, RenameStep(u, fs[k]), k + 1)
  {
    var p := fs[k];
    var to := Target(p);
    NextTargetFree(t, fs, u, k);
    var r := RenameStep(u, p);
    assert r == Rename(u, p, to);
    RenameStepValid(u, p);
    RenameFile(u, p, to);
    TargetsGrow(t, fs, k, u.entries, r.entries);
    ListedRemain(fs, k, u.entries, r.entries, to);
    EncodedListed(fs, k, u, r);
  }

  lemma {:induction false} FilePass(t: Tree, fs: seq<Path>, k: nat)
    requires Valid(t) && FilesRenameable(t, fs) && k <= |fs|
    requires forall q :: q in Files(t) && q != [] && Encoded(Name(q)) ==> q in fs
    ensures FilePassState(t, fs, RenameAll(t, fs[..k]), k)
    decreases k
  {
    if k == 0 {
      FilePassStart(t, fs);
    } else {
      FilePass(t, fs, k - 1);
      FilePassNext(t, fs, k);
    }
  }

  /** The step of the pass, stated on the renamed prefixes. */
  lemma FilePassNext(t: Tree, fs: seq<Path>, k: nat)
    requires FilesRenameable(t, fs) && 0 < k <= |fs|
    requires FilePassState(t, fs, RenameAll(t, fs[..k - 1]), k - 1)
    ensures FilePassState(t, fs, RenameAll(t, fs[..k]), k)
  {
    FilePassStep(t, fs, RenameAll(t, fs[..k - 1]), k - 1);
    RenameAllPrefix(t, fs, k);
  }

  /** Before the pass, the tree is as it was and every `%2F` file is still
      to come. */
  lemma FilePassStart(t: Tree, fs: seq<Path>)
    requires Valid(t) && FilesRenameable(t, fs)
    requires forall q :: q in Files(t) && q != [] && Encoded(Name(q)) ==> q in fs
    ensures FilePassState(t, fs, RenameAll(t, fs[..0]), 0)
  {
    assert fs[..0] == [] && fs[0..] == fs;
    forall q | q in Files(t) && q != [] && Encoded(Name(q))
      ensures q in fs[0..]
    {
    }
  }

  /** Renaming the first `k` entries is renaming the first `k - 1`, then
      the `k`-th. */
  lemma RenameAllPrefix(t: Tree, ps: seq<Path>, k: nat)
    requires 0 < k <= |ps|
    ensures RenameAll(t, ps[..k]) == RenameStep(RenameAll(t, ps[..k - 1]), ps[k - 1])
  {
    assert ps[..k][..k - 1] == ps[..k - 1];
  }

  /** The property the pass exists for: when every `%2F` file is listed and
      none of their targets is taken, no file name in the tree holds `%2F`
      afterwards, however deep the file sat below renamed directories. */
  lemma CollectorPassClean(t: Tree, listing: seq<Path>, relisting: seq<Path>)
    requires Valid(t)
    requires forall q :: q in Files(t) && q != [] && Encoded(Name(q)) ==> q in listing
    requires FilesRenameable(t, EncodedEntries(t, listing, false))
    ensures Valid(CollectorPass(t, listing, relisting))
    ensures NoEncodedFile(CollectorPass(t, listing, relisting))
  {
    var fs := EncodedEntries(t, listing, false);
    FilePass(t, fs, |fs|);
    assert fs[..|fs|] == fs;
    var afterFiles := RenameAll(t, fs);
    assert fs[|fs|..] == [];
    var ds := DeepestFirst(EncodedEntries(afterFiles, relisting, true));
    RenameAllKeepsClean(afterFiles, ds);
    RenameAllValid(afterFiles, ds);
  }

  /** No directory name holds `%2F`. */
  predicate NoEncodedDir(t: Tree) {
    forall p :: p in t.dirs && p != [] ==> !Encoded(Name(p))
  }

  /** The directories of `ds` can all be renamed in turn: listed once,
      deepest first, each a directory of `u` whose target is not an entry
      of `u`, and no two with the same target. */
  ghost predicate DirsRenameable(u: Tree, ds: seq<Path>) {
    && Distinct(ds) && DeepestFirstOrder(ds)
    && (forall j :: 0 <= j < |ds| ==> ds[j] != [] && ds[j] in u.dirs && Target(ds[j]) !in u.entries)
    && (forall i, j :: 0 <= i < j < |ds| ==> Target(ds[i]) != Target(ds[j]))
  }

  /** What holds after the first `k` directories of the directory pass:
      the ones still to come are in place with their targets free, and
      every `%2F` directory is one of them. */
  ghost predicate DirPassState(ds: seq<Path>, v: Tree, k: nat)
    requires k <= |ds|
  {
    && Valid(v)
    && (forall j :: k <= j < |ds| ==> ds[j] in v.dirs && Target(ds[j]) !in v.entries)
    && (forall q :: q in v.dirs && q != [] && Encoded(Name(q)) ==> q in ds[k..])
  }

  /** A directory no deeper than the renamed one, and not it, stays put. */
  lemma ShallowerStays(p: Path, q: Path)
    requires q != p && |q| <= |p|
    ensures Moved(q, p, Target(p)) == q
  {
  }

  /** After renaming `p`, the targets of the directories still to come
      remain free: anything new sits at `Target(p)` or below it, which is
      deeper than their targets or is `Target(p)` itself. */
  lemma LaterTargetFree(v: Tree, p: Path, d: Path)
    requires p != [] && |d| <= |p| && d != [] && Target(d) != Target(p)
    requires Target(d) !in v.entries
    ensures Target(d) !in Rename(v, p, Target(p)).entries
  {
    var to := Target(p);
    if Target(d) in Rename(v, p, to).entries {
      var q :| q in v.entries && Moved(q, p, to) == Target(d);
      if Under(p, q) {
        assert false;
      }
    }
  }

  /** After renaming `p`, the `%2F` directories left are among the later
      ones: `p` itself now has a clean name, and nothing below it is still
      to be renamed, since the later ones are no deeper than `p`. */
  lemma EncodedDirsLater(ds: seq<Path>, v: Tree, k: nat)
    requires Distinct(ds) && DeepestFirstOrder(ds) && k < |ds| && ds[k] != []
    requires forall q :: q in v.dirs && q != [] && Encoded(Name(q)) ==> q in ds[k..]
    ensures forall q' :: q' in Rename(v, ds[k], Target(ds[k])).dirs && q' != [] && Encoded(Name(q')) ==> q' in ds[k + 1..]
  {
    var p := ds[k];
    var to := Target(p);
    forall q' | q' in Rename(v, p, to).dirs && q' != [] && Encoded(Name(q'))
      ensures q' in ds[k + 1..]
    {
      var q :| q in v.dirs && Moved(q, p, to) == q';
      if q == p {
        assert false;
      }
      if Under(p, q) {
        assert false;
      }
      assert q' == q;
      var j' :| 0 <= j' < |ds[k..]| && ds[k..][j'] == q;
      var j := k + j';
      assert ds[j] == q;
      if j == k {
        assert false;
      }
      assert |q| <= |p|;
      ShallowerStays(p, q);
      assert ds[k + 1..][j - k - 1] == q;
    }
  }

  /** One directory of the directory pass: it is in place with a free
      target, so it is renamed. */
  lemma DirPassStep(u: Tree, ds: seq<Path>, v: Tree, k: nat)
    requires DirsRenameable(u, ds) && k < |ds|
    requires DirPassState(ds, v, k)
    ensures DirPassState(ds, RenameStep(v, ds[k]), k + 1)
  {
    var p := ds[k];
    var to := Target(p);
    var r := RenameStep(v, p);
    assert r == Rename(v, p, to);
    RenameStepValid(v, p);
    forall j | k + 1 <= j < |ds|
      ensures ds[j] in r.dirs && Target(ds[j]) !in r.entries
    {
      DistinctAt(ds, k, j);
      ShallowerStays(p, ds[j]);
      LaterTargetFree(v, p, ds[j]);
    }
    EncodedDirsLater(ds, v, k);
  }

  lemma {:induction false} DirPass(u: Tree, ds: seq<Path>, k: nat)
    requires Valid(u) && DirsRenameable(u, ds) && k <= |ds|
    requires forall q :: q in u.dirs && q != [] && Encoded(Name(q)) ==> q in ds
    ensures DirPassState(ds, RenameAll(u, ds[..k]), k)
    decreases k
  {
    if k == 0 {
      DirPassStart(u, ds);
    } else {
      DirPass(u, ds, k - 1);
      DirPassNext(u, ds, k);
    }
  }

  /** Before the pass, the tree is as it was and every `%2F` directory is
      still to come. */
  lemma DirPassStart(u: Tree, ds: seq<Path>)
    requires Valid(u) && DirsRenameable(u, ds)
    requires forall q :: q in u.dirs && q != [] && Encoded(Name(q)) ==> q in ds
    ensures DirPassState(ds, RenameAll(u, ds[..0]), 0)
  {
    assert ds[..0] == [] && ds[0..] == ds;
  }

  /** The step of the pass, stated on the renamed prefixes. */
  lemma DirPassNext(u: Tree, ds: seq<Path>, k: nat)
    requires DirsRenameable(u, ds) && 0 < k <= |ds|
    requires DirPassState(ds, RenameAll(u, ds[..k - 1]), k - 1)
    ensures DirPassState(ds, RenameAll(u, ds[..k]), k)
  {
    DirPassStep(u, ds, RenameAll(u, ds[..k - 1]), k - 1);
    RenameAllPrefix(u, ds, k);
  }

  /** Renaming the `%2F` directories deepest first, each with a free target
      of its own, leaves no directory name with `%2F`. */
  lemma DirPassClean(u: Tree, ds: seq<Path>)
    requires Valid(u) && DirsRenameable(u, ds)
    requires forall q :: q in u.dirs && q != [] && Encoded(Name(q)) ==> q in ds
    ensures NoEncodedDir(RenameAll(u, ds))
  {
    DirPass(u, ds, |ds|);
    assert ds[..|ds|] == ds;
    assert ds[|ds|..] == [];
  }

  /** A sub-list of a list without repeats has none either. */
  lemma DistinctSub(ds: seq<Path>, ls: seq<Path>)
    requires multiset(ds) <= multiset(ls) && Distinct(ls)
    ensures Distinct(ds)
  {
    forall p ensures multiset(ds)[p] <= 1 {
      assert multiset(ds)[p] <= multiset(ls)[p];
    }
  }

  /** After the file pass, the `%2F` directories of the relisting can all be
      renamed, and every `%2F` directory is among them. */
  lemma DirsRenameableAfterFiles(t: Tree, fs: seq<Path>, u: Tree, relisting: seq<Path>)
    requires FilesRenameable(t, fs)
    requires FilePassState(t, fs, u, |fs|)
    requires Distinct(relisting)
    requires forall d :: d in t.dirs && d != [] && Encoded(Name(d)) ==> d in relisting && Target(d) !in t.entries
    requires forall d, j :: d in t.dirs && d != [] && Encoded(Name(d)) && 0 <= j < |fs| ==> Target(d) != Target(fs[j])
    requires forall d, e :: d in t.dirs && d != [] && Encoded(Name(d)) && e in t.dirs && e != [] && Encoded(Name(e)) && d != e ==> Target(d) != Target(e)
    ensures DirsRenameable(u, DeepestFirst(EncodedEntries(u, relisting, true)))
    ensures forall q :: q in u.dirs && q != [] && Encoded(Name(q)) ==> q in DeepestFirst(EncodedEntries(u, relisting, true))
  {
    var es := EncodedEntries(u, relisting, true);
    var ds := DeepestFirst(es);
    DistinctSub(ds, relisting);
    forall j | 0 <= j < |ds|
      ensures ds[j] != [] && ds[j] in u.dirs && Target(ds[j]) !in u.entries
    {
      assert ds[j] in multiset(ds);
      assert ds[j] in es;
    }
    forall i, j | 0 <= i < j < |ds|
      ensures Target(ds[i]) != Target(ds[j])
    {
      DistinctAt(ds, i, j);
    }
    forall q | q in u.dirs && q != [] && Encoded(Name(q))
      ensures q in ds
    {
      assert q in es;
      assert q in multiset(ds);
    }
  }

  /** The whole pass of `collector_manager.py` renames files and
      directories alike: when every `%2F` entry is listed, each file's
      target is free, and each directory's target is free, is not taken by
      a file and is its own, no name in the tree holds `%2F` afterwards. */
  lemma CollectorPassRenamesAll(t: Tree, listing: seq<Path>, relisting: seq<Path>)
    requires Valid(t)
    requires forall q :: q in Files(t) && q != [] && Encoded(Name(q)) ==> q in listing
    requires FilesRenameable(t, EncodedEntries(t, listing, false))
    requires Distinct(relisting)
    requires forall d :: d in t.dirs && d != [] && Encoded(Name(d)) ==> d in relisting && Target(d) !in t.entries
    requires forall d, f :: d in t.dirs && d != [] && Encoded(Name(d)) && f in Files(t) && f != [] && Encoded(Name(f)) ==> Target(d) != Target(f)
    requires forall d, e :: d in t.dirs && d != [] && Encoded(Name(d)) && e in t.dirs && e != [] && Encoded(Name(e)) && d != e ==> Target(d) != Target(e)
    ensures Valid(CollectorPass(t, listing, relisting))
    ensures NoEncodedFile(CollectorPass(t, listing, relisting))
    ensures NoEncodedDir(CollectorPass(t, listing, relisting))
  {
    CollectorPassClean(t, listing, relisting);
    var fs := EncodedEntries(t, listing, false);
    FilePass(t, fs, |fs|);
    assert fs[..|fs|] == fs;
    var afterFiles := RenameAll(t, fs);
    forall d, j | d in t.dirs && d != [] && Encoded(Name(d)) && 0 <= j < |fs|
      ensures Target(d) != Target(fs[j])
    {
      assert fs[j] in fs;
    }
    DirsRenameableAfterFiles(t, fs, afterFiles, relisting);
    DirPassClean(afterFiles, DeepestFirst(EncodedEntries(afterFiles, relisting, true)));
  }

  lemma {:induction false} RenameAllValid(t: Tree, ps: seq<Path>)
    requires Valid(t)
    ensures Valid(RenameAll(t, ps))
    decreases |ps|
  {
    if ps != [] {
      RenameAllValid(t, ps[..|ps| - 1]);
      RenameStepValid(RenameAll(t, ps[..|ps| - 1]), ps[|ps| - 1]);
    }
  }

  /** The entries of `listing` that are in `t` directly inside `d`. */
  function ChildrenOf(t: Tree, listing: seq<Path>, d: Path): (r: seq<Path>)
    ensures forall p :: p in r <==> p in listing && p in t.entries && |p| == |d| + 1 && p[..|d|] == d
    decreases |listing|
  {
    if listing == [] then []
    else
      var p := listing[|listing| - 1];
      var rest := ChildrenOf(t, listing[..|listing| - 1], d);
      assert listing == listing[..|listing| - 1] + [p];
      if p in t.entries && |p| == |d| + 1 && p[..|d|] == d then rest + [p] else rest
  }

  /** `rename_files_in_directory` of `process_zip_files.py`, as written: a
      top-down `os.walk` that, in each directory `d`, renames the `%2F`
      files, then the `%2F` subdirectories, and then walks into the
      subdirectories under the names it listed them by. A renamed
      subdirectory is no longer there under that name, `os.walk` skips it
      silently, and nothing below it is renamed. `fuel` bounds the depth
      of the walk. */
  function WalkRename(t: Tree, listing: seq<Path>, d: Path, fuel: nat): Tree
    decreases fuel, 0, 0
  {
    if fuel == 0 || (d != [] && d !in t.dirs) then t
    else
      var kids := ChildrenOf(t, listing, d);
      var afterFiles := RenameAll(t, EncodedEntries(t, kids, false));
      var afterDirs := RenameAll(afterFiles, EncodedEntries(afterFiles, kids, true));
      WalkEach(afterDirs, listing, Subdirs(t, kids), fuel - 1)
  }

  function WalkEach(t: Tree, listing: seq<Path>, ds: seq<Path>, fuel: nat): Tree
    decreases fuel, 1, |ds|
  {
    if ds == [] then t else WalkEach(WalkRename(t, listing, ds[0], fuel), listing, ds[1..], fuel)
  }

  /** `rename_files_in_directory` of `process_zip_files.py`: the walk from
      the top, with fuel enough to reach the deepest listed entry. */
  function ZipRename(t: Tree, listing: seq<Path>): Tree {
    WalkRename(t, listing, [], WalkDepth(listing) + 1)
  }

  /** The number of components of the deepest listed entry. */
  function WalkDepth(listing: seq<Path>): (n: nat)
    ensures forall p :: p in listing ==> |p| <= n
    decreases |listing|
  {
    if listing == [] then 0
    else
      var last := listing[|listing| - 1];
      var n := WalkDepth(listing[..|listing| - 1]);
      assert listing == listing[..|listing| - 1] + [last];
      if |last| > n then |last| else n
  }

  /** A directory `a%2Fb` holding a file `x%2Fy`. */
  const NestedDir: Path := ["a%2Fb"]
  const NestedFile: Path := ["a%2Fb", "x%2Fy"]

  function Nested(): Tree {
    Tree({NestedDir, NestedFile}, {NestedDir})
  }

  lemma NestedNames()
    ensures Encoded("a%2Fb") && Encoded("x%2Fy")
    ensures Desanitize("a%2Fb") == "a.b" && Desanitize("x%2Fy") == "x.y"
  {
    assert StartsWith("%2Fb", EncodedSlash) && StartsWith("%2Fy", EncodedSlash);
    assert "a%2Fb"[1..] == "%2Fb" && "x%2Fy"[1..] == "%2Fy";
    assert ReplaceAll("b", EncodedSlash, ".") == "b";
    assert ReplaceAll("y", EncodedSlash, ".") == "y";
    assert "%2Fb"[3..] == "b" && "%2Fy"[3..] == "y";
    assert !StartsWith("a%2Fb", EncodedSlash) && !StartsWith("x%2Fy", EncodedSlash);
  }

  lemma NestedTargets()
    ensures Name(NestedFile) == "x%2Fy" && Name(NestedDir) == "a%2Fb"
    ensures Target(NestedFile) == ["a%2Fb", "x.y"]
    ensures Target(NestedDir) == ["a.b"]
  {
    NestedNames();
  }

  lemma NestedListing()
    ensures Valid(Nested())
    ensures EncodedEntries(Nested(), [NestedDir, NestedFile], false) == [NestedFile]
    ensures ChildrenOf(Nested(), [NestedDir, NestedFile], []) == [NestedDir]
  {
    assert NestedFile[..1] == NestedDir;
    NestedEncodedFiles();
    NestedChildren();
  }

  lemma NestedEncodedFiles()
    ensures EncodedEntries(Nested(), [NestedDir, NestedFile], false) == [NestedFile]
  {
    NestedNames();
    var t := Nested();
    var listing := [NestedDir, NestedFile];
    assert listing[..1] == [NestedDir];
    assert EncodedEntries(t, listing[..1], false) == [];
  }

  lemma NestedChildren()
    ensures ChildrenOf(Nested(), [NestedDir, NestedFile], []) == [NestedDir]
  {
    var t := Nested();
    var listing := [NestedDir, NestedFile];
    assert listing[..1] == [NestedDir];
    assert |NestedFile| != 1;
    assert ChildrenOf(t, listing[..1], []) == [NestedDir];
  }

  /** The pass of `collector_manager.py` leaves no `%2F` name in the
      nested example. */
  lemma NestedCollectorClean()
    ensures FilesRenameable(Nested(), EncodedEntries(Nested(), [NestedDir, NestedFile], false))
    ensures NoEncodedFile(CollectorPass(Nested(), [NestedDir, NestedFile], [NestedDir, NestedFile]))
    ensures NoEncodedDir(CollectorPass(Nested(), [NestedDir, NestedFile], [NestedDir, NestedFile]))
  {
    NestedListing();
    NestedRenameable();
    NestedFilesListed();
    NestedDirsRenameable();
    CollectorPassRenamesAll(Nested(), [NestedDir, NestedFile], [NestedDir, NestedFile]);
  }

  /** The one directory of the example is listed once and its target
      `a.b` is free and differs from the file's target `a%2Fb/x.y`. */
  lemma NestedDirsRenameable()
    ensures Distinct([NestedDir, NestedFile])
    ensures forall d :: d in Nested().dirs && d != [] && Encoded(Name(d)) ==> d in [NestedDir, NestedFile] && Target(d) !in Nested().entries
    ensures forall d, f :: d in Nested().dirs && d != [] && Encoded(Name(d)) && f in Files(Nested()) && f != [] && Encoded(Name(f)) ==> Target(d) != Target(f)
    ensures forall d, e :: d in Nested().dirs && d != [] && Encoded(Name(d)) && e in Nested().dirs && e != [] && Encoded(Name(e)) && d != e ==> Target(d) != Target(e)
  {
    NestedListedOnce();
    NestedParts();
    NestedTargets();
  }

  lemma NestedParts()
    ensures Nested().dirs == {NestedDir} && Files(Nested()) == {NestedFile}
  {
  }

  lemma NestedListedOnce()
    ensures Distinct([NestedDir, NestedFile])
  {
    var ls := [NestedDir, NestedFile];
    assert multiset(ls) == multiset{NestedDir, NestedFile};
    assert NestedDir != NestedFile;
  }

  lemma NestedRenameable()
    ensures FilesRenameable(Nested(), [NestedFile])
  {
    NestedTargets();
    var fs := [NestedFile];
    assert multiset(fs)[NestedFile] == 1;
    assert Files(Nested()) == {NestedFile};
  }

  lemma NestedFilesListed()
    ensures forall q :: q in Files(Nested()) && q != [] && Encoded(Name(q)) ==> q in [NestedDir, NestedFile]
  {
    assert Files(Nested()) == {NestedFile};
  }

  /** The walk's top level: `a%2Fb` becomes `a.b`, the file moves with it
      under its old name. */
  lemma NestedTopLevel()
    ensures var kids := ChildrenOf(Nested(), [NestedDir, NestedFile], []);
      var afterFiles := RenameAll(Nested(), EncodedEntries(Nested(), kids, false));
      var afterDirs := RenameAll(afterFiles, EncodedEntries(afterFiles, kids, true));
      && afterDirs == Rename(Nested(), NestedDir, ["a.b"])
      && Subdirs(Nested(), kids) == [NestedDir]
  {
    NestedNames();
    NestedTargets();
    NestedListing();
    var t := Nested();
    var kids := [NestedDir];
    assert kids[..0] == [];
    assert EncodedEntries(t, kids, false) == [];
    assert EncodedEntries(t, kids, true) == [NestedDir];
    assert RenameAll(t, [NestedDir]) == RenameStep(t, NestedDir);
  }

  /** The example once `a%2Fb` is renamed: `a.b` holding `x%2Fy`. */
  function NestedMoved(): Tree {
    Tree({["a.b"], ["a.b", "x%2Fy"]}, {["a.b"]})
  }

  lemma NestedRenamed()
    ensures Rename(Nested(), NestedDir, ["a.b"]) == NestedMoved()
    ensures ["a.b", "x%2Fy"] in Files(NestedMoved()) && NestedDir !in NestedMoved().dirs
  {
    var r := Rename(Nested(), NestedDir, ["a.b"]);
    assert Moved(NestedFile, NestedDir, ["a.b"]) == ["a.b", "x%2Fy"];
    assert Moved(NestedDir, NestedDir, ["a.b"]) == ["a.b"];
    assert r.dirs == {["a.b"]};
    assert r.entries == {["a.b"], ["a.b", "x%2Fy"]};
  }

  lemma NestedWalkTop(fuel: nat)
    requires fuel >= 1
    ensures WalkRename(Nested(), [NestedDir, NestedFile], [], fuel)
      == WalkEach(NestedMoved(), [NestedDir, NestedFile], [NestedDir], fuel - 1)
  {
    NestedTopLevel();
    NestedRenamed();
  }

  /** Below the top level the walk finds `a%2Fb` gone and stops. */
  lemma NestedWalkBelow(fuel: nat)
    ensures WalkEach(NestedMoved(), [NestedDir, NestedFile], [NestedDir], fuel) == NestedMoved()
  {
    NestedRenamed();
    var r := NestedMoved();
    var listing := [NestedDir, NestedFile];
    assert WalkRename(r, listing, NestedDir, fuel) == r;
    assert [NestedDir][1..] == [];
  }

  lemma NestedWalk(fuel: nat)
    requires fuel >= 1
    ensures WalkRename(Nested(), [NestedDir, NestedFile], [], fuel) == NestedMoved()
  {
    NestedWalkTop(fuel);
    NestedWalkBelow(fuel - 1);
  }

  /** The walk of `process_zip_files.py` renames `a%2Fb` to `a.b` and never
      looks inside it, however deep the walk may go: the file keeps its
      `%2F`, although the tree meets
      every condition under which the pass of `collector_manager.py`
      leaves no `%2F` name. */
  lemma WalkRenameMissesNested(fuel: nat)
    requires fuel >= 1
    ensures Valid(Nested())
    ensures FilesRenameable(Nested(), EncodedEntries(Nested(), [NestedDir, NestedFile], false))
    ensures NoEncodedFile(CollectorPass(Nested(), [NestedDir, NestedFile], [NestedDir, NestedFile]))
    ensures NoEncodedDir(CollectorPass(Nested(), [NestedDir, NestedFile], [NestedDir, NestedFile]))
    ensures ["a.b", "x%2Fy"] in Files(WalkRename(Nested(), [NestedDir, NestedFile], [], fuel))
    ensures Encoded(Name(["a.b", "x%2Fy"]))
  {
    NestedNames();
    NestedListing();
    NestedCollectorClean();
    NestedRenamed();
    NestedWalk(fuel);
  }
}
