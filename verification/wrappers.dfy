/** The optional value the core returns where Python returns `None`, and
    facts about sequences that proofs elsewhere lean on. */
module Wrappers {
  datatype Option<T> = None | Some(value: T)

  /** Helper: the head and tail of a concatenation with a non-empty left part. */
  lemma ConsOfAppend<T>(a: seq<T>, b: seq<T>)
    requires a != []
    ensures [(a + b)[0]] == [a[0]] && (a + b)[1..] == a[1..] + b
  {
  }

  /** Helper: a non-empty sequence is its prefix followed by its last element. */
  lemma ConsOfSnoc<T>(s: seq<T>)
    requires s != []
    ensures s == s[..|s| - 1] + [s[|s| - 1]]
  {
  }

  /** Helper: the head and tail of a suffix. */
  lemma ConsOfSuffix<T>(s: seq<T>, i: nat)
    requires i < |s|
    ensures s[i..][0] == s[i] && s[i..][1..] == s[i + 1..]
  {
  }

  /** Helper: an element in neither part is not in their concatenation. */
  lemma NotInAppend<T>(a: seq<T>, b: seq<T>, x: T)
    requires x !in a && x !in b
    ensures x !in a + b
  {
  }

  /** Moving one element from the part still to visit to the part done. */
  lemma MoveOne<T>(all: set<T>, remaining: set<T>, done: set<T>, x: T)
    requires remaining <= all && done == all - remaining && x in remaining
    ensures remaining - {x} <= all && done + {x} == all - (remaining - {x})
  {
  }

  lemma IndexBeforeAppend<T>(a: seq<T>, b: seq<T>, k: nat)
    requires k < |a|
    ensures (a + b)[k] == a[k]
  {
  }

  lemma IndexPastAppend<T>(a: seq<T>, b: seq<T>, k: nat)
    requires k < |b|
    ensures (a + b)[|a| + k] == b[k]
  {
  }

  lemma AppendAssoc<T>(x: seq<T>, y: seq<T>, z: seq<T>)
    ensures x + (y + z) == (x + y) + z
  {
  }

  /** Helper: some element of `t + [x]` satisfies `p` exactly when some
      element of `t` does or `x` does. */
  lemma ExistsSnoc<T>(s: seq<T>, t: seq<T>, x: T, p: T -> bool)
    requires s == t + [x]
    ensures (exists i :: 0 <= i < |s| && p(s[i])) <==> (exists i :: 0 <= i < |t| && p(t[i])) || p(x)
  {
    if exists i :: 0 <= i < |t| && p(t[i]) {
      var i :| 0 <= i < |t| && p(t[i]);
      assert s[i] == t[i];
    }
    if p(x) {
      assert s[|t|] == x;
    }
    if exists i :: 0 <= i < |s| && p(s[i]) {
      var i :| 0 <= i < |s| && p(s[i]);
      if i < |t| {
        assert s[i] == t[i];
      }
    }
  }
}
