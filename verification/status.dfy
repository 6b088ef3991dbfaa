/** The message log of `CollectorManager.status`: what a caller hands to
    `update_status` and the entries it appends. */
module Status {
  /** A message as a caller passes it to `update_status`. */
  datatype Post = Post(message: string, isError: bool)

  /** An entry of `status['messages']`: the message, its type, and whether
      an elapsed time was attached (a task clock was running). The clock
      readings themselves are not modelled. */
  datatype StatusUpdate = StatusUpdate(message: string, isError: bool, timed: bool)

  /** The entries `update_status` appends for `posts`, in order. */
  function Updates(posts: seq<Post>, running: bool): (u: seq<StatusUpdate>)
    ensures |u| == |posts|
    decreases |posts|
  {
    if posts == [] then []
    else [StatusUpdate(posts[0].message, posts[0].isError, running)] + Updates(posts[1..], true)
  }

  /** Each post becomes one entry with its message and type; the first is
      timed when a clock was running, the others always are (the first
      starts it). */
  lemma {:induction false} UpdatesAt(posts: seq<Post>, running: bool, i: nat)
    requires i < |posts|
    ensures Updates(posts, running)[i] == StatusUpdate(posts[i].message, posts[i].isError, running || i > 0)
    decreases i
  {
    if i > 0 {
      UpdatesAt(posts[1..], true, i - 1);
    }
  }

  /** Posting in two rounds appends what posting everything at once does. */
  lemma {:induction false} UpdatesAppend(a: seq<Post>, b: seq<Post>, running: bool)
    ensures Updates(a, running) + Updates(b, running || a != []) == Updates(a + b, running)
    decreases |a|
  {
    if a != [] {
      UpdatesAppend(a[1..], b, true);
      assert (a + b)[1..] == a[1..] + b && (a + b)[0] == a[0];
      var head := [StatusUpdate(a[0].message, a[0].isError, running)];
      assert Updates(a, running) == head + Updates(a[1..], true);
      assert Updates(a + b, running) == head + Updates(a[1..] + b, true);
      assert head + Updates(a[1..], true) + Updates(b, true) == head + (Updates(a[1..], true) + Updates(b, true));
    } else {
      assert a + b == b;
    }
  }

  /** The entries of two rounds of posting, one after the other. */
  lemma PostedInTwoRounds(m0: seq<StatusUpdate>, m1: seq<StatusUpdate>, m2: seq<StatusUpdate>,
                          a: seq<Post>, b: seq<Post>, running: bool)
    requires m1 == m0 + Updates(a, running)
    requires m2 == m1 + Updates(b, running || a != [])
    ensures m2 == m0 + Updates(a + b, running)
  {
    UpdatesAppend(a, b, running);
  }
}
