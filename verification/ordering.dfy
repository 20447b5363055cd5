/**
 * The default ordering of posts (`ordering = ['-pub_date']`): newest first.
 * The database's order among posts with equal dates is not fixed by the
 * source; this model keeps equal-date posts in their stored order.
 */
module Ordering {
  import opened Models

  /** Every post is at least as recent as every post after it. */
  predicate NewestFirst(s: seq<Post>) {
    forall i, j :: 0 <= i < j < |s| ==> s[i].pubDate >= s[j].pubDate
  }

  /** Puts `p` into an already newest-first sequence. */
  function Insert(p: Post, s: seq<Post>): (r: seq<Post>)
    requires NewestFirst(s)
    ensures NewestFirst(r)
    ensures multiset(r) == multiset(s) + multiset{p}
  {
    if |s| == 0 then [p]
    else if p.pubDate >= s[0].pubDate then [p] + s
    else
      assert s == [s[0]] + s[1..];
      var rest := Insert(p, s[1..]);
      InsertBelowHead(p, s, rest);
      [s[0]] + rest
  }

  /** A post older than the head of `s`, merged into the tail, stays behind the head. */
  lemma InsertBelowHead(p: Post, s: seq<Post>, rest: seq<Post>)
    requires NewestFirst(s) && |s| > 0 && p.pubDate < s[0].pubDate
    requires NewestFirst(rest) && multiset(rest) == multiset(s[1..]) + multiset{p}
    ensures NewestFirst([s[0]] + rest)
  {
    forall k | 0 <= k < |rest| ensures rest[k].pubDate <= s[0].pubDate {
      assert rest[k] in multiset(rest);
      if rest[k] != p {
        assert rest[k] in s[1..];
        var m :| 0 <= m < |s[1..]| && s[1..][m] == rest[k];
        assert s[m + 1] == rest[k];
      }
    }
    var r := [s[0]] + rest;
    forall i, j | 0 <= i < j < |r| ensures r[i].pubDate >= r[j].pubDate {
      assert r[j] == rest[j - 1];
      if i > 0 {
        assert r[i] == rest[i - 1];
      }
    }
  }

  /** The rows of `s` in the default ordering: a newest-first permutation of them. */
  function NewestFirstOrder(s: seq<Post>): (r: seq<Post>)
    ensures NewestFirst(r)
    ensures multiset(r) == multiset(s)
    ensures |r| == |s|
  {
    if |s| == 0 then []
    else
      assert s == [s[0]] + s[1..];
      Insert(s[0], NewestFirstOrder(s[1..]))
  }

  /** Given posts created at increasing times, the default ordering lists them newest first. */
  lemma ThreePostsNewestFirst(p1: Post, p2: Post, p3: Post)
    requires p1.pubDate < p2.pubDate < p3.pubDate
    ensures NewestFirstOrder([p1, p2, p3]) == [p3, p2, p1]
  {
    var r := NewestFirstOrder([p1, p2, p3]);
    assert multiset(r) == multiset{p1, p2, p3};
    assert |r| == 3;
    assert r[0] in multiset(r) && r[1] in multiset(r) && r[2] in multiset(r);
  }

  /** Two posts with the same date keep their stored order. */
  lemma EqualDatesKeepStoredOrder(a: Post, b: Post)
    requires a.pubDate == b.pubDate
    ensures NewestFirstOrder([a, b]) == [a, b]
  {
    assert [a, b][1..] == [b];
    assert NewestFirstOrder([b]) == [b];
  }
}
