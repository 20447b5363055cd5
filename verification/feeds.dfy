/**
 * The four feeds of the views: the index (every post), a group's posts, an
 * author's posts, and the following feed. Each is a query over the post
 * table returned in the default newest-first ordering.
 */
module Feeds {
  import opened Wrappers
  import opened Models
  import opened Tables
  import opened Ordering
  import opened FollowGraph

  /** `index`: every post, newest first. */
  function GlobalFeed(posts: seq<Post>): (r: seq<Post>)
    ensures NewestFirst(r)
    ensures multiset(r) == multiset(posts)
  {
    NewestFirstOrder(posts)
  }

  /** `group_posts`: the posts whose group is `group`, newest first. */
  function GroupFeed(posts: seq<Post>, group: GroupId): (r: seq<Post>)
    ensures NewestFirst(r)
    ensures forall p :: multiset(r)[p] == if p.group == Some(group) then multiset(posts)[p] else 0
    ensures forall p :: p in r <==> p in posts && p.group == Some(group)
  {
    NewestFirstOrder(Filter(posts, (p: Post) => p.group == Some(group)))
  }

  /** `profile`: the posts written by `author`, newest first. */
  function ProfileFeed(posts: seq<Post>, author: UserId): (r: seq<Post>)
    ensures NewestFirst(r)
    ensures forall p :: multiset(r)[p] == if p.author == author then multiset(posts)[p] else 0
    ensures forall p :: p in r <==> p in posts && p.author == author
  {
    NewestFirstOrder(Filter(posts, (p: Post) => p.author == author))
  }

  /** `n` copies of one post. */
  function Repeat(p: Post, n: nat): (r: seq<Post>)
    ensures |r| == n
    ensures forall x :: multiset(r)[x] == if x == p then n else 0
  {
    if n == 0 then [] else [p] + Repeat(p, n - 1)
  }

  /**
   * The join of posts with follow rows on `author__following__user=viewer`:
   * each post appears once for every row in which `viewer` follows its author.
   */
  function FollowJoin(posts: seq<Post>, edges: seq<Follow>, viewer: UserId): (r: seq<Post>)
    ensures forall p :: multiset(r)[p] == multiset(posts)[p] * multiset(edges)[Follow(viewer, p.author)]
    ensures forall p :: p in r <==> p in posts && IsFollowing(edges, viewer, p.author)
  {
    if |posts| == 0 then []
    else
      var rest := FollowJoin(posts[1..], edges, viewer);
      FollowJoinStep(posts, edges, viewer, rest);
      Repeat(posts[0], multiset(edges)[Follow(viewer, posts[0].author)]) + rest
  }

  /** One step of the join: the head's copies followed by the join of the tail. */
  lemma FollowJoinStep(posts: seq<Post>, edges: seq<Follow>, viewer: UserId, rest: seq<Post>)
    requires |posts| > 0
    requires forall p :: multiset(rest)[p] == multiset(posts[1..])[p] * multiset(edges)[Follow(viewer, p.author)]
    requires forall p :: p in rest <==> p in posts[1..] && IsFollowing(edges, viewer, p.author)
    ensures var r := Repeat(posts[0], multiset(edges)[Follow(viewer, posts[0].author)]) + rest;
            && (forall p :: multiset(r)[p] == multiset(posts)[p] * multiset(edges)[Follow(viewer, p.author)])
            && (forall p :: p in r <==> p in posts && IsFollowing(edges, viewer, p.author))
  {
    var head := posts[0];
    var n := multiset(edges)[Follow(viewer, head.author)];
    var r := Repeat(head, n) + rest;
    assert posts == [head] + posts[1..];
    forall p ensures multiset(r)[p] == multiset(posts)[p] * multiset(edges)[Follow(viewer, p.author)] {
      var c := multiset(edges)[Follow(viewer, p.author)];
      var m := multiset(posts[1..])[p];
      assert multiset(r)[p] == multiset(Repeat(head, n))[p] + m * c;
      if p == head {
        assert multiset(posts)[p] == 1 + m;
        assert (1 + m) * c == c + m * c;
      } else {
        assert multiset(posts)[p] == m;
      }
    }
    forall p ensures p in r <==> p in posts && IsFollowing(edges, viewer, p.author) {
      if p == head {
        assert p in Repeat(head, n) <==> n > 0;
        assert IsFollowing(edges, viewer, p.author) <==> n > 0;
      } else {
        assert p !in Repeat(head, n) by {
          assert multiset(Repeat(head, n))[p] == 0;
        }
      }
    }
  }

  /** `follow_index`: the posts of every author `viewer` follows, newest first. */
  function FollowFeed(posts: seq<Post>, edges: seq<Follow>, viewer: UserId): (r: seq<Post>)
    ensures NewestFirst(r)
    ensures forall p :: multiset(r)[p] == multiset(posts)[p] * multiset(edges)[Follow(viewer, p.author)]
    ensures forall p :: p in r <==> p in posts && IsFollowing(edges, viewer, p.author)
    ensures forall p :: p in r <==> p in posts && p.author in AuthorsFollowedBy(edges, viewer)
  {
    NewestFirstOrder(FollowJoin(posts, edges, viewer))
  }

  /**
   * When the follow table has no repeated row, the join is a plain filter:
   * each followed author's post appears exactly once.
   */
  lemma {:induction false} FollowJoinIsFilter(posts: seq<Post>, edges: seq<Follow>, viewer: UserId, keep: Post -> bool)
    requires NoDuplicates(edges)
    requires forall p :: keep(p) == IsFollowing(edges, viewer, p.author)
    ensures FollowJoin(posts, edges, viewer) == Filter(posts, keep)
  {
    if |posts| > 0 {
      FollowJoinIsFilter(posts[1..], edges, viewer, keep);
      NoDuplicatesCountAtMostOne(edges, Follow(viewer, posts[0].author));
      var n := multiset(edges)[Follow(viewer, posts[0].author)];
      if keep(posts[0]) {
        assert Repeat(posts[0], n) == [posts[0]];
      } else {
        assert Repeat(posts[0], n) == [];
      }
    }
  }

  /** With a well-formed follow table, the following feed holds each followed post exactly once. */
  lemma FollowFeedIsFilter(posts: seq<Post>, edges: seq<Follow>, viewer: UserId)
    requires NoDuplicates(edges)
    ensures FollowFeed(posts, edges, viewer)
         == NewestFirstOrder(Filter(posts, (p: Post) => IsFollowing(edges, viewer, p.author)))
  {
    FollowJoinIsFilter(posts, edges, viewer, (p: Post) => IsFollowing(edges, viewer, p.author));
  }

  /** A repeated follow row makes the following feed show the same post twice. */
  lemma RepeatedRowRepeatsPost(p: Post, viewer: UserId)
    requires p.author != viewer
    ensures var edges := [Follow(viewer, p.author), Follow(viewer, p.author)];
            FollowFeed([p], edges, viewer) == [p, p]
  {
    var edges := [Follow(viewer, p.author), Follow(viewer, p.author)];
    assert multiset(edges)[Follow(viewer, p.author)] == 2;
    var joined := FollowJoin([p], edges, viewer);
    assert joined == Repeat(p, 2) + FollowJoin([], edges, viewer);
    assert Repeat(p, 2) == [p, p];
  }

  /** A viewer who does not follow themselves sees none of their own posts in their following feed. */
  lemma OwnPostsNotInFollowFeed(posts: seq<Post>, edges: seq<Follow>, viewer: UserId)
    requires !IsFollowing(edges, viewer, viewer)
    ensures forall p :: p in FollowFeed(posts, edges, viewer) ==> p.author != viewer
  {
  }

  /** A user who follows nobody has an empty following feed. */
  lemma NoFollowsEmptyFeed(posts: seq<Post>, edges: seq<Follow>, viewer: UserId)
    requires AuthorsFollowedBy(edges, viewer) == {}
    ensures FollowFeed(posts, edges, viewer) == []
  {
    var r := FollowFeed(posts, edges, viewer);
    forall p ensures multiset(r)[p] == 0 {
      assert p !in r;
    }
    assert multiset(r) == multiset{};
  }

  /**
   * When the viewer's only follow rows are one row for `author`, the join
   * selects exactly that author's posts, each once.
   */
  lemma {:induction false} FollowJoinOfOneAuthor(posts: seq<Post>, edges: seq<Follow>, viewer: UserId, author: UserId, keep: Post -> bool)
    requires forall a :: multiset(edges)[Follow(viewer, a)] == if a == author then 1 else 0
    requires forall p :: keep(p) == (p.author == author)
    ensures FollowJoin(posts, edges, viewer) == Filter(posts, keep)
  {
    if |posts| > 0 {
      FollowJoinOfOneAuthor(posts[1..], edges, viewer, author, keep);
      var n := multiset(edges)[Follow(viewer, posts[0].author)];
      if keep(posts[0]) {
        assert Repeat(posts[0], n) == [posts[0]];
      } else {
        assert Repeat(posts[0], n) == [];
      }
    }
  }

  /**
   * A user who follows nobody, after following one other author, sees
   * exactly that author's profile feed, whatever rows other users have.
   */
  lemma FirstFollowShowsAuthorFeed(posts: seq<Post>, edges: seq<Follow>, viewer: UserId, author: UserId)
    requires viewer != author
    requires AuthorsFollowedBy(edges, viewer) == {}
    ensures FollowFeed(posts, FollowAuthor(edges, viewer, author).edges, viewer) == ProfileFeed(posts, author)
  {
    var after := FollowAuthor(edges, viewer, author).edges;
    assert !IsFollowing(edges, viewer, author) by {
      assert author !in AuthorsFollowedBy(edges, viewer);
    }
    forall a ensures multiset(after)[Follow(viewer, a)] == if a == author then 1 else 0 {
      assert a !in AuthorsFollowedBy(edges, viewer);
      assert Follow(viewer, a) !in edges;
    }
    FollowJoinOfOneAuthor(posts, after, viewer, author, (p: Post) => p.author == author);
  }
}
