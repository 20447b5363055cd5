/**
 * The follow table and the two actions on it, `profile_follow` and
 * `profile_unfollow`. The table has no uniqueness constraint in the
 * database, so it is a sequence of rows that could in principle repeat;
 * "no self-follow and no repeated row" is an invariant that only the
 * guard in `profile_follow` maintains.
 */
module FollowGraph {
  import opened Models
  import opened Tables

  /** The table invariant: nobody follows themselves and no row occurs twice. */
  predicate WellFormed(edges: seq<Follow>) {
    && (forall i :: 0 <= i < |edges| ==> edges[i].user != edges[i].author)
    && NoDuplicates(edges)
  }

  /** `user.follower.filter(author=author).exists()`: some row has this follower and this author. */
  function IsFollowing(edges: seq<Follow>, user: UserId, author: UserId): (r: bool)
    ensures r <==> exists i :: 0 <= i < |edges| && edges[i].user == user && edges[i].author == author
  {
    Follow(user, author) in edges
  }

  /** The authors whose posts `user` sees in the following feed. */
  function AuthorsFollowedBy(edges: seq<Follow>, user: UserId): (r: set<UserId>)
    ensures forall a :: a in r <==> IsFollowing(edges, user, a)
  {
    set e | e in edges && e.user == user :: e.author
  }

  /** Why a follow request did or did not create a row. */
  datatype FollowOutcome = Created | AlreadyExists | SelfFollowRejected

  datatype FollowResult = FollowResult(outcome: FollowOutcome, edges: seq<Follow>)

  /**
   * `profile_follow`: a row is created unless the author is the acting user
   * or the acting user already follows the author; both refusals are silent.
   */
  function FollowAuthor(edges: seq<Follow>, user: UserId, author: UserId): (r: FollowResult)
    ensures r.outcome == SelfFollowRejected <==> user == author
    ensures r.outcome == AlreadyExists <==> user != author && IsFollowing(edges, user, author)
    ensures r.outcome != Created ==> r.edges == edges
    ensures r.outcome == Created ==>
      && |r.edges| == |edges| + 1
      && multiset(r.edges) == multiset(edges) + multiset{Follow(user, author)}
    ensures IsFollowing(r.edges, user, author) <==> user != author || IsFollowing(edges, user, author)
  {
    if user == author then FollowResult(SelfFollowRejected, edges)
    else if IsFollowing(edges, user, author) then FollowResult(AlreadyExists, edges)
    else FollowResult(Created, edges + [Follow(user, author)])
  }

  /** `profile_unfollow`: deletes every row (user, author), and only those. */
  function Unfollow(edges: seq<Follow>, user: UserId, author: UserId): (r: seq<Follow>)
    ensures !IsFollowing(r, user, author)
    ensures forall e :: e != Follow(user, author) ==> multiset(r)[e] == multiset(edges)[e]
    ensures !IsFollowing(edges, user, author) ==> r == edges
    ensures |r| == |edges| - multiset(edges)[Follow(user, author)]
  {
    var keep := (e: Follow) => e != Follow(user, author);
    FilterDropsEveryCopy(edges, keep, Follow(user, author));
    Filter(edges, keep)
  }

  /** Following oneself never changes the table. */
  lemma SelfFollowIsNoOp(edges: seq<Follow>, user: UserId)
    ensures FollowAuthor(edges, user, user).edges == edges
  {
  }

  /** Following an author twice leaves the same table as following once. */
  lemma FollowIsIdempotent(edges: seq<Follow>, user: UserId, author: UserId)
    ensures var once := FollowAuthor(edges, user, author).edges;
            FollowAuthor(once, user, author).edges == once
  {
  }

  /** Following keeps the table well formed. */
  lemma FollowKeepsWellFormed(edges: seq<Follow>, user: UserId, author: UserId)
    requires WellFormed(edges)
    ensures WellFormed(FollowAuthor(edges, user, author).edges)
  {
    var r := FollowAuthor(edges, user, author).edges;
    if r != edges {
      assert r == edges + [Follow(user, author)];
      forall i, j | 0 <= i < j < |r| ensures r[i] != r[j] {
        if j == |edges| {
          assert r[i] in edges;
        } else {
          assert r[i] == edges[i] && r[j] == edges[j];
        }
      }
    }
  }

  /** Unfollowing keeps the table well formed. */
  lemma UnfollowKeepsWellFormed(edges: seq<Follow>, user: UserId, author: UserId)
    requires WellFormed(edges)
    ensures WellFormed(Unfollow(edges, user, author))
  {
    var keep := (e: Follow) => e != Follow(user, author);
    FilterKeepsNoDuplicates(edges, keep);
    var r := Unfollow(edges, user, author);
    forall i | 0 <= i < |r| ensures r[i].user != r[i].author {
      assert r[i] in edges;
    }
  }

  /** In a table without repeated rows, unfollowing a followed author removes exactly one row. */
  lemma UnfollowRemovesOneRow(edges: seq<Follow>, user: UserId, author: UserId)
    requires NoDuplicates(edges)
    requires IsFollowing(edges, user, author)
    ensures |Unfollow(edges, user, author)| == |edges| - 1
  {
    NoDuplicatesCountAtMostOne(edges, Follow(user, author));
  }

  /** Unfollowing twice leaves the same table as unfollowing once. */
  lemma UnfollowIsIdempotent(edges: seq<Follow>, user: UserId, author: UserId)
    ensures var once := Unfollow(edges, user, author);
            Unfollow(once, user, author) == once
  {
  }

  /**
   * Follow then unfollow is a round trip: starting from a table where the
   * user does not follow the author, the two actions restore the table.
   */
  lemma FollowThenUnfollow(edges: seq<Follow>, user: UserId, author: UserId)
    requires !IsFollowing(edges, user, author)
    ensures Unfollow(FollowAuthor(edges, user, author).edges, user, author) == edges
  {
    var keep := (e: Follow) => e != Follow(user, author);
    if user != author {
      FilterConcat(edges, [Follow(user, author)], keep);
    }
  }
}
