# Yatube blog core in Dafny

A model of the data layer and feed logic of the Yatube blog (a Django
project): the records users, groups, posts, comments and follow rows, the
deletion rules of their foreign keys, the newest-first ordering of posts,
the four feeds (index, group, profile, following), paging into pages of
`SORT_VALUE = 10`, and the follow/unfollow actions with the invariant they
maintain: nobody follows themselves and no follow row occurs twice.

Modules, one per concern:

- `Wrappers` (`wrappers.dfy`): `Option`, `Result`, and the errors `NotFound`
  (an unresolved slug or username) and `IntegrityError` (a unique column
  violated).
- `Tables` (`tables.dfy`): tables as sequences of rows; `Filter` (a queryset
  filter, or a bulk delete of the complement), `Find` (first match),
  uniqueness of a column, and lemmas about them.
- `Models` (`models.dfy`): the records, `LEN_STR_POST = 15`, the string form
  of a post (its text cut to 15 characters) and of a group (its title).
- `Ordering` (`ordering.dfy`): `Meta.ordering = ['-pub_date']` as an insertion
  into a newest-first sequence.
- `FollowGraph` (`follow_graph.dfy`): the follow table, `profile_follow`
  (with the outcome `Created | AlreadyExists | SelfFollowRejected`),
  `profile_unfollow`, and their invariant.
- `Feeds` (`feeds.dfy`): the index, group, profile and following feeds. The
  following feed is the join `author__following__user=viewer`, in which a
  post appears once per matching follow row.
- `Paging` (`paging.dfy`): fixed-size pages.
- `Store` (`store.dfy`): the database as a whole, its constraints (`Valid`),
  lookups by username and slug, group creation and the CASCADE / SET_NULL
  deletion rules.
- `Views` (`views.dfy`): `group_posts`, `profile`, `follow_index`,
  `profile_follow` and `profile_unfollow` over the whole database.

The follow table is a sequence of rows, not a set. The `Follow` model declares
no uniqueness constraint (yatube/posts/models.py:58-66), so the database
could hold the same (user, author) pair twice. Only the guard in `profile_follow` (yatube/posts/views.py:109-111)
keeps the table free of repeats. `Feeds.RepeatedRowRepeatsPost` shows what a
repeated row would do: the following feed would list the same post twice.

## Model

| member | source | states |
|---|---|---|
| Models.PostStr | yatube/posts/models.py:39-40 | a post's string form is a prefix of its text, of length min(15, length of the text) |
| Models.GroupStr | yatube/posts/models.py:15-16 | a group's string form is its title, as `Group.__str__` returns it |
| Models.PostStrShortIsWhole | yatube/posts/models.py:7 | the string form is the whole text exactly when the text has at most LEN_STR_POST = 15 characters |
| Ordering.Insert | yatube/posts/models.py:42-43 | inserting a post into a newest-first sequence gives a newest-first sequence with exactly one more occurrence of that post |
| Ordering.NewestFirstOrder | yatube/posts/models.py:42-43 | the default ordering is a permutation of the rows in which publication dates never increase |
| Ordering.ThreePostsNewestFirst | yatube/posts/models.py:42-43 | posts created at t1 < t2 < t3 are listed as [t3, t2, t1] |
| Ordering.EqualDatesKeepStoredOrder | yatube/posts/models.py:42-43 | two posts with equal dates are listed in their stored order |
| FollowGraph.IsFollowing | yatube/posts/views.py:110 | the user follows the author exactly when some row has that follower and that author (`follower.filter(author=...).exists()`) |
| FollowGraph.AuthorsFollowedBy | yatube/posts/views.py:101 | an author is in the set exactly when a row (user, author) exists |
| FollowGraph.FollowAuthor | yatube/posts/views.py:109-112 | self-follow and an existing row are silent no-ops with their own outcome; otherwise exactly one row (user, author) is added and the count grows by one; afterwards the user follows the author unless it is themselves |
| FollowGraph.Unfollow | yatube/posts/views.py:120 | every (user, author) row is removed and every other row keeps its count; nothing changes when no such row exists; the length drops by the number of removed rows |
| FollowGraph.SelfFollowIsNoOp | yatube/posts/views.py:109-111 | following oneself leaves the table unchanged |
| FollowGraph.FollowIsIdempotent | yatube/posts/views.py:109-111 | following the same author a second time leaves the table unchanged |
| FollowGraph.FollowKeepsWellFormed | yatube/posts/views.py:109-112 | from a table without self-follows or repeated rows, following keeps it so |
| FollowGraph.UnfollowKeepsWellFormed | yatube/posts/views.py:120 | unfollowing keeps a table without self-follows or repeated rows so |
| FollowGraph.UnfollowRemovesOneRow | yatube/posts/tests/test_views.py:241-251 | in a table without repeated rows, unfollowing a followed author shrinks the table by exactly one row |
| FollowGraph.UnfollowIsIdempotent | yatube/posts/views.py:120 | unfollowing twice gives the same table as unfollowing once |
| FollowGraph.FollowThenUnfollow | yatube/posts/views.py:109-120 | when the user did not follow the author, follow then unfollow restores the original table |
| Feeds.GlobalFeed | yatube/posts/views.py:13 | the index feed holds every post with its multiplicity, newest first |
| Feeds.GroupFeed | yatube/posts/views.py:22 | the group feed holds exactly the posts of that group, each as often as stored, newest first |
| Feeds.ProfileFeed | yatube/posts/views.py:35 | the profile feed holds exactly that author's posts, each as often as stored, newest first |
| Feeds.FollowJoin | yatube/posts/views.py:101 | the join lists each post once per follow row (viewer, post's author); a post is present exactly when its author is followed |
| Feeds.FollowFeed | yatube/posts/views.py:101 | the following feed holds exactly the posts whose author the viewer follows, newest first, each post once per matching follow row |
| Feeds.FollowJoinIsFilter | yatube/posts/views.py:101 | without repeated follow rows the join equals the plain filter "author is followed" |
| Feeds.FollowFeedIsFilter | yatube/posts/views.py:101 | with no repeated follow row the following feed is the newest-first order of the followed authors' posts, each once |
| Feeds.RepeatedRowRepeatsPost | yatube/posts/models.py:58-66 | with the same follow row stored twice, the following feed lists the post twice, which is why the guard matters |
| Feeds.OwnPostsNotInFollowFeed | yatube/posts/tests/test_views.py:262-266 | a viewer who does not follow themselves finds none of their own posts in their following feed |
| Feeds.NoFollowsEmptyFeed | yatube/posts/views.py:101 | a viewer who follows nobody has an empty following feed |
| Feeds.FollowJoinOfOneAuthor | yatube/posts/views.py:101 | when the viewer's only follow row is one row for an author, the join is exactly that author's posts, each once |
| Feeds.FirstFollowShowsAuthorFeed | yatube/posts/tests/test_views.py:253-260 | a user who follows nobody, after following another author, sees exactly that author's posts newest first, whatever rows other users have |
| Paging.PageCount | yatube/posts/utils.py:4-8 | the page count is the least number of 10-post pages that hold all posts; an empty feed has exactly one page |
| Paging.Page | yatube/posts/utils.py:4-8 | page n holds the posts at positions (n-1)*10 onward, at most 10 of them, and exactly 10 on every page but the last |
| Paging.Pages | yatube/posts/views.py:9 | the feed splits into PageCount pages of at most SORT_VALUE = 10 posts each |
| Paging.PagesConcatenate | yatube/posts/utils.py:4-8 | the pages laid end to end give back the feed |
| Paging.PagesArePages | yatube/posts/utils.py:4-8 | the k-th of all pages is page k + 1 |
| Paging.ThirteenPostsMakeTwoPages | yatube/posts/tests/test_views.py:194-205 | 13 posts make page 1 of 10 posts with a next page and page 2 of 3 posts without one |
| Store.FindUser | yatube/posts/views.py:31 | a found user has the username; nothing is found exactly when no user has it |
| Store.FindGroup | yatube/posts/views.py:21 | a found group has the slug; nothing is found exactly when no group has it |
| Store.FreshGroupId | yatube/posts/models.py:10 | a new group's key is larger than every existing group's |
| Store.CreateGroup | yatube/posts/models.py:12 | creating a group fails with IntegrityError exactly when its slug is taken; otherwise one group with a new key is appended and nothing else changes |
| Store.DeletePost | yatube/posts/models.py:47-49 | deleting a post removes it and every comment on it; every other post and comment stays with its stored multiplicity |
| Store.DeleteGroup | yatube/posts/models.py:27-33 | deleting a group removes it and sets its posts' group to none; every post stays, otherwise unchanged |
| Store.DeleteUser | yatube/posts/models.py:23-26 | deleting a user removes the user, their posts, their comments, the comments on their posts and every follow row on either side; every other row stays with its stored multiplicity |
| Store.CreateGroupKeepsValid | yatube/posts/models.py:12 | group creation keeps keys and slugs unique and every reference valid |
| Store.DeletePostKeepsValid | yatube/posts/models.py:47-49 | after deleting a post no comment refers to a missing post |
| Store.DeleteGroupKeepsValid | yatube/posts/models.py:27-33 | after deleting a group no post refers to a missing group |
| Store.DeleteGroupKeepsPostIds | yatube/posts/models.py:27-33 | clearing the group changes no post's key |
| Store.DeleteGroupKeepsPostRefs | yatube/posts/models.py:27-33 | every post's author and group still resolve after the group is deleted |
| Store.DeleteUserRemovesComments | yatube/posts/models.py:50-52 | no comment by the deleted user and no comment on one of their posts survives; every other comment remains |
| Store.DeleteUserRemovesFollows | yatube/posts/models.py:59-66 | no follow row names the deleted user as follower or author; every other row remains |
| Store.CommentsOf | yatube/posts/views.py:46 | the comments of a post are exactly the comment rows pointing at it, each as often as stored |
| Store.DeletePostLeavesNoComments | yatube/posts/models.py:47-49 | after a post is deleted, the query for its comments returns nothing |
| Store.DeleteGroupDetachesPosts | yatube/posts/models.py:27-33 | after a group is deleted no post belongs to it, and every post of another group is still there unchanged |
| Store.DeleteUserKeepsValid | yatube/posts/models.py:23-26 | after deleting a user no post, comment or follow row refers to a missing user or post |
| Views.GroupPosts | yatube/posts/views.py:20-27 | an unknown slug is NotFound; otherwise the group with that slug and exactly its posts, each as often as stored, newest first |
| Views.Profile | yatube/posts/views.py:30-41 | an unknown username is NotFound; otherwise the author, the author's posts, each as often as stored, newest first, and following true exactly when the viewer is logged in and follows the author |
| Views.FollowIndex | yatube/posts/views.py:99-103 | the logged-in viewer sees exactly the posts of the authors they follow, newest first, each once per matching follow row |
| Views.ProfileFollow | yatube/posts/views.py:106-113 | an unknown username is NotFound; otherwise only the follow table changes, gaining the row (actor, author) unless that is a self-follow or already present |
| Views.ProfileUnfollow | yatube/posts/views.py:116-121 | an unknown username is NotFound; otherwise only the follow table changes, losing every (actor, author) row and no other |
| Views.ProfileFollowKeepsValid | yatube/posts/views.py:109-112 | following keeps every database constraint and the follow-table invariant (no self-follow, no repeated row) |
| Views.ProfileUnfollowKeepsValid | yatube/posts/views.py:120 | unfollowing keeps every database constraint and the follow-table invariant |
| Views.FollowSetsFollowingFlag | yatube/posts/tests/test_views.py:229-239 | after following another author, that author's profile shows the follower as following |
| Views.AnonymousNeverFollowing | yatube/posts/views.py:33-34 | an anonymous viewer never sees the following flag set |

## Left out

- Template rendering, redirects and HTTP status codes: presentation only.
- Views.GroupPosts: returns the group and its unpaged feed; the view's `page_obj` is `Paging.Page` of that feed for the requested page number.
- Views.Profile: returns the author, the `following` flag and the unpaged feed; the view's `page_obj` is `Paging.Page` of that feed.
- Views.FollowIndex: returns the unpaged following feed; the view's `page_obj` is `Paging.Page` of it.
- Feeds.GlobalFeed: the index view's `page_obj` is `Paging.Page` of this unpaged feed.
- Authentication and `login_required`: the acting user of the follow actions and of `follow_index` is a precondition (an existing user), not session state.
- `post_detail`: its comment query `post.comments.all()` is modelled by `Store.CommentsOf`; its `get_object_or_404(Post, ...)` lookup and its comment form are not part of this model.
- `post_create`, `post_edit` and `add_comment`: form flows whose forms are not part of this model; no author-only edit rule exists in the source and none is modelled.
- Image upload and media storage: file I/O; `image` is kept as a plain string field.
- The page cache in front of the index: framework middleware configured elsewhere.
- Paging.Page: requires an in-range page number; Django's clamping of out-of-range numbers and its handling of missing or malformed ones happen inside `Paginator.get_page`, which is not part of this model. The one-empty-page rule for an empty feed is Django's default `allow_empty_first_page`.
- How `pub_date` is assigned: timestamps are given integers. The order among posts with equal dates is not fixed by the source; the model keeps equal-date posts in their stored order.
- ORM mechanics (`select_related`, SQL joins): queries are filters over sequences.
- Concurrency: two simultaneous follow requests could both pass the guard and insert the same row, since no database constraint stops them; the model is sequential.
- User registration and group editing: not part of the source shown; users and groups are given.
- Comment display order: the `Comment` model declares no ordering.
