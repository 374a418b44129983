/** The records of the blog (Profile, Follow, Category, Post, Comment, PostView and
    the auth User they point to), their field defaults, the uniqueness, reference and
    ordering rules the tables keep, the follow-edge algebra, and the rows that the
    on-delete rules (CASCADE, SET_NULL) leave behind. */
module Models {
  import opened Wrappers
  import Seqs

  type UserId = nat
  type PostId = nat
  type CategoryId = nat
  /** A reading of the store's clock; later writes get larger readings. */
  type Time = nat

  /** The auth user: only the fields the blog reads. */
  datatype User = User(id: UserId, username: string)

  /** The value of an image field. `name` is the stored file name ("" when no file
      is set); `publicId` is present when the value carries a `public_id`
      attribute (a hosted resource), `urlPath` when it can report a URL, and is
      then the path component of that URL. */
  datatype Image = Image(name: string, publicId: Option<string>, urlPath: Option<string>)
  {
    /** A file value is truthy when it names a file. */
    predicate IsSet() { name != "" }

    /** File values compare equal when they name the same file. */
    predicate SameFile(other: Image) { name == other.name }
  }

  /** The empty file value. */
  const NoImage := Image("", None, None)

  datatype Profile = Profile(user: UserId, bio: string, avatar: Image, isAuthor: bool, createdAt: Time)

  datatype Follow = Follow(follower: UserId, following: UserId, createdAt: Time)

  datatype Category = Category(id: CategoryId, name: string, slug: string)

  datatype Post = Post(
    id: PostId,
    author: UserId,
    title: string,
    slug: string,
    content: string,
    featuredImage: Image,
    category: Option<CategoryId>,
    published: bool,
    createdAt: Time,
    updatedAt: Time,
    views: nat)

  datatype Comment = Comment(post: PostId, author: UserId, body: string, createdAt: Time, moderated: bool)

  datatype PostView = PostView(post: PostId, user: Option<UserId>, ipAddress: Option<string>, createdAt: Time)

  // ---------------------------------------------------------------------------
  // Field defaults

  /** A profile as it is first stored: empty bio, no avatar, allowed to author. */
  function DefaultProfile(user: UserId, now: Time): (p: Profile)
    ensures p.user == user && p.bio == "" && !p.avatar.IsSet() && p.isAuthor
  {
    Profile(user, "", NoImage, true, now)
  }

  /** A post with every defaulted field at its default: not published, no image,
      no category, no views. */
  function DefaultPost(id: PostId, author: UserId, title: string, slug: string, content: string, now: Time): (p: Post)
    ensures p.views == 0 && !p.published && !p.featuredImage.IsSet() && p.category.None?
    ensures p.createdAt == p.updatedAt == now
  {
    Post(id, author, title, slug, content, NoImage, None, false, now, now, 0)
  }

  /** A comment as it is first stored: not moderated. */
  function DefaultComment(post: PostId, author: UserId, body: string, now: Time): (c: Comment)
    ensures !c.moderated && c.body == body && c.post == post && c.author == author
  {
    Comment(post, author, body, now, false)
  }

  // ---------------------------------------------------------------------------
  // Keys

  function UserIds(users: seq<User>): set<UserId> { set u | u in users :: u.id }
  function PostIds(posts: seq<Post>): set<PostId> { set p | p in posts :: p.id }
  function CategoryIds(categories: seq<Category>): set<CategoryId> { set c | c in categories :: c.id }

  // ---------------------------------------------------------------------------
  // Table invariants

  /** Users: primary keys and usernames are unique. */
  predicate UsersOk(users: seq<User>)
  {
    forall i, j :: 0 <= i < j < |users| ==> users[i].id != users[j].id && users[i].username != users[j].username
  }

  /** Profiles: each points at a user, and no user has two (one-to-one). */
  predicate ProfilesOk(profiles: seq<Profile>, userIds: set<UserId>, clock: Time)
  {
    && (forall p :: p in profiles ==> p.user in userIds && p.createdAt < clock)
    && (forall i, j :: 0 <= i < j < |profiles| ==> profiles[i].user != profiles[j].user)
  }

  /** Every user has a profile. */
  predicate ProfilesComplete(profiles: seq<Profile>, users: seq<User>)
  {
    forall u :: u in users ==> exists p :: p in profiles && p.user == u.id
  }

  /** The ordered pair a follow row stands for. */
  function Edge(f: Follow): (UserId, UserId) { (f.follower, f.following) }

  /** No two follow rows stand for the same ordered pair (unique_together). */
  predicate UniquePairs(follows: seq<Follow>)
  {
    forall i, j :: 0 <= i < j < |follows| ==> Edge(follows[i]) != Edge(follows[j])
  }

  /** Follows: both ends are users, nobody follows themself, pairs are unique. */
  predicate FollowsOk(follows: seq<Follow>, userIds: set<UserId>, clock: Time)
  {
    && (forall f :: f in follows ==>
          && f.follower in userIds && f.following in userIds
          && f.follower != f.following
          && f.createdAt < clock)
    && UniquePairs(follows)
  }

  /** Categories: primary keys, names and slugs are each unique. */
  predicate CategoriesOk(categories: seq<Category>)
  {
    forall i, j :: 0 <= i < j < |categories| ==>
      && categories[i].id != categories[j].id
      && categories[i].name != categories[j].name
      && categories[i].slug != categories[j].slug
  }

  /** Posts, stored newest first: unique keys and slugs, an existing author, no
      category or an existing one, and timestamps no later than the clock. */
  predicate PostsOk(posts: seq<Post>, userIds: set<UserId>, categoryIds: set<CategoryId>, clock: Time)
  {
    && (forall p :: p in posts ==>
          && p.author in userIds
          && (p.category.Some? ==> p.category.value in categoryIds)
          && p.createdAt <= p.updatedAt < clock)
    && (forall i, j :: 0 <= i < j < |posts| ==>
          && posts[i].id != posts[j].id
          && posts[i].slug != posts[j].slug
          && posts[i].createdAt > posts[j].createdAt)
  }

  /** Comments, stored oldest first: each on an existing post by an existing user. */
  predicate CommentsOk(comments: seq<Comment>, postIds: set<PostId>, userIds: set<UserId>, clock: Time)
  {
    && (forall c :: c in comments ==> c.post in postIds && c.author in userIds && c.createdAt < clock)
    && (forall i, j :: 0 <= i < j < |comments| ==> comments[i].createdAt < comments[j].createdAt)
  }

  /** View events, stored newest first: each on an existing post, by an existing
      user or anonymous. */
  predicate PostViewsOk(views: seq<PostView>, postIds: set<PostId>, userIds: set<UserId>, clock: Time)
  {
    && (forall v :: v in views ==>
          && v.post in postIds
          && (v.user.Some? ==> v.user.value in userIds)
          && v.createdAt < clock)
    && (forall i, j :: 0 <= i < j < |views| ==> views[i].createdAt > views[j].createdAt)
  }

  /** Every key handed out so far is below `nextId`. */
  predicate KeysBelow(userIds: set<UserId>, categoryIds: set<CategoryId>, postIds: set<PostId>, nextId: nat)
  {
    && (forall x :: x in userIds ==> x < nextId)
    && (forall x :: x in categoryIds ==> x < nextId)
    && (forall x :: x in postIds ==> x < nextId)
  }

  // ---------------------------------------------------------------------------
  // Follow edges

  /** The ordered pairs the follow rows stand for. */
  function EdgeSet(follows: seq<Follow>): set<(UserId, UserId)>
  {
    set f | f in follows :: Edge(f)
  }

  /** `a` follows `b`. */
  predicate HasEdge(follows: seq<Follow>, a: UserId, b: UserId)
  {
    (a, b) in EdgeSet(follows)
  }

  /** Rows for a pair other than (a, b). */
  function OtherPair(a: UserId, b: UserId): Follow -> bool
  {
    (f: Follow) => Edge(f) != (a, b)
  }

  /** Rows into `u`. */
  function Into(u: UserId): Follow -> bool
  {
    (f: Follow) => f.following == u
  }

  /** Rows out of `u`. */
  function OutOf(u: UserId): Follow -> bool
  {
    (f: Follow) => f.follower == u
  }

  /** The rows left after deleting the row for (a, b). */
  function RemoveEdge(follows: seq<Follow>, a: UserId, b: UserId): seq<Follow>
  {
    Seqs.Filter(follows, OtherPair(a, b))
  }

  /** The follow toggle on the rows: delete the (a, b) row if there is one,
      otherwise add one stamped `now`. */
  function ToggleEdge(follows: seq<Follow>, a: UserId, b: UserId, now: Time): seq<Follow>
  {
    if HasEdge(follows, a, b) then RemoveEdge(follows, a, b) else follows + [Follow(a, b, now)]
  }

  /** Number of rows into `u`: its followers. */
  function FollowersCount(follows: seq<Follow>, u: UserId): nat
  {
    Seqs.Count(follows, Into(u))
  }

  /** Number of rows out of `u`: the users it follows. */
  function FollowingCount(follows: seq<Follow>, u: UserId): nat
  {
    Seqs.Count(follows, OutOf(u))
  }

  /** The toggle flips exactly the pair (a, b) in the edge set. */
  lemma ToggleEdgeSet(follows: seq<Follow>, a: UserId, b: UserId, now: Time)
    ensures EdgeSet(ToggleEdge(follows, a, b, now)) ==
      if (a, b) in EdgeSet(follows) then EdgeSet(follows) - {(a, b)} else EdgeSet(follows) + {(a, b)}
  {
    var r := ToggleEdge(follows, a, b, now);
    if (a, b) !in EdgeSet(follows) {
      assert Edge(Follow(a, b, now)) == (a, b) && Follow(a, b, now) in r;
    } else {
      forall e | e in EdgeSet(follows) && e != (a, b) ensures e in EdgeSet(r) {
        var f :| f in follows && Edge(f) == e;
        assert f in r;
      }
    }
  }

  /** Two toggles of the same pair give back the original edge set. */
  lemma ToggleTwice(follows: seq<Follow>, a: UserId, b: UserId, t1: Time, t2: Time)
    ensures EdgeSet(ToggleEdge(ToggleEdge(follows, a, b, t1), a, b, t2)) == EdgeSet(follows)
  {
    ToggleEdgeSet(follows, a, b, t1);
    ToggleEdgeSet(ToggleEdge(follows, a, b, t1), a, b, t2);
  }

  /** The toggle keeps every pair unique. */
  lemma ToggleKeepsPairsUnique(follows: seq<Follow>, a: UserId, b: UserId, now: Time)
    requires UniquePairs(follows)
    ensures UniquePairs(ToggleEdge(follows, a, b, now))
  {
    if HasEdge(follows, a, b) {
      FilterKeepsPairsUnique(follows, a, b);
    } else {
      var r := follows + [Follow(a, b, now)];
      forall i, j | 0 <= i < j < |r| ensures Edge(r[i]) != Edge(r[j]) {
        if j == |follows| {
          assert r[i] in follows;
        }
      }
    }
  }

  lemma {:induction false} FilterKeepsPairsUnique(follows: seq<Follow>, a: UserId, b: UserId)
    requires UniquePairs(follows)
    ensures UniquePairs(RemoveEdge(follows, a, b))
  {
    if follows != [] {
      var tail := follows[1..];
      FilterKeepsPairsUnique(tail, a, b);
      var rt := RemoveEdge(tail, a, b);
      assert forall f :: f in rt ==> Edge(f) != Edge(follows[0]) by {
        forall f | f in rt ensures Edge(f) != Edge(follows[0]) {
          var k :| 0 <= k < |tail| && tail[k] == f;
          assert follows[k + 1] == f;
        }
      }
    }
  }

  /** With unique pairs, the (a, b) row, when there is one, is the only row the
      deletion takes away. */
  lemma RemoveEdgeSplits(follows: seq<Follow>, a: UserId, b: UserId) returns (k: nat)
    requires UniquePairs(follows) && HasEdge(follows, a, b)
    ensures k < |follows| && Edge(follows[k]) == (a, b)
    ensures RemoveEdge(follows, a, b) == follows[..k] + follows[k + 1..]
  {
    k := EdgeIndex(follows, a, b);
    OnlyEdgeAt(follows, a, b, k);
    Seqs.FilterDropsOne(follows, k, OtherPair(a, b));
  }

  /** A row standing for the pair (a, b), when there is one. */
  lemma EdgeIndex(follows: seq<Follow>, a: UserId, b: UserId) returns (k: nat)
    requires HasEdge(follows, a, b)
    ensures k < |follows| && Edge(follows[k]) == (a, b)
  {
    var f :| f in follows && Edge(f) == (a, b);
    k :| 0 <= k < |follows| && follows[k] == f;
  }

  /** With unique pairs, the rows before and after the (a, b) row all stand
      for other pairs. */
  lemma OnlyEdgeAt(follows: seq<Follow>, a: UserId, b: UserId, k: nat)
    requires UniquePairs(follows) && k < |follows| && Edge(follows[k]) == (a, b)
    ensures Seqs.Filter(follows[..k], OtherPair(a, b)) == follows[..k]
    ensures Seqs.Filter(follows[k + 1..], OtherPair(a, b)) == follows[k + 1..]
  {
    var p := OtherPair(a, b);
    var pre, post := follows[..k], follows[k + 1..];
    forall j | 0 <= j < |pre| ensures p(pre[j]) {
      assert pre[j] == follows[j];
    }
    forall j | 0 <= j < |post| ensures p(post[j]) {
      assert post[j] == follows[k + 1 + j];
    }
    FilterAllIndexed(pre, p);
    FilterAllIndexed(post, p);
  }

  lemma FilterAllIndexed(s: seq<Follow>, p: Follow -> bool)
    requires forall j :: 0 <= j < |s| ==> p(s[j])
    ensures Seqs.Filter(s, p) == s
  {
    Seqs.FilterAll(s, p);
  }

  /** With unique pairs, deleting the (a, b) row lowers the follower count of b
      and the following count of a by one, and no other count. */
  lemma RemoveEdgeCounts(follows: seq<Follow>, a: UserId, b: UserId, u: UserId)
    requires UniquePairs(follows)
    ensures FollowersCount(RemoveEdge(follows, a, b), u) + (if u == b && HasEdge(follows, a, b) then 1 else 0)
            == FollowersCount(follows, u)
    ensures FollowingCount(RemoveEdge(follows, a, b), u) + (if u == a && HasEdge(follows, a, b) then 1 else 0)
            == FollowingCount(follows, u)
  {
    if HasEdge(follows, a, b) {
      var k := RemoveEdgeSplits(follows, a, b);
      var pre, f, post := follows[..k], follows[k], follows[k + 1..];
      assert follows == pre + [f] + post;
      var into, outOf := Into(u), OutOf(u);
      Seqs.CountAppend(pre + [f], post, into);
      Seqs.CountAppend(pre, [f], into);
      Seqs.CountAppend(pre, post, into);
      Seqs.CountAppend(pre + [f], post, outOf);
      Seqs.CountAppend(pre, [f], outOf);
      Seqs.CountAppend(pre, post, outOf);
    } else {
      forall g | g in follows ensures Edge(g) != (a, b) {
        assert Edge(g) in EdgeSet(follows);
      }
      Seqs.FilterAll(follows, OtherPair(a, b));
    }
  }

  /** The follower count of the target after a toggle is one more ("followed")
      or one less ("unfollowed") than before; every other user's is unchanged. */
  lemma ToggleFollowersCount(follows: seq<Follow>, a: UserId, b: UserId, now: Time, u: UserId)
    requires UniquePairs(follows)
    ensures FollowersCount(ToggleEdge(follows, a, b, now), u) ==
      if u != b then FollowersCount(follows, u)
      else if HasEdge(follows, a, b) then FollowersCount(follows, u) - 1
      else FollowersCount(follows, u) + 1
  {
    if HasEdge(follows, a, b) {
      RemoveEdgeCounts(follows, a, b, u);
    } else {
      Seqs.CountAppend(follows, [Follow(a, b, now)], Into(u));
    }
  }

  /** The following count of the requester after a toggle is one more or one
      less than before; every other user's is unchanged. */
  lemma ToggleFollowingCount(follows: seq<Follow>, a: UserId, b: UserId, now: Time, u: UserId)
    requires UniquePairs(follows)
    ensures FollowingCount(ToggleEdge(follows, a, b, now), u) ==
      if u != a then FollowingCount(follows, u)
      else if HasEdge(follows, a, b) then FollowingCount(follows, u) - 1
      else FollowingCount(follows, u) + 1
  {
    if HasEdge(follows, a, b) {
      RemoveEdgeCounts(follows, a, b, u);
    } else {
      Seqs.CountAppend(follows, [Follow(a, b, now)], OutOf(u));
    }
  }

  /** The users following `u`. */
  function Followers(follows: seq<Follow>, u: UserId): set<UserId>
  {
    set f | f in follows && f.following == u :: f.follower
  }

  /** The users `u` follows. */
  function Followed(follows: seq<Follow>, u: UserId): set<UserId>
  {
    set f | f in follows && f.follower == u :: f.following
  }

  /** Dropping the first row keeps the pairs unique. */
  lemma TailPairsUnique(follows: seq<Follow>)
    requires follows != [] && UniquePairs(follows)
    ensures UniquePairs(follows[1..])
  {
    var tail := follows[1..];
    forall i, j | 0 <= i < j < |tail| ensures Edge(tail[i]) != Edge(tail[j]) {
      assert tail[i] == follows[i + 1] && tail[j] == follows[j + 1];
    }
  }

  /** With unique pairs, the follower count is the number of distinct users
      following `u`. */
  lemma {:induction false} FollowersCountIsDistinct(follows: seq<Follow>, u: UserId)
    requires UniquePairs(follows)
    ensures FollowersCount(follows, u) == |Followers(follows, u)|
  {
    if follows != [] {
      TailPairsUnique(follows);
      FollowersCountIsDistinct(follows[1..], u);
      Seqs.CountHead(follows, Into(u));
      FollowersHead(follows, u);
    }
  }

  /** The followers of `u` are those of the later rows plus the first row's
      follower, who is new among them when the pairs are unique. */
  lemma FollowersHead(follows: seq<Follow>, u: UserId)
    requires follows != [] && UniquePairs(follows)
    ensures var f := follows[0];
      Followers(follows, u) == Followers(follows[1..], u) + (if f.following == u then {f.follower} else {})
    ensures follows[0].following == u ==> follows[0].follower !in Followers(follows[1..], u)
  {
    var f, tail := follows[0], follows[1..];
    assert follows == [f] + tail;
    if f.following == u {
      forall k | 0 <= k < |tail| && tail[k].following == u ensures tail[k].follower != f.follower {
        assert tail[k] == follows[k + 1];
      }
    }
  }

  /** With unique pairs, the following count is the number of distinct users
      `u` follows. */
  lemma {:induction false} FollowingCountIsDistinct(follows: seq<Follow>, u: UserId)
    requires UniquePairs(follows)
    ensures FollowingCount(follows, u) == |Followed(follows, u)|
  {
    if follows != [] {
      TailPairsUnique(follows);
      FollowingCountIsDistinct(follows[1..], u);
      Seqs.CountHead(follows, OutOf(u));
      FollowedHead(follows, u);
    }
  }

  /** The users `u` follows are those of the later rows plus the first row's
      followed user, who is new among them when the pairs are unique. */
  lemma FollowedHead(follows: seq<Follow>, u: UserId)
    requires follows != [] && UniquePairs(follows)
    ensures var f := follows[0];
      Followed(follows, u) == Followed(follows[1..], u) + (if f.follower == u then {f.following} else {})
    ensures follows[0].follower == u ==> follows[0].following !in Followed(follows[1..], u)
  {
    var f, tail := follows[0], follows[1..];
    assert follows == [f] + tail;
    if f.follower == u {
      forall k | 0 <= k < |tail| && tail[k].follower == u ensures tail[k].following != f.following {
        assert tail[k] == follows[k + 1];
      }
    }
  }

  // ---------------------------------------------------------------------------
  // Lookups (`get_object_or_404`, `.get(...)`)

  function NamedAs(name: string): User -> bool { (u: User) => u.username == name }
  function WithUserId(id: UserId): User -> bool { (u: User) => u.id == id }
  function WithSlug(slug: string): Post -> bool { (p: Post) => p.slug == slug }
  function WithPostId(id: PostId): Post -> bool { (p: Post) => p.id == id }
  function CategoryNamed(name: string): Category -> bool { (c: Category) => c.name == name }

  /** The user with this username, if any. */
  function UserByName(users: seq<User>, name: string): (r: Option<User>)
    ensures r.Some? ==> r.value in users && r.value.username == name
    ensures r.None? <==> forall u :: u in users ==> u.username != name
  {
    Seqs.Find(users, NamedAs(name))
  }

  /** The user with this key, if any. */
  function UserById(users: seq<User>, id: UserId): (r: Option<User>)
    ensures r.Some? ==> r.value in users && r.value.id == id
    ensures r.None? <==> id !in UserIds(users)
  {
    Seqs.Find(users, WithUserId(id))
  }

  /** The category with this name, if any. */
  function CategoryByName(categories: seq<Category>, name: string): (r: Option<Category>)
    ensures r.Some? ==> r.value in categories && r.value.name == name
    ensures r.None? <==> forall c :: c in categories ==> c.name != name
  {
    Seqs.Find(categories, CategoryNamed(name))
  }

  /** Some category already has this slug. */
  predicate SlugTaken(categories: seq<Category>, slug: string)
  {
    exists c :: c in categories && c.slug == slug
  }

  /** With unique names, looking a category up by its name finds that category. */
  lemma CategoryByNameFinds(categories: seq<Category>, c: Category)
    requires CategoriesOk(categories) && c in categories
    ensures CategoryByName(categories, c.name) == Some(c)
  {
    var r := CategoryByName(categories, c.name).value;
    var i :| 0 <= i < |categories| && categories[i] == r;
    var j :| 0 <= j < |categories| && categories[j] == c;
    if i < j {
      assert categories[i].name != categories[j].name;
    } else if j < i {
      assert categories[j].name != categories[i].name;
    }
  }

  /** The position of the post with this slug, if any. */
  function SlugIndex(posts: seq<Post>, slug: string): (r: Option<nat>)
    ensures r.Some? ==> r.value < |posts| && posts[r.value].slug == slug
    ensures r.None? <==> forall p :: p in posts ==> p.slug != slug
  {
    Seqs.IndexOf(posts, WithSlug(slug))
  }

  /** The stored post with this key, if any. */
  function PostById(posts: seq<Post>, id: PostId): (r: Option<Post>)
    ensures r.Some? ==> r.value in posts && r.value.id == id
    ensures r.None? <==> id !in PostIds(posts)
  {
    Seqs.Find(posts, WithPostId(id))
  }

  /** With unique keys, looking a post up by the key of the one at `k` finds it. */
  lemma PostByIdAt(posts: seq<Post>, k: nat)
    requires k < |posts|
    requires forall i, j :: 0 <= i < j < |posts| ==> posts[i].id != posts[j].id
    ensures PostById(posts, posts[k].id) == Some(posts[k])
  {
    var r := PostById(posts, posts[k].id).value;
    var i :| 0 <= i < |posts| && posts[i] == r;
    if i < k {
      assert posts[i].id != posts[k].id;
    } else if k < i {
      assert posts[k].id != posts[i].id;
    }
  }

  // ---------------------------------------------------------------------------
  // View events

  function OnPost(id: PostId): PostView -> bool { (v: PostView) => v.post == id }

  /** Number of recorded view events of post `id`. */
  function ViewCount(views: seq<PostView>, id: PostId): nat
  {
    Seqs.Count(views, OnPost(id))
  }

  /** Every post's counter equals the number of its recorded view events. */
  predicate ViewsCounted(posts: seq<Post>, views: seq<PostView>)
  {
    forall p :: p in posts ==> p.views == ViewCount(views, p.id)
  }

  /** A new event adds one to the count of its own post and to no other. */
  lemma ViewCountPrepend(views: seq<PostView>, v: PostView, id: PostId)
    ensures ViewCount([v] + views, id) == ViewCount(views, id) + (if v.post == id then 1 else 0)
  {
    Seqs.CountAppend([v], views, OnPost(id));
    assert Seqs.Filter([v], OnPost(id)) == if v.post == id then [v] else [] by {
      assert [v][1..] == [];
    }
  }

  /** A post with no events has count 0. */
  lemma ViewCountNone(views: seq<PostView>, id: PostId)
    requires forall v :: v in views ==> v.post != id
    ensures ViewCount(views, id) == 0
  {
    Seqs.FilterNone(views, OnPost(id));
  }

  /** Removing the events of post `gone` leaves every other post's count. */
  lemma {:induction false} ViewCountWithoutPost(views: seq<PostView>, gone: PostId, id: PostId)
    requires id != gone
    ensures ViewCount(ViewsWithoutPost(views, gone), id) == ViewCount(views, id)
  {
    if views != [] {
      ViewCountWithoutPost(views[1..], gone, id);
      var v := views[0];
      assert views == [v] + views[1..];
      ViewCountPrepend(views[1..], v, id);
      var rest := ViewsWithoutPost(views[1..], gone);
      if v.post != gone {
        assert ViewsWithoutPost(views, gone) == [v] + rest;
        ViewCountPrepend(rest, v, id);
      } else {
        assert ViewsWithoutPost(views, gone) == [] + rest;
        assert [] + rest == rest;
      }
    }
  }

  // ---------------------------------------------------------------------------
  // On-delete rules

  function CommentOn(id: PostId): Comment -> bool { (c: Comment) => c.post == id }
  function CommentNotOn(id: PostId): Comment -> bool { (c: Comment) => c.post != id }
  function ViewNotOn(id: PostId): PostView -> bool { (v: PostView) => v.post != id }
  function OtherCategory(id: CategoryId): Category -> bool { (c: Category) => c.id != id }

  /** Comments left after their post `id` is deleted (CASCADE). */
  function CommentsWithoutPost(comments: seq<Comment>, id: PostId): (r: seq<Comment>)
    ensures forall c :: c in r <==> c in comments && c.post != id
  {
    Seqs.Filter(comments, CommentNotOn(id))
  }

  /** View events left after their post `id` is deleted (CASCADE). */
  function ViewsWithoutPost(views: seq<PostView>, id: PostId): (r: seq<PostView>)
    ensures forall v :: v in r <==> v in views && v.post != id
  {
    Seqs.Filter(views, ViewNotOn(id))
  }

  /** Number of comments on post `id`. */
  function CommentCount(comments: seq<Comment>, id: PostId): nat
  {
    Seqs.Count(comments, CommentOn(id))
  }

  /** A new comment adds one to the count of its own post and to no other. */
  lemma CommentCountAppend(comments: seq<Comment>, c: Comment, id: PostId)
    ensures CommentCount(comments + [c], id) == CommentCount(comments, id) + (if c.post == id then 1 else 0)
  {
    Seqs.CountAppend(comments, [c], CommentOn(id));
    assert Seqs.Filter([c], CommentOn(id)) == if c.post == id then [c] else [] by {
      assert [c][1..] == [];
    }
  }

  /** Categories left after the category `id` is deleted. */
  function WithoutCategory(categories: seq<Category>, id: CategoryId): (r: seq<Category>)
    ensures forall c :: c in r <==> c in categories && c.id != id
  {
    Seqs.Filter(categories, OtherCategory(id))
  }

  /** Posts after the category `id` is deleted (SET_NULL). */
  function DetachCategory(posts: seq<Post>, id: CategoryId): (r: seq<Post>)
    ensures |r| == |posts|
    ensures forall i :: 0 <= i < |r| ==> r[i].category != Some(id)
  {
    seq(|posts|, i requires 0 <= i < |posts| =>
      if posts[i].category == Some(id) then posts[i].(category := None) else posts[i])
  }

  /** The cascade removes exactly the comments of the deleted post: their number
      is what disappears, and every other comment stays, in order. */
  lemma {:induction false} CascadeRemovesExactlyItsComments(comments: seq<Comment>, id: PostId)
    ensures |CommentsWithoutPost(comments, id)| + CommentCount(comments, id) == |comments|
    ensures forall c :: c in CommentsWithoutPost(comments, id) <==> c in comments && c.post != id
  {
    if comments != [] {
      CascadeRemovesExactlyItsComments(comments[1..], id);
    }
  }

  /** After SET_NULL no post refers to the deleted category, and each post is
      the same as before in every other field. */
  lemma DetachCategoryKeepsPosts(posts: seq<Post>, id: CategoryId)
    ensures forall p :: p in DetachCategory(posts, id) ==> p.category != Some(id)
    ensures forall i :: 0 <= i < |posts| ==>
      DetachCategory(posts, id)[i].(category := posts[i].category) == posts[i]
  {
  }
}
