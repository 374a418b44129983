/** The database as one value, the rules that hold across its tables, the
    tables each write leaves, and the proofs that each of those writes keeps the
    rules. */
module Tables {
  import opened Wrappers
  import opened Models
  import Seqs
  import Forms

  /** Every table, the clock and the next free key. */
  datatype Db = Db(
    users: seq<User>,
    profiles: seq<Profile>,
    follows: seq<Follow>,
    categories: seq<Category>,
    posts: seq<Post>,
    comments: seq<Comment>,
    postViews: seq<PostView>,
    clock: Time,
    nextId: nat)

  /** Every table keeps its keys, uniqueness rules, references and ordering;
      every user has exactly one profile; every post's view counter equals the
      number of its recorded view events; every key is below `nextId`. */
  predicate DbOk(d: Db)
  {
    && UsersOk(d.users)
    && ProfilesOk(d.profiles, UserIds(d.users), d.clock)
    && ProfilesComplete(d.profiles, d.users)
    && FollowsOk(d.follows, UserIds(d.users), d.clock)
    && CategoriesOk(d.categories)
    && PostsOk(d.posts, UserIds(d.users), CategoryIds(d.categories), d.clock)
    && CommentsOk(d.comments, PostIds(d.posts), UserIds(d.users), d.clock)
    && PostViewsOk(d.postViews, PostIds(d.posts), UserIds(d.users), d.clock)
    && ViewsCounted(d.posts, d.postViews)
    && KeysBelow(UserIds(d.users), CategoryIds(d.categories), PostIds(d.posts), d.nextId)
  }

  /** `DbOk` from its parts, each stated on its own (this keeps the proofs
      that a write keeps the rules small). */
  lemma DbOkIntro(e: Db)
    requires UsersOk(e.users)
    requires ProfilesOk(e.profiles, UserIds(e.users), e.clock)
    requires ProfilesComplete(e.profiles, e.users)
    requires FollowsOk(e.follows, UserIds(e.users), e.clock)
    requires CategoriesOk(e.categories)
    requires PostsOk(e.posts, UserIds(e.users), CategoryIds(e.categories), e.clock)
    requires CommentsOk(e.comments, PostIds(e.posts), UserIds(e.users), e.clock)
    requires PostViewsOk(e.postViews, PostIds(e.posts), UserIds(e.users), e.clock)
    requires ViewsCounted(e.posts, e.postViews)
    requires KeysBelow(UserIds(e.users), CategoryIds(e.categories), PostIds(e.posts), e.nextId)
    ensures DbOk(e)
  {
  }

  /** The empty database. */
  const Empty := Db([], [], [], [], [], [], [], 0, 0)

  lemma EmptyOk()
    ensures DbOk(Empty)
  {
  }

  // ---------------------------------------------------------------------------
  // The tables each write leaves

  /** A user with the next key and its default profile, stamped with the clock. */
  function Registered(d: Db, username: string): Db
  {
    Db(d.users + [User(d.nextId, username)], d.profiles + [DefaultProfile(d.nextId, d.clock)], d.follows,
       d.categories, d.posts, d.comments, d.postViews, d.clock + 1, d.nextId + 1)
  }

  /** The (a, b) follow row deleted when it exists, created when it does not. */
  function Toggled(d: Db, a: UserId, b: UserId): Db
  {
    Db(d.users, d.profiles, ToggleEdge(d.follows, a, b, d.clock), d.categories, d.posts, d.comments, d.postViews,
       d.clock + 1, d.nextId)
  }

  /** A view of the post at `k`: an event in front of the others, the post's
      counter one higher, the clock advanced. */
  function Viewed(d: Db, k: nat, user: Option<UserId>, ip: Option<string>): Db
    requires k < |d.posts|
  {
    Db(d.users, d.profiles, d.follows, d.categories, d.posts[k := d.posts[k].(views := d.posts[k].views + 1)], d.comments,
       [PostView(d.posts[k].id, user, ip, d.clock)] + d.postViews, d.clock + 1, d.nextId)
  }

  /** `author` comments `body` on the post at `k`: the comment, stamped with
      the clock, after the others; the clock advanced. */
  function Commented(d: Db, k: nat, author: UserId, body: string): Db
    requires k < |d.posts|
  {
    Db(d.users, d.profiles, d.follows, d.categories, d.posts,
       d.comments + [DefaultComment(d.posts[k].id, author, body, d.clock)], d.postViews, d.clock + 1, d.nextId)
  }

  /** The category table and next key as `PostForm.clean` left them. */
  function Resolved(d: Db, r: Forms.Cleaned): Db
  {
    Db(d.users, d.profiles, d.follows, r.categories, d.posts, d.comments, d.postViews, d.clock, r.nextId)
  }

  /** The new post `q` in front of the others. */
  function Created(d: Db, q: Post): Db
  {
    Db(d.users, d.profiles, d.follows, d.categories, [q] + d.posts, d.comments, d.postViews, d.clock + 1, d.nextId + 1)
  }

  /** The post at `k` saved as `q`. */
  function Updated(d: Db, k: nat, q: Post): Db
    requires k < |d.posts|
  {
    Db(d.users, d.profiles, d.follows, d.categories, d.posts[k := q], d.comments, d.postViews, d.clock + 1, d.nextId)
  }

  /** The post at `k` deleted with its comments and its view events (both
      `CASCADE`). */
  function PostDeleted(d: Db, k: nat): Db
    requires k < |d.posts|
  {
    var id := d.posts[k].id;
    Db(d.users, d.profiles, d.follows, d.categories, RemoveAt(d.posts, k), CommentsWithoutPost(d.comments, id),
       ViewsWithoutPost(d.postViews, id), d.clock, d.nextId)
  }

  /** The category `id` deleted and cleared from its posts (`SET_NULL`). */
  function CategoryDeleted(d: Db, id: CategoryId): Db
  {
    Db(d.users, d.profiles, d.follows, WithoutCategory(d.categories, id), DetachCategory(d.posts, id), d.comments,
       d.postViews, d.clock, d.nextId)
  }

  /** The posts without the one at `k`. */
  function RemoveAt(posts: seq<Post>, k: nat): (r: seq<Post>)
    requires k < |posts|
    ensures |r| == |posts| - 1
    ensures forall i :: 0 <= i < |r| ==> r[i] == posts[if i < k then i else i + 1]
  {
    posts[..k] + posts[k + 1..]
  }

  // ---------------------------------------------------------------------------
  // Rules that several writes share

  /** The reference and timestamp rules survive more users, more posts, more
      categories and a later clock. */
  lemma Widen(d: Db, userIds: set<UserId>, categoryIds: set<CategoryId>, postIds: set<PostId>, clock: Time)
    requires DbOk(d) && UserIds(d.users) <= userIds && d.clock <= clock
    requires CategoryIds(d.categories) <= categoryIds && PostIds(d.posts) <= postIds
    ensures ProfilesOk(d.profiles, userIds, clock)
    ensures FollowsOk(d.follows, userIds, clock)
    ensures PostsOk(d.posts, userIds, categoryIds, clock)
    ensures CommentsOk(d.comments, postIds, userIds, clock)
    ensures PostViewsOk(d.postViews, postIds, userIds, clock)
  {
  }

  lemma KeysBelowShrink(u: set<UserId>, c: set<CategoryId>, p: set<PostId>, n: nat,
                        u': set<UserId>, c': set<CategoryId>, p': set<PostId>)
    requires KeysBelow(u, c, p, n) && u' <= u && c' <= c && p' <= p
    ensures KeysBelow(u', c', p', n)
  {
  }

  lemma KeysBelowNext(u: set<UserId>, c: set<CategoryId>, p: set<PostId>, n: nat,
                      u': set<UserId>, c': set<CategoryId>, p': set<PostId>)
    requires KeysBelow(u, c, p, n) && u' <= u + {n} && c' <= c + {n} && p' <= p + {n}
    ensures KeysBelow(u', c', p', n + 1)
  {
  }

  lemma PostIdsMembers(posts: seq<Post>)
    ensures forall p :: p in posts ==> p.id in PostIds(posts)
  {
  }

  // ---------------------------------------------------------------------------
  // Users and profiles

  /** A user with a fresh key and an unused username keeps keys and usernames
      unique. */
  lemma AddUserKeepsUsersOk(users: seq<User>, u: User)
    requires UsersOk(users) && UserByName(users, u.username).None? && u.id !in UserIds(users)
    ensures UsersOk(users + [u]) && UserIds(users + [u]) == UserIds(users) + {u.id}
  {
    var r := users + [u];
    forall i, j | 0 <= i < j < |r| ensures r[i].id != r[j].id && r[i].username != r[j].username {
      if j == |users| {
        assert r[i] in users;
      }
    }
  }

  /** A profile for a stored user that has none keeps profiles one per user,
      and gives the new user one. */
  lemma AddProfileKeepsProfiles(profiles: seq<Profile>, users: seq<User>, p: Profile, u: User,
                                userIds: set<UserId>, clock: Time)
    requires ProfilesOk(profiles, userIds, clock) && ProfilesComplete(profiles, users)
    requires p.user == u.id && p.user in userIds && p.createdAt < clock
    requires forall q :: q in profiles ==> q.user != p.user
    ensures ProfilesOk(profiles + [p], userIds, clock)
    ensures ProfilesComplete(profiles + [p], users + [u])
  {
    var r := profiles + [p];
    forall i, j | 0 <= i < j < |r| ensures r[i].user != r[j].user {
      if j == |profiles| {
        assert r[i] in profiles;
      }
    }
    forall v | v in users + [u] ensures exists q :: q in r && q.user == v.id {
      if v == u {
        assert p in r;
      } else {
        var q :| q in profiles && q.user == v.id;
        assert q in r;
      }
    }
  }

  /** Inserting a user with a fresh key and an unused username, together with
      its default profile, keeps the rules; no profile yet points at the key. */
  lemma RegisterKeepsDb(d: Db, username: string)
    requires DbOk(d) && UserByName(d.users, username).None?
    ensures forall p :: p in d.profiles ==> p.user != d.nextId
    ensures DbOk(Registered(d, username))
  {
    var e := Registered(d, username);
    var u := User(d.nextId, username);
    AddUserKeepsUsersOk(d.users, u);
    Widen(d, UserIds(e.users), CategoryIds(d.categories), PostIds(d.posts), e.clock);
    AddProfileKeepsProfiles(d.profiles, d.users, DefaultProfile(d.nextId, d.clock), u, UserIds(e.users), e.clock);
    KeysBelowNext(UserIds(d.users), CategoryIds(d.categories), PostIds(d.posts), d.nextId,
                  UserIds(e.users), CategoryIds(d.categories), PostIds(d.posts));
    DbOkIntro(Registered(d, username));
  }

  /** A newly registered user has exactly one profile, the default one:
      empty bio, no avatar, allowed to author. */
  lemma RegisterGivesOneDefaultProfile(d: Db, username: string)
    requires DbOk(d) && UserByName(d.users, username).None?
    ensures var e := Registered(d, username);
      && DefaultProfile(d.nextId, d.clock) in e.profiles
      && (forall p :: p in e.profiles && p.user == d.nextId ==> p == DefaultProfile(d.nextId, d.clock))
      && (forall p :: p in e.profiles && p.user == d.nextId ==> p.isAuthor && p.bio == "")
  {
    var e := Registered(d, username);
    RegisterKeepsDb(d, username);
    assert e.profiles[|d.profiles|] == DefaultProfile(d.nextId, d.clock);
  }

  // ---------------------------------------------------------------------------
  // Follows

  /** The toggle between two distinct stored users keeps the follow rules. */
  lemma ToggleKeepsFollowsOk(follows: seq<Follow>, userIds: set<UserId>, clock: Time, a: UserId, b: UserId)
    requires FollowsOk(follows, userIds, clock) && a in userIds && b in userIds && a != b
    ensures FollowsOk(ToggleEdge(follows, a, b, clock), userIds, clock + 1)
  {
    ToggleKeepsPairsUnique(follows, a, b, clock);
    var r := ToggleEdge(follows, a, b, clock);
    forall f | f in r ensures f in follows || f == Follow(a, b, clock) {
    }
  }

  /** The follow toggle between two distinct stored users keeps the rules. */
  lemma ToggleKeepsDb(d: Db, a: UserId, b: UserId)
    requires DbOk(d) && a in UserIds(d.users) && b in UserIds(d.users) && a != b
    ensures DbOk(Toggled(d, a, b))
  {
    Widen(d, UserIds(d.users), CategoryIds(d.categories), PostIds(d.posts), d.clock + 1);
    ToggleKeepsFollowsOk(d.follows, UserIds(d.users), d.clock, a, b);
    DbOkIntro(Toggled(d, a, b));
  }

  // ---------------------------------------------------------------------------
  // Views

  /** Replacing one post by a version with the same key and creation time, an
      unused slug and valid references keeps the post rules and the keys. */
  lemma ReplacePostKeepsPostsOk(posts: seq<Post>, k: nat, q: Post, userIds: set<UserId>, categoryIds: set<CategoryId>, clock: Time)
    requires PostsOk(posts, userIds, categoryIds, clock) && k < |posts|
    requires q.id == posts[k].id && q.createdAt == posts[k].createdAt
    requires q.author in userIds && (q.category.Some? ==> q.category.value in categoryIds)
    requires q.createdAt <= q.updatedAt < clock
    requires forall j :: 0 <= j < |posts| && j != k ==> posts[j].slug != q.slug
    ensures PostsOk(posts[k := q], userIds, categoryIds, clock)
    ensures PostIds(posts[k := q]) == PostIds(posts)
  {
    var r := posts[k := q];
    forall x | x in r
      ensures x.author in userIds && (x.category.Some? ==> x.category.value in categoryIds)
      ensures x.createdAt <= x.updatedAt < clock
    {
      var j :| 0 <= j < |r| && r[j] == x;
      if j != k {
        assert x in posts;
      }
    }
    forall x | x in PostIds(posts) ensures x in PostIds(r) {
      var p :| p in posts && p.id == x;
      var j :| 0 <= j < |posts| && posts[j] == p;
      assert r[j].id == x;
    }
    forall x | x in PostIds(r) ensures x in PostIds(posts) {
      var p :| p in r && p.id == x;
      var j :| 0 <= j < |r| && r[j] == p;
      assert posts[j].id == x;
    }
  }

  /** An event on a stored post, by a stored user or anonymous, stamped with the
      clock, can go in front of the events (which are newest first). */
  lemma PrependViewKeepsViewsOk(views: seq<PostView>, v: PostView, postIds: set<PostId>, userIds: set<UserId>, clock: Time)
    requires PostViewsOk(views, postIds, userIds, clock)
    requires v.post in postIds && (v.user.Some? ==> v.user.value in userIds) && v.createdAt == clock
    ensures PostViewsOk([v] + views, postIds, userIds, clock + 1)
  {
    var r := [v] + views;
    forall i, j | 0 <= i < j < |r| ensures r[i].createdAt > r[j].createdAt {
      if i == 0 {
        assert r[j] in views;
      } else {
        assert r[i] == views[i - 1] && r[j] == views[j - 1];
      }
    }
  }

  /** With unique keys, one more event and one more on the counter of its post
      keep every counter equal to its number of events. */
  lemma BumpKeepsViewsCounted(posts: seq<Post>, views: seq<PostView>, k: nat, v: PostView)
    requires ViewsCounted(posts, views) && k < |posts| && v.post == posts[k].id
    requires forall i, j :: 0 <= i < j < |posts| ==> posts[i].id != posts[j].id
    ensures ViewsCounted(posts[k := posts[k].(views := posts[k].views + 1)], [v] + views)
  {
    var r := posts[k := posts[k].(views := posts[k].views + 1)];
    forall x | x in r ensures x.views == ViewCount([v] + views, x.id) {
      ViewCountPrepend(views, v, x.id);
      var j :| 0 <= j < |r| && r[j] == x;
      if j != k {
        assert x == posts[j] && x in posts;
        assert x.id != v.post by {
          if j < k {
            assert posts[j].id != posts[k].id;
          } else {
            assert posts[k].id != posts[j].id;
          }
        }
      } else {
        assert posts[k] in posts;
      }
    }
  }

  /** Recording one view of the post at `k` keeps the post and event rules,
      the keys, and every counter equal to its number of events. */
  lemma ViewKeepsPostTables(posts: seq<Post>, views: seq<PostView>, k: nat, user: Option<UserId>, ip: Option<string>,
                            userIds: set<UserId>, categoryIds: set<CategoryId>, clock: Time)
    requires PostsOk(posts, userIds, categoryIds, clock) && PostViewsOk(views, PostIds(posts), userIds, clock)
    requires ViewsCounted(posts, views) && k < |posts| && (user.Some? ==> user.value in userIds)
    ensures var q := posts[k].(views := posts[k].views + 1);
      var v := PostView(posts[k].id, user, ip, clock);
      && PostsOk(posts[k := q], userIds, categoryIds, clock + 1)
      && PostIds(posts[k := q]) == PostIds(posts)
      && PostViewsOk([v] + views, PostIds(posts), userIds, clock + 1)
      && ViewsCounted(posts[k := q], [v] + views)
      && q.views == ViewCount([v] + views, posts[k].id)
  {
    var p := posts[k];
    var q := p.(views := p.views + 1);
    var v := PostView(p.id, user, ip, clock);
    ReplacePostKeepsPostsOk(posts, k, q, userIds, categoryIds, clock + 1);
    PostIdsMembers(posts);
    assert p in posts;
    PrependViewKeepsViewsOk(views, v, PostIds(posts), userIds, clock);
    BumpKeepsViewsCounted(posts, views, k, v);
    assert posts[k := q][k] in posts[k := q];
  }

  /** Recording one view of the post at `k` keeps the rules, and the post's
      counter afterwards is its number of events. */
  lemma ViewKeepsDb(d: Db, k: nat, user: Option<UserId>, ip: Option<string>)
    requires DbOk(d) && k < |d.posts|
    requires user.Some? ==> user.value in UserIds(d.users)
    ensures DbOk(Viewed(d, k, user, ip))
    ensures Viewed(d, k, user, ip).posts[k].views == ViewCount(Viewed(d, k, user, ip).postViews, d.posts[k].id)
  {
    var q := d.posts[k].(views := d.posts[k].views + 1);
    var v := PostView(d.posts[k].id, user, ip, d.clock);
    ViewKeepsPostTables(d.posts, d.postViews, k, user, ip, UserIds(d.users), CategoryIds(d.categories), d.clock);
    Widen(d, UserIds(d.users), CategoryIds(d.categories), PostIds(d.posts), d.clock + 1);
    DbOkIntro(Db(d.users, d.profiles, d.follows, d.categories, d.posts[k := q], d.comments, [v] + d.postViews, d.clock + 1, d.nextId));
  }

  /** A view adds one event to the viewed post's count and none to any other
      post's, and leaves every other post as it was. */
  lemma ViewedCountsOneMore(d: Db, k: nat, user: Option<UserId>, ip: Option<string>, id: PostId)
    requires k < |d.posts|
    ensures ViewCount(Viewed(d, k, user, ip).postViews, id) == ViewCount(d.postViews, id) + (if id == d.posts[k].id then 1 else 0)
    ensures forall i :: 0 <= i < |d.posts| && i != k ==> Viewed(d, k, user, ip).posts[i] == d.posts[i]
  {
    ViewCountPrepend(d.postViews, PostView(d.posts[k].id, user, ip, d.clock), id);
  }

  // ---------------------------------------------------------------------------
  // Comments

  /** A comment on a stored post by a stored user, stamped with the clock, can
      go after the comments (which are oldest first). */
  lemma AppendCommentKeepsCommentsOk(comments: seq<Comment>, c: Comment, postIds: set<PostId>, userIds: set<UserId>, clock: Time)
    requires CommentsOk(comments, postIds, userIds, clock)
    requires c.post in postIds && c.author in userIds && c.createdAt == clock
    ensures CommentsOk(comments + [c], postIds, userIds, clock + 1)
  {
    var r := comments + [c];
    forall i, j | 0 <= i < j < |r| ensures r[i].createdAt < r[j].createdAt {
      if j == |comments| {
        assert r[i] in comments;
      }
    }
  }

  /** Appending a comment stamped with the clock by a stored user on the post
      at `k` keeps the rules. */
  lemma CommentKeepsDb(d: Db, k: nat, author: UserId, body: string)
    requires DbOk(d) && k < |d.posts| && author in UserIds(d.users)
    ensures DbOk(Commented(d, k, author, body))
  {
    Widen(d, UserIds(d.users), CategoryIds(d.categories), PostIds(d.posts), d.clock + 1);
    PostIdsMembers(d.posts);
    assert d.posts[k] in d.posts;
    AppendCommentKeepsCommentsOk(d.comments, DefaultComment(d.posts[k].id, author, body, d.clock),
                                 PostIds(d.posts), UserIds(d.users), d.clock);
    DbOkIntro(Commented(d, k, author, body));
  }

  // ---------------------------------------------------------------------------
  // Categories

  lemma AppendCategoryIds(categories: seq<Category>, c: Category)
    ensures CategoryIds(categories + [c]) == CategoryIds(categories) + {c.id}
  {
    var r := categories + [c];
    assert c in r;
    forall x | x in CategoryIds(r) ensures x in CategoryIds(categories) + {c.id} {
      var y :| y in r && y.id == x;
    }
  }

  /** `PostForm.clean`'s category lookup-or-insert keeps the category rules
      and the keys below the next free one, keeps every stored category, and a
      category it picks in place of the selected one is stored. */
  lemma ResolveKeepsCategoryTable(categories: seq<Category>, nextId: nat, selected: Option<CategoryId>, newCategory: string,
                                  userIds: set<UserId>, postIds: set<PostId>)
    requires CategoriesOk(categories) && KeysBelow(userIds, CategoryIds(categories), postIds, nextId)
    requires Forms.ResolveCategory(categories, nextId, selected, newCategory).Some?
    ensures var r := Forms.ResolveCategory(categories, nextId, selected, newCategory).value;
      && CategoriesOk(r.categories)
      && KeysBelow(userIds, CategoryIds(r.categories), postIds, r.nextId)
      && CategoryIds(categories) <= CategoryIds(r.categories)
      && (r.category.Some? && r.category != selected ==> r.category.value in CategoryIds(r.categories))
  {
    var r := Forms.ResolveCategory(categories, nextId, selected, newCategory).value;
    forall c | c in categories ensures c.id < nextId {
      assert c.id in CategoryIds(categories);
    }
    Forms.ResolveKeepsCategoriesOk(categories, nextId, selected, newCategory);
    if r.categories != categories {
      var created := Category(nextId, Forms.CategoryName(newCategory), Forms.CategorySlug(newCategory));
      AppendCategoryIds(categories, created);
      KeysBelowNext(userIds, CategoryIds(categories), postIds, nextId, userIds, CategoryIds(r.categories), postIds);
    }
    if r.category.Some? && r.category != selected {
      var c :| c in r.categories && c.id == r.category.value && c.name == Forms.CategoryName(newCategory);
    }
  }

  /** `PostForm.clean`'s category lookup-or-insert keeps the rules, keeps every
      stored category, and a category it picks in place of the selected one is
      stored. */
  lemma ResolveKeepsDb(d: Db, selected: Option<CategoryId>, newCategory: string)
    requires DbOk(d)
    requires Forms.ResolveCategory(d.categories, d.nextId, selected, newCategory).Some?
    ensures var r := Forms.ResolveCategory(d.categories, d.nextId, selected, newCategory).value;
      && DbOk(Resolved(d, r))
      && CategoryIds(d.categories) <= CategoryIds(r.categories)
      && (r.category.Some? && r.category != selected ==> r.category.value in CategoryIds(r.categories))
  {
    var r := Forms.ResolveCategory(d.categories, d.nextId, selected, newCategory).value;
    ResolveKeepsCategoryTable(d.categories, d.nextId, selected, newCategory, UserIds(d.users), PostIds(d.posts));
    Widen(d, UserIds(d.users), CategoryIds(r.categories), PostIds(d.posts), d.clock);
    DbOkIntro(Resolved(d, r));
  }

  // ---------------------------------------------------------------------------
  // Creating and editing posts

  lemma PrependPostIds(posts: seq<Post>, q: Post)
    ensures PostIds([q] + posts) == PostIds(posts) + {q.id}
  {
    var r := [q] + posts;
    assert q in r;
    forall x | x in PostIds(r) ensures x in PostIds(posts) + {q.id} {
      var y :| y in r && y.id == x;
    }
  }

  /** A post newer than, and keyed and slugged apart from, every stored one
      can go in front. */
  lemma PrependPostKeepsPostsOk(posts: seq<Post>, q: Post, userIds: set<UserId>, categoryIds: set<CategoryId>, clock: Time)
    requires PostsOk(posts, userIds, categoryIds, clock)
    requires q.author in userIds && (q.category.Some? ==> q.category.value in categoryIds)
    requires q.createdAt <= q.updatedAt < clock && q.id !in PostIds(posts)
    requires forall p :: p in posts ==> p.slug != q.slug && p.createdAt < q.createdAt
    ensures PostsOk([q] + posts, userIds, categoryIds, clock)
  {
    var r := [q] + posts;
    PostIdsMembers(posts);
    forall j | 0 < j < |r| ensures r[0].id != r[j].id && r[0].slug != r[j].slug && r[0].createdAt > r[j].createdAt {
      assert r[j] in posts;
    }
    forall i, j | 0 < i < j < |r|
      ensures r[i].id != r[j].id && r[i].slug != r[j].slug && r[i].createdAt > r[j].createdAt
    {
      assert r[i] == posts[i - 1] && r[j] == posts[j - 1];
    }
  }

  /** A post with no events and a zero counter keeps the counters right. */
  lemma PrependKeepsViewsCounted(posts: seq<Post>, views: seq<PostView>, q: Post)
    requires ViewsCounted(posts, views) && q.views == 0
    requires forall v :: v in views ==> v.post != q.id
    ensures ViewsCounted([q] + posts, views)
  {
    ViewCountNone(views, q.id);
  }

  /** Inserting a new post in front (the next key, stamped with the clock, no
      views, a stored author, a stored category or none, and an unused slug)
      keeps the rules. */
  lemma CreatePostKeepsDb(d: Db, q: Post)
    requires DbOk(d)
    requires q.id == d.nextId && q.createdAt == d.clock && q.updatedAt == d.clock && q.views == 0
    requires q.author in UserIds(d.users) && (q.category.Some? ==> q.category.value in CategoryIds(d.categories))
    requires forall p :: p in d.posts ==> p.slug != q.slug
    ensures DbOk(Created(d, q))
  {
    var posts := [q] + d.posts;
    PrependPostIds(d.posts, q);
    Widen(d, UserIds(d.users), CategoryIds(d.categories), PostIds(posts), d.clock + 1);
    PrependPostKeepsPostsOk(d.posts, q, UserIds(d.users), CategoryIds(d.categories), d.clock + 1);
    PrependKeepsViewsCounted(d.posts, d.postViews, q);
    KeysBelowNext(UserIds(d.users), CategoryIds(d.categories), PostIds(d.posts), d.nextId,
                  UserIds(d.users), CategoryIds(d.categories), PostIds(posts));
    DbOkIntro(Created(d, q));
  }

  /** A replacement with the same key and counter keeps the counters right. */
  lemma ReplaceKeepsViewsCounted(posts: seq<Post>, views: seq<PostView>, k: nat, q: Post)
    requires ViewsCounted(posts, views) && k < |posts|
    requires q.id == posts[k].id && q.views == posts[k].views
    ensures ViewsCounted(posts[k := q], views)
  {
    forall x | x in posts[k := q] ensures x.views == ViewCount(views, x.id) {
      var j :| 0 <= j < |posts[k := q]| && posts[k := q][j] == x;
      assert posts[j] in posts;
    }
  }

  /** Saving an edited post in place (same key, author, creation time and
      counter, stamped with the clock, a stored category or none, a slug no
      other post has) keeps the rules. */
  lemma UpdatePostKeepsDb(d: Db, k: nat, q: Post)
    requires DbOk(d) && k < |d.posts|
    requires q.id == d.posts[k].id && q.author == d.posts[k].author
    requires q.createdAt == d.posts[k].createdAt && q.views == d.posts[k].views && q.updatedAt == d.clock
    requires q.category.Some? ==> q.category.value in CategoryIds(d.categories)
    requires forall j :: 0 <= j < |d.posts| && j != k ==> d.posts[j].slug != q.slug
    ensures DbOk(Updated(d, k, q))
  {
    assert d.posts[k] in d.posts;
    Widen(d, UserIds(d.users), CategoryIds(d.categories), PostIds(d.posts), d.clock + 1);
    ReplacePostKeepsPostsOk(d.posts, k, q, UserIds(d.users), CategoryIds(d.categories), d.clock + 1);
    ReplaceKeepsViewsCounted(d.posts, d.postViews, k, q);
    DbOkIntro(Updated(d, k, q));
  }

  // ---------------------------------------------------------------------------
  // Deleting posts and categories

  /** With unique keys, removing the post at `k` removes exactly its key. */
  lemma RemoveAtIds(posts: seq<Post>, k: nat)
    requires k < |posts|
    requires forall i, j :: 0 <= i < j < |posts| ==> posts[i].id != posts[j].id
    ensures PostIds(RemoveAt(posts, k)) == PostIds(posts) - {posts[k].id}
    ensures forall p :: p in RemoveAt(posts, k) ==> p in posts && p.id != posts[k].id
  {
    var r := RemoveAt(posts, k);
    forall p | p in r ensures p in posts && p.id != posts[k].id {
      var i :| 0 <= i < |r| && r[i] == p;
      var j := if i < k then i else i + 1;
      assert p == posts[j];
      if j < k {
        assert posts[j].id != posts[k].id;
      } else {
        assert posts[k].id != posts[j].id;
      }
    }
    forall x | x in PostIds(posts) - {posts[k].id} ensures x in PostIds(r) {
      var p :| p in posts && p.id == x;
      var j :| 0 <= j < |posts| && posts[j] == p;
      assert j != k;
      assert r[if j < k then j else j - 1] == p;
    }
  }

  /** Removing the post at `k` keeps the other post rules. */
  lemma RemovePostKeepsPostsOk(posts: seq<Post>, k: nat, userIds: set<UserId>, categoryIds: set<CategoryId>, clock: Time)
    requires PostsOk(posts, userIds, categoryIds, clock) && k < |posts|
    ensures PostsOk(RemoveAt(posts, k), userIds, categoryIds, clock)
  {
    var r := RemoveAt(posts, k);
    forall p | p in r
      ensures p.author in userIds && (p.category.Some? ==> p.category.value in categoryIds)
      ensures p.createdAt <= p.updatedAt < clock
    {
      var i :| 0 <= i < |r| && r[i] == p;
      assert posts[if i < k then i else i + 1] in posts;
    }
    forall i, j | 0 <= i < j < |r|
      ensures r[i].id != r[j].id && r[i].slug != r[j].slug && r[i].createdAt > r[j].createdAt
    {
      assert r[i] == posts[if i < k then i else i + 1];
      assert r[j] == posts[if j < k then j else j + 1];
    }
  }

  /** The comments the cascade leaves point at the remaining posts and keep
      their order. */
  lemma CascadeKeepsCommentsOk(comments: seq<Comment>, id: PostId, postIds: set<PostId>, userIds: set<UserId>, clock: Time)
    requires CommentsOk(comments, postIds, userIds, clock)
    ensures CommentsOk(CommentsWithoutPost(comments, id), postIds - {id}, userIds, clock)
  {
    Seqs.FilterKeepsPairwise(comments, CommentNotOn(id), (c: Comment, c': Comment) => c.createdAt < c'.createdAt);
  }

  /** The view events the cascade leaves point at the remaining posts and keep
      their order. */
  lemma CascadeKeepsViewsOk(views: seq<PostView>, id: PostId, postIds: set<PostId>, userIds: set<UserId>, clock: Time)
    requires PostViewsOk(views, postIds, userIds, clock)
    ensures PostViewsOk(ViewsWithoutPost(views, id), postIds - {id}, userIds, clock)
  {
    Seqs.FilterKeepsPairwise(views, ViewNotOn(id), (v: PostView, v': PostView) => v.createdAt > v'.createdAt);
  }

  /** The remaining posts keep their counters, and their events are all kept. */
  lemma CascadeKeepsViewsCounted(posts: seq<Post>, rest: seq<Post>, views: seq<PostView>, id: PostId)
    requires ViewsCounted(posts, views)
    requires forall p :: p in rest ==> p in posts && p.id != id
    ensures ViewsCounted(rest, ViewsWithoutPost(views, id))
  {
    forall p | p in rest ensures p.views == ViewCount(ViewsWithoutPost(views, id), p.id) {
      ViewCountWithoutPost(views, id, p.id);
    }
  }

  /** Deleting the post at `k` together with its comments and view events keeps
      the rules. */
  lemma DeletePostKeepsDb(d: Db, k: nat)
    requires DbOk(d) && k < |d.posts|
    ensures DbOk(PostDeleted(d, k))
  {
    var id := d.posts[k].id;
    RemoveAtIds(d.posts, k);
    RemovePostKeepsPostsOk(d.posts, k, UserIds(d.users), CategoryIds(d.categories), d.clock);
    CascadeKeepsCommentsOk(d.comments, id, PostIds(d.posts), UserIds(d.users), d.clock);
    CascadeKeepsViewsOk(d.postViews, id, PostIds(d.posts), UserIds(d.users), d.clock);
    CascadeKeepsViewsCounted(d.posts, RemoveAt(d.posts, k), d.postViews, id);
    KeysBelowShrink(UserIds(d.users), CategoryIds(d.categories), PostIds(d.posts), d.nextId,
                    UserIds(d.users), CategoryIds(d.categories), PostIds(RemoveAt(d.posts, k)));
    DbOkIntro(PostDeleted(d, k));
  }

  /** The categories left once `id` is deleted keep their uniqueness rules,
      and exactly `id` is gone from the keys. */
  lemma WithoutCategoryKeepsOk(categories: seq<Category>, id: CategoryId)
    requires CategoriesOk(categories)
    ensures CategoriesOk(WithoutCategory(categories, id))
    ensures CategoryIds(WithoutCategory(categories, id)) == CategoryIds(categories) - {id}
  {
    Seqs.FilterKeepsPairwise(categories, OtherCategory(id),
      (c: Category, c': Category) => c.id != c'.id && c.name != c'.name && c.slug != c'.slug);
    var r := WithoutCategory(categories, id);
    forall x | x in CategoryIds(categories) - {id} ensures x in CategoryIds(r) {
      var c :| c in categories && c.id == x;
      assert c in r;
    }
  }

  /** Clearing the category `id` from the posts keeps their keys, their
      counters and the post rules, now without `id`. */
  lemma DetachKeepsPostsOk(posts: seq<Post>, id: CategoryId, views: seq<PostView>,
                           userIds: set<UserId>, categoryIds: set<CategoryId>, clock: Time)
    requires PostsOk(posts, userIds, categoryIds, clock) && ViewsCounted(posts, views)
    ensures PostsOk(DetachCategory(posts, id), userIds, categoryIds - {id}, clock)
    ensures ViewsCounted(DetachCategory(posts, id), views)
    ensures PostIds(DetachCategory(posts, id)) == PostIds(posts)
  {
    var r := DetachCategory(posts, id);
    DetachCategoryKeepsPosts(posts, id);
    forall i | 0 <= i < |r| ensures r[i].id == posts[i].id && r[i].views == posts[i].views {
      assert r[i].(category := posts[i].category) == posts[i];
    }
    forall x | x in PostIds(posts) ensures x in PostIds(r) {
      var p :| p in posts && p.id == x;
      var j :| 0 <= j < |posts| && posts[j] == p;
      assert r[j] in r;
    }
    forall p | p in r
      ensures p.author in userIds && (p.category.Some? ==> p.category.value in categoryIds - {id})
      ensures p.createdAt <= p.updatedAt < clock && p.views == ViewCount(views, p.id)
    {
      var j :| 0 <= j < |r| && r[j] == p;
      assert posts[j] in posts;
    }
  }

  /** Deleting the category `id` and clearing it from its posts keeps the
      rules. */
  lemma DeleteCategoryKeepsDb(d: Db, id: CategoryId)
    requires DbOk(d)
    ensures DbOk(CategoryDeleted(d, id))
  {
    WithoutCategoryKeepsOk(d.categories, id);
    DetachKeepsPostsOk(d.posts, id, d.postViews, UserIds(d.users), CategoryIds(d.categories), d.clock);
    KeysBelowShrink(UserIds(d.users), CategoryIds(d.categories), PostIds(d.posts), d.nextId,
                    UserIds(d.users), CategoryIds(WithoutCategory(d.categories, id)), PostIds(d.posts));
    DbOkIntro(CategoryDeleted(d, id));
  }
}
