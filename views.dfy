/** The request handlers' vocabulary (error outcomes and JSON replies) and their
    pure queries over the tables: the home listing, the ownership test, the
    author page's lists and counts, the follow state shown to a viewer and the
    dashboard totals. The handlers that change the tables are methods of
    `Blog.Store`. */
module Views {
  import opened Wrappers
  import opened Models
  import Seqs
  import Text

  /** Posts per page on the home and search listings. */
  const PageSize: nat := 10

  /** How a request can fail. */
  datatype Error =
    | JsonError(status: nat, message: string)   // JsonResponse({'error': message}, status=status)
    | NotFound                                  // Http404 from get_object_or_404 or get_object
    | LoginRedirect                             // login required: redirect to the login page
    | PermissionDenied                          // test_func refused: 403
    | FormInvalid(fields: seq<FormField>)       // form re-rendered with errors on these fields
    | IntegrityError                            // a uniqueness violation nothing catches: 500
  {
    function StatusCode(): nat
    {
      match this
      case JsonError(status, _) => status
      case NotFound => 404
      case LoginRedirect => 302
      case PermissionDenied => 403
      case FormInvalid(_) => 200
      case IntegrityError => 500
    }
  }

  /** The form fields an error can be reported on. */
  datatype FormField = TitleField | SlugField | ContentField | CategoryField | UsernameField

  const LoginRequiredMessage := "login required"
  const UsernameRequiredMessage := "username required"
  const SelfFollowMessage := "can't follow yourself"
  const SlugRequiredMessage := "slug required"
  const EmptyCommentMessage := "empty comment"

  datatype FollowStatus = Followed | Unfollowed

  /** `{'status': ..., 'followers_count': ...}` */
  datatype FollowReply = FollowReply(status: FollowStatus, followersCount: nat)

  /** `{'status': 'ok', 'comment': {author, body, created_at}, 'comments_count': ...}` */
  datatype CommentReply = CommentReply(author: string, body: string, createdAt: Time, commentsCount: nat)

  /** The author page's context. */
  datatype AuthorPage = AuthorPage(author: User, posts: seq<Post>, followers: nat, following: nat, isFollowing: bool)

  /** The post page's context (the parts computed from the tables). */
  datatype DetailPage = DetailPage(post: Post, isFollowing: bool)

  /** The dashboard's totals. */
  datatype Totals = Totals(totalPosts: nat, totalViews: nat, totalComments: nat, totalFollowers: nat)

  /** A request parameter that is absent reads as the empty string
      (`request.POST.get(name, '')`). */
  function ParamOrEmpty(param: Option<string>): string
  {
    if param.Some? then param.value else ""
  }

  /** What the post form submits: the model fields it edits, after field
      cleaning (Django's text fields strip their input; the image is the value
      the file input leaves, kept, cleared or replaced), and the raw "new
      category" text. */
  datatype PostForm = PostForm(
    title: string,
    slug: string,
    content: string,
    featuredImage: Image,
    category: Option<CategoryId>,
    published: bool,
    newCategory: string)

  /** The form's field errors, in the order the form meets them: the required
      title, slug and content left empty, a selected category that is not
      stored (the choice field), then a non-empty slug another post already
      has (the model form's uniqueness check, which skips a field that already
      failed; `editing` is the key of the post being edited, which may keep its
      own slug). */
  function FormErrors(categories: seq<Category>, posts: seq<Post>, form: PostForm, editing: Option<PostId>)
    : (errors: seq<FormField>)
    ensures TitleField in errors <==> form.title == ""
    ensures ContentField in errors <==> form.content == ""
    ensures CategoryField in errors <==> form.category.Some? && form.category.value !in CategoryIds(categories)
    ensures SlugField in errors <==>
      form.slug == "" || exists p :: p in posts && p.slug == form.slug && Some(p.id) != editing
    ensures errors == [] <==>
      && form.title != "" && form.slug != "" && form.content != ""
      && (form.category.Some? ==> form.category.value in CategoryIds(categories))
      && (forall p :: p in posts && Some(p.id) != editing ==> p.slug != form.slug)
  {
    var required := (if form.title == "" then [TitleField] else []) + (if form.slug == "" then [SlugField] else [])
                    + (if form.content == "" then [ContentField] else []);
    var badChoice := form.category.Some? && form.category.value !in CategoryIds(categories);
    var slugTaken := form.slug != "" && exists p :: p in posts && p.slug == form.slug && Some(p.id) != editing;
    required + (if badChoice then [CategoryField] else []) + (if slugTaken then [SlugField] else [])
  }

  /** The post a valid creation form inserts: the form's fields over the model
      defaults, stamped `now`. */
  function NewPost(id: PostId, author: UserId, form: PostForm, category: Option<CategoryId>, now: Time): (p: Post)
    ensures p.views == 0 && p.createdAt == now && p.updatedAt == now
    ensures p.id == id && p.author == author && p.slug == form.slug && p.category == category
    ensures p.title == form.title && p.content == form.content && p.published == form.published
    ensures p.featuredImage == form.featuredImage
  {
    DefaultPost(id, author, form.title, form.slug, form.content, now)
      .(featuredImage := form.featuredImage, category := category, published := form.published)
  }

  /** The stored post `p` after a valid edit form is saved at `now`: the form's
      fields replace the edited ones; key, author, creation time and counter
      stay. */
  function Edited(p: Post, form: PostForm, category: Option<CategoryId>, now: Time): (q: Post)
    ensures q.id == p.id && q.author == p.author && q.createdAt == p.createdAt && q.views == p.views
    ensures q.updatedAt == now && q.slug == form.slug && q.category == category
    ensures q.featuredImage == form.featuredImage
    ensures q.title == form.title && q.content == form.content && q.published == form.published
  {
    p.(title := form.title, slug := form.slug, content := form.content, featuredImage := form.featuredImage,
       category := category, published := form.published, updatedAt := now)
  }

  function IsPublished(): Post -> bool { (p: Post) => p.published }

  /** The search text occurs, ignoring case, in the title or the content. */
  predicate SearchHit(p: Post, q: string)
  {
    Text.ContainsIgnoreCase(p.title, q) || Text.ContainsIgnoreCase(p.content, q)
  }

  function HitBy(q: string): Post -> bool { (p: Post) => SearchHit(p, q) }

  /** A request parameter that is present and non-empty (Python truthiness). */
  predicate Given(q: Option<string>) { q.Some? && q.value != "" }

  /** `HomeView.get_queryset`: the published posts, narrowed to the search hits
      when a non-empty `q` is given. */
  function HomePosts(posts: seq<Post>, q: Option<string>): (r: seq<Post>)
    ensures forall p :: p in r <==> p in posts && p.published && (Given(q) ==> SearchHit(p, q.value))
  {
    var qs := Seqs.Filter(posts, IsPublished());
    if Given(q) then Seqs.Filter(qs, HitBy(q.value)) else qs
  }

  /** The listing keeps the posts' newest-first order. */
  lemma HomePostsNewestFirst(posts: seq<Post>, q: Option<string>)
    requires forall i, j :: 0 <= i < j < |posts| ==> posts[i].createdAt > posts[j].createdAt
    ensures var r := HomePosts(posts, q);
      forall i, j :: 0 <= i < j < |r| ==> r[i].createdAt > r[j].createdAt
  {
    var newer := (p: Post, p': Post) => p.createdAt > p'.createdAt;
    Seqs.FilterKeepsPairwise(posts, IsPublished(), newer);
    Seqs.FilterKeepsPairwise(Seqs.Filter(posts, IsPublished()), HitBy(if q.Some? then q.value else ""), newer);
  }

  /** With no search text, or an empty one, every published post is listed
      (and nothing else): the same listing either way. */
  lemma EmptySearchListsAllPublished(posts: seq<Post>)
    ensures HomePosts(posts, Some("")) == HomePosts(posts, None) == Seqs.Filter(posts, IsPublished())
  {
  }

  /** `test_func` of the edit and delete views: the requester is the author. */
  predicate MayModify(post: Post, requester: Option<UserId>)
  {
    requester == Some(post.author)
  }

  /** `Follow.objects.filter(follower=viewer, following=target).exists()`,
      asked only for a signed-in viewer. */
  function IsFollowing(follows: seq<Follow>, viewer: Option<UserId>, target: UserId): (b: bool)
    ensures b <==> viewer.Some? && exists f :: f in follows && f.follower == viewer.value && f.following == target
  {
    viewer.Some? && HasEdge(follows, viewer.value, target)
  }

  function ByAuthorPublished(u: UserId): Post -> bool { (p: Post) => p.author == u && p.published }

  /** `Post.objects.filter(author=user, published=True)`. */
  function AuthorPosts(posts: seq<Post>, u: UserId): (r: seq<Post>)
    ensures forall p :: p in r <==> p in posts && p.author == u && p.published
  {
    Seqs.Filter(posts, ByAuthorPublished(u))
  }

  function ByAuthor(u: UserId): Post -> bool { (p: Post) => p.author == u }

  function OnAny(ids: set<PostId>): Comment -> bool { (c: Comment) => c.post in ids }

  /** `DashboardView.get`: the user's posts, `Count('views')` over them (which
      counts the posts, as no counter is ever null), the comments on them, and
      the user's followers. */
  function Dashboard(posts: seq<Post>, comments: seq<Comment>, follows: seq<Follow>, u: UserId): (t: Totals)
    ensures t.totalPosts == |Seqs.Filter(posts, ByAuthor(u))|
    ensures t.totalFollowers == FollowersCount(follows, u)
  {
    var own := Seqs.Filter(posts, ByAuthor(u));
    Totals(|own|, Seqs.Count(own, (p: Post) => p.views >= 0), Seqs.Count(comments, OnAny(PostIds(own))), FollowersCount(follows, u))
  }

  /** The comments on each of `ps`, added up post by post. */
  function CommentsPerPost(ps: seq<Post>, comments: seq<Comment>): nat
  {
    if ps == [] then 0 else CommentCount(comments, ps[0].id) + CommentsPerPost(ps[1..], comments)
  }

  /** The dashboard's `Count('comments')` over the user's posts is the sum of
      each of those posts' comment counts: the join counts a comment once, for
      the one post it is on. */
  lemma DashboardCommentsPerPost(posts: seq<Post>, comments: seq<Comment>, follows: seq<Follow>, u: UserId)
    requires forall i, j :: 0 <= i < j < |posts| ==> posts[i].id != posts[j].id
    ensures Dashboard(posts, comments, follows, u).totalComments
         == CommentsPerPost(Seqs.Filter(posts, ByAuthor(u)), comments)
  {
    var own := Seqs.Filter(posts, ByAuthor(u));
    Seqs.FilterKeepsPairwise(posts, ByAuthor(u), (a: Post, b: Post) => a.id != b.id);
    CountOnPosts(own, comments);
  }

  /** The dashboard's post total is the number of distinct keys of the posts
      the user wrote. */
  lemma DashboardPostsDistinct(posts: seq<Post>, comments: seq<Comment>, follows: seq<Follow>, u: UserId)
    requires forall i, j :: 0 <= i < j < |posts| ==> posts[i].id != posts[j].id
    ensures Dashboard(posts, comments, follows, u).totalPosts == |set p | p in posts && p.author == u :: p.id|
  {
    var own := Seqs.Filter(posts, ByAuthor(u));
    Seqs.FilterKeepsPairwise(posts, ByAuthor(u), (a: Post, b: Post) => a.id != b.id);
    DistinctIdsCount(own);
    assert PostIds(own) == set p | p in posts && p.author == u :: p.id;
  }

  /** Posts with pairwise distinct keys have as many keys as posts. */
  lemma {:induction false} DistinctIdsCount(ps: seq<Post>)
    requires forall i, j :: 0 <= i < j < |ps| ==> ps[i].id != ps[j].id
    ensures |PostIds(ps)| == |ps|
  {
    if ps != [] {
      DistinctIdsCount(ps[1..]);
      IdsSplit(ps);
    }
  }

  /** The keys of posts are the first post's key and the rest's, which it is
      not among when the keys are distinct. */
  lemma IdsSplit(ps: seq<Post>)
    requires ps != []
    requires forall i, j :: 0 <= i < j < |ps| ==> ps[i].id != ps[j].id
    ensures PostIds(ps) == PostIds(ps[1..]) + {ps[0].id}
    ensures ps[0].id !in PostIds(ps[1..])
  {
    assert forall p :: p in ps <==> p == ps[0] || p in ps[1..];
    forall p | p in ps[1..]
      ensures p.id != ps[0].id
    {
      var k :| 0 <= k < |ps[1..]| && ps[1..][k] == p;
      assert ps[k + 1] == p;
    }
  }

  /** Comments on any of distinct posts, counted at once, are the sum of the
      posts' comment counts. */
  lemma {:induction false} CountOnPosts(ps: seq<Post>, comments: seq<Comment>)
    requires forall i, j :: 0 <= i < j < |ps| ==> ps[i].id != ps[j].id
    ensures Seqs.Count(comments, OnAny(PostIds(ps))) == CommentsPerPost(ps, comments)
  {
    if ps == [] {
      assert PostIds(ps) == {};
      Seqs.FilterNone(comments, OnAny({}));
    } else {
      IdsSplit(ps);
      CountOnPosts(ps[1..], comments);
      CountOnAnyAdd(comments, PostIds(ps[1..]), ps[0].id);
    }
  }

  /** Adding a key not yet in the set adds that post's comments to the count. */
  lemma {:induction false} CountOnAnyAdd(comments: seq<Comment>, ids: set<PostId>, id: PostId)
    requires id !in ids
    ensures Seqs.Count(comments, OnAny(ids + {id})) == CommentCount(comments, id) + Seqs.Count(comments, OnAny(ids))
  {
    if comments != [] {
      CountOnAnyAdd(comments[1..], ids, id);
      Seqs.CountHead(comments, OnAny(ids + {id}));
      Seqs.CountHead(comments, CommentOn(id));
      Seqs.CountHead(comments, OnAny(ids));
    }
  }

  /** The dashboard's "total views" is `Count('views')`, which counts the
      posts whose `views` column is not null, and the column is never null. So
      the total is the number of posts, whatever their view counters hold; the
      counters are never summed. The lemma records that reading of the code. */
  lemma DashboardViewsCountPosts(posts: seq<Post>, comments: seq<Comment>, follows: seq<Follow>, u: UserId)
    ensures Dashboard(posts, comments, follows, u).totalViews == Dashboard(posts, comments, follows, u).totalPosts
  {
    var own := Seqs.Filter(posts, ByAuthor(u));
    Seqs.FilterAll(own, (p: Post) => p.views >= 0);
  }

  /** The checks the edit and delete views make before touching a post, in
      their order: a signed-in requester (`LoginRequiredMixin`), a post with
      this slug (`get_object`), and that the requester wrote it (`test_func`,
      refused with 403). The answer is the post's position. */
  function EditGate(posts: seq<Post>, requester: Option<UserId>, slug: string): (r: Result<nat, Error>)
    ensures requester.None? ==> r == Err(LoginRedirect)
    ensures requester.Some? && SlugIndex(posts, slug).None? ==> r == Err(NotFound)
    ensures r == Err(PermissionDenied) <==>
      requester.Some? && SlugIndex(posts, slug).Some? && !MayModify(posts[SlugIndex(posts, slug).value], requester)
    ensures r.Ok? ==> SlugIndex(posts, slug) == Some(r.value) && MayModify(posts[r.value], requester)
  {
    if requester.None? then Err(LoginRedirect)
    else match SlugIndex(posts, slug)
      case None => Err(NotFound)
      case Some(k) => if MayModify(posts[k], requester) then Ok(k) else Err(PermissionDenied)
  }

  /** With unique slugs, edit and delete go ahead exactly when the requester
      is the author of the post with that slug, and are refused with 403
      exactly when a signed-in requester is not. */
  lemma EditGateAdmitsOnlyTheAuthor(posts: seq<Post>, requester: Option<UserId>, slug: string)
    requires forall i, j :: 0 <= i < j < |posts| ==> posts[i].slug != posts[j].slug
    ensures EditGate(posts, requester, slug).Ok? <==>
      exists p :: p in posts && p.slug == slug && requester == Some(p.author)
    ensures EditGate(posts, requester, slug) == Err(PermissionDenied) <==>
      requester.Some? && exists p :: p in posts && p.slug == slug && requester != Some(p.author)
  {
    var found := SlugIndex(posts, slug);
    if found.Some? {
      var k := found.value;
      forall p | p in posts && p.slug == slug ensures p == posts[k] {
        var j :| 0 <= j < |posts| && posts[j] == p;
        assert j == k;
      }
      assert posts[k] in posts;
    }
  }

  /** `PostDetailView`: the post with this slug, published or not (the view
      does not filter), or 404; `is_following` holds when a signed-in viewer
      follows its author. */
  function PostDetail(posts: seq<Post>, follows: seq<Follow>, viewer: Option<UserId>, slug: string)
    : (r: Result<DetailPage, Error>)
    ensures r.Err? <==> forall p :: p in posts ==> p.slug != slug
    ensures r.Err? ==> r.error == NotFound
    ensures r.Ok? ==> r.value.post in posts && r.value.post.slug == slug
    ensures r.Ok? ==> (r.value.isFollowing <==>
      viewer.Some? && exists f :: f in follows && f.follower == viewer.value && f.following == r.value.post.author)
  {
    match SlugIndex(posts, slug)
    case None => Err(NotFound)
    case Some(k) => Ok(DetailPage(posts[k], IsFollowing(follows, viewer, posts[k].author)))
  }

  /** `AuthorProfileView.get`: the user with this username or 404; that
      user's published posts; the rows into and out of the user; and whether
      a signed-in viewer follows the user. */
  function AuthorProfile(users: seq<User>, posts: seq<Post>, follows: seq<Follow>, viewer: Option<UserId>, username: string)
    : (r: Result<AuthorPage, Error>)
    ensures r.Err? <==> forall u :: u in users ==> u.username != username
    ensures r.Err? ==> r.error == NotFound
    ensures r.Ok? ==>
      && r.value.author in users && r.value.author.username == username
      && (forall p :: p in r.value.posts <==> p in posts && p.author == r.value.author.id && p.published)
      && r.value.followers == Seqs.Count(follows, Into(r.value.author.id))
      && r.value.following == Seqs.Count(follows, OutOf(r.value.author.id))
      && (r.value.isFollowing <==> viewer.Some? && HasEdge(follows, viewer.value, r.value.author.id))
  {
    match UserByName(users, username)
    case None => Err(NotFound)
    case Some(u) =>
      Ok(AuthorPage(u, AuthorPosts(posts, u.id), FollowersCount(follows, u.id), FollowingCount(follows, u.id),
                    IsFollowing(follows, viewer, u.id)))
  }

  /** With unique follow pairs the author page's counts are the numbers of
      distinct followers and of distinct users followed. */
  lemma AuthorPageCountsDistinct(users: seq<User>, posts: seq<Post>, follows: seq<Follow>, viewer: Option<UserId>, username: string)
    requires UniquePairs(follows)
    requires AuthorProfile(users, posts, follows, viewer, username).Ok?
    ensures var page := AuthorProfile(users, posts, follows, viewer, username).value;
      page.followers == |Followers(follows, page.author.id)| && page.following == |Models.Followed(follows, page.author.id)|
  {
    var page := AuthorProfile(users, posts, follows, viewer, username).value;
    FollowersCountIsDistinct(follows, page.author.id);
    FollowingCountIsDistinct(follows, page.author.id);
  }
}
