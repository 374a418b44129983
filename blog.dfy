/** The blog's database and its request handlers that change it: one store
    holding every table, in each model's default ordering (posts and view events
    newest first, comments oldest first), together with the log of public ids
    sent to the image host's `destroy`. A signed-in requester is `Some(id)` of a
    stored user, an anonymous one `None`. Every stamped write reads `clock` and
    then advances it; every new key is `nextId`, which then advances. */
module Blog {
  import opened Wrappers
  import opened Models
  import opened Views
  import Seqs
  import Text
  import Forms
  import Signals
  import Tables

  class Store {
    var users: seq<User>
    var profiles: seq<Profile>
    var follows: seq<Follow>
    var categories: seq<Category>
    var posts: seq<Post>
    var comments: seq<Comment>
    var postViews: seq<PostView>
    /** Public ids handed to `cloudinary.uploader.destroy`, oldest first. */
    var destroyed: seq<string>
    var clock: Time
    var nextId: nat

    /** The tables as one value. */
    ghost function Snapshot(): Tables.Db
      reads this
    {
      Tables.Db(users, profiles, follows, categories, posts, comments, postViews, clock, nextId)
    }

    /** The database keeps every rule of `Tables.DbOk`. */
    ghost predicate Valid()
      reads this
    {
      Tables.DbOk(Snapshot())
    }

    /** The requester is anonymous or a stored user. */
    predicate Known(requester: Option<UserId>)
      reads this
    {
      requester.Some? ==> requester.value in UserIds(users)
    }

    /** An empty database. */
    constructor()
      ensures Valid()
      ensures users == [] && profiles == [] && follows == [] && categories == []
      ensures posts == [] && comments == [] && postViews == [] && destroyed == []
    {
      users, profiles, follows, categories := [], [], [], [];
      posts, comments, postViews, destroyed := [], [], [], [];
      clock, nextId := 0, 0;
      Tables.EmptyOk();
    }

    /** The `post_save` handler `create_profile` for a saved user: a first save
        (`created`) inserts that user's profile with every field at its default;
        a later save does nothing. */
    method CreateProfile(user: UserId, created: bool)
      requires created ==> forall p :: p in profiles ==> p.user != user
      modifies this
      ensures profiles == if created then old(profiles) + [DefaultProfile(user, old(clock))] else old(profiles)
      ensures clock == if created then old(clock) + 1 else old(clock)
      ensures unchanged(this`users, this`follows, this`categories, this`posts, this`comments)
      ensures unchanged(this`postViews, this`destroyed, this`nextId)
    {
      if created {
        profiles := profiles + [DefaultProfile(user, clock)];
        clock := clock + 1;
      }
    }

    /** Account creation as far as the blog sees it: a user row with a fresh key,
        then the `post_save` signal with `created` set. A taken username is the
        user form's field error. */
    method RegisterUser(username: string) returns (r: Result<UserId, Error>)
      requires Valid()
      modifies this
      ensures Valid()
      ensures UserByName(old(users), username).Some? ==> r == Err(FormInvalid([UsernameField])) && unchanged(this)
      ensures UserByName(old(users), username).None? ==>
        && r == Ok(old(nextId))
        && Snapshot() == Tables.Registered(old(Snapshot()), username)
        && users == old(users) + [User(old(nextId), username)]
        && profiles == old(profiles) + [DefaultProfile(old(nextId), old(clock))]
      ensures unchanged(this`destroyed)
    {
      if UserByName(users, username).Some? {
        return Err(FormInvalid([UsernameField]));
      }
      ghost var d := Snapshot();
      Tables.RegisterKeepsDb(d, username);
      r := Ok(nextId);
      InsertUser(username);
    }

    /** `User.objects.create(...)` with the next key, then its `post_save`. */
    method InsertUser(username: string)
      requires forall p :: p in profiles ==> p.user != nextId
      modifies this
      ensures Snapshot() == Tables.Registered(old(Snapshot()), username)
      ensures unchanged(this`destroyed)
    {
      var id := nextId;
      users := users + [User(id, username)];
      nextId := nextId + 1;
      CreateProfile(id, true);
    }

    /** `toggle_follow`: the checks run in a fixed order and a failing one
        changes nothing; otherwise the (requester, target) row is deleted when it
        exists and created when it does not, and the reply counts the target's
        followers afterwards. */
    method ToggleFollow(requester: Option<UserId>, username: Option<string>) returns (r: Result<FollowReply, Error>)
      requires Valid() && Known(requester)
      modifies this
      ensures Valid()
      ensures requester.None? ==> r == Err(JsonError(403, LoginRequiredMessage))
      ensures requester.Some? && !Given(username) ==> r == Err(JsonError(400, UsernameRequiredMessage))
      ensures requester.Some? && Given(username) && UserByName(old(users), username.value).None? ==> r == Err(NotFound)
      ensures requester.Some? && Given(username) && UserByName(old(users), username.value).Some?
              && UserByName(old(users), username.value).value.id == requester.value
              ==> r == Err(JsonError(400, SelfFollowMessage))
      ensures requester.Some? && Given(username) && UserByName(old(users), username.value).Some?
              && UserByName(old(users), username.value).value.id != requester.value
              ==> r.Ok?
      ensures r.Err? ==> unchanged(this)
      ensures r.Ok? ==>
        && requester.Some? && Given(username) && UserByName(old(users), username.value).Some?
        && var a, b := requester.value, UserByName(old(users), username.value).value.id;
        && a != b
        && follows == ToggleEdge(old(follows), a, b, old(clock))
        && r.value.status == (if HasEdge(old(follows), a, b) then Unfollowed else Followed)
        && r.value.followersCount == FollowersCount(follows, b)
        && r.value.followersCount ==
             (if HasEdge(old(follows), a, b) then FollowersCount(old(follows), b) - 1 else FollowersCount(old(follows), b) + 1)
        && clock == old(clock) + 1
      ensures unchanged(this`users, this`profiles, this`categories, this`posts, this`comments)
      ensures unchanged(this`postViews, this`destroyed, this`nextId)
    {
      if requester.None? {
        return Err(JsonError(403, LoginRequiredMessage));
      }
      if !Given(username) {
        return Err(JsonError(400, UsernameRequiredMessage));
      }
      var target := UserByName(users, username.value);
      if target.None? {
        return Err(NotFound);
      }
      var a, b := requester.value, target.value.id;
      if b == a {
        return Err(JsonError(400, SelfFollowMessage));
      }
      var reply := SwitchFollow(a, b);
      r := Ok(reply);
    }

    /** `get_or_create` of the (a, b) follow row, deleting it when it already
        existed, and the follower count of `b` read afterwards. */
    method SwitchFollow(a: UserId, b: UserId) returns (reply: FollowReply)
      requires Valid() && a in UserIds(users) && b in UserIds(users) && a != b
      modifies this
      ensures Valid()
      ensures follows == ToggleEdge(old(follows), a, b, old(clock))
      ensures reply.status == (if HasEdge(old(follows), a, b) then Unfollowed else Followed)
      ensures reply.followersCount == FollowersCount(follows, b)
      ensures reply.followersCount ==
        (if HasEdge(old(follows), a, b) then FollowersCount(old(follows), b) - 1 else FollowersCount(old(follows), b) + 1)
      ensures clock == old(clock) + 1
      ensures unchanged(this`users, this`profiles, this`categories, this`posts, this`comments)
      ensures unchanged(this`postViews, this`destroyed, this`nextId)
    {
      ghost var d := Snapshot();
      Tables.ToggleKeepsDb(d, a, b);
      ToggleFollowersCount(follows, a, b, clock, b);
      var existed := HasEdge(follows, a, b);
      ApplyToggle(a, b);
      reply := FollowReply(if existed then Unfollowed else Followed, FollowersCount(follows, b));
    }

    /** The row deletion or creation of `SwitchFollow`. */
    method ApplyToggle(a: UserId, b: UserId)
      modifies this
      ensures Snapshot() == Tables.Toggled(old(Snapshot()), a, b)
      ensures unchanged(this`destroyed)
    {
      follows := ToggleEdge(follows, a, b, clock);
      clock := clock + 1;
    }

    /** The `pre_save` handler `delete_old_image_on_update` for a post about to
        be saved with key `pk` and image `image`: it compares against the row
        stored under `pk`, if any. Post keys are set when the instance is built
        (a `uuid4` default), so a post being created already has one and finds
        no stored row. */
    method PreSave(pk: PostId, image: Image)
      modifies this`destroyed
      ensures destroyed == old(destroyed) + Signals.DestroyOnSave(Some(pk), PostById(posts, pk), image)
    {
      destroyed := destroyed + Signals.DestroyOnSave(Some(pk), PostById(posts, pk), image);
    }

    /** The `pre_delete` handler `delete_post_image_from_cloudinary`. */
    method PreDelete(post: Post)
      modifies this`destroyed
      ensures destroyed == old(destroyed) + Signals.DestroyOnDelete(post)
    {
      destroyed := destroyed + Signals.DestroyOnDelete(post);
    }

    /** `increment_post_view`: a missing slug and an unknown post are refused
        and change nothing; otherwise one view event (anonymous when the
        requester is) goes in front, the post's counter goes up by one, no
        other post changes, and the reply is the new counter, which is the
        post's number of view events. */
    method IncrementPostView(requester: Option<UserId>, slug: Option<string>, ip: Option<string>)
      returns (r: Result<nat, Error>)
      requires Valid() && Known(requester)
      modifies this
      ensures Valid()
      ensures !Given(slug) ==> r == Err(JsonError(400, SlugRequiredMessage))
      ensures Given(slug) && SlugIndex(old(posts), slug.value).None? ==> r == Err(NotFound)
      ensures Given(slug) && SlugIndex(old(posts), slug.value).Some? ==> r.Ok?
      ensures r.Err? ==> unchanged(this)
      ensures r.Ok? ==>
        && Given(slug) && SlugIndex(old(posts), slug.value).Some?
        && var k := SlugIndex(old(posts), slug.value).value;
        && Snapshot() == Tables.Viewed(old(Snapshot()), k, requester, ip)
        && r.value == old(posts)[k].views + 1 == ViewCount(postViews, old(posts)[k].id)
      ensures unchanged(this`destroyed)
    {
      if !Given(slug) {
        return Err(JsonError(400, SlugRequiredMessage));
      }
      var found := SlugIndex(posts, slug.value);
      if found.None? {
        return Err(NotFound);
      }
      var views := RecordView(found.value, requester, ip);
      r := Ok(views);
    }

    /** `PostView.objects.create(...)` for the post at `k`, then its counter
        raised by one and saved (which runs the `pre_save` handler); the
        answer is the counter read back from the table. */
    method RecordView(k: nat, user: Option<UserId>, ip: Option<string>) returns (views: nat)
      requires Valid() && k < |posts| && Known(user)
      modifies this
      ensures Valid()
      ensures Snapshot() == Tables.Viewed(old(Snapshot()), k, user, ip)
      ensures unchanged(this`destroyed)
      ensures views == old(posts)[k].views + 1 == ViewCount(postViews, old(posts)[k].id)
    {
      ghost var d := Snapshot();
      Tables.ViewKeepsDb(d, k, user, ip);
      PostByIdAt(posts, k);
      ApplyView(k, user, ip);
      views := posts[k].views;
    }

    /** The writes of `RecordView`, one after the other. */
    method ApplyView(k: nat, user: Option<UserId>, ip: Option<string>)
      requires k < |posts| && PostById(posts, posts[k].id) == Some(posts[k])
      modifies this
      ensures Snapshot() == Tables.Viewed(old(Snapshot()), k, user, ip)
      ensures unchanged(this`destroyed)
    {
      var p := posts[k];
      postViews := [PostView(p.id, user, ip, clock)] + postViews;
      clock := clock + 1;
      SaveViewCount(k);
    }

    /** `post.save(update_fields=['views'])` on the post at `k` with its
        counter raised by one: the `pre_save` handler finds the stored image
        unchanged and destroys nothing. */
    method SaveViewCount(k: nat)
      requires k < |posts| && PostById(posts, posts[k].id) == Some(posts[k])
      modifies this`posts, this`destroyed
      ensures posts == old(posts)[k := old(posts)[k].(views := old(posts)[k].views + 1)]
      ensures destroyed == old(destroyed)
    {
      var q := posts[k].(views := posts[k].views + 1);
      PreSave(q.id, q.featuredImage);
      posts := posts[k := q];
    }

    /** `ajax_add_comment`: an anonymous requester, an unknown post and a body
        that is empty once stripped are refused, in that order, and change
        nothing; otherwise the stripped body is appended as the requester's
        comment and the reply's count is the post's previous count plus one. */
    method AddComment(requester: Option<UserId>, slug: string, body: Option<string>) returns (r: Result<CommentReply, Error>)
      requires Valid() && Known(requester)
      modifies this
      ensures Valid()
      ensures requester.None? ==> r == Err(JsonError(403, LoginRequiredMessage))
      ensures requester.Some? && SlugIndex(old(posts), slug).None? ==> r == Err(NotFound)
      ensures requester.Some? && SlugIndex(old(posts), slug).Some? && Text.PyStrip(ParamOrEmpty(body)) == ""
              ==> r == Err(JsonError(400, EmptyCommentMessage))
      ensures requester.Some? && SlugIndex(old(posts), slug).Some? && Text.PyStrip(ParamOrEmpty(body)) != ""
              ==> r.Ok?
      ensures r.Err? ==> unchanged(this)
      ensures r.Ok? ==>
        && requester.Some? && SlugIndex(old(posts), slug).Some?
        && var p := old(posts)[SlugIndex(old(posts), slug).value];
        && var text := Text.PyStrip(ParamOrEmpty(body));
        && text != ""
        && comments == old(comments) + [DefaultComment(p.id, requester.value, text, old(clock))]
        && r.value == CommentReply(UserById(old(users), requester.value).value.username, text, old(clock),
                                   CommentCount(old(comments), p.id) + 1)
        && r.value.commentsCount == CommentCount(comments, p.id)
        && clock == old(clock) + 1
      ensures unchanged(this`users, this`profiles, this`follows, this`categories, this`posts)
      ensures unchanged(this`postViews, this`destroyed, this`nextId)
    {
      if requester.None? {
        return Err(JsonError(403, LoginRequiredMessage));
      }
      var found := SlugIndex(posts, slug);
      if found.None? {
        return Err(NotFound);
      }
      var text := Text.PyStrip(ParamOrEmpty(body));
      if text == "" {
        return Err(JsonError(400, EmptyCommentMessage));
      }
      var k := found.value;
      var author := UserById(users, requester.value).value;
      var createdAt := clock;
      ghost var d := Snapshot();
      Tables.CommentKeepsDb(d, k, author.id, text);
      CommentCountAppend(comments, DefaultComment(posts[k].id, author.id, text, clock), posts[k].id);
      ApplyComment(k, author.id, text);
      r := Ok(CommentReply(author.username, text, createdAt, CommentCount(comments, posts[k].id)));
    }

    /** `Comment.objects.create(post=..., author=..., body=...)`. */
    method ApplyComment(k: nat, author: UserId, body: string)
      requires k < |posts|
      modifies this
      ensures Snapshot() == Tables.Commented(old(Snapshot()), k, author, body)
      ensures unchanged(this`destroyed)
    {
      comments := comments + [DefaultComment(posts[k].id, author, body, clock)];
      clock := clock + 1;
    }
  
    // -------------------------------------------------------------------------
    // The post form and the post views

    /** `PostForm.clean` on the category table (`Forms.ResolveCategory`): an
        empty "new category" keeps the selected choice; a stored name is reused;
        otherwise a row with the next key is inserted, unless its slug is
        taken, which is the uncaught `IntegrityError` and changes nothing. */
    method CleanPostForm(form: PostForm) returns (r: Result<Option<CategoryId>, Error>)
      requires Valid()
      modifies this
      ensures Valid()
      ensures var res := Forms.ResolveCategory(old(categories), old(nextId), form.category, form.newCategory);
        && (res.None? ==> r == Err(IntegrityError) && unchanged(this))
        && (res.Some? ==> r == Ok(res.value.category) && Snapshot() == Tables.Resolved(old(Snapshot()), res.value))
      ensures unchanged(this`destroyed)
    {
      ghost var res := Forms.ResolveCategory(categories, nextId, form.category, form.newCategory);
      if res.Some? {
        Tables.ResolveKeepsDb(Snapshot(), form.category, form.newCategory);
      }
      r := ApplyClean(form);
    }

    /** The writes of `CleanPostForm`: when the stripped "new category" is
        non-empty, `get_or_create` by the stripped name with the derived slug
        as the default of a new row, and its category in place of the
        selected one. */
    method ApplyClean(form: PostForm) returns (r: Result<Option<CategoryId>, Error>)
      modifies this
      ensures var res := Forms.ResolveCategory(old(categories), old(nextId), form.category, form.newCategory);
        && (res.None? ==> r == Err(IntegrityError) && unchanged(this))
        && (res.Some? ==> r == Ok(res.value.category) && Snapshot() == Tables.Resolved(old(Snapshot()), res.value))
      ensures unchanged(this`destroyed)
    {
      ghost var res := Forms.ResolveCategory(categories, nextId, form.category, form.newCategory);
      var newCat := Text.PyStrip(form.newCategory);
      if newCat == "" {
        assert res == Some(Forms.Cleaned(form.category, categories, nextId));
        return Ok(form.category);
      }
      Text.TrimIdempotent(form.newCategory, Text.PyIsSpace);
      var got := Forms.GetOrCreate(categories, nextId, Forms.CategoryName(newCat), Forms.CategorySlug(newCat));
      assert res == got;
      if got.None? {
        return Err(IntegrityError);
      }
      StoreCategories(got.value);
      r := Ok(got.value.category);
    }

    /** The category table and next key replaced by what `get_or_create` left. */
    method StoreCategories(cleaned: Forms.Cleaned)
      modifies this
      ensures Snapshot() == Tables.Resolved(old(Snapshot()), cleaned)
      ensures unchanged(this`destroyed)
    {
      categories, nextId := cleaned.categories, cleaned.nextId;
    }

    /** `PostCreateView` on a submitted form: an anonymous requester is sent to
        log in; otherwise the form is cleaned, which may insert a category even
        when the form then fails its checks, and a valid form inserts the post,
        written by the requester, with the next key and stamped with the clock,
        in front of the others. Its `pre_save` finds no row under the new key
        and destroys nothing. */
    method CreatePost(requester: Option<UserId>, form: PostForm) returns (r: Result<PostId, Error>)
      requires Valid() && Known(requester)
      modifies this
      ensures Valid()
      ensures unchanged(this`destroyed)
      ensures requester.None? ==> r == Err(LoginRedirect) && unchanged(this)
      ensures requester.Some? ==>
        var res := Forms.ResolveCategory(old(categories), old(nextId), form.category, form.newCategory);
        var errors := FormErrors(old(categories), old(posts), form, None);
        && (res.None? ==> r == Err(IntegrityError) && unchanged(this))
        && (res.Some? && errors != [] ==>
              r == Err(FormInvalid(errors)) && Snapshot() == Tables.Resolved(old(Snapshot()), res.value))
        && (res.Some? && errors == [] ==>
              && r == Ok(res.value.nextId)
              && Snapshot() == Tables.Created(Tables.Resolved(old(Snapshot()), res.value),
                                              NewPost(res.value.nextId, requester.value, form, res.value.category, old(clock))))
      ensures r.Ok? ==>
        && posts[1..] == old(posts) && posts[0].id == r.value && r.value !in PostIds(old(posts))
        && posts[0].author == requester.value && posts[0].slug == form.slug && posts[0].views == 0
    {
      if requester.None? {
        return Err(LoginRedirect);
      }
      var errors := FormErrors(categories, posts, form, None);
      ghost var d := Snapshot();
      var cleaned := CleanPostForm(form);
      if cleaned.Err? {
        return Err(cleaned.error);
      }
      if errors != [] {
        return Err(FormInvalid(errors));
      }
      Tables.ResolveKeepsDb(d, form.category, form.newCategory);
      var q := NewPost(nextId, requester.value, form, cleaned.value, clock);
      assert nextId !in PostIds(posts);
      Tables.CreatePostKeepsDb(Snapshot(), q);
      InsertPost(q);
      r := Ok(q.id);
    }

    /** `form.save()` of a new post: the `pre_save` handler, then the row in
        front of the others. */
    method InsertPost(q: Post)
      requires q.id !in PostIds(posts)
      modifies this
      ensures Snapshot() == Tables.Created(old(Snapshot()), q)
      ensures unchanged(this`destroyed)
    {
      PreSave(q.id, q.featuredImage);
      assert destroyed == old(destroyed) + [] == old(destroyed);
      posts := [q] + posts;
      clock := clock + 1;
      nextId := nextId + 1;
    }

    /** `PostUpdateView` on a submitted form: the edit checks of `EditGate`
        first, then the form as for creation, except that the edited post may
        keep its own slug; a valid form saves the edited post in place, and its
        `pre_save` destroys the stored image when the form clears or replaces
        it. */
    method UpdatePost(requester: Option<UserId>, slug: string, form: PostForm) returns (r: Result<PostId, Error>)
      requires Valid() && Known(requester)
      modifies this
      ensures Valid()
      ensures EditGate(old(posts), requester, slug).Err? ==>
        r == Err(EditGate(old(posts), requester, slug).error) && unchanged(this)
      ensures EditGate(old(posts), requester, slug).Ok? ==>
        var k := EditGate(old(posts), requester, slug).value;
        var p := old(posts)[k];
        var res := Forms.ResolveCategory(old(categories), old(nextId), form.category, form.newCategory);
        var errors := FormErrors(old(categories), old(posts), form, Some(p.id));
        && (res.None? ==> r == Err(IntegrityError) && unchanged(this))
        && (res.Some? && errors != [] ==>
              && r == Err(FormInvalid(errors))
              && Snapshot() == Tables.Resolved(old(Snapshot()), res.value)
              && destroyed == old(destroyed))
        && (res.Some? && errors == [] ==>
              && r == Ok(p.id)
              && Snapshot() == Tables.Updated(Tables.Resolved(old(Snapshot()), res.value), k,
                                              Edited(p, form, res.value.category, old(clock)))
              && destroyed == old(destroyed) + Signals.DestroyOnSave(Some(p.id), Some(p), form.featuredImage))
    {
      var gate := EditGate(posts, requester, slug);
      if gate.Err? {
        return Err(gate.error);
      }
      var k := gate.value;
      var p := posts[k];
      var errors := FormErrors(categories, posts, form, Some(p.id));
      ghost var d := Snapshot();
      var cleaned := CleanPostForm(form);
      if cleaned.Err? {
        return Err(cleaned.error);
      }
      if errors != [] {
        return Err(FormInvalid(errors));
      }
      Tables.ResolveKeepsDb(d, form.category, form.newCategory);
      var q := Edited(p, form, cleaned.value, clock);
      OtherSlugs(k, form.slug);
      PostByIdAt(posts, k);
      Tables.UpdatePostKeepsDb(Snapshot(), k, q);
      SavePost(k, q);
      r := Ok(p.id);
    }

    /** With unique keys, a slug no post but the one at `k` has is held by no
        other position. */
    lemma OtherSlugs(k: nat, slug: string)
      requires Valid() && k < |posts|
      requires forall p :: p in posts && Some(p.id) != Some(posts[k].id) ==> p.slug != slug
      ensures forall j :: 0 <= j < |posts| && j != k ==> posts[j].slug != slug
    {
      forall j | 0 <= j < |posts| && j != k ensures posts[j].slug != slug {
        assert posts[j] in posts;
        if j < k {
          assert posts[j].id != posts[k].id;
        } else {
          assert posts[k].id != posts[j].id;
        }
      }
    }

    /** `form.save()` of the post at `k` as `q`: the `pre_save` handler, which
        compares with the stored row, then the row replaced. */
    method SavePost(k: nat, q: Post)
      requires k < |posts| && q.id == posts[k].id && PostById(posts, posts[k].id) == Some(posts[k])
      modifies this
      ensures Snapshot() == Tables.Updated(old(Snapshot()), k, q)
      ensures destroyed == old(destroyed) + Signals.DestroyOnSave(Some(q.id), Some(old(posts)[k]), q.featuredImage)
    {
      PreSave(q.id, q.featuredImage);
      posts := posts[k := q];
      clock := clock + 1;
    }

    /** `PostDeleteView` on a confirmed delete: the edit checks of `EditGate`
        first; then the `pre_delete` handler for the post, and the post removed
        with its comments and view events (`CASCADE`). */
    method DeletePost(requester: Option<UserId>, slug: string) returns (r: Result<PostId, Error>)
      requires Valid() && Known(requester)
      modifies this
      ensures Valid()
      ensures EditGate(old(posts), requester, slug).Err? ==>
        r == Err(EditGate(old(posts), requester, slug).error) && unchanged(this)
      ensures EditGate(old(posts), requester, slug).Ok? ==>
        var k := EditGate(old(posts), requester, slug).value;
        && r == Ok(old(posts)[k].id)
        && Snapshot() == Tables.PostDeleted(old(Snapshot()), k)
        && destroyed == old(destroyed) + Signals.DestroyOnDelete(old(posts)[k])
    {
      var gate := EditGate(posts, requester, slug);
      if gate.Err? {
        return Err(gate.error);
      }
      var k := gate.value;
      Tables.DeletePostKeepsDb(Snapshot(), k);
      r := Ok(posts[k].id);
      RemovePost(k);
    }

    /** `post.delete()`: the `pre_delete` handler, then the rows. */
    method RemovePost(k: nat)
      requires k < |posts|
      modifies this
      ensures Snapshot() == Tables.PostDeleted(old(Snapshot()), k)
      ensures destroyed == old(destroyed) + Signals.DestroyOnDelete(old(posts)[k])
    {
      PreDelete(posts[k]);
      var id := posts[k].id;
      comments := CommentsWithoutPost(comments, id);
      postViews := ViewsWithoutPost(postViews, id);
      posts := Tables.RemoveAt(posts, k);
    }

    /** Deleting the category `id` (from the admin site): the row goes, and
        its posts lose their category (`SET_NULL`, a bulk update that sends no
        save signals). */
    method DeleteCategory(id: CategoryId)
      requires Valid()
      modifies this
      ensures Valid()
      ensures Snapshot() == Tables.CategoryDeleted(old(Snapshot()), id)
      ensures unchanged(this`destroyed)
    {
      Tables.DeleteCategoryKeepsDb(Snapshot(), id);
      categories := WithoutCategory(categories, id);
      posts := DetachCategory(posts, id);
    }
  }
}
