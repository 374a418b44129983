# Blog store model

A Dafny model of the consistency rules of a Django blogging application. Users have one
profile each and follow one another. Posts belong to an author and optionally to a
category, carry a view counter, and collect comments and view events. Deleting a post or
replacing its featured image asks the image host to destroy the old asset.

The model is one in-memory store (`Blog.Store`). It is a class whose fields are the
tables, each kept in its model's default ordering:
- posts and view events newest first;
- comments oldest first;
- a log of the public ids sent to the image host's `destroy`.

The request handlers that write (`toggle_follow`, `increment_post_view`,
`ajax_add_comment`, the post create, update and delete views, `PostForm.clean`, the
`create_profile` and image signal handlers) are methods of the store. Each public
handler (`RegisterUser`, `ToggleFollow`, `IncrementPostView`, `AddComment`, `CleanPostForm`,
`CreatePost`, `UpdatePost`, `DeletePost`, `DeleteCategory`) and each helper that requires it
is proved to keep the store-wide rule `Tables.DbOk`. The signal handlers `CreateProfile`,
`PreSave` and `PreDelete` run inside those handlers, between writes, and state only their
own writes. That rule covers:
- unique keys, usernames, follow pairs, category names and slugs, and post slugs;
- no self-follow;
- exactly one profile per user;
- references that point at stored rows;
- the default orderings;
- every post's view counter equal to the number of its view events.

Each write method states its whole new state through a function on the tables
(`Tables.Toggled`, `Tables.Viewed`, …). The properties of those functions are lemmas.
The read-only views (the home listing, the ownership test, the author page, the post
detail page, the dashboard) are pure functions in `Views`. The front-end helper
`getCookie` is a method with a loop, proved against a reference function (`Cookie`).

Modules:
- `Wrappers`: Option and Result.
- `Seqs`: filter, count and first-match helpers (querysets).
- `Text`: Python's `strip`, `lower` (ASCII letters only), `replace` and `split`; JavaScript's `trim` and `substring`; substring search.
- `Models`: the records, their defaults, their per-table rules, follow edges and on-delete behaviour.
- `Views`: error outcomes, replies and the pure queries.
- `Forms`: category name and slug derivation, and category get-or-create.
- `Signals`: `get_public_id` and the destroy decisions.
- `Tables`: the database as one value, the transition functions and the proofs that each keeps `DbOk`.
- `Blog`: the store class.
- `Cookie`: `getCookie`.

Time is an abstract clock. Every stamped write reads it and then advances it. New keys
come from a shared counter, which stands for `uuid4` and the auto-increment keys.

The `new_category` form field is a Django `CharField`, which strips its input while the form
is cleaned. So the `if new_cat:` test in `clean()` sees the stripped text, and an entry of blanks
alone counts as empty.

Behaviours of the code worth noting, which the model keeps:
- The post slug is a form field. It is not derived from the title; a taken slug is a form error on `slug`.
- Post creation checks only that the user is logged in. It does not check `is_author`.
- The post detail page shows unpublished posts as well.
- The dashboard's "total views" is `Count('views')`, which counts the posts. It does not sum their counters (`Views.DashboardViewsCountPosts`).
- The category get-or-create runs in `clean()`, before the model form's uniqueness check. So a category can be inserted even when the form is then rejected for a taken post slug.
- When no category has the stripped name but one already has the derived slug, the insert violates the unique slug and nothing catches it (`IntegrityError`).
- In `delete_old_image_on_update` the `not instance.pk` test never fires: a post's key is a `uuid4` default set when the instance is built. A post being created is instead caught by the missing stored row.
- Saving the view counter also runs the `pre_save` image handler. It destroys nothing because the image is unchanged (`Blog.Store.SaveViewCount`).

## Model

| member | source | states |
|---|---|---|
| Models.DefaultProfile | blog/models.py:21-26 | a new profile has an empty bio, no avatar and is_author set |
| Models.DefaultPost | blog/models.py:49-60 | a new post has views 0, is unpublished, has no image and no category, and created_at equals updated_at |
| Models.DefaultComment | blog/models.py:72-77 | a new comment is unmoderated and keeps its post, author and body |
| Models.ToggleEdge | blog/views.py:154-158 | the follow toggle on the rows: with a (requester, target) row it is deleted, without one a row stamped with the clock is added; its meaning is stated by `Models.ToggleEdgeSet` |
| Models.FollowersCount | blog/views.py:102 | `Follow.objects.filter(following=user).count()`: the number of rows into the user; `Models.FollowersCountIsDistinct` relates it to the distinct followers |
| Models.FollowingCount | blog/views.py:103 | `Follow.objects.filter(follower=user).count()`: the number of rows out of the user; `Models.FollowingCountIsDistinct` relates it to the distinct users followed |
| Models.ToggleEdgeSet | blog/views.py:154-158 | the toggle removes the (requester, target) pair when present and adds it when absent; no other pair changes |
| Models.ToggleTwice | blog/views.py:154-158 | two successive toggles of the same pair restore the original edge set |
| Models.ToggleKeepsPairsUnique | blog/models.py:36-37 | the toggle keeps at most one follow row per ordered pair |
| Models.ToggleFollowersCount | blog/views.py:154-158 | after the toggle the target's follower count is one more (followed) or one less (unfollowed); every other user's is unchanged |
| Models.ToggleFollowingCount | blog/views.py:154-156 | after the toggle the requester's following count is one more or one less; every other user's is unchanged |
| Models.FollowersCountIsDistinct | blog/views.py:102 | with unique pairs, the follower count is the number of distinct followers |
| Models.FollowingCountIsDistinct | blog/views.py:103 | with unique pairs, the following count is the number of distinct users followed |
| Models.UserByName | blog/views.py:151 | the lookup finds a stored user with that username, or reports that none exists |
| Models.CategoryByName | blog/forms.py:39-40 | the lookup half of `get_or_create(name=...)`: a stored category with that name, or none exactly when no category has it |
| Models.CategoryByNameFinds | blog/forms.py:39-42 | with unique names, a lookup by a stored category's name finds that category |
| Models.SlugIndex | blog/views.py:165 | the lookup finds a post with that slug, or reports that none exists |
| Models.ViewCountPrepend | blog/views.py:168 | a new view event adds one to its own post's event count and nothing to any other post's |
| Models.CommentCountAppend | blog/views.py:182 | a new comment adds one to its own post's comment count and nothing to any other post's |
| Models.CascadeRemovesExactlyItsComments | blog/models.py:73 | deleting a post removes exactly its comments: the removed number is its comment count, and every other comment stays |
| Models.CommentsWithoutPost | blog/models.py:73 | the comments left by the `CASCADE` on a deleted post are exactly the stored comments on other posts |
| Models.ViewsWithoutPost | blog/models.py:86 | the view events left by the `CASCADE` on a deleted post are exactly the stored events of other posts |
| Models.ViewCountWithoutPost | blog/models.py:86 | cascading the view events of a deleted post leaves every other post's event count |
| Models.DetachCategoryKeepsPosts | blog/models.py:56 | after SET_NULL no post refers to the deleted category, and every post is otherwise unchanged |
| Models.WithoutCategory | blog/models.py:42-44 | deleting a category row leaves exactly the categories with another key |
| Models.DetachCategory | blog/models.py:56 | after `SET_NULL` the posts are as many as before and none refers to the deleted category |
| Views.FormErrors | blog/models.py:51-54 | the form reports a title or content error exactly when that field is empty; a slug error exactly when the slug is empty or another post has it; a category error exactly when the selected category is not stored; and no error exactly when none of these holds |
| Views.ParamOrEmpty | blog/views.py:179 | `request.POST.get('body', '')`: an absent parameter reads as the empty string |
| Views.Given | blog/views.py:149 | Python truthiness of a request parameter (`if not target_username`, `if not slug`): present and non-empty |
| Views.NewPost | blog/views.py:63-65 | a created post has the requester as author, the form's title, slug, content, image and published flag, the resolved category, views 0 and both stamps equal to the clock |
| Views.Edited | blog/views.py:68-71 | an edited post keeps its key, author, creation time and counter, takes the form's title, slug, content, image and published flag and the resolved category, and is stamped with the clock |
| Views.HomePosts | blog/views.py:20-25 | the listing holds exactly the published posts that contain a non-empty q, ignoring case, in their title or content |
| Views.HomePostsNewestFirst | blog/models.py:63-64 | the listing keeps the newest-first order |
| Views.EmptySearchListsAllPublished | blog/views.py:22-24 | an empty or absent q lists every published post |
| Views.IsFollowing | blog/views.py:104-106 | is_following holds exactly when a signed-in viewer has a follow row to the target; it is false for an anonymous viewer |
| Views.AuthorPosts | blog/views.py:101 | the author page lists exactly that user's published posts |
| Views.Dashboard | blog/views.py:128-138 | the post total is the number of the user's posts and the follower total the number of follow rows into the user |
| Views.DashboardCommentsPerPost | blog/views.py:133 | with distinct post keys, the comment total equals the sum, over the user's posts, of each post's comment count |
| Views.DashboardPostsDistinct | blog/views.py:130-131 | with distinct post keys, the post total equals the number of distinct keys of the posts the user wrote |
| Views.CountOnPosts | blog/views.py:133 | comments on any of several distinct posts, counted together, are the sum of the posts' separate comment counts |
| Views.DashboardViewsCountPosts | blog/views.py:132 | "total views" equals the number of the user's posts, whatever their counters hold |
| Views.EditGate | blog/views.py:88-94 | edit and delete are checked in order: login redirect, 404 for an unknown slug, then 403 unless the requester is the author |
| Views.EditGateAdmitsOnlyTheAuthor | blog/views.py:78-79 | with unique slugs, edit and delete go ahead exactly when the requester is the post's author, and are refused with 403 exactly when a signed-in requester is not |
| Views.MayModify | blog/views.py:93-94 | `test_func` of the update and delete views: the requester is the post's author; `Views.EditGateAdmitsOnlyTheAuthor` states what the gate built on it admits |
| Views.PostDetail | blog/views.py:43-51 | the detail page shows the post with that slug or 404s; is_following is false for anonymous viewers and otherwise whether the viewer follows the author |
| Views.AuthorProfile | blog/views.py:99-110 | the author page 404s for an unknown username; otherwise followers counts the rows into the user, following the rows out of it, and posts are that user's published ones |
| Views.AuthorPageCountsDistinct | blog/views.py:102-103 | with unique pairs the page's counts are the numbers of distinct followers and of distinct users followed |
| Forms.CategorySlug | blog/forms.py:41 | each character of the derived slug is '-' where the stripped name has a space and the lower-cased name character elsewhere; so the slug has the name's length, no space and no upper-case ASCII letter |
| Forms.CategoryName | blog/forms.py:40 | the name looked up and stored is the entered text with Python's `strip()` applied (`Text.PyStrip`) |
| Forms.DistinctNamesSameSlug | blog/forms.py:39-42 | two distinct names ("Web Dev", "web-dev") derive the same slug, so the second insert violates slug uniqueness |
| Forms.ResolveCategory | blog/forms.py:35-44 | an empty new category keeps the selection and the table; otherwise the result is a stored category with the stripped name that replaces the selection. At most one row is added, and only when no category has that name. The insert fails exactly when the derived slug is taken |
| Forms.GetOrCreate | blog/forms.py:39-42 | `get_or_create` returns the stored category with that name when there is one and changes nothing; otherwise it appends one new row with the name and slug, or fails exactly when the slug is taken |
| Forms.StripTwice | blog/forms.py:37-41 | stripping the already-cleaned new-category text again before naming it changes neither the stored name nor the slug: `CategoryName(PyStrip(x)) == CategoryName(x)`, and the same for `CategorySlug` |
| Forms.ResolveSteps | blog/forms.py:37-43 | read on the stripped text, each branch of clean (empty text, name found, slug taken, insert) yields the outcome stated for it; the name and slug are those of the stripped text, by `Forms.StripTwice` |
| Forms.ResolveKeepsCategoriesOk | blog/models.py:43-44 | resolution keeps category keys, names and slugs pairwise distinct and keeps every stored category |
| Forms.ResolveIdempotent | blog/forms.py:39-42 | resolving the same text again finds the same category and changes nothing |
| Signals.GetPublicId | blog/signals.py:17-26 | a value's own public_id is returned as is; without one, an id is returned exactly for a set file with a URL path, and it contains neither '/' nor '.' |
| Signals.PublicIdFromPath | blog/signals.py:23-25 | the id taken from a URL path is the last segment's file name without extension: path = dir + id + ext |
| Signals.DestroyOnDelete | blog/signals.py:29-36 | deleting a post destroys exactly one id, its image's public id, when that is non-empty, and none otherwise |
| Signals.DestroyOnSave | blog/signals.py:39-55 | a save destroys nothing for a new post, a missing stored row, or an old image that is empty or the same as the new one; otherwise at most the old image's id |
| Signals.DestroyOnSaveReplaced | blog/signals.py:52-55 | when a set image is replaced, what is destroyed does not depend on the new image and equals what deleting the stored post would destroy |
| Signals.Truthy | blog/signals.py:35 | Python truthiness of the public id before `destroy` is called: present and non-empty |
| Cookie.FirstMatchIsEarliest | static/js/blog.js:100-105 | the answer is the decoded value of the earliest matching entry; later matches are ignored |
| Cookie.Matches | static/js/blog.js:102-103 | an entry matches when, once trimmed, its first `name.length + 1` characters are `name=` |
| Cookie.ValueOf | static/js/blog.js:104 | the decoded text after `name=` of the trimmed entry |
| Cookie.FirstMatch | static/js/blog.js:101-107 | the value of the first matching entry, if any; `Cookie.FirstMatchIsEarliest` and `Cookie.NoMatchNoValue` state its meaning |
| Cookie.CookieValue | static/js/blog.js:98-109 | what `getCookie` returns: null for an empty cookie string, otherwise `Cookie.FirstMatch` over the pieces between ';'; `Cookie.GetCookie` is proved equal to it |
| Cookie.NoMatchNoValue | static/js/blog.js:98-109 | the answer is null exactly when no entry matches |
| Cookie.LongerNameDoesNotMatch | static/js/blog.js:103 | an entry for a longer name that merely begins with the name (such as "csrftokenX=1" for "csrftoken") never matches |
| Cookie.PaddedEntryMatches | static/js/blog.js:101-103 | an entry of blanks, `name=` and a value not ending in a blank matches once trimmed and gives exactly that value |
| Cookie.FirstOfSeveral | static/js/blog.js:100-105 | after an entry that does not match, a padded match wins over any later match and its value is returned |
| Cookie.GetCookie | static/js/blog.js:97-110 | the loop returns what the reference lookup gives, and null for an empty cookie string |
| Text.PyStrip | blog/views.py:179 | Python's `strip()`: the result is a piece of the input with only blanks around it, empty exactly when the input is all blanks, and neither beginning nor ending with a blank (the contract of `Text.Trim`) |
| Text.JsTrim | static/js/blog.js:102 | JavaScript's `trim()`: the same shape as `Text.PyStrip` over JavaScript's white space and line terminators |
| Text.Split | static/js/blog.js:100 | `split(";")`: at least one piece, no piece holds the separator, and joining the pieces with it gives the input back (`Text.JoinSplit`) |
| Tables.RegisterKeepsDb | blog/signals.py:11-14 | registering a user with its default profile keeps every store rule |
| Tables.Registered | blog/signals.py:11-14 | the tables after a sign-up: the user row with the next key and its default profile stamped with the clock; nothing else changes |
| Tables.Toggled | blog/views.py:154-156 | the tables after a toggle: the follow rows toggled for (a, b), clock advanced, nothing else changes |
| Tables.RegisterGivesOneDefaultProfile | blog/models.py:22-25 | a newly registered user has exactly one profile, the default one (empty bio, is_author) |
| Tables.ToggleKeepsDb | blog/models.py:36-37 | the follow toggle between distinct stored users keeps every store rule |
| Tables.ViewKeepsDb | blog/views.py:168-170 | recording a view keeps every store rule, and the post's counter equals its number of events |
| Tables.ViewedCountsOneMore | blog/views.py:168-170 | a view adds one event to the viewed post's count and none to any other, and leaves every other post unchanged |
| Tables.Viewed | blog/views.py:168-170 | the tables after a view: one event in front, that post's counter one higher, clock advanced, nothing else changes |
| Tables.Commented | blog/views.py:182 | the tables after a comment: the default comment appended, stamped with the clock, nothing else changes |
| Tables.CommentKeepsDb | blog/views.py:182 | appending a comment keeps every store rule |
| Tables.ResolveKeepsDb | blog/forms.py:39-43 | category resolution keeps every store rule, and a category it picks is stored |
| Tables.Resolved | blog/forms.py:39-43 | the tables after `clean()`: the category table and next key as `get_or_create` left them, nothing else changes |
| Tables.CreatePostKeepsDb | blog/models.py:53-60 | inserting a post with an unused slug and zero views keeps every store rule |
| Tables.Created | blog/views.py:63-65 | the tables after a post is created: the post in front of the others, clock and next key advanced |
| Tables.UpdatePostKeepsDb | blog/models.py:49-60 | saving an edited post whose slug no other post has keeps every store rule |
| Tables.Updated | blog/views.py:68-71 | the tables after an edit is saved: the post at its position replaced, clock advanced |
| Tables.DeletePostKeepsDb | blog/models.py:72-93 | deleting a post with its comments and view events keeps every store rule |
| Tables.PostDeleted | blog/models.py:73 | the tables after a post is deleted: the post gone with its comments and view events (`CASCADE`) |
| Tables.DeleteCategoryKeepsDb | blog/models.py:56 | deleting a category and clearing it from its posts keeps every store rule |
| Tables.CategoryDeleted | blog/models.py:56 | the tables after a category is deleted: the row gone and its posts detached (`SET_NULL`) |
| Blog.Store.CreateProfile | blog/signals.py:11-14 | a first save appends the default profile; a later save changes nothing |
| Blog.Store.RegisterUser | blog/signals.py:11-14 | a new username gets a user row and exactly one default profile; a taken one is a form error and changes nothing |
| Blog.Store.InsertUser | blog/signals.py:11-14 | the user row with the next key, then its `post_save`: the new tables are `Tables.Registered` of the old |
| Blog.Store.ToggleFollow | blog/views.py:144-158 | failures come in order (403 anonymous, 400 no username, 404 unknown target, 400 self) and change nothing; otherwise the toggle happens and followers_count is the target's count after it |
| Blog.Store.SwitchFollow | blog/views.py:154-158 | the row is deleted when it existed ("unfollowed") and created otherwise ("followed") |
| Blog.Store.ApplyToggle | blog/views.py:154-156 | the follow row's deletion or creation: the new tables are `Tables.Toggled` of the old and the destroy log is unchanged |
| Blog.Store.PreSave | blog/signals.py:39-55 | the destroy log grows by the ids of the save decision |
| Blog.Store.PreDelete | blog/signals.py:29-36 | the destroy log grows by the ids of the delete decision |
| Blog.Store.IncrementPostView | blog/views.py:160-172 | 400 for a missing slug and 404 for an unknown one, both changing nothing; otherwise one event is added (anonymous for an anonymous user), the counter rises by one and the new value is returned |
| Blog.Store.RecordView | blog/views.py:167-172 | the event and counter writes, with the counter read back equal to the post's number of events |
| Blog.Store.ApplyView | blog/views.py:168-170 | the event insert, then the counter save: the new tables are `Tables.Viewed` of the old and the destroy log is unchanged |
| Blog.Store.SaveViewCount | blog/views.py:169-170 | saving the raised counter changes only that post and destroys no image |
| Blog.Store.AddComment | blog/views.py:174-192 | failures come in order (403 anonymous, 404 unknown post, 400 empty stripped body) and change nothing; otherwise one comment with the stripped body is appended and comments_count is the previous count plus one |
| Blog.Store.ApplyComment | blog/views.py:182 | `Comment.objects.create`: the new tables are `Tables.Commented` of the old and the destroy log is unchanged |
| Blog.Store.CleanPostForm | blog/forms.py:35-44 | the category table changes as the resolution function says, and a taken slug is an IntegrityError that changes nothing |
| Blog.Store.ApplyClean | blog/forms.py:37-43 | the lookups and insert of clean, branch by branch |
| Blog.Store.StoreCategories | blog/forms.py:39-42 | the category table and next key `get_or_create` leaves: the new tables are `Tables.Resolved` of the old |
| Blog.Store.CreatePost | blog/views.py:53-65 | login is required; an invalid form changes only the category table; a valid one puts the post first with views 0 |
| Blog.Store.InsertPost | blog/views.py:63-65 | `form.save()` of a new post: its `pre_save` destroys nothing and the new tables are `Tables.Created` of the old |
| Blog.Store.UpdatePost | blog/views.py:68-86 | the edit gate applies, then the form; a valid save replaces the post in place and logs the old image's destroy when it was cleared or replaced |
| Blog.Store.SavePost | blog/signals.py:39-55 | the edited post saved: the log gains what `pre_save` decides against the stored row, and the new tables are `Tables.Updated` of the old |
| Blog.Store.DeletePost | blog/views.py:88-94 | the edit gate applies; the post goes with its comments and view events, and its image id is logged for destroy |
| Blog.Store.RemovePost | blog/signals.py:29-36 | `post.delete()`: the log gains what `pre_delete` decides, and the new tables are `Tables.PostDeleted` of the old |
| Blog.Store.DeleteCategory | blog/models.py:56 | the category goes and its posts lose their category |

## Left out

- Query, ORM and pagination machinery, templates and rendering: queries are sequence filters over the tables, and paging keeps only the page size `Views.PageSize` = 10.
- Sign-up, login and logout (`SignUpView`, `LoginView`, `LogoutView` and their forms): passwords and sessions belong to framework classes that are not part of this model. `Blog.Store.RegisterUser` keeps only the username uniqueness and the profile signal.
- Profile editing (`ProfileUpdateView`) and the `author_profile` view: they render or save a form and state no rule beyond ownership of one's own profile.
- Concurrency of the `F('views') + 1` update: the increment is modelled as a sequential +1.
- The image host's `destroy` and `urlparse`: destroy appends an id to the store's log, and the URL path is part of the image value.
- Timestamps and `strftime` formatting: an abstract clock that advances on every stamped write.
- Editor, styling and file-input widgets; all DOM and fetch code of the front-end script; `decodeURIComponent` is a function parameter.
- Routing tables and the admin configuration.
- Deleting users, with the cascades to profiles, follows, posts and comments it would trigger: no code path deletes a user.
- Field lengths (`max_length`) and slug character validation of the model form.
- Forms.CategorySlug: lower-cases ASCII capitals only. Python's `str.lower()` maps every Unicode capital ("Été" gives "été"), and for some characters changes the length ("İ" gives two characters). So the model's slug differs from the code's for names with non-ASCII capitals.
- Views.FormErrors: the form's title, slug and content are taken as Django's field cleaning leaves them, with surrounding whitespace already stripped (`CharField(strip=True)`, the default). The stripping itself is not repeated here, so a title of only spaces reaches the model as the empty title.
- Text.ContainsIgnoreCase: `icontains` is modelled with ASCII case folding; how non-ASCII letters compare depends on the database engine, which is not part of this model.
