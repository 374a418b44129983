/** The decisions taken by the model signal handlers: which public id an image
    field stands for, and which ids are sent to the image host's `destroy` when a
    post is deleted or saved. The handlers themselves, which record those
    requests, are methods of the store. */
module Signals {
  import opened Wrappers
  import opened Models
  import Text

  /** `get_public_id`: the value's own `public_id` when it has one; otherwise,
      for a set file that reports a URL, the last '/'-separated segment of the
      URL path cut at its first '.'; otherwise none. */
  function GetPublicId(file: Image): (r: Option<string>)
    ensures file.publicId.Some? ==> r == file.publicId
    ensures file.publicId.None? ==> (r.Some? <==> file.IsSet() && file.urlPath.Some?)
    ensures file.publicId.None? && r.Some? ==> '/' !in r.value && '.' !in r.value
  {
    if file.publicId.Some? then file.publicId
    else if file.IsSet() && file.urlPath.Some? then
      var last := Text.LastPiece(file.urlPath.value, '/');
      var parts := Text.Split(file.urlPath.value, '/');
      assert '/' !in last by { assert last == parts[|parts| - 1]; }
      Text.FirstPieceIsPrefix(last, '.');
      var id := Text.FirstPiece(last, '.');
      assert forall k :: 0 <= k < |id| ==> id[k] == last[k];
      Some(id)
    else None
  }

  /** A Python value that tests true: a present, non-empty string. */
  predicate Truthy(id: Option<string>)
  {
    id.Some? && id.value != ""
  }

  /** `path` is `dir + id + ext`, where `dir` is empty or ends in '/', the rest
      holds no '/', `id` holds no '.', and `ext` is empty or begins with '.'. */
  predicate PathShape(path: string, dir: string, id: string, ext: string)
  {
    && path == dir + id + ext
    && (dir == [] || dir[|dir| - 1] == '/')
    && '/' !in id + ext
    && '.' !in id
    && (ext == [] || ext[0] == '.')
  }

  /** The public id extracted from a URL path, described without splitting: it
      is the file name of the path's last segment, without any extension. */
  lemma PublicIdFromPath(file: Image)
    requires file.publicId.None? && file.IsSet() && file.urlPath.Some?
    ensures GetPublicId(file).Some?
    ensures exists dir, ext :: PathShape(file.urlPath.value, dir, GetPublicId(file).value, ext)
  {
    var path := file.urlPath.value;
    var dir := SplitDirectory(path);
    var last := Text.LastPiece(path, '/');
    var ext := SplitExtension(last);
    assert PathShape(path, dir, Text.FirstPiece(last, '.'), ext);
  }

  /** A path is its directory part followed by its last segment. */
  lemma SplitDirectory(path: string) returns (dir: string)
    ensures path == dir + Text.LastPiece(path, '/')
    ensures dir == [] || dir[|dir| - 1] == '/'
    ensures '/' !in Text.LastPiece(path, '/')
  {
    var last := Text.LastPiece(path, '/');
    Text.LastPieceIsSuffix(path, '/');
    dir := path[..|path| - |last|];
    assert path == dir + path[|path| - |last|..];
    var parts := Text.Split(path, '/');
    assert last == parts[|parts| - 1];
  }

  /** A segment is its first '.'-piece followed by the extension part. */
  lemma SplitExtension(segment: string) returns (ext: string)
    ensures segment == Text.FirstPiece(segment, '.') + ext
    ensures ext == [] || ext[0] == '.'
    ensures '.' !in Text.FirstPiece(segment, '.')
  {
    var id := Text.FirstPiece(segment, '.');
    Text.FirstPieceIsPrefix(segment, '.');
    ext := segment[|id|..];
    assert segment == segment[..|id|] + ext;
  }

  /** The ids `delete_post_image_from_cloudinary` destroys for a post being
      deleted: its image's public id when that is truthy, nothing otherwise. */
  function DestroyOnDelete(post: Post): (ids: seq<string>)
    ensures |ids| <= 1
    ensures ids == [] <==> !Truthy(GetPublicId(post.featuredImage))
    ensures ids != [] ==> ids == [GetPublicId(post.featuredImage).value] && ids[0] != ""
  {
    var id := GetPublicId(post.featuredImage);
    if Truthy(id) then [id.value] else []
  }

  /** The ids `delete_old_image_on_update` destroys for a post being saved:
      `pk` is the instance's primary key, `stored` the row the database holds
      under it (if any), and `image` the instance's new image value. */
  function DestroyOnSave(pk: Option<PostId>, stored: Option<Post>, image: Image): (ids: seq<string>)
    ensures |ids| <= 1
    ensures pk.None? || stored.None? ==> ids == []
    ensures stored.Some? && (!stored.value.featuredImage.IsSet() || stored.value.featuredImage.SameFile(image))
            ==> ids == []
    ensures ids != [] ==> stored.Some? && Truthy(GetPublicId(stored.value.featuredImage))
                          && ids == [GetPublicId(stored.value.featuredImage).value]
  {
    if pk.None? then []
    else if stored.None? then []
    else
      var previous := stored.value.featuredImage;
      if previous.IsSet() && !previous.SameFile(image) then
        var id := GetPublicId(previous);
        if Truthy(id) then [id.value] else []
      else []
  }

  /** On an update that clears or replaces a set image, the old image's id is
      destroyed exactly when it is truthy; the new image is never consulted. */
  lemma DestroyOnSaveReplaced(pk: PostId, stored: Post, image: Image, other: Image)
    requires stored.featuredImage.IsSet() && !stored.featuredImage.SameFile(image)
    requires !stored.featuredImage.SameFile(other)
    ensures DestroyOnSave(Some(pk), Some(stored), image) == DestroyOnSave(Some(pk), Some(stored), other)
    ensures DestroyOnSave(Some(pk), Some(stored), image) == DestroyOnDelete(stored)
  {
  }
}
