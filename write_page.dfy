/** The editor page of `client/src/pages/write.tsx`: the Publish button's
    checks and request, the blog mutation's state, the page it navigates to
    after publishing, and the thumbnail dialog `AddBlogImageButton`. */
module WritePage {
  import opened Wrappers
  import JsString
  import UriEncoding

  datatype BlogImage = BlogImage(src: string, title: string)

  /** The body of `POST /api/blogs/add`. */
  datatype BlogRequest = BlogRequest(content: string, description: string, image: string, title: string, categories: seq<string>)

  /** The editor's state as the click handler sees it: `None` when
      `editor.isEmpty`, otherwise `editor.getHTML()`. */
  type EditorContent = Option<string>

  const TitleRequired := "Title is required!"
  const DescriptionRequired := "Description is required!"
  const ContentRequired := "Content is required!"
  const CategoriesRequired := "Categories are required!"

  /** A toast's place in the form: title, description, content, categories. */
  function Rank(toast: string): nat
  {
    if toast == TitleRequired then 0
    else if toast == DescriptionRequired then 1
    else if toast == ContentRequired then 2
    else 3
  }

  predicate ContentPresent(content: EditorContent)
  {
    content.Some? && content.value != ""
  }

  /** What one click on Publish does: the error toasts, in order, and the
      request sent, if any. */
  datatype PublishClick = PublishClick(toasts: seq<string>, request: Option<BlogRequest>)

  function Publish(title: string, description: string, content: EditorContent,
                   categories: seq<string>, blogImage: Option<BlogImage>): (r: PublishClick)
    ensures r.request.Some? <==> r.toasts == []
    ensures |r.toasts| <= 4
  {
    var toasts :=
      (if title == "" then [TitleRequired] else [])
      + (if description == "" then [DescriptionRequired] else [])
      + (if !ContentPresent(content) then [ContentRequired] else [])
      + (if |categories| == 0 then [CategoriesRequired] else []);
    if title == "" || description == "" || !ContentPresent(content) || |categories| == 0 then
      PublishClick(toasts, None)
    else
      var image := if blogImage.Some? then blogImage.value.src else "";
      PublishClick(toasts, Some(BlogRequest(content.value, description, image, title, categories)))
  }

  /** A request goes out exactly when no toast is raised, that is when title,
      description, content and categories are all present; every missing
      field raises its own toast, and a missing title's comes first. */
  lemma PublishChecks(title: string, description: string, content: EditorContent,
                      categories: seq<string>, blogImage: Option<BlogImage>)
    ensures var r := Publish(title, description, content, categories, blogImage);
      && (r.request.Some? <==> r.toasts == [])
      && (r.request.Some? <==> title != "" && description != "" && ContentPresent(content) && |categories| > 0)
      && (TitleRequired in r.toasts <==> title == "")
      && (DescriptionRequired in r.toasts <==> description == "")
      && (ContentRequired in r.toasts <==> !ContentPresent(content))
      && (CategoriesRequired in r.toasts <==> |categories| == 0)
      && |r.toasts| <= 4
      && (title == "" ==> r.toasts[0] == TitleRequired)
  {
  }

  /** The toasts come in the order of the form: title, description, content,
      categories, each at most once. */
  lemma ToastOrder(title: string, description: string, content: EditorContent,
                   categories: seq<string>, blogImage: Option<BlogImage>)
    ensures var r := Publish(title, description, content, categories, blogImage);
      forall i, j :: 0 <= i < j < |r.toasts| ==> Rank(r.toasts[i]) < Rank(r.toasts[j])
  {
    var r := Publish(title, description, content, categories, blogImage);
    var t := if title == "" then [TitleRequired] else [];
    var d := if description == "" then [DescriptionRequired] else [];
    var c := if !ContentPresent(content) then [ContentRequired] else [];
    var g := if |categories| == 0 then [CategoriesRequired] else [];
    assert r.toasts == t + d + c + g;
    RankAscends(t, d, c, g);
  }

  /** Toasts in strictly increasing rank, each ranked below `bound`. */
  predicate AscendingBelow(toasts: seq<string>, bound: nat)
  {
    && (forall i, j :: 0 <= i < j < |toasts| ==> Rank(toasts[i]) < Rank(toasts[j]))
    && (forall k :: 0 <= k < |toasts| ==> Rank(toasts[k]) < bound)
  }

  lemma AppendAscending(toasts: seq<string>, next: seq<string>, bound: nat, nextBound: nat)
    requires AscendingBelow(toasts, bound)
    requires next == [] || (|next| == 1 && bound <= Rank(next[0]) < nextBound)
    requires bound <= nextBound
    ensures AscendingBelow(toasts + next, nextBound)
  {
    if next == [] {
      assert toasts + next == toasts;
    }
  }

  /** The four optional toasts, concatenated in form order, have strictly
      increasing ranks. */
  lemma RankAscends(t: seq<string>, d: seq<string>, c: seq<string>, g: seq<string>)
    requires t == [] || t == [TitleRequired]
    requires d == [] || d == [DescriptionRequired]
    requires c == [] || c == [ContentRequired]
    requires g == [] || g == [CategoriesRequired]
    ensures AscendingBelow(t + d + c + g, 4)
  {
    AppendAscending([], t, 0, 1);
    assert [] + t == t;
    AppendAscending(t, d, 1, 2);
    AppendAscending(t + d, c, 2, 3);
    AppendAscending(t + d + c, g, 3, 4);
  }

  /** An empty editor counts as missing content, whatever else is filled in. */
  lemma EmptyEditorRefused(title: string, description: string, categories: seq<string>, blogImage: Option<BlogImage>)
    ensures Publish(title, description, None, categories, blogImage).request.None?
    ensures ContentRequired in Publish(title, description, None, categories, blogImage).toasts
  {
  }

  /** The request carries the form's fields, the editor's HTML and the
      thumbnail's `src`, or "" without a thumbnail. */
  lemma PublishRequest(title: string, description: string, content: EditorContent,
                       categories: seq<string>, blogImage: Option<BlogImage>)
    requires Publish(title, description, content, categories, blogImage).request.Some?
    ensures var req := Publish(title, description, content, categories, blogImage).request.value;
      && req.title == title && req.description == description && content == Some(req.content)
      && req.categories == categories
      && req.image == (if blogImage.None? then "" else blogImage.value.src)
  {
  }

  /** The page navigated to after publishing: `/${encodeURIComponent(username)}/${encodeURIComponent(title)}`. */
  function SuccessPath(username: string, title: string): (r: string)
    ensures |r| >= 2 && r[0] == '/'
  {
    "/" + UriEncoding.Encode(username) + "/" + UriEncoding.Encode(title)
  }

  /** The path has exactly the two segments of the `/:username/:title`
      route, and they decode to the author's username and the blog's title,
      whatever characters those hold. */
  lemma SuccessPathSegments(username: string, title: string)
    ensures var segments := JsString.Split(SuccessPath(username, title), '/');
      && |segments| == 3 && segments[0] == ""
      && UriEncoding.Decode(segments[1]) == Some(username)
      && UriEncoding.Decode(segments[2]) == Some(title)
  {
    var u, t := UriEncoding.Encode(username), UriEncoding.Encode(title);
    UriEncoding.EscapedExcludes(u, '/');
    UriEncoding.EscapedExcludes(t, '/');
    var parts := ["", u, t];
    JsString.JoinCons(u, [t], '/');
    JsString.JoinCons("", [u, t], '/');
    assert parts == [""] + [u, t];
    assert JsString.Join(parts, '/') == SuccessPath(username, title);
    JsString.SplitJoin(parts, '/');
    UriEncoding.DecodeEncode(username);
    UriEncoding.DecodeEncode(title);
  }

  /** react-query's state of the blog mutation. */
  datatype MutationStatus = Idle | Pending | Success | Failed

  /** `disabled={blogMutation.isPending || blogMutation.isSuccess}`. */
  predicate PublishDisabled(status: MutationStatus)
  {
    status == Pending || status == Success
  }

  /** The Publish button and the blog mutation behind it. */
  class Publisher {
    const username: string
    var status: MutationStatus
    var toasts: seq<string>
    var posted: seq<BlogRequest>
    var navigation: Option<string>

    /** A pending or successful mutation has posted something, and a
        successful one has navigated to the post of the last request. */
    predicate Valid()
      reads this
    {
      (status == Pending || status == Success ==> |posted| >= 1)
      && (status == Success <==> navigation.Some?)
      && (navigation.Some? ==> |posted| >= 1 && navigation.value == SuccessPath(username, posted[|posted| - 1].title))
    }

    constructor (username: string)
      ensures Valid()
      ensures this.username == username && status == Idle && toasts == [] && posted == [] && navigation == None
    {
      this.username := username;
      status := Idle;
      toasts := [];
      posted := [];
      navigation := None;
    }

    /** A click on Publish; a disabled button ignores it. */
    method Click(title: string, description: string, content: EditorContent,
                 categories: seq<string>, blogImage: Option<BlogImage>)
      requires Valid()
      modifies this
      ensures Valid()
      ensures var r := Publish(title, description, content, categories, blogImage);
        if PublishDisabled(old(status)) then
          toasts == old(toasts) && posted == old(posted) && status == old(status)
        else
          && toasts == old(toasts) + r.toasts
          && posted == old(posted) + (if r.request.Some? then [r.request.value] else [])
          && status == (if r.request.Some? then Pending else old(status))
      ensures navigation == old(navigation)
    {
      if PublishDisabled(status) {
        return;
      }
      var r := Publish(title, description, content, categories, blogImage);
      toasts := toasts + r.toasts;
      if r.request.Some? {
        posted := posted + [r.request.value];
        status := Pending;
      }
    }

    /** The pending request settles: on success the page navigates to the new
        post, on failure the button is enabled again. */
    method Settle(success: bool)
      requires Valid()
      modifies this
      ensures Valid()
      ensures old(status) == Pending && success ==>
        status == Success && navigation == Some(SuccessPath(username, posted[|posted| - 1].title))
      ensures old(status) == Pending && !success ==> status == Failed && navigation == None
      ensures old(status) != Pending ==> status == old(status) && navigation == old(navigation)
      ensures posted == old(posted) && toasts == old(toasts)
    {
      if status != Pending {
        return;
      }
      if success {
        status := Success;
        navigation := Some(SuccessPath(username, posted[|posted| - 1].title));
      } else {
        status := Failed;
      }
    }
  }

  /** After a success nothing more is posted: the button stays disabled. */
  method PublishOnce(p: Publisher, title: string, description: string, content: EditorContent,
                     categories: seq<string>, blogImage: Option<BlogImage>)
    requires p.Valid() && p.status == Success
    modifies p
    ensures p.Valid() && p.posted == old(p.posted) && p.status == Success
  {
    p.Click(title, description, content, categories, blogImage);
  }

  const ImageUrlRequired := "Please enter an image URL"

  /** `AddBlogImageButton`: the dialog's own state and the page's
      `blogImage`, which it sets. */
  class ThumbnailDialog {
    var open: bool
    var imageUrl: string
    var title: string
    var blogImage: Option<BlogImage>
    var toasts: seq<string>

    constructor (blogImage: Option<BlogImage>)
      ensures !open && imageUrl == "" && title == "" && this.blogImage == blogImage && toasts == []
    {
      open := false;
      imageUrl := "";
      title := "";
      this.blogImage := blogImage;
      toasts := [];
    }

    /** `onOpenChange`. */
    method SetOpen(o: bool)
      modifies this
      ensures open == o
      ensures imageUrl == old(imageUrl) && title == old(title) && blogImage == old(blogImage) && toasts == old(toasts)
    {
      open := o;
    }

    /** Typing in the URL field. */
    method SetImageUrl(url: string)
      modifies this
      ensures imageUrl == url
      ensures open == old(open) && title == old(title) && blogImage == old(blogImage) && toasts == old(toasts)
    {
      imageUrl := url;
    }

    /** Typing in the optional title field. */
    method SetTitle(t: string)
      modifies this
      ensures title == t
      ensures open == old(open) && imageUrl == old(imageUrl) && blogImage == old(blogImage) && toasts == old(toasts)
    {
      title := t;
    }

    /** `addImage`: an empty URL raises a toast and changes nothing else; any
        other URL becomes the thumbnail, with the title typed, and closes the
        dialog. */
    method AddImage()
      modifies this
      ensures old(imageUrl) == "" ==>
        toasts == old(toasts) + [ImageUrlRequired] && blogImage == old(blogImage) && open == old(open)
      ensures old(imageUrl) != "" ==>
        toasts == old(toasts) && blogImage == Some(BlogImage(old(imageUrl), old(title))) && !open
      ensures imageUrl == old(imageUrl) && title == old(title)
    {
      if imageUrl == "" {
        toasts := toasts + [ImageUrlRequired];
        return;
      }
      blogImage := Some(BlogImage(imageUrl, title));
      open := false;
    }
  }
}
