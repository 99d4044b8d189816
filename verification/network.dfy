/**
 * The social network's JSON API: creating and editing posts, the like and
 * follow toggles, the profile flags and counts, feed selection, and the
 * page a feed request lands on.
 *
 * Users are numbered by their position in the user table; a user's entry is
 * their username. Follows are (follower, followed) pairs and likes
 * (user, post) pairs.
 */
module Network {
  import opened Wrappers
  import opened Text
  import opened Relations

  type UserId = nat
  type PostId = nat

  datatype Post = Post(author: UserId, content: string)

  datatype Site = Site(
    users: seq<string>,
    posts: map<PostId, Post>,
    follows: set<(UserId, UserId)>,
    likes: set<(UserId, PostId)>)

  /** Usernames are unique (Django's user model declares them so). */
  predicate UsernamesUnique(s: Site) {
    forall i, j :: 0 <= i < j < |s.users| ==> s.users[i] != s.users[j]
  }

  /** Nobody follows themselves. */
  predicate NoSelfFollow(s: Site) {
    forall p :: p in s.follows ==> p.0 != p.1
  }

  datatype Viewer = Anonymous | SignedIn(user: UserId)

  /** HTTP statuses of the API's answers; `LoginRedirect` is the redirect
      `login_required` sends an anonymous caller. */
  datatype Status = Ok200 | Created201 | BadRequest400 | Unauthorized401 | Forbidden403 | NotFound404 | MethodNotAllowed405 | ServerError500 | LoginRedirect

  // ---------------------------------------------------------------------
  // Post content
  // ---------------------------------------------------------------------

  const MaxContent: nat := 1024

  /** The `content` member of a JSON body: absent, `null`, a string, or
      another JSON value, which is either false in Python's sense (`false`,
      `0`, `[]`, `{}`) or true (any other number, `true`, a non-empty array
      or object). */
  datatype JsonText = Absent | Null | Text(s: string) | FalsyValue | TruthyValue

  /** A request body:
      - `Malformed`: text that is not JSON (`JSONDecodeError`);
      - `Undecodable`: bytes that are not text at all, whose decoding error
        is not the one the views catch;
      - `NotAnObject`: JSON that is not an object (an array, a string, a
        number, `true`, `false` or `null`); `hasContentKey` says whether
        Python's `"content" in data` is true of it (an array holding that
        string, a string containing it);
      - `Json`: an object with a `content` member and a `toggle_like` member
        read for its truth value. */
  datatype Body =
    | Malformed
    | Undecodable
    | NotAnObject(hasContentKey: bool)
    | Json(content: JsonText, toggleLike: bool)

  datatype ContentError = EmptyContent | ContentTooLong | NotAString

  /** `(data.get("content") or "").strip()` followed by the empty and
      length checks. A false value becomes the empty string; a true value
      that is not a string has no `strip` and raises. */
  function CleanContent(v: JsonText): (r: Result<string, ContentError>)
    ensures r.Ok? <==> v.Text? && Strip(v.s) != [] && |Strip(v.s)| <= MaxContent
    ensures r.Ok? ==> r.value == Strip(v.s)
    ensures r == Err(NotAString) <==> v.TruthyValue?
    ensures r == Err(EmptyContent) <==> v.Null? || v.FalsyValue? || v.Absent? || (v.Text? && Strip(v.s) == [])
  {
    if v.TruthyValue? then Err(NotAString)
    else
      var c := if v.Text? then Strip(v.s) else [];
      if c == [] then Err(EmptyContent)
      else if |c| > MaxContent then Err(ContentTooLong)
      else Ok(c)
  }

  /** The status a refused content gets: a crash is a server error, the
      rest are the view's own 400 answers. */
  function ContentStatus(e: ContentError): (st: Status)
    ensures st == ServerError500 <==> e == NotAString
    ensures st != ServerError500 ==> st == BadRequest400
  {
    if e == NotAString then ServerError500 else BadRequest400
  }

  /** Cleaned content cleans to itself. */
  lemma CleanContentStable(v: JsonText)
    requires CleanContent(v).Ok?
    ensures CleanContent(Text(CleanContent(v).value)) == CleanContent(v)
  {
    StripIdempotent(v.s);
  }

  /** `api_posts` for a POST: a signed-in user's new post, stored under
      `id`, the key the database assigns. A body that is not an object, or
      whose content is a true non-string, makes the view raise. */
  function CreatePost(s: Site, viewer: Viewer, body: Body, id: PostId): (r: (Site, Status))
    requires id !in s.posts
    ensures viewer.Anonymous? ==> r == (s, Unauthorized401)
    ensures r.1 == Created201 <==> viewer.SignedIn? && body.Json? && CleanContent(body.content).Ok?
    ensures r.1 == Created201 ==> r.0 == s.(posts := s.posts[id := Post(viewer.user, Strip(body.content.s))])
    ensures r.1 != Created201 ==> r.0 == s
    ensures r.1 == ServerError500 <==>
      viewer.SignedIn? && (body.Undecodable? || body.NotAnObject? || (body.Json? && body.content.TruthyValue?))
  {
    match viewer
    case Anonymous => (s, Unauthorized401)
    case SignedIn(u) =>
      match body
      case Malformed => (s, BadRequest400)
      case Undecodable => (s, ServerError500)
      case NotAnObject(_) => (s, ServerError500)
      case Json(content, _) =>
        match CleanContent(content)
        case Err(e) => (s, ContentStatus(e))
        case Ok(c) => (s.(posts := s.posts[id := Post(u, c)]), Created201)
  }

  /** `api_post_detail` for a PUT: an edit of the content (author only)
      and/or a like toggle, the edit checked first. A body that is not an
      object passes or fails the `"content" in data` test and then raises
      at `data.get`, unless the author check refuses it first. */
  function EditPost(s: Site, viewer: Viewer, id: PostId, body: Body): (r: (Site, Status))
    ensures id !in s.posts ==> r == (s, NotFound404)
    ensures id in s.posts && viewer.Anonymous? ==> r == (s, Unauthorized401)
    ensures r.1 != Ok200 ==> r.0 == s
    ensures r.0.users == s.users && r.0.follows == s.follows
    ensures r.0.posts.Keys == s.posts.Keys
    ensures id in s.posts && viewer.SignedIn? && (body.Undecodable? || body.NotAnObject?) ==>
      r.1 == (if body.NotAnObject? && body.hasContentKey && s.posts[id].author != viewer.user then Forbidden403 else ServerError500)
    ensures id in s.posts && viewer.SignedIn? && body.Json? && body.content.TruthyValue? ==>
      r.1 == (if s.posts[id].author != viewer.user then Forbidden403 else ServerError500)
  {
    if id !in s.posts then (s, NotFound404)
    else match viewer
      case Anonymous => (s, Unauthorized401)
      case SignedIn(u) =>
        match body
        case Malformed => (s, BadRequest400)
        case Undecodable => (s, ServerError500)
        case NotAnObject(hasContentKey) =>
          if hasContentKey && s.posts[id].author != u then (s, Forbidden403) else (s, ServerError500)
        case Json(content, toggleLike) =>
          var post := s.posts[id];
          if content != Absent && post.author != u then (s, Forbidden403)
          else if content != Absent && CleanContent(content).Err? then (s, ContentStatus(CleanContent(content).error))
          else
            var text := if content != Absent then Some(CleanContent(content).value) else None;
            (ApplyEdit(s, u, id, text, toggleLike), Ok200)
  }

  /** The writes of an accepted edit: the new text is saved when it differs
      from the post's, then the viewer's like is toggled when asked. */
  function ApplyEdit(s: Site, u: UserId, id: PostId, text: Option<string>, toggleLike: bool): (r: Site)
    requires id in s.posts
    ensures r.users == s.users && r.follows == s.follows && r.posts.Keys == s.posts.Keys
    ensures r.posts[id] == (if text.Some? then s.posts[id].(content := text.value) else s.posts[id])
    ensures forall p :: p in s.posts && p != id ==> r.posts[p] == s.posts[p]
    ensures r.likes == (if toggleLike then Toggle(s.likes, (u, id)) else s.likes)
  {
    var post := s.posts[id];
    var s1 := if text.Some? && text.value != post.content then s.(posts := s.posts[id := post.(content := text.value)]) else s;
    if toggleLike then s1.(likes := Toggle(s1.likes, (u, id))) else s1
  }

  /** Only the author edits: a request carrying `content` from anyone else
      is refused whole, like toggle included. */
  lemma OnlyAuthorEdits(s: Site, u: UserId, id: PostId, content: JsonText, toggleLike: bool)
    requires id in s.posts && content != Absent && s.posts[id].author != u
    ensures EditPost(s, SignedIn(u), id, Json(content, toggleLike)) == (s, Forbidden403)
  {
  }

  /** An edit request from a signed-in user succeeds exactly when it only
      toggles the like, or comes from the author with acceptable content. */
  lemma EditAccepted(s: Site, u: UserId, id: PostId, content: JsonText, toggleLike: bool)
    requires id in s.posts
    ensures EditPost(s, SignedIn(u), id, Json(content, toggleLike)).1 == Ok200 <==>
      content == Absent || (s.posts[id].author == u && CleanContent(content).Ok?)
  {
  }

  /** What an accepted edit does: the content becomes the cleaned text, the
      like is toggled when asked, and no other post changes. */
  lemma EditRule(s: Site, u: UserId, id: PostId, content: JsonText, toggleLike: bool)
    requires id in s.posts
    requires EditPost(s, SignedIn(u), id, Json(content, toggleLike)).1 == Ok200
    ensures var r := EditPost(s, SignedIn(u), id, Json(content, toggleLike)).0;
      && r.posts[id].author == s.posts[id].author
      && r.posts[id].content == (if content == Absent then s.posts[id].content else Strip(content.s))
      && (forall p :: p in s.posts && p != id ==> r.posts[p] == s.posts[p])
      && r.likes == (if toggleLike then Toggle(s.likes, (u, id)) else s.likes)
  {
    var text := if content != Absent then Some(CleanContent(content).value) else None;
    assert EditPost(s, SignedIn(u), id, Json(content, toggleLike)).0 == ApplyEdit(s, u, id, text, toggleLike);
  }

  /** Submitting the text a post already has writes nothing. */
  lemma SameTextWritesNothing(s: Site, u: UserId, id: PostId, raw: string)
    requires id in s.posts && s.posts[id].author == u
    requires CleanContent(Text(raw)) == Ok(s.posts[id].content)
    ensures EditPost(s, SignedIn(u), id, Json(Text(raw), false)) == (s, Ok200)
  {
    var content := s.posts[id].content;
    assert EditPost(s, SignedIn(u), id, Json(Text(raw), false)) == (ApplyEdit(s, u, id, Some(content), false), Ok200);
    assert ApplyEdit(s, u, id, Some(content), false) == s;
  }

  // ---------------------------------------------------------------------
  // Likes
  // ---------------------------------------------------------------------

  /** `Post.like_count`: the Like rows for the post. */
  function LikeCount(s: Site, id: PostId): nat {
    |Into(s.likes, id)|
  }

  /** What `serialize_post` reports to a viewer. */
  datatype PostView = PostView(author: UserId, content: string, likeCount: nat, liked: bool, canEdit: bool)

  function Serialize(s: Site, viewer: Viewer, id: PostId): (v: PostView)
    requires id in s.posts
    ensures v.liked <==> viewer.SignedIn? && (viewer.user, id) in s.likes
    ensures v.canEdit <==> viewer.SignedIn? && viewer.user == s.posts[id].author
    ensures v.likeCount == |Into(s.likes, id)|
  {
    var p := s.posts[id];
    match viewer
    case Anonymous => PostView(p.author, p.content, LikeCount(s, id), false, false)
    case SignedIn(u) => PostView(p.author, p.content, LikeCount(s, id), (u, id) in s.likes, u == p.author)
  }

  /** A like toggle flips the viewer's `liked` flag and moves the count by
      one in the same direction; two toggles restore both. */
  lemma LikeToggleFlips(s: Site, u: UserId, id: PostId)
    requires id in s.posts
    ensures var r := EditPost(s, SignedIn(u), id, Json(Absent, true));
      && r.1 == Ok200
      && Serialize(r.0, SignedIn(u), id).liked == !Serialize(s, SignedIn(u), id).liked
      && LikeCount(r.0, id) == LikeCount(s, id) + (if Serialize(r.0, SignedIn(u), id).liked then 1 else -1)
      && EditPost(r.0, SignedIn(u), id, Json(Absent, true)).0 == s
  {
    ToggleInto(s.likes, u, id);
    ToggleTwice(s.likes, (u, id));
  }

  // ---------------------------------------------------------------------
  // Users and follows
  // ---------------------------------------------------------------------

  /** The user with this username, if any (`get_object_or_404(User, username=...)`). */
  function FindUser(users: seq<string>, name: string): (r: Option<UserId>)
    ensures r.Some? ==> r.value < |users| && users[r.value] == name
    ensures r.None? ==> forall i :: 0 <= i < |users| ==> users[i] != name
  {
    if users == [] then None
    else if users[|users| - 1] == name then Some(|users| - 1)
    else FindUser(users[..|users| - 1], name)
  }

  /** With unique usernames the lookup finds the one user of that name. */
  lemma FindUserUnique(s: Site, u: UserId)
    requires UsernamesUnique(s) && u < |s.users|
    ensures FindUser(s.users, s.users[u]) == Some(u)
  {
  }

  /** `followers_count` and `following_count`. */
  function FollowersCount(s: Site, u: UserId): nat {
    |Into(s.follows, u)|
  }

  function FollowingCount(s: Site, u: UserId): nat {
    |OutOf(s.follows, u)|
  }

  datatype FollowAnswer = FollowAnswer(isFollowing: bool, followers: nat, following: nat)

  /** `api_toggle_follow`: POST only, signed in only, the target must exist
      and must not be the caller. The answer reports the new state and the
      target's counts. */
  function ToggleFollow(s: Site, viewer: Viewer, username: string, isPost: bool): (r: (Site, Status, Option<FollowAnswer>))
    ensures r.1 != Ok200 ==> r.0 == s && r.2.None?
    ensures !isPost ==> r.1 == MethodNotAllowed405
    ensures isPost && viewer.Anonymous? ==> r.1 == LoginRedirect
    ensures r.0.users == s.users && r.0.posts == s.posts && r.0.likes == s.likes
  {
    if !isPost then (s, MethodNotAllowed405, None)
    else match viewer
      case Anonymous => (s, LoginRedirect, None)
      case SignedIn(u) =>
        match FindUser(s.users, username)
        case None => (s, NotFound404, None)
        case Some(target) =>
          if target == u then (s, BadRequest400, None)
          else
            var s' := s.(follows := Toggle(s.follows, (u, target)));
            (s', Ok200, Some(FollowAnswer((u, target) in s'.follows, FollowersCount(s', target), FollowingCount(s', target))))
  }

  /** Following yourself is refused and changes nothing. */
  lemma SelfFollowRefused(s: Site, u: UserId, isPost: bool)
    requires UsernamesUnique(s) && u < |s.users| && isPost
    ensures ToggleFollow(s, SignedIn(u), s.users[u], isPost) == (s, BadRequest400, None)
  {
    FindUserUnique(s, u);
  }

  /** A successful toggle flips exactly the caller's follow of the target,
      reports the new state, and moves the target's follower count by one. */
  lemma FollowRule(s: Site, u: UserId, target: UserId)
    requires UsernamesUnique(s) && target < |s.users| && target != u
    ensures var r := ToggleFollow(s, SignedIn(u), s.users[target], true);
      && r.1 == Ok200
      && r.0.follows == Toggle(s.follows, (u, target))
      && r.2.value.isFollowing == ((u, target) !in s.follows)
      && r.2.value.followers == FollowersCount(s, target) + (if r.2.value.isFollowing then 1 else -1)
      && r.2.value.following == FollowingCount(s, target)
  {
    FindUserUnique(s, target);
    ToggleInto(s.follows, u, target);
    ToggleOutOf(s.follows, u, target);
  }

  /** The follow toggle never creates a self-follow. */
  lemma ToggleFollowKeepsNoSelfFollow(s: Site, viewer: Viewer, username: string, isPost: bool)
    requires NoSelfFollow(s)
    ensures NoSelfFollow(ToggleFollow(s, viewer, username, isPost).0)
  {
  }

  /** Toggling a follow twice restores the follows. */
  lemma ToggleFollowTwice(s: Site, viewer: Viewer, username: string)
    ensures var s1 := ToggleFollow(s, viewer, username, true).0;
      ToggleFollow(s1, viewer, username, true).0 == s
  {
    if viewer.SignedIn? && FindUser(s.users, username).Some? {
      ToggleTwice(s.follows, (viewer.user, FindUser(s.users, username).value));
    }
  }

  datatype ProfileView = ProfileView(username: string, followers: nat, following: nat, isSelf: bool, isFollowing: bool)

  /** `api_profile`: `None` is the 404 for an unknown username. The caller,
      when signed in, is one of the users. */
  function Profile(s: Site, viewer: Viewer, username: string): (r: Option<ProfileView>)
    requires viewer.SignedIn? ==> viewer.user < |s.users|
    ensures r.None? <==> FindUser(s.users, username).None?
    ensures r.Some? ==> (r.value.isSelf <==> viewer.SignedIn? && s.users[viewer.user] == username)
    ensures r.Some? ==> (r.value.isFollowing <==>
      viewer.SignedIn? && !r.value.isSelf && (viewer.user, FindUser(s.users, username).value) in s.follows)
    ensures r.Some? ==>
      && r.value.followers == FollowersCount(s, FindUser(s.users, username).value)
      && r.value.following == FollowingCount(s, FindUser(s.users, username).value)
  {
    match FindUser(s.users, username)
    case None => None
    case Some(p) =>
      var isSelf := viewer.SignedIn? && s.users[viewer.user] == username;
      var isFollowing := viewer.SignedIn? && !isSelf && (viewer.user, p) in s.follows;
      Some(ProfileView(s.users[p], FollowersCount(s, p), FollowingCount(s, p), isSelf, isFollowing))
  }

  /** On your own profile you are never shown as following yourself; with
      unique usernames that is also what the follow table says. */
  lemma OwnProfile(s: Site, u: UserId)
    requires UsernamesUnique(s) && NoSelfFollow(s) && u < |s.users|
    ensures var v := Profile(s, SignedIn(u), s.users[u]).value;
      v.isSelf && !v.isFollowing && ((u, u) in s.follows <==> v.isFollowing)
  {
    FindUserUnique(s, u);
  }

  // ---------------------------------------------------------------------
  // Feeds and pages
  // ---------------------------------------------------------------------

  /** Whether post `p` belongs to the feed: everyone's, the authors the
      viewer follows, or one user's. */
  predicate InFeed(s: Site, viewer: Viewer, feed: string, profile: Option<UserId>, p: PostId)
    requires p in s.posts
  {
    if feed == "following" then viewer.SignedIn? && (viewer.user, s.posts[p].author) in s.follows
    else if feed == "profile" then profile.Some? && s.posts[p].author == profile.value
    else true
  }

  /** `api_posts` for a GET: the posts of the requested feed, or the error
      status. A missing `feed` parameter means "all"; a missing `username`
      for the profile feed finds nobody. */
  function FeedPosts(s: Site, viewer: Viewer, feed: string, username: Option<string>): (r: Result<set<PostId>, Status>)
    ensures feed != "all" && feed != "following" && feed != "profile" ==> r == Err(BadRequest400)
    ensures feed == "following" && viewer.Anonymous? ==> r == Err(Unauthorized401)
    ensures feed == "profile" && (username.None? || FindUser(s.users, username.value).None?) ==> r == Err(NotFound404)
    ensures r.Ok? ==> forall p :: p in r.value <==>
      (p in s.posts && InFeed(s, viewer, feed, if feed == "profile" then FindUser(s.users, username.value) else None, p))
  {
    if feed == "following" then
      if viewer.Anonymous? then Err(Unauthorized401)
      else Ok(set p | p in s.posts && (viewer.user, s.posts[p].author) in s.follows)
    else if feed == "profile" then
      if username.None? then Err(NotFound404)
      else match FindUser(s.users, username.value)
        case None => Err(NotFound404)
        case Some(a) => Ok(set p | p in s.posts && s.posts[p].author == a)
    else if feed == "all" then Ok(s.posts.Keys)
    else Err(BadRequest400)
  }

  const PerPage: nat := 10

  /** The `page` query parameter: absent, empty (falsy), an integer, or
      text `int()` refuses. */
  datatype PageParam = NoPage | EmptyPage | Number(n: int) | NotInteger

  /** `Paginator.num_pages` with the first page allowed to be empty. */
  function NumPages(count: nat): (k: nat)
    ensures k >= 1
    ensures count > 0 ==> (k - 1) * PerPage < count <= k * PerPage
  {
    if count == 0 then 1 else (count + PerPage - 1) / PerPage
  }

  /** `paginate_queryset`: the page number served. A number below 1 or past
      the end falls back to the last page; text that is not an integer is
      not caught and ends the request with a server error. */
  function PageNumber(count: nat, param: PageParam): (r: Option<nat>)
    ensures r.None? <==> param.NotInteger?
    ensures r.Some? ==> 1 <= r.value <= NumPages(count)
    ensures param.Number? && 1 <= param.n <= NumPages(count) ==> r == Some(param.n)
    ensures param.Number? && !(1 <= param.n <= NumPages(count)) ==> r == Some(NumPages(count))
    ensures param.NoPage? || param.EmptyPage? ==> r == Some(1)
  {
    match param
    case NotInteger => None
    case NoPage => Some(1)
    case EmptyPage => Some(1)
    case Number(n) => if 1 <= n <= NumPages(count) then Some(n) else Some(NumPages(count))
  }

  /** The positions `[start, end)` of the page's items in the feed. */
  function PageBounds(count: nat, page: nat): (b: (nat, nat))
    requires 1 <= page <= NumPages(count)
    ensures b.0 <= b.1 <= count
    ensures b.1 - b.0 <= PerPage
  {
    var start := (page - 1) * PerPage;
    var end := if page * PerPage < count then page * PerPage else count;
    (if start <= end then start else end, end)
  }

  /** Every item of a feed is on exactly one page. */
  lemma ItemOnOnePage(count: nat, i: nat, page: nat)
    requires i < count && 1 <= page <= NumPages(count)
    ensures var (start, end) := PageBounds(count, page); start <= i < end <==> page == i / PerPage + 1
  {
  }

  /** Flags of the page answer. */
  lemma PageFlags(count: nat, param: PageParam)
    requires !param.NotInteger?
    ensures var p := PageNumber(count, param).value;
      && (p < NumPages(count) <==> PageBounds(count, p).1 < count)
      && (count > 0 ==> PageBounds(count, p).0 < PageBounds(count, p).1)
  {
  }
}
