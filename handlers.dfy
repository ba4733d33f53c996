/** The two request handlers of lib/posts-handler.js: `handle` (list and
    create posts) and `handleDelete`. A request is its method, the
    authenticated user and the chunks of its body; the foreign code they call
    and the values they draw from the environment come in as an `Env`. */
module Handlers {
  import opened Wrappers
  import opened Text
  import opened Tracking
  import opened Posts

  datatype Request = Request(httpMethod: string, user: string, chunks: seq<string>)

  /** What the handlers call outside this model, and the random original id
      and the clock reading (milliseconds) this request would draw. */
  datatype Env = Env(
    hash: Hasher,
    decodeUri: string -> Option<string>,
    formatDate: int -> string,
    originalId: nat,
    now: int)

  /** `Page` is the 200 response with the data handed to the posts
      template; `BadRequest` is the response left to `util.handleBadRequest`. */
  datatype Response =
    | Page(status: nat, contentType: string, posts: seq<Post>, user: string)
    | Redirect(status: nat, location: string)
    | BadRequest

  /** Exceptions the handlers raise instead of responding: `decodeURIComponent`
      rejecting the body, a create without `content=` (what the `Post` model
      then does is outside this model), and a delete of a post that does not
      exist, whose `post.postedBy` dereferences `null`. */
  datatype Fault = UriError | ContentMissing | PostNotFound

  datatype Outcome = Responded(response: Response) | Faulted(fault: Fault)

  const HtmlContentType: string := "text/html; charset=utf-8"
  const ContentMarker: string := "content="
  const IdMarker: string := "id="

  datatype Route = ListPosts | CreatePost | DeletePost | Reject

  /** The method switch of `handle`. */
  function HandleRoute(httpMethod: string): (r: Route)
    ensures r == ListPosts <==> httpMethod == "GET"
    ensures r == CreatePost <==> httpMethod == "POST"
    ensures r == Reject <==> httpMethod != "GET" && httpMethod != "POST"
  {
    match httpMethod
    case "GET" => ListPosts
    case "POST" => CreatePost
    case _ => Reject
  }

  /** The method switch of `handleDelete`. */
  function DeleteRoute(httpMethod: string): (r: Route)
    ensures r == DeletePost <==> httpMethod == "POST"
    ensures r == Reject <==> httpMethod != "POST"
  {
    match httpMethod
    case "POST" => DeletePost
    case _ => Reject
  }

  /** `handleRedirectPosts`: 303 See Other to the list view. */
  function RedirectPosts(): (r: Response)
    ensures r.Redirect? && r.status == 303 && r.location == "/posts"
  {
    Redirect(303, "/posts")
  }

  /** `Buffer.concat(body).toString()` of the pushed chunks: the body
      starts with the first chunk and ends with the last. */
  function Concat(chunks: seq<string>): (r: string)
    ensures |chunks| > 0 ==> chunks[0] <= r
    ensures |chunks| > 0 ==> var last := chunks[|chunks| - 1];
      |last| <= |r| && r[|r| - |last|..] == last
  {
    if chunks == [] then [] else chunks[0] + Concat(chunks[1..])
  }

  /** Collecting `a + b` gives the text of `a` followed by the text of `b`. */
  lemma {:induction false} ConcatAppend(a: seq<string>, b: seq<string>)
    ensures Concat(a + b) == Concat(a) + Concat(b)
  {
    if a != [] {
      ConcatAppend(a[1..], b);
      assert (a + b)[0] == a[0];
      assert (a + b)[1..] == a[1..] + b;
      assert Concat(a + b) == a[0] + Concat(a[1..] + b);
    } else {
      assert a + b == b;
    }
  }

  /** The `'data'` / `'end'` callbacks: push every chunk, then join them. */
  method CollectBody(chunks: seq<string>) returns (body: string)
    ensures body == Concat(chunks)
  {
    var pushed: seq<string> := [];
    for i := 0 to |chunks|
      invariant pushed == chunks[..i]
    {
      pushed := pushed + [chunks[i]];
    }
    assert pushed == chunks;
    body := Concat(pushed);
  }

  /** The post a delete form names: `decoded.split('id=')[1]`, read as a
      decimal id; any other text names no post. */
  function TargetId(decoded: string): (r: Option<nat>)
    ensures r.Some? ==> !Free(decoded, IdMarker)
    ensures r.Some? ==> var text := Field(decoded, IdMarker).value; |text| >= 1 && AllDigits(text)
  {
    match Field(decoded, IdMarker)
    case None => None
    case Some(text) => ParseDecimal(text)
  }

  /** A form field holding text in which its own marker never occurs reads
      back whole. */
  lemma FormFieldRoundTrip(marker: string, value: string)
    requires |marker| > 0 && Free(value, marker)
    ensures Field(marker + value, marker) == Some(value)
  {
    SplitAfterFreePrefix("", marker, value);
    assert "" + marker + value == marker + value;
    SplitWithoutSeparator(value, marker);
  }

  /** The form the list view posts to delete post `id` names that post. */
  lemma DeleteFormNamesPost(id: nat)
    ensures TargetId(IdMarker + Decimal(id)) == Some(id)
  {
    DecimalHasNoSeparator(id, 'i');
    FirstCharAbsentFree(Decimal(id), IdMarker);
    FormFieldRoundTrip(IdMarker, Decimal(id));
    DecimalRoundTrip(id);
  }

  /** The body `content=hello+world` yields the content `hello+world`, shown
      as `hello world`. */
  lemma ContentExample()
    ensures Field("content=hello+world", ContentMarker) == Some("hello+world")
    ensures PlusToSpace(Field("content=hello+world", ContentMarker).value) == "hello world"
  {
    assert ContentMarker + "hello+world" == "content=hello+world";
    FirstCharAbsentFree("hello+world", ContentMarker);
    FormFieldRoundTrip(ContentMarker, "hello+world");
    PlusToSpaceExample();
  }

  /** `handle(req, res)`. Returns the outcome and the tracking id it used. */
  method Handle(req: Request, cookies: CookieJar, store: PostStore, env: Env)
    returns (outcome: Outcome, trackingId: string)
    requires store.Valid() && env.originalId < MaxSafeInteger
    modifies cookies, store
    ensures store.Valid()
    ensures IsValidTrackingId(Some(trackingId), req.user, env.hash)
    ensures TrackingIdKey in cookies.values && cookies.values[TrackingIdKey] == trackingId
    ensures cookies.values - {TrackingIdKey} == old(cookies.values) - {TrackingIdKey}
    ensures cookies.expires - {TrackingIdKey} == old(cookies.expires) - {TrackingIdKey}
    ensures HandleRoute(req.httpMethod) == Reject ==>
      && outcome == Responded(BadRequest)
      && store.posts == old(store.posts) && store.nextId == old(store.nextId)
    ensures HandleRoute(req.httpMethod) == ListPosts ==>
      && store.posts == old(store.posts) && store.nextId == old(store.nextId)
      && outcome.Responded? && outcome.response.Page?
      && outcome.response.status == 200 && outcome.response.contentType == HtmlContentType
      && outcome.response.user == req.user
      && var listing := old(store.FindAll());
         |outcome.response.posts| == |listing|
         && forall i :: 0 <= i < |listing| ==>
              outcome.response.posts[i] == Displayed(listing[i], env.formatDate)
    ensures HandleRoute(req.httpMethod) == CreatePost ==>
      match env.decodeUri(Concat(req.chunks))
      case None =>
        outcome == Faulted(UriError) && store.posts == old(store.posts) && store.nextId == old(store.nextId)
      case Some(decoded) =>
        match Field(decoded, ContentMarker)
        case None =>
          outcome == Faulted(ContentMissing) && store.posts == old(store.posts) && store.nextId == old(store.nextId)
        case Some(content) =>
          && outcome == Responded(RedirectPosts())
          && store.nextId == old(store.nextId) + 1
          && store.posts == old(store.posts)[old(store.nextId) :=
               Post(old(store.nextId), content, req.user, trackingId, env.now, None)]
  {
    trackingId := AddTrackingCookie(cookies, req.user, env.originalId, env.now, env.hash);
    match HandleRoute(req.httpMethod)
    case ListPosts =>
      var listing := store.FindAll();
      var posts := new Post[|listing|](i requires 0 <= i < |listing| => listing[i]);
      ShowPosts(posts, env.formatDate);
      outcome := Responded(Page(200, HtmlContentType, posts[..], req.user));
    case CreatePost =>
      var body := CollectBody(req.chunks);
      var decoded := env.decodeUri(body);
      if decoded.None? {
        outcome := Faulted(UriError);
      } else {
        var content := Field(decoded.value, ContentMarker);
        if content.None? {
          outcome := Faulted(ContentMissing);
        } else {
          var _ := store.Create(content.value, trackingId, req.user, env.now);
          outcome := Responded(RedirectPosts());
        }
      }
    case _ =>
      outcome := Responded(BadRequest);
  }

  /** `handleDelete(req, res)`: only the author of a post or the admin
      removes it; either way the response is the redirect to the list. */
  method HandleDelete(req: Request, store: PostStore, env: Env) returns (outcome: Outcome)
    requires store.Valid()
    modifies store
    ensures store.Valid() && store.nextId == old(store.nextId)
    ensures DeleteRoute(req.httpMethod) == Reject ==>
      outcome == Responded(BadRequest) && store.posts == old(store.posts)
    ensures DeleteRoute(req.httpMethod) == DeletePost ==>
      match env.decodeUri(Concat(req.chunks))
      case None => outcome == Faulted(UriError) && store.posts == old(store.posts)
      case Some(decoded) =>
        match TargetId(decoded)
        case None => outcome == Faulted(PostNotFound) && store.posts == old(store.posts)
        case Some(id) =>
          if id !in old(store.posts) then
            outcome == Faulted(PostNotFound) && store.posts == old(store.posts)
          else
            && outcome == Responded(RedirectPosts())
            && (id !in store.posts <==> MayDelete(req.user, old(store.posts)[id]))
            && store.posts == if MayDelete(req.user, old(store.posts)[id])
                              then old(store.posts) - {id} else old(store.posts)
  {
    match DeleteRoute(req.httpMethod)
    case DeletePost =>
      var body := CollectBody(req.chunks);
      var decoded := env.decodeUri(body);
      if decoded.None? {
        outcome := Faulted(UriError);
      } else {
        var id := TargetId(decoded.value);
        var post := if id.Some? then store.FindById(id.value) else None;
        if post.None? {
          outcome := Faulted(PostNotFound);
        } else {
          if MayDelete(req.user, post.value) {
            store.Destroy(id.value);
          }
          outcome := Responded(RedirectPosts());
        }
      }
    case _ =>
      outcome := Responded(BadRequest);
  }
}
