/** Posts of the message board, the in-memory store standing in for the
    `Post` model, and the rewrite the list view applies to each post before
    rendering it. */
module Posts {
  import opened Wrappers

  /** A row of the `Post` model. `formattedCreatedAt` is the field the list
      view adds; it is `None` until then. */
  datatype Post = Post(
    id: nat,
    content: string,
    postedBy: string,
    trackingCookie: string,
    createdAt: int,
    formattedCreatedAt: Option<string>)

  /** The only user allowed to delete every post. */
  const Admin: string := "admin"

  /** `s.replace(/\+/g, ' ')`: every `+` (the form encoding of a space)
      becomes a space. */
  function PlusToSpace(s: string): (r: string)
    ensures |r| == |s|
    ensures forall i :: 0 <= i < |s| ==> r[i] == (if s[i] == '+' then ' ' else s[i])
  {
    if s == [] then [] else [if s[0] == '+' then ' ' else s[0]] + PlusToSpace(s[1..])
  }

  lemma PlusToSpaceLeavesNoPlus(s: string)
    ensures '+' !in PlusToSpace(s)
  {
    var r := PlusToSpace(s);
    forall i | 0 <= i < |r| ensures r[i] != '+' {
    }
  }

  lemma PlusToSpaceIdempotent(s: string)
    ensures PlusToSpace(PlusToSpace(s)) == PlusToSpace(s)
  {
    PlusToSpaceLeavesNoPlus(s);
    var r := PlusToSpace(s);
    forall i | 0 <= i < |r| ensures PlusToSpace(r)[i] == r[i] {
      assert r[i] in r;
    }
  }

  lemma PlusToSpaceExample()
    ensures PlusToSpace("hello+world") == "hello world"
  {
    var r := PlusToSpace("hello+world");
    assert r[5] == ' ';
    assert forall i | 0 <= i < 11 && i != 5 :: r[i] == "hello world"[i];
  }

  /** What the list view does to one post: restore spaces in its content
      and attach the creation time as formatted by `format` (moment-timezone,
      outside this model). Nothing else about the post changes. */
  function Displayed(post: Post, format: int -> string): (r: Post)
    ensures r.id == post.id && r.postedBy == post.postedBy
    ensures r.trackingCookie == post.trackingCookie && r.createdAt == post.createdAt
    ensures '+' !in r.content && |r.content| == |post.content|
    ensures forall i :: 0 <= i < |post.content| && post.content[i] != '+' ==> r.content[i] == post.content[i]
    ensures r.formattedCreatedAt == Some(format(post.createdAt))
  {
    PlusToSpaceLeavesNoPlus(post.content);
    post.(content := PlusToSpace(post.content), formattedCreatedAt := Some(format(post.createdAt)))
  }

  /** The `posts.forEach(...)` loop of the list view, in place. */
  method ShowPosts(posts: array<Post>, format: int -> string)
    modifies posts
    ensures forall i :: 0 <= i < posts.Length ==> posts[i] == Displayed(old(posts[i]), format)
  {
    var i := 0;
    while i < posts.Length
      invariant 0 <= i <= posts.Length
      invariant forall k :: 0 <= k < i ==> posts[k] == Displayed(old(posts[k]), format)
      invariant forall k :: i <= k < posts.Length ==> posts[k] == old(posts[k])
    {
      posts[i] := posts[i].(content := PlusToSpace(posts[i].content));
      posts[i] := posts[i].(formattedCreatedAt := Some(format(posts[i].createdAt)));
      i := i + 1;
    }
  }

  /** Every post is stored under its own id, and ids below `next` are the
      only ones in use. */
  ghost predicate WellKeyed(posts: map<nat, Post>, next: nat) {
    forall k :: k in posts ==> posts[k].id == k && k < next
  }

  /** `Post.findAll({ order: [['id', 'DESC']] })` over the ids below `n`. */
  function NewestFirst(posts: map<nat, Post>, n: nat): (r: seq<Post>)
    ensures |r| <= n
    ensures forall i :: 0 <= i < |r| ==> r[i] in posts.Values
    decreases n
  {
    if n == 0 then []
    else (if n - 1 in posts then [posts[n - 1]] else []) + NewestFirst(posts, n - 1)
  }

  /** The listing holds exactly the stored posts with ids below `n`, by
      strictly decreasing id. */
  lemma {:induction false} NewestFirstIsListing(posts: map<nat, Post>, n: nat, next: nat)
    requires WellKeyed(posts, next)
    ensures forall i :: 0 <= i < |NewestFirst(posts, n)| ==>
      var p := NewestFirst(posts, n)[i]; p.id < n && p.id in posts && posts[p.id] == p
    ensures forall i, j :: 0 <= i < j < |NewestFirst(posts, n)| ==>
      NewestFirst(posts, n)[i].id > NewestFirst(posts, n)[j].id
    ensures forall k :: k in posts && k < n ==> posts[k] in NewestFirst(posts, n)
    decreases n
  {
    if n > 0 {
      NewestFirstIsListing(posts, n - 1, next);
      var head := if n - 1 in posts then [posts[n - 1]] else [];
      var tail := NewestFirst(posts, n - 1);
      assert NewestFirst(posts, n) == head + tail;
      forall k | k in posts && k < n ensures posts[k] in NewestFirst(posts, n) {
        if k == n - 1 {
          assert NewestFirst(posts, n)[0] == posts[k];
        } else {
          assert posts[k] in tail;
        }
      }
    }
  }

  /** `req.user === post.postedBy || req.user === 'admin'`: authors may
      delete their own posts, the admin every post, nobody else any post. */
  function MayDelete(user: string, post: Post): (r: bool)
    ensures user == post.postedBy ==> r
    ensures user == Admin ==> r
    ensures r ==> user == post.postedBy || user == Admin
  {
    user == post.postedBy || user == Admin
  }

  /** The `Post` table: rows by id, and the next auto-increment id. */
  class PostStore {
    var posts: map<nat, Post>
    var nextId: nat

    ghost predicate Valid()
      reads this
    {
      nextId >= 1 && WellKeyed(posts, nextId)
    }

    constructor ()
      ensures Valid() && posts == map[] && nextId == 1
    {
      posts := map[];
      nextId := 1;
    }

    /** `Post.findAll({ order: [['id', 'DESC']] })`. */
    function FindAll(): (r: seq<Post>)
      reads this
      requires Valid()
      ensures forall i :: 0 <= i < |r| ==> r[i].id in posts && posts[r[i].id] == r[i]
      ensures forall i, j :: 0 <= i < j < |r| ==> r[i].id > r[j].id
      ensures forall k :: k in posts ==> posts[k] in r
    {
      NewestFirstIsListing(posts, nextId, nextId);
      NewestFirst(posts, nextId)
    }

    /** `Post.findById(id)`. */
    function FindById(id: nat): (r: Option<Post>)
      reads this
      ensures r.Some? <==> id in posts
      ensures r.Some? ==> r.value == posts[id]
    {
      if id in posts then Some(posts[id]) else None
    }

    /** `Post.create({ content, trackingCookie, postedBy })`, stamped with `now`. */
    method Create(content: string, trackingCookie: string, postedBy: string, now: int)
      returns (post: Post)
      requires Valid()
      modifies this
      ensures Valid()
      ensures post == Post(old(nextId), content, postedBy, trackingCookie, now, None)
      ensures posts == old(posts)[old(nextId) := post] && nextId == old(nextId) + 1
    {
      post := Post(nextId, content, postedBy, trackingCookie, now, None);
      posts := posts[nextId := post];
      nextId := nextId + 1;
    }

    /** `post.destroy()`. */
    method Destroy(id: nat)
      requires Valid()
      modifies this
      ensures Valid()
      ensures posts == old(posts) - {id} && nextId == old(nextId)
    {
      posts := posts - {id};
    }
  }
}
