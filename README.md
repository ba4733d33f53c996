# Message-board post handler: tracking ids, form fields, delete authorisation

This project models the core of `lib/posts-handler.js`, the request handler of
a small message board, and proves properties of that model in Dafny.

The handler's own logic has three parts:

- **Tracking ids.** `addTrackingCookie` reads the `tracking_id` cookie. It keeps
  the cookie when `isValidTrackingId` accepts it. Otherwise it mints
  `<originalId>_<digest>`. The digest is `createValidHash`: SHA-1, in hex, of the
  original id's decimal text followed by the user name. The minted id is written
  back with an expiry of 24 hours.
- **Form fields and display.** `decoded.split('content=')[1]` and
  `decoded.split('id=')[1]` pick form fields out of the body. The list view
  rewrites every `+` in each post's content to a space, in place.
- **Dispatch and deletion.** `handle` serves GET (list) and POST (create).
  `handleDelete` serves POST only. Any other method is a bad request. A delete
  removes the post only when the user is its author or `admin`. It then
  redirects with 303 to `/posts`.

Layout, one module per component:

- `wrappers.dfy` (`Wrappers`): `Option`, standing for JavaScript's `undefined`.
- `text.dfy` (`Text`): JavaScript `split` with a non-empty separator, and
  array indexing past the end. It also holds the decimal text of numbers and the
  parse back.
- `tracking.dfy` (`Tracking`): the tracking-id scheme and the cookie jar.
- `posts.dfy` (`Posts`): the post record and the `+`-to-space rewrite. It also
  holds the in-place display loop and the in-memory post store.
- `handlers.dfy` (`Handlers`): body collection, method dispatch, `handle` and
  `handleDelete`.

Foreign code and environment values are parameters, not definitions:

- SHA-1 is a function parameter of type `Hasher = string -> HexDigest`.
  `HexDigest` is a subset type: 40 lowercase hex characters. That is all the
  model knows of the hash. It assumes no collision freedom: the cross-user
  lemma states which collision an accepted foreign id would need.
- `decodeURIComponent` is a parameter `string -> Option<string>`. `None` means
  it throws `URIError`.
- The moment-timezone formatter is a parameter `int -> string`.
- The random original id is a parameter `originalId < Number.MAX_SAFE_INTEGER`.
- The clock is a parameter `now`, in milliseconds.

The post store is a class with a `map<nat, Post>` plus the next auto-increment
id. `Post.findAll` ordered by id descending is the listing of that map, newest
first. `Post.findById` is a map lookup, with the id text read as a decimal
number. `create` and `destroy` update the map.

Two behaviours of the code around deletion are easy to misread:

- A delete of a post that does not exist is not a silent no-op. The code
  dereferences `post.postedBy` on `null` (line 80) and throws. The model ends
  such a request in `Faulted(PostNotFound)`, with no response and the store
  unchanged.
- A delete does not always redirect. The code responds only after `findById`
  has found the post (lines 79-89). The model does the same.

## Model

| member | source | states |
|---|---|---|
| `Text.Find` | lib/posts-handler.js:137 | the index found is the leftmost occurrence of the separator; `None` only when the separator occurs nowhere |
| `Text.Split` | lib/posts-handler.js:137 | `split` always yields at least one piece, as in JavaScript |
| `Text.FindNoneIffFree` | lib/posts-handler.js:137 | the scan finds nothing exactly when the separator occurs nowhere |
| `Text.SplitJoin` | lib/posts-handler.js:137 | joining the pieces of `s.split(sep)` with `sep` gives back `s` |
| `Text.SplitPiecesFree` | lib/posts-handler.js:137 | no piece of a split contains the separator |
| `Text.Segment` | lib/posts-handler.js:139-140 | `parts[i]` is defined exactly when `i` is below the length, and is then that element |
| `Text.SplitWithoutSeparator` | lib/posts-handler.js:137 | a string in which the separator occurs nowhere splits into itself alone |
| `Text.SplitAfterFreePrefix` | lib/posts-handler.js:137-140 | `a + sep + b`, with `a` lacking the separator's first character, splits into `a` followed by the pieces of `b` |
| `Text.Field` | lib/posts-handler.js:51 | `split(marker)[1]` is undefined exactly when the marker (`content=` or `id=`) does not occur |
| `Text.FieldBetweenMarkers` | lib/posts-handler.js:78 | when the marker occurs, `split(marker)[1]` is the text strictly between its first occurrence and the next one, or the end |
| `Text.Decimal` | lib/posts-handler.js:125 | the number-to-text conversion yields a non-empty run of decimal digits |
| `Text.ParseDecimal` | lib/posts-handler.js:79 | an id text is read as a post key exactly when it is a non-empty run of decimal digits; the key may still name no stored post |
| `Text.DecimalRoundTrip` | lib/posts-handler.js:125 | reading back the decimal text of a number gives the number |
| `Tracking.DigestHasNoUnderscore` | lib/posts-handler.js:151 | a hex digest never contains `_` |
| `Tracking.CreateValidHash` | lib/posts-handler.js:146-152 | the digest of the id text followed by the user name never contains the `_` that separates a tracking id's halves |
| `Tracking.IsValidTrackingId` | lib/posts-handler.js:132-143 | an accepted id is present and holds a `_`; `NoSecondPieceNeverValid` and `MintedIdIsValid` state the rejections and the acceptance |
| `Tracking.MintTrackingId` | lib/posts-handler.js:125 | a minted id splits at `_` into exactly the original id's decimal text and its digest |
| `Tracking.NoSecondPieceNeverValid` | lib/posts-handler.js:133-142 | an absent id, the empty id, and an id without `_` are never valid |
| `Tracking.MintedIdDecodes` | lib/posts-handler.js:125 | the first piece of a minted id parses back to the original id |
| `Tracking.MintedIdIsValid` | lib/posts-handler.js:137-142 | round trip: an id minted for a user validates for that user |
| `Tracking.MintedIdRejectedForOtherUser` | lib/posts-handler.js:137-142 | an id minted for one user is accepted for a different user exactly when the hash gives the same digest for two distinct inputs, the id text followed by either name |
| `Tracking.CookieJar.Get` | lib/posts-handler.js:116 | `cookies.get` yields the value exactly when the cookie is present |
| `Tracking.CookieJar.Set` | lib/posts-handler.js:126 | `cookies.set` replaces only that cookie's value and expiry |
| `Tracking.AddTrackingCookie` | lib/posts-handler.js:114-129 | the result always validates for the user; a valid presented id is returned unchanged with the jar untouched; otherwise the minted id is returned and stored as `tracking_id`, expiring at `now` + 86400000 ms, with other cookies unchanged |
| `Posts.PlusToSpace` | lib/posts-handler.js:28 | the rewrite keeps the length, turns each `+` into a space and keeps every other character in place |
| `Posts.PlusToSpaceLeavesNoPlus` | lib/posts-handler.js:28 | no `+` remains after the rewrite |
| `Posts.PlusToSpaceIdempotent` | lib/posts-handler.js:28 | rewriting twice is the same as rewriting once |
| `Posts.PlusToSpaceExample` | lib/posts-handler.js:28 | `hello+world` is shown as `hello world` |
| `Posts.Displayed` | lib/posts-handler.js:27-30 | a displayed post has content of the same length without `+`, its other characters in place, the formatted creation time set, and id, author, tracking id and creation time unchanged |
| `Posts.ShowPosts` | lib/posts-handler.js:27-30 | the loop rewrites every post of the array in place, keeping the array's length and order |
| `Posts.NewestFirst` | lib/posts-handler.js:26 | the listing of the ids below `n` has at most `n` posts, each of them stored; `NewestFirstIsListing` states the rest |
| `Posts.NewestFirstIsListing` | lib/posts-handler.js:26 | the listing holds exactly the stored posts, each under its own id, by strictly decreasing id |
| `Posts.MayDelete` | lib/posts-handler.js:80 | the author may delete their own post, `admin` any post, and nobody else |
| `Posts.PostStore.FindAll` | lib/posts-handler.js:26 | `findAll` ordered by id descending lists every stored post, newest first |
| `Posts.PostStore.FindById` | lib/posts-handler.js:79 | `findById` finds a post exactly when one is stored under that id |
| `Posts.PostStore.Create` | lib/posts-handler.js:53-57 | `create` stores one new post under the next id, with the submitted content, user and tracking id |
| `Posts.PostStore.Destroy` | lib/posts-handler.js:81 | `destroy` removes that post and nothing else |
| `Handlers.HandleRoute` | lib/posts-handler.js:21-66 | `handle` lists on GET, creates on POST and rejects every other method |
| `Handlers.DeleteRoute` | lib/posts-handler.js:70-95 | `handleDelete` deletes on POST and rejects every other method |
| `Handlers.RedirectPosts` | lib/posts-handler.js:154-159 | the redirect after a create or delete is 303 to `/posts` |
| `Handlers.Concat` | lib/posts-handler.js:49 | the body starts with the first chunk and ends with the last |
| `Handlers.ConcatAppend` | lib/posts-handler.js:49 | collecting `a + b` gives the text of `a` followed by the text of `b` |
| `Handlers.CollectBody` | lib/posts-handler.js:45-49 | the body is the concatenation of all chunks, in arrival order |
| `Handlers.TargetId` | lib/posts-handler.js:78-79 | a body names a post only when it holds `id=` and the text after it is a non-empty run of digits |
| `Handlers.FormFieldRoundTrip` | lib/posts-handler.js:51 | a body `marker + value`, where the marker does not occur in the value, yields the value whole |
| `Handlers.DeleteFormNamesPost` | lib/posts-handler.js:77-79 | the body `id=<n>` names post `n` |
| `Handlers.ContentExample` | lib/posts-handler.js:49-51 | the body `content=hello+world` yields `hello+world`, displayed as `hello world` |
| `Handlers.Handle` | lib/posts-handler.js:14-67 | the tracking id always validates and is the jar's `tracking_id`, with the value and expiry of every other cookie unchanged; GET lists every post displayed, newest first, with the store unchanged; POST stores exactly one post with the `content=` field, the user and the tracking id, then redirects 303 to `/posts`; a decoding failure or a missing field creates nothing; other methods are bad requests |
| `Handlers.HandleDelete` | lib/posts-handler.js:69-96 | on POST, an existing post is removed exactly when the user is its author or `admin`, and either way the response is 303 to `/posts`; a missing post faults with the store unchanged; other methods are bad requests |

## Left out

- SHA-1 (`crypto.createHash`) is foreign code. It is a parameter; the model knows only that its output is 40 lowercase hex characters.
- `Math.random` and `Math.floor` draw the original id from floating-point randomness. The id is a parameter, below `Number.MAX_SAFE_INTEGER`.
- `new Date()` is a clock. It is the parameter `now`, in milliseconds, and the expiry is an integer, not a `Date`.
- `decodeURIComponent` does percent and UTF-8 decoding. It is an uninterpreted parameter; its `URIError` is the `UriError` fault.
- `Buffer.concat(...).toString()` decodes UTF-8. The model takes each chunk as text already, so it does not model a multi-byte character cut across two chunks.
- The `'data'` and `'end'` events are event-driven I/O. The model collects a given sequence of chunks in one call, with no suspension, and does not model a client that stops sending.
- The `cookies` library's header parsing and `Set-Cookie` output are not modelled. The jar is a map of values plus a map of expiry times; a set is visible to later gets.
- pug rendering, moment-timezone formatting and `console.info` logging are not modelled. The page carries the data handed to the template. The date formatter is a parameter.
- `util.handleBadRequest` is in a file that is not part of this model. A bad request is the `BadRequest` response, with no status of its own.
- lib/post.js, which defines the `Post` model and its schema, is not part of this model. So the model does not decide what `Post.create` does with an undefined `content`. A POST body without `content=` ends in the `ContentMissing` fault, with no post created and no response.
- Sequelize is not modelled. The store is an in-memory map with auto-increment ids starting at 1. How the database coerces the id text of a delete form is modelled as strict decimal parsing: any other text finds no post.
- The promises of `create`, `findById` and `destroy` are not modelled. Each call completes before the handler goes on. The code does not wait for `destroy` before it redirects; the model removes the post first.
- The posts fetched for the list view are values in an array, not shared objects. The model does not capture aliasing between them.
- `Post.create` gets its `createdAt` from Sequelize at insert time, a clock reading separate from the one behind the cookie expiry (line 124). The model stamps the post with the same `now`, so it does not capture the two readings differing.
- `req.user` being undefined is not modelled. The user is always a string.
- Handlers.Handle: states the value of the `tracking_id` cookie but not its expiry. `Tracking.AddTrackingCookie`, which `Handle` calls, states the expiry.
