# Blog post store, modelled in Dafny

The service is a small Flask application that keeps blog posts in one
in-memory list and offers five HTTP handlers on it. Each post is an
`{id, title, content}` record. The handlers are:

- list, with an optional sort that reorders the stored list in place;
- create, which appends a post with the next id;
- delete by id;
- partial update by id;
- a case-insensitive substring search.

This project models that list and those handlers without the web framework:

- `Posts` (`posts.dfy`): the `Post` record, the three seed posts, and the
  store invariant `WellFormed` (ids positive and pairwise distinct). It also
  holds the operations the handlers share: `MaxId` and `NextId` (the
  `max(...) + 1` id rule), `FindById` (the `next(...)` lookup), and
  `RemoveFirst` (`list.remove`).
- `Text` (`text.dfy`): the string operations.
  - `Lower`: ASCII `str.lower`.
  - `IsSubstring`: Python's `in` on strings.
  - `LexLe`: Python's string `<=`.
  - `DecimalString`: `str(id)` inside the delete confirmation.
- `PostSearch` (`search.dfy`): the search filter, as pure functions.
- `Sorting` (`sorting.dfy`): the keyed sort, as an insertion-sort method.
  Its contract says the result is sorted by the lower-cased field and is a
  permutation of its input.
- `Store` (`store.dfy`):
  - the `Response` value that stands for the JSON body and the HTTP status;
  - the error texts;
  - `ParseListQuery`, the validation of the list parameters;
  - the class `PostStore`, whose field `posts` is the global list. Each
    handler is a method on it that keeps `Valid()`.
  - `SeedScenario`, a client that walks the seed data through a sorted
    listing, a create and a delete.
- `Wrappers` (`wrappers.dfy`): `Option`. A query parameter or JSON key is
  `None` when it is absent.

Requests are plain parameters. Create treats `None` and `""` alike as
missing, because it tests truthiness. Update treats only `None` as absent,
because it uses `dict.get` with a default.

An empty `sort` parameter counts as no sort, because lines 27 and 33 test
its truthiness. The search lower-cases the query as well as the field
(lines 104-105).

## Model

| member | source | states |
|---|---|---|
| Posts.SeedWellFormed | backend/backend_app.py:7-11 | the seed posts have positive, pairwise distinct ids |
| Store.PostStore.constructor | backend/backend_app.py:7-11 | the store starts with exactly the three seed posts and satisfies the id invariant |
| Posts.MaxId | backend/backend_app.py:55 | the maximum is one of the stored ids and no stored id exceeds it |
| Posts.NextId | backend/backend_app.py:55 | the new id exceeds every stored id, is one more than a stored id when the list is non-empty, is 1 for an empty list, and is positive when all ids are |
| Posts.NextIdOfPermutation | backend/backend_app.py:36 | reordering the store (as the sort does) does not change the id the next create assigns |
| Posts.AppendNextKeepsWellFormed | backend/backend_app.py:54-60 | appending a post with the next id keeps ids positive and distinct |
| Store.PostStore.CreatePost | backend/backend_app.py:47-63 | a missing or empty title or content (`Truthy`, line 50) gives the 400 error and leaves the store unchanged; otherwise the response is 201 with the post carrying the next id, it is appended at the end, and every earlier post is unchanged |
| Posts.FindById | backend/backend_app.py:71 | the result is None exactly when no stored post has the id; otherwise it is the position of the FIRST post with that id |
| Posts.RemoveFirst | backend/backend_app.py:74 | list.remove drops exactly the first element equal to the given post and keeps the rest in order |
| Posts.RemoveFound | backend/backend_app.py:71-74 | removing the post that the lookup found cuts out exactly the found position |
| Posts.RemoveAtKeepsOthers | backend/backend_app.py:71-75 | removing one post keeps the invariant and leaves exactly the stored posts with a different id |
| Store.PostStore.DeletePost | backend/backend_app.py:71-77 | an absent id gives 404 "Post not found" and leaves the store unchanged; a present id removes exactly that post, so the length drops by one and the order of the rest is kept, and confirms with the message naming the id |
| Text.DecimalRoundTrip | backend/backend_app.py:75 | the decimal rendering of an id reads back as the same number |
| Text.DecimalString | backend/backend_app.py:75 | `str(id)` is a non-empty string of decimal digits without a leading zero |
| Store.DeletedMessageNamesId | backend/backend_app.py:75 | the delete confirmation is the fixed text around the id's decimal digits, which have no leading zero and denote the deleted id |
| Store.DeletedMessage | backend/backend_app.py:75 | the confirmation starts with "Post with id ", ends with " has been deleted successfully." and has at least one character between them |
| Posts.PatchKeepsWellFormed | backend/backend_app.py:93-94 | overwriting title and content of one post keeps ids positive and distinct |
| Store.PostStore.UpdatePost | backend/backend_app.py:85-96 | an absent id gives 404 and leaves the store unchanged; a present id keeps that post's position and id, replaces title and content only where the request carries them (an empty string overwrites), changes no other post, and returns the updated post |
| Store.ParseListQuery | backend/backend_app.py:23-35 | a non-empty sort other than title or content is the sort error, whatever the direction; a recognised sort names that field; descending exactly when the lower-cased direction (default asc) is desc; the direction error exactly when the sort is not the sort error and the lower-cased direction is neither asc nor desc; no sort only when the sort is absent or empty |
| Store.ListQueryIgnoresDirectionCase | backend/backend_app.py:24 | the direction is compared case-insensitively |
| Store.ListQueryChecksDirectionWithoutSort | backend/backend_app.py:27-30 | without a sort field, the request is rejected with the direction error exactly when the lower-cased direction is neither asc nor desc |
| Text.LexLeTotal | backend/backend_app.py:36 | any two sort keys are comparable |
| Text.LexLeTransitive | backend/backend_app.py:36 | the key order is transitive |
| Text.LexLeAntisymmetric | backend/backend_app.py:36 | keys ordered both ways are equal |
| Text.LexLe | backend/backend_app.py:36 | a string sorts before or equal to every string it is a prefix of, and a string never sorts before its own proper prefix |
| Sorting.Key | backend/backend_app.py:36 | the sort key is as long as the chosen field and holds no capital letter |
| Sorting.SortPosts | backend/backend_app.py:36 | the sorted list is a permutation of the stored posts, ordered non-decreasing by the lower-cased field, or non-increasing when descending |
| Sorting.SortedUnique | backend/backend_app.py:36 | when no two posts share a key, there is only one sorted order of them |
| Posts.PermutationKeepsWellFormed | backend/backend_app.py:36 | any reordering of the store keeps ids positive and distinct |
| Store.PostStore.ListPosts | backend/backend_app.py:23-38 | either parameter error gives a 400 with its message and leaves the store unchanged; without a sort the store is unchanged and returned as it is; with a valid sort the store becomes, and stays, a sorted permutation of its previous contents and is returned |
| Store.SeedByTitleDescendingIsSorted | backend/backend_app.py:7-11 | the seed ordered third, second, first post is sorted by title, descending |
| Store.SeedTitleKeysDistinct | backend/backend_app.py:7-11 | the seed posts have pairwise different title keys |
| Store.SeedNextId | backend/backend_app.py:55 | with the seed posts stored in any order, the next create gets id 4 |
| Text.Lower | backend/backend_app.py:109-110 | lower-casing keeps the length, maps each ASCII capital to its lower-case letter and changes nothing else |
| Text.LowerIdempotent | backend/backend_app.py:104-105 | lower-casing an already lower-cased string changes nothing |
| Text.IsSubstringIff | backend/backend_app.py:109-110 | `q in s` holds exactly when q occurs at some position of s |
| Text.IsSubstring | backend/backend_app.py:109-110 | a contained string is no longer than the one containing it; the empty string and every prefix are contained |
| PostSearch.MatchesIsContainment | backend/backend_app.py:109-110 | the `if query else True` guards change nothing, because the empty query is contained in every field |
| PostSearch.Filter | backend/backend_app.py:107-111 | every post kept matches both conditions, and the result is no longer than the store |
| PostSearch.FilterIsSubsequence | backend/backend_app.py:107-111 | the filtered posts keep the stored order |
| PostSearch.FilterCounts | backend/backend_app.py:107-111 | each matching post is kept exactly as often as it is stored, and each other post is dropped |
| PostSearch.SearchExact | backend/backend_app.py:104-111 | the search result is an order-preserving subsequence of the store holding exactly the posts whose lower-cased title contains the lower-cased title query and whose lower-cased content contains the lower-cased content query, where an empty query matches any field |
| PostSearch.Search | backend/backend_app.py:104-111 | the result is no longer than the store, and every post in it matches the lower-cased queries |
| PostSearch.SearchWithoutQueries | backend/backend_app.py:104-111 | with both queries empty the whole store is returned |
| PostSearch.SearchIgnoresQueryCase | backend/backend_app.py:104-105 | the case of the queries does not change the result |
| Store.PostStore.SearchPosts | backend/backend_app.py:104-113 | the response is the search result over the current store, with absent queries read as empty; the store is not changed |

## Left out

- Flask routing, `jsonify` and JSON serialisation, and the reading of
  `request.args` and `request.get_json()`. Requests are method parameters.
  Responses are `Response` values with `Status` giving the HTTP code.
- CORS setup (line 5) and server start-up (lines 116-117). They are
  configuration and I/O.
- A missing or malformed JSON body, where `get_json()` yields `None` and
  `.get` raises. JSON values that are not strings are left out too, such as
  an explicit `null` title in an update, which Python would store as `None`.
  Only string values or absence are modelled.
- Concurrent requests on the global list. The model is sequential.
- Text.Lower: only ASCII capitals are lower-cased. Python's full Unicode case
  mapping is not modelled.
- Text.LexLe compares Dafny characters one by one. This matches Python's
  code-point order for the characters Dafny represents.
- Sorting.SortPosts: an insertion sort stands in for Python's `list.sort`.
  Only the sorted-permutation property is promised. Sort stability (which
  Python guarantees, also with `reverse=True`) is not stated, so for posts
  with equal keys the model does not fix their relative order.
- Store.PostStore.UpdatePost: Python mutates the post dictionary in place.
  The model replaces the element of the `posts` sequence. Nothing else holds
  a reference to the dictionary, so no aliasing is lost.
- The store is a `seq` field that the methods reassign, not a mutable list
  object. `append`, `remove` and the in-place `sort` become whole-value
  updates of that field.
- Ids in delete and update paths are `nat`, because the `<int:id>` route
  converter accepts only unsigned digits.
