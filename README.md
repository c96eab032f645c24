# Post repository of a small social application, in Dafny

This project models `models/Post.js`, the post repository of an Express and
MongoDB social application, and proves what it does. The repository turns
an untrusted request body into a clean post record and validates it. It
creates posts. It lets only a post's author update or delete it. It answers
the read queries (one post by id, an author's posts, the follow feed, text
search) through one shared pipeline that joins each post with its author's
profile and marks whether the visitor owns it.

Files, one module each:

- `js.dfy` (`Js`): a request field's value as "a string or anything else",
  and `String.prototype.trim` with JavaScript's whitespace set.
- `externals.dfy` (`Externals`): `ObjectId`, the user document, and the
  collaborators whose code is not modelled, as functions the caller supplies:
  `sanitize-html`, `ObjectId.isValid`, `new ObjectId(string)`, the User
  model's avatar, and MongoDB's `$text` match and `textScore`.
- `store.dfy` (`Store`): the three collections in memory. Posts are a
  sequence with unique `_id`s, kept in insertion order. MongoDB leaves the
  order of a query without `$sort` open; the model fixes it to this one. Users are a map from id to
  user document. Follows are a set of `(authorId = follower, followedId)`
  edges. `Database` is a class whose `InsertOne`, `FindOneAndUpdate` and
  `DeleteOne` change the posts sequence.
- `pipeline.dfy` (`Pipeline`): the aggregation stages the repository builds
  (`$match` by id, by author, by a set of authors, by text; `$sort` by
  `createdDate` or by text score, largest first).
- `queries.dfy` (`Queries`): `reusablePostQuery` and every read path built on
  it, as functions over a snapshot of the collections.
- `post.dfy` (`Posts`): the draft `Post` object as a class with its `data`
  and `errors` fields, with `cleanUp`, `validate`, `create`, `update` and
  `actuallyUpdate`, plus `Post.delete`.

The visitor slot of `reusablePostQuery` is a datatype: a user id,
`Anonymous` (the `req.visitorId = 0` that `app.js:46-50` sets for a request
without a session user), `Undefined` (the argument left out or passed as undefined), or
`SortObject` (the `$sort` object that `getFeed` passes there).
`ObjectId.equals` is true only for an equal id, so only the first kind can
own a post.

The model follows what the code does, not what its names or comments
suggest:

- `update` and `delete` reject with no value both when the post is missing
  and when the visitor is not its author. They do not report "not found"
  apart from "not owner".
- `getFeed` does not sort (see Findings).
- `findByAuthorId` passes no visitor, so it never marks a post as owned.

## Model

| member | source | states |
|---|---|---|
| Js.Trim | models/Post.js:24-28 | `trim()` never lengthens the string, and what it returns neither starts nor ends with whitespace; TrimSpec pins it to the input with its leading and trailing whitespace removed |
| Js.TrimSpec | models/Post.js:24-28 | `trim()` returns a slice `s[i..j]` of its input with only whitespace before `i` and after `j`, composing TrimStartSpec and TrimEndSpec |
| Js.TrimStartSpec | models/Post.js:24-31 | trimming the front returns a suffix of the input, drops only whitespace, and does not start with whitespace |
| Js.TrimEndSpec | models/Post.js:24-31 | trimming the end returns a prefix of the input, drops only whitespace, and does not end with whitespace |
| Js.TrimEmptyIff | models/Post.js:24-31 | `trim()` gives "" exactly when the string is whitespace only |
| Js.TrimIdempotent | models/Post.js:24-31 | trimming a trimmed string changes nothing |
| Posts.StringField | models/Post.js:15-20 | a field that is absent or not a string reads as "", which is what cleanUp's type checks turn it into; NonBlankTitleNotReported and NonBlankBodyNotReported state that a string field keeps its value into clean-up |
| Posts.Cleaned | models/Post.js:22-34 | the cleaned record is a {title, body, createdDate, author} record stamped with the clock's time and the acting user; NonBlankTitleNotReported and NonBlankBodyNotReported state that a string title or body becomes its sanitized trim, and CleanedIgnoresOtherFields and the BlankTitle/BlankBody lemmas carry the rest |
| Posts.ValidationErrors | models/Post.js:37-44 | "You must provide a title" is reported iff the title is "", and it comes first. "You must provide some content for the post" is reported iff the body is "", and it comes last. There are no other messages |
| Posts.BlankTitleReported | models/Post.js:14-44 | a title that is absent, not a string, or whitespace only ends up reported as the first error, given that sanitize-html maps "" to "" |
| Posts.BlankBodyReported | models/Post.js:14-44 | a body that is absent, not a string, or whitespace only ends up reported as the last error, given that sanitize-html maps "" to "" |
| Posts.NonBlankTitleNotReported | models/Post.js:14-39 | a string title whose sanitized trim is not empty becomes that cleaned title, and "You must provide a title" is not reported |
| Posts.NonBlankBodyNotReported | models/Post.js:14-42 | a string body whose sanitized trim is not empty becomes that cleaned body, and "You must provide some content for the post" is not reported |
| Posts.CleanedIgnoresOtherFields | models/Post.js:22-34 | request-body keys other than title and body have no effect on the cleaned record |
| Posts.Post.constructor | models/Post.js:7-12 | a new draft holds the given data, user and requested id, and has no errors |
| Posts.Post.CleanUp | models/Post.js:14-35 | `data` becomes exactly {title, body, createdDate, author}. Title and body are sanitized and trimmed, after a non-string became "". The date is the clock's time and the author is the acting user |
| Posts.Post.Validate | models/Post.js:37-44 | appends exactly the validation messages of the cleaned title and body to `errors` |
| Posts.Post.Create | models/Post.js:46-64 | with errors: rejects with exactly those errors and inserts nothing. If the insert fails: rejects with the "Sorry, something was wrong" message and inserts nothing. Otherwise: appends exactly one post (cleaned title and body, the clock's date, author = the creator), returns its id and leaves the existing posts as they were |
| Posts.Post.Update | models/Post.js:66-81 | rejects and changes nothing (store, data, errors) iff the id is not a valid id string, names no post, or names another user's post. Otherwise it resolves "failure" with no write when validation fails, and "success" after writing the new title and body to that post. No post's id, createdDate or author ever changes |
| Posts.Post.ActuallyUpdate | models/Post.js:83-99 | after clean-up and validation: with no errors, sets only the requested post's title and body and resolves "success". Otherwise it writes nothing and resolves "failure" |
| Posts.Delete | models/Post.js:173-187 | resolves iff the id is valid, names a post, and the user is its author. Then exactly that post is gone and the others stay. Otherwise it rejects and the store is unchanged |
| Store.SetTitleBody | models/Post.js:88-93 | `findOneAndUpdate` with `$set` changes only the title and body of the first post with the id. Every post keeps its id, createdDate and author, and all other posts are untouched |
| Store.Without | models/Post.js:178 | `deleteOne` leaves the collection unchanged when no post has the id, and one post shorter otherwise |
| Store.WithoutAt | models/Post.js:178 | `deleteOne` removes exactly the first post with the id and keeps the others in order |
| Store.WithoutMembers | models/Post.js:178 | with unique ids, deletion removes exactly the posts with that id |
| Store.WithoutUnique | models/Post.js:178 | deletion keeps post ids unique |
| Store.Database.InsertOne | models/Post.js:52 | `insertOne` appends the document and keeps ids unique |
| Store.Database.FindOneAndUpdate | models/Post.js:88-93 | the posts become `SetTitleBody` of the old posts |
| Store.Database.DeleteOne | models/Post.js:178 | the posts become `Without` of the old posts, and ids stay unique |
| Pipeline.Select | models/Post.js:108-112 | a `$match` stage keeps exactly the posts it admits |
| Pipeline.SelectSubsequence | models/Post.js:108-112 | a `$match` stage keeps the posts it admits in their input order: its result is a subsequence of its input |
| Pipeline.Insert | models/Post.js:167-169 | inserting into a list sorted largest first keeps it sorted and adds exactly that post |
| Pipeline.SortDesc | models/Post.js:167-169 | a `$sort` with -1 orders by non-increasing key and is a permutation of its input |
| Pipeline.ApplyStagesMembers | models/Post.js:122-142 | an aggregation pipeline returns exactly the posts that every one of its stages admits |
| Queries.IsOwner | models/Post.js:146 | an anonymous visitor, a missing argument or a `$sort` object owns nothing; EnrichAll and FindSingleByIdOwner state when a user id owns a post |
| Queries.Enrich | models/Post.js:145-156 | an enriched post keeps the post's id and date, carries the author's username, and is marked owned iff the visitor is the author; EnrichAll states title, body and avatar as well |
| Queries.EnrichAll | models/Post.js:145-156 | every result has the post's id, title, body and createdDate, an author of {username, avatar} from the author's user record, and no authorId. `isVisitorOwner` is true iff the stored author equals the visitor id |
| Queries.ReusablePostQuery | models/Post.js:122-160 | one enriched post per document the stages produce, and nothing owned unless the visitor is a user id; EnrichAll and QueryMembers carry the rest |
| Queries.EnrichAllMembers | models/Post.js:145-156 | e is in the enrichment iff it is the enriched form of some fetched document |
| Queries.QueryMembers | models/Post.js:122-160 | every read query returns exactly the enriched posts that its stages admit |
| Queries.FindSingleById | models/Post.js:101-120 | rejects iff the id is not a string, not a valid ObjectId, or matches no post. Otherwise returns the enriched post with that id |
| Queries.FindSingleByIdOwner | models/Post.js:146 | with unique ids, `findSingleById` returns an owned post iff the visitor is the stored author of the requested post. The anonymous visitor 0 never owns one |
| Queries.CountPostsByAuthor | models/Post.js:208-213 | the count is 0 iff the author has no post, and never exceeds the collection size |
| Queries.SelectAuthorCount | models/Post.js:210 | `countDocuments({author})` counts exactly the posts that `{$match: {author}}` keeps |
| Queries.FindByAuthorId | models/Post.js:162-171 | the author's posts come in non-increasing createdDate order, and none is marked as owned |
| Queries.FindByAuthorIdExact | models/Post.js:162-171 | `findByAuthorId(a)` contains exactly the enriched posts whose author is `a` |
| Queries.CountIsFindByAuthorIdLength | models/Post.js:208-213 | `countPostsByAuthor(a)` equals the number of posts `findByAuthorId(a)` returns |
| Queries.Followed | models/Post.js:217-218 | the user follows nobody exactly when no follow edge starts at the user; GetFeedExact states which authors the feed draws on |
| Queries.GetFeed | models/Post.js:215-228 | no feed post is marked as owned, and the feed is empty when the user follows nobody |
| Queries.GetFeedExact | models/Post.js:217-223 | the feed contains exactly the posts whose author is the followedId of a follow edge whose authorId is the user |
| Queries.GetFeedCollectionOrder | models/Post.js:221-227 | the feed keeps the followed users' posts in the model's insertion order (MongoDB leaves it open), because no sort stage runs; with SelectSubsequence, that order is the input's |
| Queries.FeedNotNewestFirst | models/Post.js:224-227 | a concrete store where the feed, in the model's insertion order, lists an older post before a newer one; MongoDB may return that order |
| Queries.GetFeedNewestFirst | models/Post.js:224-227 | with the `$sort` moved into the stages, the feed is in non-increasing createdDate order and no post is owned |
| Queries.NewestFirstSameLength | models/Post.js:215-228 | the corrected feed has as many posts as the feed as written |
| Queries.NewestFirstSamePosts | models/Post.js:215-228 | the corrected feed holds the same posts as the feed as written |
| Queries.SearchStages | models/Post.js:192-200 | search's stages keep only posts matching the term, ordered by non-increasing text score |
| Queries.Search | models/Post.js:189-206 | rejects iff the term is not a string. Otherwise every result matches the term, results come in non-increasing text score, and none is owned |

## Findings

| source | as written | input that shows it | evidently intended | confidence | as-written member | corrected member |
|---|---|---|---|---|---|---|
| models/Post.js:221-227 | `getFeed` passes `{$sort: {createdDate: -1}}` as the second argument of `reusablePostQuery`, which is the visitorId slot, so no sort stage runs | user 2 follows user 1, who posted at time 1 and then at time 2: the feed may list the time-1 post first | the `$sort` as a second stage of the query, so the feed is newest first, as the comment on line 225 says | not executed; high | Queries.FeedNotNewestFirst | Queries.GetFeedNewestFirst |

## Left out

- I/O and asynchrony: promises, `await` and the MongoDB driver are replaced by sequential methods and functions over the collections in memory. `new Date()` is a `now` parameter.
- Store failures other than `insertOne`'s: reads, `findOneAndUpdate` and `deleteOne` always succeed in the model. In the source a failing `deleteOne` (line 178) rejects `delete` through its catch even for the owner, and a failing `findOneAndUpdate` (line 88) or `aggregate` (line 142) throws inside an async Promise executor, so `update` and the read queries never settle.
- Posts.Post.Create: `insertOne` at models/Post.js:52 also stores the generated `_id` into `this.data` (on success and on failure, once validation passed), and `apiCreate` returns that field. The model's `data` stays the four-field cleaned record and leaves that `_id` out; the id is only in the `Created` outcome.
- Store-generated ids: the `_id` that `insertOne` generates is a parameter that must be unused in the collection. A failed `insertOne` is the `insertFails` parameter.
- Missing author records: if a matched post's author has no user document, the source reads `username` of undefined and the query never settles. Every read path, and therefore `update` and `delete`, requires the authors of the posts it matches to exist.
- sanitize-html: its internals are not modelled. Nothing is proved about tag stripping. The only property used is that it maps "" to "", and only where a lemma says so.
- `ObjectId.isValid` and `new ObjectId(string)` are uninterpreted. Ids are natural numbers and only their equality is used. The visitor id from the session is taken to be already an id, which is how `ObjectId.equals` treats a valid 24-character hex string.
- User avatar: `new User(doc, true).avatar` is an uninterpreted function of the user document. The User model is not part of this model.
- Text search: `$text` matching and `textScore` are uninterpreted. The score is an integer here and a float in MongoDB. Search's final `$sort` is applied before the projection rather than after it. The projection keeps one post per document, in order, with its title and body, so the result is the same.
- Unsorted queries: MongoDB leaves the order of a query without `$sort` open. The model fixes it to insertion order, so `getFeed`'s order is one MongoDB allows, not the only one.
- Sort ties: MongoDB leaves the order of equal keys open. The model keeps collection order for ties, and no contract depends on that choice.
- Concurrency: the check-then-write of `update` and `delete` runs as one step here. Races with other requests are not modelled.
- The Follow and User models, controllers, router, `app.js` and `db.js` are not part of this model. Follows enter only as the set of edges that `getFeed` reads.
