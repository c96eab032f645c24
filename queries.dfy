/** The read side of models/Post.js: every read query funnels through
    reusablePostQuery, which runs the query's own stages, joins each post with
    its author's user document and projects the one shape every caller sees. */
module Queries {
  import opened Js
  import opened Externals
  import opened Store
  import opened Pipeline

  /** What the visitorId slot of reusablePostQuery holds at each call site. */
  datatype VisitorArg =
    | Visitor(id: ObjectId)   // a logged-in user's id
    | Anonymous               // req.visitorId = 0 for a request without a session user
    | Undefined               // the argument left out or passed as undefined (findByAuthorId, search)
    | SortObject              // the {$sort: {createdDate: -1}} object getFeed passes

  /** post.authorId.equals(visitorId): ObjectId.equals is false for 0,
      undefined and an object that is not an id. */
  predicate IsOwner(author: ObjectId, visitor: VisitorArg)
    ensures !visitor.Visitor? ==> !IsOwner(author, visitor)
  {
    visitor.Visitor? && visitor.id == author
  }

  datatype AuthorView = AuthorView(username: string, avatar: string)

  /** A post as every read query returns it: no authorId, the author replaced
      by the author's public profile, and the ownership flag. */
  datatype EnrichedPost = EnrichedPost(
    id: ObjectId, title: string, body: string, createdDate: int,
    author: AuthorView, isVisitorOwner: bool)

  /** Every post in docs has its author in the users collection; otherwise the
      projection reads `username` of undefined and the query never settles. */
  predicate AuthorsKnown(docs: seq<PostDoc>, users: map<ObjectId, UserDoc>)
  {
    forall p :: p in docs ==> p.author in users
  }

  /** The $lookup, $project and per-post clean-up of reusablePostQuery. */
  function Enrich(lib: Libraries, users: map<ObjectId, UserDoc>, visitor: VisitorArg, p: PostDoc): (r: EnrichedPost)
    requires p.author in users
    ensures r.id == p.id && r.createdDate == p.createdDate
    ensures r.author.username == users[p.author].username
    ensures r.isVisitorOwner <==> visitor == Visitor(p.author)
  {
    EnrichedPost(p.id, p.title, p.body, p.createdDate,
      AuthorView(users[p.author].username, lib.avatar(users[p.author])),
      IsOwner(p.author, visitor))
  }

  /** The per-post part of reusablePostQuery, applied to the documents the
      stages produced: one enriched post per document, in order. */
  function EnrichAll(lib: Libraries, users: map<ObjectId, UserDoc>, visitor: VisitorArg, docs: seq<PostDoc>): (r: seq<EnrichedPost>)
    requires AuthorsKnown(docs, users)
    ensures |r| == |docs|
    ensures forall i :: 0 <= i < |r| ==>
      r[i].id == docs[i].id && r[i].title == docs[i].title && r[i].body == docs[i].body &&
      r[i].createdDate == docs[i].createdDate &&
      r[i].author == AuthorView(users[docs[i].author].username, lib.avatar(users[docs[i].author])) &&
      (r[i].isVisitorOwner <==> IsOwner(docs[i].author, visitor))
  {
    if docs == [] then []
    else
      assert docs[0] in docs;
      [Enrich(lib, users, visitor, docs[0])] + EnrichAll(lib, users, visitor, docs[1..])
  }

  /** reusablePostQuery(uniqueOperations, visitorId, finalOperations). The
      final stages (search's relevance sort) run after the projection in the
      source; the projection keeps one post per document, in order, with its
      title and body, so running them before it gives the same list. */
  function ReusablePostQuery(lib: Libraries, s: Snapshot, uniqueOperations: seq<Stage>,
                             visitor: VisitorArg, finalOperations: seq<Stage>): (r: seq<EnrichedPost>)
    requires AuthorsKnown(ApplyStages(lib, s.posts, uniqueOperations + finalOperations), s.users)
    ensures |r| == |ApplyStages(lib, s.posts, uniqueOperations + finalOperations)|
    ensures !visitor.Visitor? ==> forall i :: 0 <= i < |r| ==> !r[i].isVisitorOwner
  {
    EnrichAll(lib, s.users, visitor, ApplyStages(lib, s.posts, uniqueOperations + finalOperations))
  }

  /** The enrichment returns exactly one enriched post per document. */
  lemma {:induction false} EnrichAllMembers(lib: Libraries, users: map<ObjectId, UserDoc>, visitor: VisitorArg,
                                            docs: seq<PostDoc>, e: EnrichedPost)
    requires AuthorsKnown(docs, users)
    ensures e in EnrichAll(lib, users, visitor, docs) <==>
      exists p :: p in docs && p.author in users && e == Enrich(lib, users, visitor, p)
  {
    if docs != [] {
      assert docs[0] in docs;
      assert forall p :: p in docs <==> p == docs[0] || p in docs[1..];
      EnrichAllMembers(lib, users, visitor, docs[1..], e);
    }
  }

  /** A read query returns exactly the enriched posts its stages admit. */
  lemma QueryMembers(lib: Libraries, s: Snapshot, ops: seq<Stage>, visitor: VisitorArg, e: EnrichedPost)
    requires AuthorsKnown(ApplyStages(lib, s.posts, ops + []), s.users)
    ensures e in ReusablePostQuery(lib, s, ops, visitor, []) <==>
      exists p :: p in s.posts && (forall k :: 0 <= k < |ops| ==> Admits(lib, ops[k], p)) &&
        p.author in s.users && e == Enrich(lib, s.users, visitor, p)
  {
    assert ops + [] == ops;
    var docs := ApplyStages(lib, s.posts, ops);
    EnrichAllMembers(lib, s.users, visitor, docs, e);
    forall p ensures p in docs <==> p in s.posts && (forall k :: 0 <= k < |ops| ==> Admits(lib, ops[k], p)) {
      ApplyStagesMembers(lib, s.posts, ops, p);
    }
  }

  // ---------------------------------------------------------------- findSingleById

  /** typeof(id) == "string" && ObjectId.isValid(id) */
  predicate IsPostId(lib: Libraries, id: JsValue)
  {
    id.Str? && lib.isValidId(id.s)
  }

  /** The author of the post a well-formed id names is a known user. */
  predicate RequestedAuthorKnown(lib: Libraries, s: Snapshot, id: JsValue)
  {
    IsPostId(lib, id) ==>
      forall p :: p in s.posts && p.id == lib.parseId(id.s) ==> p.author in s.users
  }

  /** The visitor is the stored author of the post a well-formed id names. */
  predicate VisitorOwns(lib: Libraries, posts: seq<PostDoc>, id: JsValue, visitor: VisitorArg)
  {
    IsPostId(lib, id) && exists p :: p in posts && p.id == lib.parseId(id.s) && IsOwner(p.author, visitor)
  }

  /** Post.findSingleById(id, visitorId): None is the rejection. */
  function FindSingleById(lib: Libraries, s: Snapshot, id: JsValue, visitor: VisitorArg): (r: Option<EnrichedPost>)
    requires RequestedAuthorKnown(lib, s, id)
    ensures r.None? <==> !IsPostId(lib, id) || !HasId(s.posts, lib.parseId(id.s))
    ensures r.Some? ==>
      exists p ::
        p in s.posts && p.id == lib.parseId(id.s) && p.author in s.users &&
        r.value == Enrich(lib, s.users, visitor, p)
  {
    if !IsPostId(lib, id) then None
    else
      var ops := [MatchId(lib.parseId(id.s))];
      assert ops + [] == ops;
      assert forall p :: p in ApplyStages(lib, s.posts, ops) ==> p in s.posts && Admits(lib, ops[0], p) by {
        forall p | p in ApplyStages(lib, s.posts, ops) ensures p in s.posts && Admits(lib, ops[0], p) {
          ApplyStagesMembers(lib, s.posts, ops, p);
        }
      }
      var posts := ReusablePostQuery(lib, s, ops, visitor, []);
      if |posts| > 0 then
        QueryMembers(lib, s, ops, visitor, posts[0]);
        Some(posts[0])
      else
        assert !HasId(s.posts, lib.parseId(id.s)) by {
          if HasId(s.posts, lib.parseId(id.s)) {
            var i :| 0 <= i < |s.posts| && s.posts[i].id == lib.parseId(id.s);
            QueryMembers(lib, s, ops, visitor, Enrich(lib, s.users, visitor, s.posts[i]));
          }
        }
        None
  }

  /** In a collection with unique ids, findSingleById gives an owned post
      exactly when the visitor is the stored author of the requested post;
      so the anonymous visitor 0 never owns one. */
  lemma FindSingleByIdOwner(lib: Libraries, s: Snapshot, id: JsValue, visitor: VisitorArg)
    requires UniqueIds(s.posts) && RequestedAuthorKnown(lib, s, id)
    ensures (var r := FindSingleById(lib, s, id, visitor); r.Some? && r.value.isVisitorOwner)
      <==> VisitorOwns(lib, s.posts, id, visitor)
    ensures visitor == Anonymous ==> !VisitorOwns(lib, s.posts, id, visitor)
  {
    var r := FindSingleById(lib, s, id, visitor);
    if VisitorOwns(lib, s.posts, id, visitor) {
      var q :| q in s.posts && q.id == lib.parseId(id.s) && IsOwner(q.author, visitor);
      assert HasId(s.posts, q.id);
      var p :| p in s.posts && p.id == lib.parseId(id.s) && p.author in s.users &&
        r.value == Enrich(lib, s.users, visitor, p);
      SameIdSamePost(s.posts, p, q);
    }
  }

  // ---------------------------------------------------------------- findByAuthorId, countPostsByAuthor

  /** postsCollection.countDocuments({author: id}) */
  function CountPostsByAuthor(posts: seq<PostDoc>, id: ObjectId): (n: nat)
    ensures n <= |posts|
    ensures n == 0 <==> forall p :: p in posts ==> p.author != id
  {
    if posts == [] then 0
    else
      assert forall p :: p in posts <==> p == posts[0] || p in posts[1..];
      (if posts[0].author == id then 1 else 0) + CountPostsByAuthor(posts[1..], id)
  }

  /** Post.findByAuthorId(authorId): the author's posts, newest first. No
      visitor is passed, so no post is marked as owned. */
  function FindByAuthorId(lib: Libraries, s: Snapshot, authorId: ObjectId): (r: seq<EnrichedPost>)
    requires forall p :: p in s.posts && p.author == authorId ==> p.author in s.users
    ensures forall i :: 0 <= i < |r| ==> !r[i].isVisitorOwner
    ensures forall i, j :: 0 <= i < j < |r| ==> r[i].createdDate >= r[j].createdDate
  {
    var ops := [MatchAuthor(authorId), SortByDateDesc];
    assert ops + [] == ops;
    AuthorOpsKnown(lib, s, ops);
    var docs := ApplyStages(lib, s.posts, ops);
    TwoStages(lib, s.posts, ops[0], ops[1]);
    assert SortedDesc(docs, SortKey(lib, SortByDateDesc));
    ReusablePostQuery(lib, s, ops, Undefined, [])
  }

  /** A two-stage pipeline is its two stages one after the other. */
  lemma TwoStages(lib: Libraries, posts: seq<PostDoc>, a: Stage, b: Stage)
    ensures ApplyStages(lib, posts, [a, b]) == ApplyStage(lib, ApplyStage(lib, posts, a), b)
  {
    var ops := [a, b];
    assert ops[1..] == [b] && ops[1..][1..] == [];
    calc {
      ApplyStages(lib, posts, ops);
      ApplyStages(lib, ApplyStage(lib, posts, a), [b]);
      ApplyStages(lib, ApplyStage(lib, ApplyStage(lib, posts, a), b), []);
    }
  }

  /** Helper: a pipeline whose first stage matches one author admits only posts
      by that author. */
  lemma AuthorOpsKnown(lib: Libraries, s: Snapshot, ops: seq<Stage>)
    requires |ops| > 0 && ops[0].MatchAuthor?
    requires forall p :: p in s.posts && p.author == ops[0].author ==> p.author in s.users
    ensures AuthorsKnown(ApplyStages(lib, s.posts, ops), s.users)
  {
    forall p | p in ApplyStages(lib, s.posts, ops) ensures p.author in s.users {
      ApplyStagesMembers(lib, s.posts, ops, p);
      assert Admits(lib, ops[0], p);
    }
  }

  /** The stages of findByAuthorId admit exactly the author's posts. */
  lemma AuthorOpsAdmit(lib: Libraries, authorId: ObjectId, p: PostDoc)
    ensures (var ops := [MatchAuthor(authorId), SortByDateDesc];
      forall k :: 0 <= k < |ops| ==> Admits(lib, ops[k], p)) <==> p.author == authorId
  {
    var ops := [MatchAuthor(authorId), SortByDateDesc];
    assert Admits(lib, ops[0], p) <==> p.author == authorId;
    assert Admits(lib, ops[1], p);
  }

  /** findByAuthorId returns exactly the author's posts: every enriched post
      in the result comes from one of them and each of them is in the result. */
  lemma FindByAuthorIdExact(lib: Libraries, s: Snapshot, authorId: ObjectId, e: EnrichedPost)
    requires forall p :: p in s.posts && p.author == authorId ==> p.author in s.users
    ensures e in FindByAuthorId(lib, s, authorId) <==>
      exists p :: p in s.posts && p.author == authorId && e == Enrich(lib, s.users, Undefined, p)
  {
    var ops := [MatchAuthor(authorId), SortByDateDesc];
    assert ops + [] == ops;
    AuthorOpsKnown(lib, s, ops);
    QueryMembers(lib, s, ops, Undefined, e);
    forall p ensures (forall k :: 0 <= k < |ops| ==> Admits(lib, ops[k], p)) <==> p.author == authorId {
      AuthorOpsAdmit(lib, authorId, p);
    }
  }

  /** countPostsByAuthor(a) is the length of findByAuthorId(a). */
  lemma CountIsFindByAuthorIdLength(lib: Libraries, s: Snapshot, authorId: ObjectId)
    requires forall p :: p in s.posts && p.author == authorId ==> p.author in s.users
    ensures |FindByAuthorId(lib, s, authorId)| == CountPostsByAuthor(s.posts, authorId)
  {
    var ops := [MatchAuthor(authorId), SortByDateDesc];
    assert ops + [] == ops;
    AuthorOpsKnown(lib, s, ops);
    var sel := Select(lib, s.posts, ops[0]);
    TwoStages(lib, s.posts, ops[0], ops[1]);
    SortDescLength(sel, SortKey(lib, SortByDateDesc));
    SelectAuthorCount(lib, s.posts, authorId);
  }

  /** countDocuments({author: id}) counts exactly the posts {$match: {author: id}} keeps. */
  lemma {:induction false} SelectAuthorCount(lib: Libraries, posts: seq<PostDoc>, id: ObjectId)
    ensures |Select(lib, posts, MatchAuthor(id))| == CountPostsByAuthor(posts, id)
  {
    if posts != [] {
      SelectAuthorCount(lib, posts[1..], id);
    }
  }


  // ---------------------------------------------------------------- getFeed

  /** The followedId of every follow edge whose authorId is the user. */
  function Followed(follows: set<FollowEdge>, id: ObjectId): (r: set<ObjectId>)
    ensures r == {} <==> forall e :: e in follows ==> e.authorId != id
  {
    var r := set e | e in follows && e.authorId == id :: e.followedId;
    assert forall e :: e in follows && e.authorId == id ==> e.followedId in r;
    r
  }

  predicate FeedAuthorsKnown(s: Snapshot, id: ObjectId)
  {
    forall p :: p in s.posts && p.author in Followed(s.follows, id) ==> p.author in s.users
  }

  /** Helper: a pipeline whose first stage matches a set of authors admits only
      posts by those authors. */
  lemma AuthorInOpsKnown(lib: Libraries, s: Snapshot, ops: seq<Stage>)
    requires |ops| > 0 && ops[0].MatchAuthorIn?
    requires forall p :: p in s.posts && p.author in ops[0].authors ==> p.author in s.users
    ensures AuthorsKnown(ApplyStages(lib, s.posts, ops), s.users)
    ensures ops[0].authors == {} ==> ApplyStages(lib, s.posts, ops) == []
  {
    forall p | p in ApplyStages(lib, s.posts, ops) ensures p.author in s.users && p.author in ops[0].authors {
      ApplyStagesMembers(lib, s.posts, ops, p);
      assert Admits(lib, ops[0], p);
    }
    var docs := ApplyStages(lib, s.posts, ops);
    assert docs != [] ==> docs[0] in docs;
  }

  /** Post.getFeed(id), as written: the posts of everyone the user follows, in
      the model's insertion order (MongoDB leaves it open), and never owned, because the $sort object lands in
      the visitorId slot of reusablePostQuery instead of in its stages. */
  function GetFeed(lib: Libraries, s: Snapshot, id: ObjectId): (r: seq<EnrichedPost>)
    requires FeedAuthorsKnown(s, id)
    ensures forall i :: 0 <= i < |r| ==> !r[i].isVisitorOwner
    ensures Followed(s.follows, id) == {} ==> r == []
  {
    var ops := [MatchAuthorIn(Followed(s.follows, id))];
    assert ops + [] == ops;
    AuthorInOpsKnown(lib, s, ops);
    ReusablePostQuery(lib, s, ops, SortObject, [])
  }

  /** The stages of the feed admit exactly the posts by followed users. */
  lemma FeedOpsAdmit(lib: Libraries, ops: seq<Stage>, p: PostDoc)
    requires |ops| > 0 && ops[0].MatchAuthorIn?
    requires forall k :: 1 <= k < |ops| ==> ops[k].IsSort()
    ensures (forall k :: 0 <= k < |ops| ==> Admits(lib, ops[k], p)) <==> p.author in ops[0].authors
  {
    if p.author in ops[0].authors {
      forall k | 0 <= k < |ops| ensures Admits(lib, ops[k], p) {
        if k > 0 { assert ops[k].IsSort(); }
      }
    }
  }

  /** getFeed(u) returns exactly the posts whose author is the followedId of a
      follow edge whose authorId is u. */
  lemma GetFeedExact(lib: Libraries, s: Snapshot, id: ObjectId, e: EnrichedPost)
    requires FeedAuthorsKnown(s, id)
    ensures e in GetFeed(lib, s, id) <==>
      exists p :: p in s.posts && (exists f :: f in s.follows && f.authorId == id && f.followedId == p.author) &&
        e == Enrich(lib, s.users, SortObject, p)
  {
    var ops := [MatchAuthorIn(Followed(s.follows, id))];
    assert ops + [] == ops;
    AuthorInOpsKnown(lib, s, ops);
    QueryMembers(lib, s, ops, SortObject, e);
    forall p ensures (forall k :: 0 <= k < |ops| ==> Admits(lib, ops[k], p)) <==>
      (exists f :: f in s.follows && f.authorId == id && f.followedId == p.author)
    {
      FeedOpsAdmit(lib, ops, p);
    }
  }

  /** getFeed as its comment intends: newest first, the $sort being one of the
      query's stages and no visitor passed. */
  function GetFeedNewestFirst(lib: Libraries, s: Snapshot, id: ObjectId): (r: seq<EnrichedPost>)
    requires FeedAuthorsKnown(s, id)
    ensures forall i :: 0 <= i < |r| ==> !r[i].isVisitorOwner
    ensures forall i, j :: 0 <= i < j < |r| ==> r[i].createdDate >= r[j].createdDate
  {
    var ops := [MatchAuthorIn(Followed(s.follows, id)), SortByDateDesc];
    assert ops + [] == ops;
    AuthorInOpsKnown(lib, s, ops);
    TwoStages(lib, s.posts, ops[0], ops[1]);
    assert SortedDesc(ApplyStages(lib, s.posts, ops), SortKey(lib, SortByDateDesc));
    ReusablePostQuery(lib, s, ops, Undefined, [])
  }

  /** The corrected feed holds as many posts as the feed as written. */
  lemma NewestFirstSameLength(lib: Libraries, s: Snapshot, id: ObjectId)
    requires FeedAuthorsKnown(s, id)
    ensures |GetFeedNewestFirst(lib, s, id)| == |GetFeed(lib, s, id)|
  {
    var match1 := [MatchAuthorIn(Followed(s.follows, id))];
    var ops := [MatchAuthorIn(Followed(s.follows, id)), SortByDateDesc];
    assert ops + [] == ops && match1 + [] == match1 && match1[1..] == [];
    AuthorInOpsKnown(lib, s, ops);
    AuthorInOpsKnown(lib, s, match1);
    TwoStages(lib, s.posts, ops[0], ops[1]);
    var sel := Select(lib, s.posts, ops[0]);
    assert ApplyStages(lib, s.posts, match1) == sel;
    assert ApplyStages(lib, s.posts, ops) == SortDesc(sel, SortKey(lib, SortByDateDesc));
    SortDescLength(sel, SortKey(lib, SortByDateDesc));
    assert |GetFeed(lib, s, id)| == |sel|;
  }

  /** The corrected feed holds the same posts as the feed as written, only
      newest first. */
  lemma NewestFirstSamePosts(lib: Libraries, s: Snapshot, id: ObjectId, e: EnrichedPost)
    requires FeedAuthorsKnown(s, id)
    ensures e in GetFeedNewestFirst(lib, s, id) <==> e in GetFeed(lib, s, id)
  {
    var match1 := [MatchAuthorIn(Followed(s.follows, id))];
    var ops := [MatchAuthorIn(Followed(s.follows, id)), SortByDateDesc];
    assert ops + [] == ops && match1 + [] == match1;
    AuthorInOpsKnown(lib, s, ops);
    AuthorInOpsKnown(lib, s, match1);
    QueryMembers(lib, s, ops, Undefined, e);
    QueryMembers(lib, s, match1, SortObject, e);
    forall p ensures (forall k :: 0 <= k < |ops| ==> Admits(lib, ops[k], p)) <==> p.author in ops[0].authors {
      FeedOpsAdmit(lib, ops, p);
    }
    forall p ensures (forall k :: 0 <= k < |match1| ==> Admits(lib, match1[k], p)) <==> p.author in ops[0].authors {
      FeedOpsAdmit(lib, match1, p);
    }
    forall p: PostDoc | p.author in s.users
      ensures Enrich(lib, s.users, Undefined, p) == Enrich(lib, s.users, SortObject, p)
    {
    }
  }

  /** The feed as written keeps the model's insertion order of the followed
      users' posts, an order MongoDB leaves open: no $sort stage runs. */
  lemma GetFeedCollectionOrder(lib: Libraries, s: Snapshot, id: ObjectId)
    requires FeedAuthorsKnown(s, id)
    ensures var sel := Select(lib, s.posts, MatchAuthorIn(Followed(s.follows, id)));
      var r := GetFeed(lib, s, id);
      |r| == |sel| && forall i :: 0 <= i < |r| ==> r[i].id == sel[i].id && r[i].createdDate == sel[i].createdDate
  {
    var ops := [MatchAuthorIn(Followed(s.follows, id))];
    assert ops + [] == ops && ops[1..] == [];
    assert ApplyStages(lib, s.posts, ops) == Select(lib, s.posts, ops[0]);
  }

  /** The feed as written is not newest first: a user following one author
      who posted at time 1 and then at time 2 may see the older post first. */
  lemma FeedNotNewestFirst(lib: Libraries, s: Snapshot)
    requires s.posts == [PostDoc(ObjectId(10), "first", "x", 1, ObjectId(1)),
                         PostDoc(ObjectId(11), "second", "y", 2, ObjectId(1))]
    requires s.users == map[ObjectId(1) := UserDoc("author", "author@example.com")]
    requires s.follows == {FollowEdge(ObjectId(2), ObjectId(1))}
    ensures FeedAuthorsKnown(s, ObjectId(2))
    ensures |GetFeed(lib, s, ObjectId(2))| == 2
    ensures GetFeed(lib, s, ObjectId(2))[0].createdDate < GetFeed(lib, s, ObjectId(2))[1].createdDate
  {
    var followed := Followed(s.follows, ObjectId(2));
    assert FollowEdge(ObjectId(2), ObjectId(1)) in s.follows;
    assert followed == {ObjectId(1)};
    var st := MatchAuthorIn(followed);
    assert Admits(lib, st, s.posts[0]) && Admits(lib, st, s.posts[1]);
    assert s.posts[1..][1..] == [];
    assert Select(lib, s.posts, st) == s.posts;
    GetFeedCollectionOrder(lib, s, ObjectId(2));
  }

  // ---------------------------------------------------------------- search

  /** The stages of search keep only matching posts, most relevant first. */
  lemma SearchStages(lib: Libraries, posts: seq<PostDoc>, term: string)
    ensures var docs := ApplyStages(lib, posts, [MatchText(term)] + [SortByTextScore(term)]);
      (forall p :: p in docs ==> p in posts && lib.textMatch(term, p.title, p.body)) &&
      forall i, j :: 0 <= i < j < |docs| ==>
        lib.textScore(term, docs[i].title, docs[i].body) >= lib.textScore(term, docs[j].title, docs[j].body)
  {
    var all := [MatchText(term)] + [SortByTextScore(term)];
    assert all == [MatchText(term), SortByTextScore(term)];
    TwoStages(lib, posts, all[0], all[1]);
    var docs := ApplyStages(lib, posts, all);
    forall p | p in docs ensures p in posts && lib.textMatch(term, p.title, p.body) {
      ApplyStagesMembers(lib, posts, all, p);
      assert Admits(lib, all[0], p);
    }
    assert SortedDesc(docs, SortKey(lib, all[1]));
  }

  /** Post.search(searchTerm): rejects (None) a term that is not a string;
      otherwise the matching posts, most relevant first, none owned. */
  function Search(lib: Libraries, s: Snapshot, term: JsValue): (r: Option<seq<EnrichedPost>>)
    requires term.Str? ==> forall p :: p in s.posts && lib.textMatch(term.s, p.title, p.body) ==> p.author in s.users
    ensures r.None? <==> !term.Str?
    ensures r.Some? ==> forall i :: 0 <= i < |r.value| ==>
      !r.value[i].isVisitorOwner && lib.textMatch(term.s, r.value[i].title, r.value[i].body)
    ensures r.Some? ==> forall i, j :: 0 <= i < j < |r.value| ==>
      lib.textScore(term.s, r.value[i].title, r.value[i].body) >= lib.textScore(term.s, r.value[j].title, r.value[j].body)
  {
    if !term.Str? then None
    else
      SearchStages(lib, s.posts, term.s);
      Some(ReusablePostQuery(lib, s, [MatchText(term.s)], Undefined, [SortByTextScore(term.s)]))
  }
}
