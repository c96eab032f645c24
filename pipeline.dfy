/** The aggregation stages models/Post.js builds, evaluated over the posts
    collection: each $match stage keeps the posts it admits in their order,
    each $sort stage reorders by a key, newest or most relevant first. */
module Pipeline {
  import opened Externals
  import opened Store

  datatype Stage =
    | MatchId(id: ObjectId)                   // {$match: {_id: id}}
    | MatchAuthor(author: ObjectId)           // {$match: {author: author}}
    | MatchAuthorIn(authors: set<ObjectId>)   // {$match: {author: {$in: authors}}}
    | MatchText(term: string)                 // {$match: {$text: {$search: term}}}
    | SortByDateDesc                          // {$sort: {createdDate: -1}}
    | SortByTextScore(term: string)           // {$sort: {score: {$meta: "textScore"}}}
  {
    predicate IsSort() { SortByDateDesc? || SortByTextScore? }
  }

  /** Whether a $match stage lets a post through; a $sort stage lets every post through. */
  predicate Admits(lib: Libraries, st: Stage, p: PostDoc)
  {
    match st
    case MatchId(id) => p.id == id
    case MatchAuthor(a) => p.author == a
    case MatchAuthorIn(authors) => p.author in authors
    case MatchText(term) => lib.textMatch(term, p.title, p.body)
    case SortByDateDesc => true
    case SortByTextScore(_) => true
  }

  /** The key a $sort stage orders by, largest first. */
  function SortKey(lib: Libraries, st: Stage): PostDoc -> int
  {
    match st
    case SortByTextScore(term) => (p: PostDoc) => lib.textScore(term, p.title, p.body)
    case _ => (p: PostDoc) => p.createdDate
  }

  /** A $match stage: the posts it admits, in collection order. */
  function Select(lib: Libraries, posts: seq<PostDoc>, st: Stage): (r: seq<PostDoc>)
    ensures |r| <= |posts|
    ensures forall p :: p in r <==> p in posts && Admits(lib, st, p)
  {
    if posts == [] then []
    else if Admits(lib, st, posts[0]) then [posts[0]] + Select(lib, posts[1..], st)
    else Select(lib, posts[1..], st)
  }

  /** a is b with some elements left out, the rest in their order in b. */
  predicate IsSubsequence(a: seq<PostDoc>, b: seq<PostDoc>)
    decreases |b|
  {
    if a == [] then true
    else if b == [] then false
    else (a[0] == b[0] && IsSubsequence(a[1..], b[1..])) || IsSubsequence(a, b[1..])
  }

  /** A $match stage keeps the posts it admits in their input order. */
  lemma {:induction false} SelectSubsequence(lib: Libraries, posts: seq<PostDoc>, st: Stage)
    ensures IsSubsequence(Select(lib, posts, st), posts)
  {
    if posts != [] {
      SelectSubsequence(lib, posts[1..], st);
      var r := Select(lib, posts, st);
      if Admits(lib, st, posts[0]) {
        assert r[0] == posts[0] && r[1..] == Select(lib, posts[1..], st);
      }
    }
  }

  predicate SortedDesc(s: seq<PostDoc>, key: PostDoc -> int)
  {
    forall i, j :: 0 <= i < j < |s| ==> key(s[i]) >= key(s[j])
  }

  /** Inserts p into a list sorted largest first, before the first element
      with a smaller key. */
  function Insert(p: PostDoc, s: seq<PostDoc>, key: PostDoc -> int): (r: seq<PostDoc>)
    requires SortedDesc(s, key)
    ensures SortedDesc(r, key)
    ensures multiset(r) == multiset(s) + multiset{p}
  {
    if s == [] || key(p) >= key(s[0]) then [p] + s
    else
      var rest := Insert(p, s[1..], key);
      assert s == [s[0]] + s[1..];
      HeadStaysFirst(p, s, key, rest);
      [s[0]] + rest
  }

  /** Step of Insert: the head of s, larger than p, stays in front. */
  lemma HeadStaysFirst(p: PostDoc, s: seq<PostDoc>, key: PostDoc -> int, rest: seq<PostDoc>)
    requires s != [] && SortedDesc(s, key) && key(p) < key(s[0])
    requires SortedDesc(rest, key) && multiset(rest) == multiset(s[1..]) + multiset{p}
    ensures SortedDesc([s[0]] + rest, key)
  {
    var r := [s[0]] + rest;
    forall i, j | 0 <= i < j < |r| ensures key(r[i]) >= key(r[j]) {
      if i == 0 {
        var x := rest[j - 1];
        assert x in multiset(rest);
        if x != p {
          assert x in multiset(s[1..]);
          var m :| 0 <= m < |s[1..]| && s[1..][m] == x;
          assert s[m + 1] == x;
        }
      } else {
        assert r[i] == rest[i - 1] && r[j] == rest[j - 1];
      }
    }
  }

  /** A $sort stage, largest key first; posts with equal keys keep their
      collection order. */
  function SortDesc(s: seq<PostDoc>, key: PostDoc -> int): (r: seq<PostDoc>)
    ensures SortedDesc(r, key)
    ensures multiset(r) == multiset(s)
  {
    if s == [] then []
    else
      assert s == [s[0]] + s[1..];
      Insert(s[0], SortDesc(s[1..], key), key)
  }

  function ApplyStage(lib: Libraries, posts: seq<PostDoc>, st: Stage): seq<PostDoc>
  {
    if st.IsSort() then SortDesc(posts, SortKey(lib, st)) else Select(lib, posts, st)
  }

  /** The aggregation pipeline: the stages applied in order. */
  function ApplyStages(lib: Libraries, posts: seq<PostDoc>, ops: seq<Stage>): seq<PostDoc>
    decreases |ops|
  {
    if ops == [] then posts else ApplyStages(lib, ApplyStage(lib, posts, ops[0]), ops[1..])
  }

  /** One stage returns exactly the posts it admits. */
  lemma ApplyStageMembers(lib: Libraries, posts: seq<PostDoc>, st: Stage, x: PostDoc)
    ensures x in ApplyStage(lib, posts, st) <==> x in posts && Admits(lib, st, x)
  {
    if st.IsSort() {
      var r := SortDesc(posts, SortKey(lib, st));
      assert x in r <==> x in multiset(r);
    }
  }

  /** A pipeline returns exactly the posts every one of its stages admits. */
  lemma {:induction false} ApplyStagesMembers(lib: Libraries, posts: seq<PostDoc>, ops: seq<Stage>, x: PostDoc)
    ensures x in ApplyStages(lib, posts, ops) <==>
      x in posts && forall k :: 0 <= k < |ops| ==> Admits(lib, ops[k], x)
    decreases |ops|
  {
    if ops != [] {
      var next := ApplyStage(lib, posts, ops[0]);
      ApplyStagesMembers(lib, next, ops[1..], x);
      ApplyStageMembers(lib, posts, ops[0], x);
      var tailOk := forall k :: 0 <= k < |ops[1..]| ==> Admits(lib, ops[1..][k], x);
      var allOk := forall k :: 0 <= k < |ops| ==> Admits(lib, ops[k], x);
      assert allOk <==> Admits(lib, ops[0], x) && tailOk by {
        if allOk {
          forall k | 0 <= k < |ops[1..]| ensures Admits(lib, ops[1..][k], x) {
            assert ops[1..][k] == ops[k + 1];
          }
        }
        if Admits(lib, ops[0], x) && tailOk {
          forall k | 0 <= k < |ops| ensures Admits(lib, ops[k], x) {
            if k > 0 { assert ops[k] == ops[1..][k - 1]; }
          }
        }
      }
    }
  }

  /** Sorting keeps the number of posts. */
  lemma SortDescLength(s: seq<PostDoc>, key: PostDoc -> int)
    ensures |SortDesc(s, key)| == |s|
  {
    assert |multiset(SortDesc(s, key))| == |multiset(s)|;
  }
}
