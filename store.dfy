/** The MongoDB collections that models/Post.js reads and writes, held in
    memory: the posts collection as a sequence in insertion order (MongoDB
    leaves the order of a query without $sort open; the model fixes it to
    this one), the users collection keyed by _id, and the follows collection
    as a set of edges. */
module Store {
  import opened Externals

  /** A document of the posts collection: {_id, title, body, createdDate, author}.
      createdDate is a timestamp in milliseconds. */
  datatype PostDoc = PostDoc(id: ObjectId, title: string, body: string, createdDate: int, author: ObjectId)

  /** A document of the follows collection: authorId follows followedId. */
  datatype FollowEdge = FollowEdge(authorId: ObjectId, followedId: ObjectId)

  /** What a read query sees of the database. */
  datatype Snapshot = Snapshot(posts: seq<PostDoc>, users: map<ObjectId, UserDoc>, follows: set<FollowEdge>)

  predicate HasId(posts: seq<PostDoc>, id: ObjectId)
  {
    exists i :: 0 <= i < |posts| && posts[i].id == id
  }

  /** _id is the collection's primary key. */
  predicate UniqueIds(posts: seq<PostDoc>)
  {
    forall i, j :: 0 <= i < j < |posts| ==> posts[i].id != posts[j].id
  }

  /** Position of the first post with the given id. */
  function IndexOf(posts: seq<PostDoc>, id: ObjectId): (k: nat)
    requires HasId(posts, id)
    ensures k < |posts| && posts[k].id == id
    ensures forall j :: 0 <= j < k ==> posts[j].id != id
  {
    if posts[0].id == id then 0 else IndexOf(posts[1..], id) + 1
  }

  /** The collection after findOneAndUpdate({_id: id}, {$set: {title, body}}):
      the first post with that id gets the new title and body, and nothing
      else changes. */
  function SetTitleBody(posts: seq<PostDoc>, id: ObjectId, title: string, body: string): (r: seq<PostDoc>)
    ensures |r| == |posts|
    ensures forall i :: 0 <= i < |r| ==>
      r[i].id == posts[i].id && r[i].createdDate == posts[i].createdDate && r[i].author == posts[i].author
    ensures !HasId(posts, id) ==> r == posts
    ensures HasId(posts, id) ==>
      var k := IndexOf(posts, id);
      r[k].title == title && r[k].body == body &&
      forall i :: 0 <= i < |r| && i != k ==> r[i] == posts[i]
  {
    if posts == [] then []
    else if posts[0].id == id then [posts[0].(title := title, body := body)] + posts[1..]
    else [posts[0]] + SetTitleBody(posts[1..], id, title, body)
  }

  /** The collection after deleteOne({_id: id}): the first post with that id is
      gone, the others keep their order. */
  function Without(posts: seq<PostDoc>, id: ObjectId): (r: seq<PostDoc>)
    ensures !HasId(posts, id) ==> r == posts
    ensures |r| == if HasId(posts, id) then |posts| - 1 else |posts|
  {
    if posts == [] then []
    else if posts[0].id == id then posts[1..]
    else [posts[0]] + Without(posts[1..], id)
  }

  /** deleteOne removes the FIRST post with the id and keeps the others in order. */
  lemma {:induction false} WithoutAt(posts: seq<PostDoc>, id: ObjectId)
    requires HasId(posts, id)
    ensures Without(posts, id) == posts[..IndexOf(posts, id)] + posts[IndexOf(posts, id) + 1..]
  {
    if posts[0].id != id {
      var tail := posts[1..];
      var k :| 0 <= k < |posts| && posts[k].id == id;
      assert tail[k - 1].id == id;
      WithoutAt(tail, id);
      assert IndexOf(posts, id) == IndexOf(tail, id) + 1;
      assert posts[..IndexOf(posts, id)] == [posts[0]] + tail[..IndexOf(tail, id)];
    }
  }

  /** Two posts of a collection with unique ids that share an id are the same
      post. */
  lemma SameIdSamePost(posts: seq<PostDoc>, p: PostDoc, q: PostDoc)
    requires UniqueIds(posts)
    requires p in posts && q in posts && p.id == q.id
    ensures p == q
  {
  }

  /** Deleting a post removes exactly the posts with that id (in a collection
      with unique ids, that post alone). */
  lemma {:induction false} WithoutMembers(posts: seq<PostDoc>, id: ObjectId)
    requires UniqueIds(posts)
    ensures forall p :: p in Without(posts, id) <==> p in posts && p.id != id
  {
    if posts != [] {
      assert forall p :: p in posts <==> p == posts[0] || p in posts[1..];
      if posts[0].id == id {
        assert forall i :: 0 < i < |posts| ==> posts[i].id != posts[0].id;
      } else {
        WithoutMembers(posts[1..], id);
        assert Without(posts, id) == [posts[0]] + Without(posts[1..], id);
      }
    }
  }

  /** Deleting a post keeps the ids unique. */
  lemma {:induction false} WithoutUnique(posts: seq<PostDoc>, id: ObjectId)
    requires UniqueIds(posts)
    ensures UniqueIds(Without(posts, id))
  {
    if posts != [] && posts[0].id != id {
      var tail := posts[1..];
      var rest := Without(tail, id);
      var r := [posts[0]] + rest;
      assert UniqueIds(tail);
      WithoutUnique(tail, id);
      WithoutMembers(tail, id);
      assert Without(posts, id) == r;
      forall i, j | 0 <= i < j < |r| ensures r[i].id != r[j].id {
        if i == 0 {
          assert rest[j - 1] in tail;
          var m :| 0 <= m < |tail| && tail[m] == rest[j - 1];
          assert posts[m + 1] == rest[j - 1];
        } else {
          assert r[i] == rest[i - 1] && r[j] == rest[j - 1];
        }
      }
    }
  }

  /** The database: the three collections models/Post.js uses. Only the
      posts collection is written by the post model. */
  class Database {
    var posts: seq<PostDoc>
    var users: map<ObjectId, UserDoc>
    var follows: set<FollowEdge>

    ghost predicate Valid()
      reads this
    {
      UniqueIds(posts)
    }

    /** The collections as they are now, for the read queries. */
    function State(): Snapshot
      reads this
    {
      Snapshot(posts, users, follows)
    }

    constructor (users: map<ObjectId, UserDoc>, follows: set<FollowEdge>)
      ensures Valid()
      ensures posts == [] && this.users == users && this.follows == follows
    {
      posts := [];
      this.users := users;
      this.follows := follows;
    }

    /** postsCollection.insertOne(doc), with the _id the driver generated. */
    method InsertOne(doc: PostDoc)
      requires Valid()
      requires !HasId(posts, doc.id)
      modifies this`posts
      ensures Valid()
      ensures posts == old(posts) + [doc]
    {
      posts := posts + [doc];
    }

    /** postsCollection.findOneAndUpdate({_id: id}, {$set: {title, body}}). */
    method FindOneAndUpdate(id: ObjectId, title: string, body: string)
      requires Valid()
      modifies this`posts
      ensures Valid()
      ensures posts == SetTitleBody(old(posts), id, title, body)
    {
      posts := SetTitleBody(posts, id, title, body);
    }

    /** postsCollection.deleteOne({_id: id}). */
    method DeleteOne(id: ObjectId)
      requires Valid()
      modifies this`posts
      ensures Valid()
      ensures posts == Without(old(posts), id)
    {
      WithoutUnique(posts, id);
      posts := Without(posts, id);
    }
  }
}
