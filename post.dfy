/** The write side of models/Post.js: the draft Post object, which cleans and
    validates a request body and creates or updates a post, and Post.delete. */
module Posts {
  import opened Js
  import opened Externals
  import opened Store
  import opened Queries

  const TitleMissing := "You must provide a title"
  const BodyMissing := "You must provide some content for the post"
  const InsertFailed := "Sorry, something was wrong, please try again later."

  /** this.data: the request body as received (any keys, any values), or the
      record cleanUp replaces it with. */
  datatype Data =
    | Raw(fields: map<string, JsValue>)
    | Clean(title: string, body: string, createdDate: int, author: ObjectId)

  /** A field of data as a string: its value when it is a string, "" when it
      is absent or of another type. */
  function StringField(d: Data, key: string): (r: string)
    ensures d.Raw? && !(key in d.fields && d.fields[key].Str?) ==> r == ""
  {
    match d
    case Raw(fields) => if key in fields && fields[key].Str? then fields[key].s else ""
    case Clean(title, body, _, _) => if key == "title" then title else if key == "body" then body else ""
  }

  /** The record cleanUp leaves in data: the trimmed, sanitized title and
      body, the clock's time and the acting user, and nothing else. */
  function Cleaned(lib: Libraries, d: Data, now: int, userid: ObjectId): (r: Data)
    ensures r.Clean? && r.createdDate == now && r.author == userid
  {
    Clean(lib.sanitize(Trim(StringField(d, "title"))), lib.sanitize(Trim(StringField(d, "body"))), now, userid)
  }

  /** The messages validate adds, in order. */
  function ValidationErrors(title: string, body: string): (r: seq<string>)
    ensures |r| == (if title == "" then 1 else 0) + (if body == "" then 1 else 0)
    ensures TitleMissing in r <==> title == ""
    ensures BodyMissing in r <==> body == ""
    ensures title == "" ==> r[0] == TitleMissing
    ensures body == "" ==> r[|r| - 1] == BodyMissing
  {
    (if title == "" then [TitleMissing] else []) + (if body == "" then [BodyMissing] else [])
  }

  /** A title that is missing, not a string, or whitespace only is reported
      first, provided sanitize-html maps "" to "". */
  lemma BlankTitleReported(lib: Libraries, d: Data, now: int, userid: ObjectId)
    requires lib.sanitize("") == ""
    requires AllWhitespace(StringField(d, "title"))
    ensures var c := Cleaned(lib, d, now, userid);
      |ValidationErrors(c.title, c.body)| > 0 && ValidationErrors(c.title, c.body)[0] == TitleMissing
  {
    TrimEmptyIff(StringField(d, "title"));
  }

  /** A body that is missing, not a string, or whitespace only is reported
      last, provided sanitize-html maps "" to "". */
  lemma BlankBodyReported(lib: Libraries, d: Data, now: int, userid: ObjectId)
    requires lib.sanitize("") == ""
    requires AllWhitespace(StringField(d, "body"))
    ensures var c := Cleaned(lib, d, now, userid);
      var v := ValidationErrors(c.title, c.body);
      |v| > 0 && v[|v| - 1] == BodyMissing
  {
    TrimEmptyIff(StringField(d, "body"));
  }

  /** A string title that is still non-empty after trimming and sanitizing
      becomes the cleaned title and is not reported. */
  lemma NonBlankTitleNotReported(lib: Libraries, f: map<string, JsValue>, t: string, now: int, userid: ObjectId)
    requires "title" in f && f["title"] == Str(t)
    requires lib.sanitize(Trim(t)) != ""
    ensures var c := Cleaned(lib, Raw(f), now, userid);
      c.title == lib.sanitize(Trim(t)) && TitleMissing !in ValidationErrors(c.title, c.body)
  {
  }

  /** A string body that is still non-empty after trimming and sanitizing
      becomes the cleaned body and is not reported. */
  lemma NonBlankBodyNotReported(lib: Libraries, f: map<string, JsValue>, t: string, now: int, userid: ObjectId)
    requires "body" in f && f["body"] == Str(t)
    requires lib.sanitize(Trim(t)) != ""
    ensures var c := Cleaned(lib, Raw(f), now, userid);
      c.body == lib.sanitize(Trim(t)) && BodyMissing !in ValidationErrors(c.title, c.body)
  {
  }

  /** Keys of the request body other than title and body have no effect on
      the cleaned record. */
  lemma CleanedIgnoresOtherFields(lib: Libraries, f: map<string, JsValue>, g: map<string, JsValue>, now: int, userid: ObjectId)
    requires ("title" in f <==> "title" in g) && ("title" in f ==> f["title"] == g["title"])
    requires ("body" in f <==> "body" in g) && ("body" in f ==> f["body"] == g["body"])
    ensures Cleaned(lib, Raw(f), now, userid) == Cleaned(lib, Raw(g), now, userid)
  {
  }

  datatype CreateOutcome = Created(id: ObjectId) | CreateRejected(errors: seq<string>)

  /** What update's promise does: resolves with a status, or rejects with no value. */
  datatype UpdateOutcome = Resolved(status: string) | Rejected

  /** new Post(data, userid, requestedPostId) */
  class Post {
    var data: Data
    var errors: seq<string>
    const userid: ObjectId
    const requestedPostId: JsValue

    constructor (data: Data, userid: ObjectId, requestedPostId: JsValue)
      ensures this.data == data && errors == []
      ensures this.userid == userid && this.requestedPostId == requestedPostId
    {
      this.data := data;
      errors := [];
      this.userid := userid;
      this.requestedPostId := requestedPostId;
    }

    /** cleanUp: a title or body that is not a string first becomes "", then
        data is replaced by the clean record. */
    method CleanUp(lib: Libraries, now: int)
      modifies this`data
      ensures data == Cleaned(lib, old(data), now, userid)
    {
      assert |"title"| != |"body"|;
      ghost var before := data;
      if data.Raw? && !("title" in data.fields && data.fields["title"].Str?) {
        data := Raw(data.fields["title" := Str("")]);
      }
      if data.Raw? && !("body" in data.fields && data.fields["body"].Str?) {
        data := Raw(data.fields["body" := Str("")]);
      }
      assert StringField(data, "title") == StringField(before, "title");
      assert StringField(data, "body") == StringField(before, "body");
      data := Clean(lib.sanitize(Trim(StringField(data, "title"))), lib.sanitize(Trim(StringField(data, "body"))),
                    now, userid);
    }

    /** validate: runs on cleaned data only. */
    method Validate()
      requires data.Clean?
      modifies this`errors
      ensures errors == old(errors) + ValidationErrors(data.title, data.body)
    {
      if data.title == "" {
        errors := errors + [TitleMissing];
      }
      if data.body == "" {
        errors := errors + [BodyMissing];
      }
    }

    /** create: cleans and validates; with no errors inserts the post, whose
        _id the driver supplies as insertedId. insertFails stands for a failed
        insertOne. */
    method Create(db: Database, lib: Libraries, now: int, insertedId: ObjectId, insertFails: bool)
      returns (outcome: CreateOutcome)
      requires db.Valid() && !HasId(db.posts, insertedId)
      modifies this`data, this`errors, db`posts
      ensures db.Valid()
      ensures data == Cleaned(lib, old(data), now, userid)
      ensures old(errors) + ValidationErrors(data.title, data.body) != [] ==>
        errors == old(errors) + ValidationErrors(data.title, data.body) &&
        outcome == CreateRejected(errors) && db.posts == old(db.posts)
      ensures old(errors) + ValidationErrors(data.title, data.body) == [] && insertFails ==>
        errors == [InsertFailed] && outcome == CreateRejected(errors) && db.posts == old(db.posts)
      ensures old(errors) + ValidationErrors(data.title, data.body) == [] && !insertFails ==>
        errors == [] && outcome == Created(insertedId) &&
        db.posts == old(db.posts) + [PostDoc(insertedId, data.title, data.body, now, userid)]
    {
      CleanUp(lib, now);
      Validate();
      if errors == [] {
        if insertFails {
          errors := errors + [InsertFailed];
          outcome := CreateRejected(errors);
        } else {
          db.InsertOne(PostDoc(insertedId, data.title, data.body, data.createdDate, data.author));
          outcome := Created(insertedId);
        }
      } else {
        outcome := CreateRejected(errors);
      }
    }

    /** update: rejects unless the requested post exists and the user is its
        author; otherwise the result of actuallyUpdate. */
    method Update(db: Database, lib: Libraries, now: int) returns (outcome: UpdateOutcome)
      requires db.Valid() && RequestedAuthorKnown(lib, db.State(), requestedPostId)
      modifies this`data, this`errors, db`posts
      ensures db.Valid()
      ensures outcome.Rejected? <==> !VisitorOwns(lib, old(db.posts), requestedPostId, Visitor(userid))
      ensures outcome.Rejected? ==> data == old(data) && errors == old(errors) && db.posts == old(db.posts)
      ensures outcome.Resolved? ==>
        data == Cleaned(lib, old(data), now, userid) &&
        errors == old(errors) + ValidationErrors(data.title, data.body) &&
        if errors == [] then
          outcome.status == "success" &&
          db.posts == SetTitleBody(old(db.posts), lib.parseId(requestedPostId.s), data.title, data.body)
        else
          outcome.status == "failure" && db.posts == old(db.posts)
      ensures |db.posts| == |old(db.posts)|
      ensures forall i :: 0 <= i < |db.posts| ==>
        db.posts[i].id == old(db.posts)[i].id && db.posts[i].createdDate == old(db.posts)[i].createdDate &&
        db.posts[i].author == old(db.posts)[i].author
    {
      var found := FindSingleById(lib, db.State(), requestedPostId, Visitor(userid));
      FindSingleByIdOwner(lib, db.State(), requestedPostId, Visitor(userid));
      if found.Some? && found.value.isVisitorOwner {
        var status := ActuallyUpdate(db, lib, now);
        outcome := Resolved(status);
      } else {
        outcome := Rejected;
      }
    }

    /** actuallyUpdate: cleans and validates; with no errors sets only the
        title and body of the requested post. */
    method ActuallyUpdate(db: Database, lib: Libraries, now: int) returns (status: string)
      requires db.Valid() && IsPostId(lib, requestedPostId)
      modifies this`data, this`errors, db`posts
      ensures db.Valid()
      ensures data == Cleaned(lib, old(data), now, userid)
      ensures errors == old(errors) + ValidationErrors(data.title, data.body)
      ensures errors == [] ==>
        status == "success" &&
        db.posts == SetTitleBody(old(db.posts), lib.parseId(requestedPostId.s), data.title, data.body)
      ensures errors != [] ==> status == "failure" && db.posts == old(db.posts)
    {
      CleanUp(lib, now);
      Validate();
      if errors == [] {
        db.FindOneAndUpdate(lib.parseId(requestedPostId.s), data.title, data.body);
        status := "success";
      } else {
        status := "failure";
      }
    }
  }

  /** Post.delete(postIdToDelete, currentUserId): resolves (true) and deletes
      the post when it exists and the user is its author; otherwise rejects
      (false) and writes nothing. */
  method Delete(db: Database, lib: Libraries, postIdToDelete: JsValue, currentUserId: ObjectId) returns (resolved: bool)
    requires db.Valid() && RequestedAuthorKnown(lib, db.State(), postIdToDelete)
    modifies db`posts
    ensures db.Valid()
    ensures resolved <==> VisitorOwns(lib, old(db.posts), postIdToDelete, Visitor(currentUserId))
    ensures resolved ==>
      db.posts == Without(old(db.posts), lib.parseId(postIdToDelete.s)) &&
      |db.posts| == |old(db.posts)| - 1 &&
      forall p :: p in db.posts <==> p in old(db.posts) && p.id != lib.parseId(postIdToDelete.s)
    ensures !resolved ==> db.posts == old(db.posts)
  {
    var found := FindSingleById(lib, db.State(), postIdToDelete, Visitor(currentUserId));
    FindSingleByIdOwner(lib, db.State(), postIdToDelete, Visitor(currentUserId));
    if found.Some? && found.value.isVisitorOwner {
      WithoutMembers(db.posts, lib.parseId(postIdToDelete.s));
      db.DeleteOne(lib.parseId(postIdToDelete.s));
      resolved := true;
    } else {
      resolved := false;
    }
  }
}
