/** The collaborators of models/Post.js whose code is not part of this model:
    the MongoDB driver's ObjectId, the sanitize-html package, the User model's
    avatar and MongoDB's text index. Each is a total function the caller
    supplies, so nothing is assumed about it beyond what a contract asks. */
module Externals {

  datatype Option<T> = None | Some(value: T)

  /** A MongoDB ObjectId. Only equality between ids is used; the twelve bytes
      are abstracted to a natural number. */
  datatype ObjectId = ObjectId(value: nat)

  /** A user document as stored in the users collection; the avatar is derived
      from it (by the User model, which is not part of this model). */
  datatype UserDoc = UserDoc(username: string, email: string)

  datatype Libraries = Libraries(
    /** sanitizeHTML(s, {allowedTags: [], allowedAttributes: []}) */
    sanitize: string -> string,
    /** ObjectId.isValid(s) for a string s */
    isValidId: string -> bool,
    /** new ObjectId(s) for a string s that isValidId accepts */
    parseId: string -> ObjectId,
    /** new User(userDoc, true).avatar */
    avatar: UserDoc -> string,
    /** whether a post with this title and body matches {$text: {$search: term}} */
    textMatch: (string, string, string) -> bool,
    /** the {$meta: "textScore"} of a matching post, scaled to an integer */
    textScore: (string, string, string) -> int)
}
