/**
  The records the client exchanges with the server and keeps in page state:
  room members, file descriptions and the entries of a room's chat stream.
 */
module Entities {

  /** A possibly absent value: `undefined`/`null` in the client. */
  datatype Option<+T> = None | Some(value: T)

  /** A room member as the server reports it: the member's socket id and display name. */
  datatype User = User(id: string, username: string)

  /** A stored file as the file API returns it (`publicId`, `name`, `size`,
      `url`, `mimetype`); `publicId` may be missing on records that did not
      come from the public store. */
  datatype FileMeta = FileMeta(
    publicId: Option<string>,
    name: string,
    size: nat,
    url: string,
    mimetype: Option<string>,
    uploadedAt: Option<string>)

  /** One entry of a room's stream, as the server sends it with a `message` or
      `newFile` event: the sender, the chat text of a message, the file of a
      file share, and the server's timestamp (kept as text, never interpreted). */
  datatype StreamRecord = StreamRecord(
    user: User,
    text: Option<string>,
    fileInfo: Option<FileMeta>,
    time: string)

  /** The join request a join form hands to its page: the display name, the
      room id when one was entered, and whether a new private room is wanted
      (absent reads as `false` wherever the flag is checked in a condition). */
  datatype JoinData = JoinData(username: string, roomId: Option<string>, isPrivate: bool)

  /** A string used where JavaScript tests truthiness: present and non-empty. */
  predicate Truthy(s: Option<string>) {
    s.Some? && s.value != ""
  }

  /** `s || fallback` on an optional string: `s` when it is truthy, otherwise `fallback`. */
  function OrElse(s: Option<string>, fallback: string): (r: string)
    ensures Truthy(s) ==> r == s.value
    ensures !Truthy(s) ==> r == fallback
  {
    if Truthy(s) then s.value else fallback
  }
}
