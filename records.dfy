/** The records EasyChat's server passes around: what the external services
    answer, what a controller reports, and the Mongoose documents the core
    reads and writes (only the fields the core touches). */
module Records {

  type UserId = string
  type SocketId = string
  type MessageId = nat

  /** The answer of an external service (Google Translate, Cloudinary):
      a value, or the error it threw. */
  datatype Outcome<+T> = Ok(value: T) | Fail(error: string)

  /** A controller's JSON response: `{success: true, ...}` carrying a value,
      or `{success: false, message}`. */
  datatype Result<+T> = Success(value: T) | Failure(message: string)

  /** A stored message. An absent `text` is the empty string (the core only
      ever tests it for truthiness); `image` is the uploaded picture's URL. */
  datatype Message = Message(
    id: MessageId,
    senderId: UserId,
    receiverId: UserId,
    text: string,
    image: Option<string>,
    seen: bool)

  datatype Option<+T> = None | Some(value: T)

  /** What a reader is sent for a message: the record (its `text` possibly
      replaced by a translation) and the `isTranslated` field, which is
      absent (`None`) when the message was passed through untouched. */
  datatype View = View(record: Message, isTranslated: Option<bool>)

  /** A stored user. `password` holds whatever the hash function produced. */
  datatype User = User(
    id: UserId,
    fullName: string,
    email: string,
    password: string,
    bio: string,
    profilePic: string,
    preferredLanguage: string)

  /** One entry of the supported-language catalogue. */
  datatype Language = Language(code: string, name: string)

  /** What socket.io emits: `io.emit("getOnlineUsers", keys)` to everybody,
      or `io.to(socket).emit("newMessage", view)` to one connection. */
  datatype Event =
    | GetOnlineUsers(userIds: seq<UserId>)
    | NewMessage(to: SocketId, view: View)
}
