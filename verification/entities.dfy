/**
  The persisted records the services read and write. Identifiers are strings (the
  store generates UUIDs), timestamps are milliseconds since the epoch.
*/
module Entities {
  import opened Wrappers

  /** A registered user. `role` is '0' (admin) or '1' (member); `status` is 'A', 'I' or 'B'. */
  datatype User = User(
    id: string,
    username: string,
    email: string,
    fullName: string,
    role: string,
    status: string)

  /** Only the status values that the login decision distinguishes. */
  datatype PasswordStatus = Valid | Blocked | Expired

  /** One stored password of a user, with its failed-attempt counter and lock. */
  datatype PasswordRecord = PasswordRecord(
    id: string,
    userId: string,
    passwordHash: string,
    status: PasswordStatus,
    attempts: nat,
    maxAttempts: nat,
    lockedUntil: Option<int>,
    createdAt: int)

  /** A login session: only a hash of the bearer token is kept. */
  datatype Session = Session(
    id: string,
    userId: string,
    tokenHash: string,
    expiresAt: int,
    revoked: bool)

  /** A pending friendship request from `senderId` to `receiverId`. */
  datatype Invite = Invite(id: string, senderId: string, receiverId: string, createdAt: int)

  /** An accepted invitation: `userAId` sent it, `userBId` accepted it. */
  datatype Connection = Connection(id: string, userAId: string, userBId: string, createdAt: int)

  /** The chat attached to one connection. */
  datatype Conversation = Conversation(id: string, connectionId: string)

  /** One (encrypted) chat message of a conversation. */
  datatype Message = Message(
    id: string,
    conversationId: string,
    senderId: string,
    receiverId: string,
    content: string,
    sentAt: int,
    isDeleted: bool)

  /** The claims a bearer token carries. */
  datatype AuthPayload = AuthPayload(userId: string, email: string, role: string)

  /** The public part of a user shown in invite and connection listings. */
  datatype Profile = Profile(id: string, username: string, fullName: string)

  /** A user with the given id, if one exists. */
  function FindUserById(users: seq<User>, id: string): (r: Option<User>)
    ensures r.Some? ==> r.value in users && r.value.id == id
    ensures r.None? ==> forall u :: u in users ==> u.id != id
  {
    if |users| == 0 then None
    else if users[0].id == id then Some(users[0])
    else FindUserById(users[1..], id)
  }

  /** A user with the given username, if one exists. */
  function FindUserByUsername(users: seq<User>, username: string): (r: Option<User>)
    ensures r.Some? ==> r.value in users && r.value.username == username
    ensures r.None? ==> forall u :: u in users ==> u.username != username
  {
    if |users| == 0 then None
    else if users[0].username == username then Some(users[0])
    else FindUserByUsername(users[1..], username)
  }

  /** A user with the given e-mail address, if one exists. */
  function FindUserByEmail(users: seq<User>, email: string): (r: Option<User>)
    ensures r.Some? ==> r.value in users && r.value.email == email
    ensures r.None? ==> forall u :: u in users ==> u.email != email
  {
    if |users| == 0 then None
    else if users[0].email == email then Some(users[0])
    else FindUserByEmail(users[1..], email)
  }

  /** The longest length among `ids`. */
  function MaxLength(ids: seq<string>): (m: nat)
    ensures forall i :: 0 <= i < |ids| ==> |ids[i]| <= m
  {
    if |ids| == 0 then 0
    else
      var rest := MaxLength(ids[1..]);
      assert forall i :: 1 <= i < |ids| ==> ids[i] == ids[1..][i - 1];
      if |ids[0]| > rest then |ids[0]| else rest
  }

  /**
    The identifier the store assigns to a new row: any id not yet in use. The
    store draws a random UUID; the model builds one longer than every used id.
  */
  function FreshId(used: seq<string>): (r: string)
    ensures r !in used
  {
    var n := MaxLength(used) + 1;
    seq(n, _ => '#')
  }
}
