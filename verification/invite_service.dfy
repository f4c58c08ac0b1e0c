/**
  Invitations between users and the connections they turn into. The store is a
  value; every operation returns its reply together with the store it leaves.
  `acceptInvite`'s transaction is one step. New row ids come from `FreshId`, and
  `now` is the creation time the store stamps on new rows.
*/
module InviteService {
  import opened Wrappers
  import opened Entities
  import opened Seqs
  import opened Sorting
  import opened Pagination

  datatype Store = Store(
    users: seq<User>,
    invites: seq<Invite>,
    connections: seq<Connection>,
    conversations: seq<Conversation>)

  /** One error per message the service throws. */
  datatype InviteError =
    | MissingSender
    | MissingReceiverUsername
    | SenderNotFound
    | ReceiverNotFound
    | SelfInvite
    | AlreadyConnected
    | InviteExists
    | InvalidInvite
    | SenderGone
    | AlreadyConnectedOnAccept

  function InviteErrorMessage(e: InviteError): string
  {
    match e
    case MissingSender => "Remetente não informado."
    case MissingReceiverUsername => "Username do destinatário não informado."
    case SenderNotFound => "Usuário remetente não encontrado."
    case ReceiverNotFound => "Usuário destinatário não encontrado."
    case SelfInvite => "Você não pode enviar um convite para si mesmo."
    case AlreadyConnected => "Você já está conectado com esse usuário."
    case InviteExists => "Já existe um convite entre esses usuários."
    case InvalidInvite => "Convite inválido ou não pertence a você."
    case SenderGone => "O remetente do convite não existe mais."
    case AlreadyConnectedOnAccept => "Vocês já estão conectados."
  }

  /** The reply (a success message or an error) and the store afterwards. */
  datatype Reply = Reply(outcome: Result<string, InviteError>, store: Store)

  /** `x`–`y` and `a`–`b` are the same unordered pair of users. */
  predicate SamePair(x: string, y: string, a: string, b: string)
  {
    (x == a && y == b) || (x == b && y == a)
  }

  /** A connection joins `a` and `b`, in either direction. */
  predicate ConnectedEither(connections: seq<Connection>, a: string, b: string)
  {
    exists k :: 0 <= k < |connections| && SamePair(connections[k].userAId, connections[k].userBId, a, b)
  }

  /** An invite joins `a` and `b`, in either direction. */
  predicate InvitedEither(invites: seq<Invite>, a: string, b: string)
  {
    exists k :: 0 <= k < |invites| && SamePair(invites[k].senderId, invites[k].receiverId, a, b)
  }

  function InviteIds(invites: seq<Invite>): (ids: seq<string>)
    ensures |ids| == |invites|
    ensures forall k :: 0 <= k < |invites| ==> ids[k] == invites[k].id
  {
    seq(|invites|, k requires 0 <= k < |invites| => invites[k].id)
  }

  function ConnectionIds(connections: seq<Connection>): (ids: seq<string>)
    ensures |ids| == |connections|
    ensures forall k :: 0 <= k < |connections| ==> ids[k] == connections[k].id
  {
    seq(|connections|, k requires 0 <= k < |connections| => connections[k].id)
  }

  function ConversationIds(conversations: seq<Conversation>): (ids: seq<string>)
    ensures |ids| == |conversations|
    ensures forall k :: 0 <= k < |conversations| ==> ids[k] == conversations[k].id
  {
    seq(|conversations|, k requires 0 <= k < |conversations| => conversations[k].id)
  }

  /** The invite with the given id, if there is one. */
  function FindInvite(invites: seq<Invite>, id: string): (r: Option<Invite>)
    ensures r.Some? ==> r.value in invites && r.value.id == id
    ensures r.None? ==> forall k :: 0 <= k < |invites| ==> invites[k].id != id
  {
    if |invites| == 0 then None
    else if invites[0].id == id then Some(invites[0])
    else FindInvite(invites[1..], id)
  }

  /** No two stored invites share an id. */
  ghost predicate InviteIdsUnique(invites: seq<Invite>)
  {
    forall i, j :: 0 <= i < j < |invites| ==> invites[i].id != invites[j].id
  }

  /** The invites without the one whose id is given. */
  function RemoveInvite(invites: seq<Invite>, id: string): (r: seq<Invite>)
    ensures forall x :: x in r <==> x in invites && x.id != id
    ensures |r| <= |invites|
    ensures (forall k :: 0 <= k < |invites| ==> invites[k].id != id) ==> r == invites
  {
    if |invites| == 0 then []
    else
      var rest := RemoveInvite(invites[1..], id);
      assert invites == [invites[0]] + invites[1..];
      if invites[0].id == id then rest else [invites[0]] + rest
  }

  /**
    Removing keeps ids unique, and when ids are unique and one invite has the id,
    exactly that one goes.
  */
  lemma {:induction false} RemoveInviteFacts(invites: seq<Invite>, id: string)
    ensures InviteIdsUnique(invites) ==> InviteIdsUnique(RemoveInvite(invites, id))
    ensures InviteIdsUnique(invites) && (exists k :: 0 <= k < |invites| && invites[k].id == id) ==>
              |RemoveInvite(invites, id)| == |invites| - 1
  {
    if |invites| > 0 {
      var rest := RemoveInvite(invites[1..], id);
      RemoveInviteFacts(invites[1..], id);
      assert invites == [invites[0]] + invites[1..];
      UniqueTail(invites);
      if InviteIdsUnique(invites) {
        if invites[0].id == id {
          HeadIdOnlyOnce(invites);
        } else {
          forall k | 0 <= k < |rest| ensures rest[k].id != invites[0].id {
            assert rest[k] in invites[1..];
            UniqueHeadDiffers(invites, rest[k]);
          }
          ConsKeepsUnique(invites[0], rest);
          CountInTail(invites, id);
        }
      }
    }
  }

  lemma HeadIdOnlyOnce(invites: seq<Invite>)
    requires |invites| > 0 && InviteIdsUnique(invites)
    ensures forall k :: 0 <= k < |invites[1..]| ==> invites[1..][k].id != invites[0].id
  {
    forall k | 0 <= k < |invites[1..]| ensures invites[1..][k].id != invites[0].id {
      assert invites[1..][k] == invites[k + 1];
    }
  }

  lemma CountInTail(invites: seq<Invite>, id: string)
    requires |invites| > 0 && invites[0].id != id
    ensures (exists k :: 0 <= k < |invites| && invites[k].id == id) ==>
              exists k :: 0 <= k < |invites[1..]| && invites[1..][k].id == id
  {
    if exists k :: 0 <= k < |invites| && invites[k].id == id {
      var k :| 0 <= k < |invites| && invites[k].id == id;
      assert invites[1..][k - 1].id == id;
    }
  }

  lemma UniqueTail(invites: seq<Invite>)
    requires |invites| > 0
    ensures InviteIdsUnique(invites) ==> InviteIdsUnique(invites[1..])
  {
  }

  lemma UniqueHeadDiffers(invites: seq<Invite>, x: Invite)
    requires |invites| > 0 && InviteIdsUnique(invites) && x in invites[1..]
    ensures x.id != invites[0].id
  {
    var k :| 0 <= k < |invites[1..]| && invites[1..][k] == x;
    assert invites[k + 1] == x;
  }

  lemma ConsKeepsUnique(head: Invite, rest: seq<Invite>)
    requires forall k :: 0 <= k < |rest| ==> rest[k].id != head.id
    ensures InviteIdsUnique(rest) ==> InviteIdsUnique([head] + rest)
  {
    var r := [head] + rest;
    assert forall k :: 1 <= k < |r| ==> r[k] == rest[k - 1];
  }

  /** Invite ids are unique, no user invites themself, and at most one invite joins any pair. */
  ghost predicate InvitesWellFormed(invites: seq<Invite>)
  {
    && InviteIdsUnique(invites)
    && (forall x :: x in invites ==> x.senderId != x.receiverId)
    && (forall x, y :: x in invites && y in invites && SamePair(x.senderId, x.receiverId, y.senderId, y.receiverId)
          ==> x == y)
  }

  /** No user is connected with themself, and at most one connection joins any pair. */
  ghost predicate ConnectionsWellFormed(connections: seq<Connection>)
  {
    && (forall c :: c in connections ==> c.userAId != c.userBId)
    && (forall c, d :: c in connections && d in connections && SamePair(c.userAId, c.userBId, d.userAId, d.userBId)
          ==> c == d)
  }

  /** No invite is pending between two connected users. */
  ghost predicate NoInviteJoinsConnected(invites: seq<Invite>, connections: seq<Connection>)
  {
    forall x, c :: x in invites && c in connections ==> !SamePair(x.senderId, x.receiverId, c.userAId, c.userBId)
  }

  /** Every connection has a conversation. */
  ghost predicate ConnectionsHaveConversations(connections: seq<Connection>, conversations: seq<Conversation>)
  {
    forall c :: c in connections ==> exists v :: v in conversations && v.connectionId == c.id
  }

  /** Every conversation belongs to a stored connection. */
  ghost predicate ConversationsHaveConnections(connections: seq<Connection>, conversations: seq<Conversation>)
  {
    forall v :: v in conversations ==> exists c :: c in connections && c.id == v.connectionId
  }

  /** No two conversations belong to the same connection. */
  ghost predicate OneConversationPerConnection(conversations: seq<Conversation>)
  {
    forall v, w :: v in conversations && w in conversations && v.connectionId == w.connectionId ==> v == w
  }

  /** Connections and conversations correspond one to one. */
  ghost predicate ConversationsMatchConnections(connections: seq<Connection>, conversations: seq<Conversation>)
  {
    && ConnectionsHaveConversations(connections, conversations)
    && ConversationsHaveConnections(connections, conversations)
    && OneConversationPerConnection(conversations)
  }

  /** The consistency conditions the invite operations maintain. */
  ghost predicate Consistent(st: Store)
  {
    && InvitesWellFormed(st.invites)
    && ConnectionsWellFormed(st.connections)
    && NoInviteJoinsConnected(st.invites, st.connections)
    && ConversationsMatchConnections(st.connections, st.conversations)
  }

  /** All checks `sendInvite` makes pass. */
  predicate SendAllowed(st: Store, senderId: string, receiverUsername: string)
  {
    && senderId != ""
    && receiverUsername != ""
    && FindUserById(st.users, senderId).Some?
    && FindUserByUsername(st.users, receiverUsername).Some?
    && var receiverId := FindUserByUsername(st.users, receiverUsername).value.id;
    && senderId != receiverId
    && !ConnectedEither(st.connections, senderId, receiverId)
    && !InvitedEither(st.invites, senderId, receiverId)
  }

  /** The checks `sendInvite` makes, in order; `None` when all pass. */
  function SendFailure(st: Store, senderId: string, receiverUsername: string): (e: Option<InviteError>)
    ensures e.None? <==> SendAllowed(st, senderId, receiverUsername)
  {
    if senderId == "" then Some(MissingSender)
    else if receiverUsername == "" then Some(MissingReceiverUsername)
    else if FindUserById(st.users, senderId).None? then Some(SenderNotFound)
    else if FindUserByUsername(st.users, receiverUsername).None? then Some(ReceiverNotFound)
    else
      var receiverId := FindUserByUsername(st.users, receiverUsername).value.id;
      if senderId == receiverId then Some(SelfInvite)
      else if ConnectedEither(st.connections, senderId, receiverId) then Some(AlreadyConnected)
      else if InvitedEither(st.invites, senderId, receiverId) then Some(InviteExists)
      else None
  }

  /** `sendInvite`: records an invite from the sender to the user with the given username. */
  function SendInvite(st: Store, senderId: string, receiverUsername: string, now: int): (r: Reply)
    ensures r.outcome.Ok? <==> SendAllowed(st, senderId, receiverUsername)
    ensures r.outcome.Err? ==> r.store == st && Some(r.outcome.error) == SendFailure(st, senderId, receiverUsername)
    ensures senderId == "" ==> r.outcome == Err(MissingSender)
    ensures senderId != "" && receiverUsername == "" ==> r.outcome == Err(MissingReceiverUsername)
    ensures senderId != "" && receiverUsername != "" && FindUserById(st.users, senderId).None? ==>
              r.outcome == Err(SenderNotFound)
    ensures r.outcome == Err(SelfInvite) ==>
              FindUserByUsername(st.users, receiverUsername).Some?
              && FindUserByUsername(st.users, receiverUsername).value.id == senderId
    ensures r.outcome.Ok? ==>
              && r.store.users == st.users
              && r.store.connections == st.connections
              && r.store.conversations == st.conversations
              && |r.store.invites| == |st.invites| + 1
              && r.store.invites[..|st.invites|] == st.invites
              && var added := r.store.invites[|st.invites|];
              && added.senderId == senderId
              && added.receiverId == FindUserByUsername(st.users, receiverUsername).value.id
              && added.createdAt == now
              && (forall k :: 0 <= k < |st.invites| ==> st.invites[k].id != added.id)
  {
    if senderId == "" then Reply(Err(MissingSender), st)
    else if receiverUsername == "" then Reply(Err(MissingReceiverUsername), st)
    else
      var sender := FindUserById(st.users, senderId);
      var receiver := FindUserByUsername(st.users, receiverUsername);
      if sender.None? then Reply(Err(SenderNotFound), st)
      else if receiver.None? then Reply(Err(ReceiverNotFound), st)
      else if senderId == receiver.value.id then Reply(Err(SelfInvite), st)
      else if ConnectedEither(st.connections, sender.value.id, receiver.value.id) then Reply(Err(AlreadyConnected), st)
      else if InvitedEither(st.invites, sender.value.id, receiver.value.id) then Reply(Err(InviteExists), st)
      else
        var ids := InviteIds(st.invites);
        var invite := Invite(FreshId(ids), sender.value.id, receiver.value.id, now);
        assert forall k :: 0 <= k < |st.invites| ==> st.invites[k].id == ids[k];
        assert (st.invites + [invite])[..|st.invites|] == st.invites;
        Reply(Ok("Convite enviado com sucesso."), st.(invites := st.invites + [invite]))
  }

  /** The invite exists, is addressed to `receiverId`, its sender exists, and the two are not connected. */
  predicate AcceptAllowed(st: Store, inviteId: string, receiverId: string)
  {
    && FindInvite(st.invites, inviteId).Some?
    && var invite := FindInvite(st.invites, inviteId).value;
    && invite.receiverId == receiverId
    && FindUserById(st.users, invite.senderId).Some?
    && !ConnectedEither(st.connections, invite.senderId, invite.receiverId)
  }

  /** The checks `acceptInvite` makes, in order; `None` when all pass. */
  function AcceptFailure(st: Store, inviteId: string, receiverId: string): (e: Option<InviteError>)
    ensures e.None? <==> AcceptAllowed(st, inviteId, receiverId)
    ensures e == Some(InvalidInvite) <==>
              FindInvite(st.invites, inviteId).None? || FindInvite(st.invites, inviteId).value.receiverId != receiverId
    ensures e == Some(SenderGone) ==>
              FindInvite(st.invites, inviteId).Some?
              && FindUserById(st.users, FindInvite(st.invites, inviteId).value.senderId).None?
    ensures e.Some? ==> e.value in {InvalidInvite, SenderGone, AlreadyConnectedOnAccept}
  {
    var invite := FindInvite(st.invites, inviteId);
    if invite.None? || invite.value.receiverId != receiverId then Some(InvalidInvite)
    else if FindUserById(st.users, invite.value.senderId).None? then Some(SenderGone)
    else if ConnectedEither(st.connections, invite.value.senderId, invite.value.receiverId) then
      Some(AlreadyConnectedOnAccept)
    else None
  }

  /**
    `acceptInvite`: the invite's receiver turns it into a connection (sender as A,
    receiver as B) with a new conversation, and the invite is deleted, all at once.
  */
  function AcceptInvite(st: Store, inviteId: string, receiverId: string, now: int): (r: Reply)
    ensures r.outcome.Err? ==> r.store == st && Some(r.outcome.error) == AcceptFailure(st, inviteId, receiverId)
    ensures r.outcome.Ok? ==>
              && FindInvite(st.invites, inviteId).Some?
              && var invite := FindInvite(st.invites, inviteId).value;
              && invite.receiverId == receiverId
              && FindUserById(st.users, invite.senderId).Some?
              && !ConnectedEither(st.connections, invite.senderId, invite.receiverId)
              && r.store.users == st.users
              && (forall x :: x in r.store.invites <==> x in st.invites && x.id != inviteId)
              && |r.store.connections| == |st.connections| + 1
              && r.store.connections[..|st.connections|] == st.connections
              && var c := r.store.connections[|st.connections|];
              && c.userAId == invite.senderId && c.userBId == invite.receiverId && c.createdAt == now
              && (forall k :: 0 <= k < |st.connections| ==> st.connections[k].id != c.id)
              && |r.store.conversations| == |st.conversations| + 1
              && r.store.conversations[..|st.conversations|] == st.conversations
              && r.store.conversations[|st.conversations|].connectionId == c.id
    ensures r.outcome.Ok? <==> AcceptFailure(st, inviteId, receiverId).None?
  {
    match AcceptFailure(st, inviteId, receiverId)
    case Some(e) => Reply(Err(e), st)
    case None =>
      var invite := FindInvite(st.invites, inviteId).value;
      var connectionIds := ConnectionIds(st.connections);
      var conversationIds := ConversationIds(st.conversations);
      var connection := Connection(FreshId(connectionIds), invite.senderId, invite.receiverId, now);
      var conversation := Conversation(FreshId(conversationIds), connection.id);
      assert forall k :: 0 <= k < |st.connections| ==> st.connections[k].id == connectionIds[k];
      assert (st.connections + [connection])[..|st.connections|] == st.connections;
      assert (st.conversations + [conversation])[..|st.conversations|] == st.conversations;
      Reply(
        Ok("Conexão criada com sucesso."),
        st.(connections := st.connections + [connection],
            conversations := st.conversations + [conversation],
            invites := RemoveInvite(st.invites, invite.id)))
  }

  /** `rejectInvite`: the invite's receiver deletes it. */
  function RejectInvite(st: Store, inviteId: string, receiverId: string): (r: Reply)
    ensures r.outcome.Ok? <==>
              FindInvite(st.invites, inviteId).Some? && FindInvite(st.invites, inviteId).value.receiverId == receiverId
    ensures r.outcome.Err? ==> r.outcome.error == InvalidInvite && r.store == st
    ensures r.outcome.Ok? ==>
              && r.store == st.(invites := r.store.invites)
              && forall x :: x in r.store.invites <==> x in st.invites && x.id != inviteId
  {
    var invite := FindInvite(st.invites, inviteId);
    if invite.None? || invite.value.receiverId != receiverId then Reply(Err(InvalidInvite), st)
    else Reply(Ok("Convite rejeitado com sucesso."), st.(invites := RemoveInvite(st.invites, inviteId)))
  }

  /** `cancelInvite`: the invite's sender deletes it. */
  function CancelInvite(st: Store, inviteId: string, senderId: string): (r: Reply)
    ensures r.outcome.Ok? <==>
              FindInvite(st.invites, inviteId).Some? && FindInvite(st.invites, inviteId).value.senderId == senderId
    ensures r.outcome.Err? ==> r.outcome.error == InvalidInvite && r.store == st
    ensures r.outcome.Ok? ==>
              && r.store == st.(invites := r.store.invites)
              && forall x :: x in r.store.invites <==> x in st.invites && x.id != inviteId
  {
    var invite := FindInvite(st.invites, inviteId);
    if invite.None? || invite.value.senderId != senderId then Reply(Err(InvalidInvite), st)
    else Reply(Ok("Convite cancelado com sucesso."), st.(invites := RemoveInvite(st.invites, inviteId)))
  }

  /** `sendInvite` keeps the store consistent; in particular it never adds a second invite for a pair. */
  lemma SendInviteKeepsConsistent(st: Store, senderId: string, receiverUsername: string, now: int)
    requires Consistent(st)
    ensures Consistent(SendInvite(st, senderId, receiverUsername, now).store)
  {
    var r := SendInvite(st, senderId, receiverUsername, now);
    if r.outcome.Ok? {
      var added := r.store.invites[|st.invites|];
      assert r.store.invites == st.invites + [added];
      AddInviteKeepsWellFormed(st.invites, st.connections, added);
    }
  }

  lemma AddInviteKeepsWellFormed(invites: seq<Invite>, connections: seq<Connection>, added: Invite)
    requires InvitesWellFormed(invites) && NoInviteJoinsConnected(invites, connections)
    requires added.senderId != added.receiverId
    requires !InvitedEither(invites, added.senderId, added.receiverId)
    requires !ConnectedEither(connections, added.senderId, added.receiverId)
    requires forall k :: 0 <= k < |invites| ==> invites[k].id != added.id
    ensures InvitesWellFormed(invites + [added])
    ensures NoInviteJoinsConnected(invites + [added], connections)
  {
    var after := invites + [added];
    assert forall x :: x in after <==> x in invites || x == added;
    forall x | x in invites
      ensures !SamePair(x.senderId, x.receiverId, added.senderId, added.receiverId)
    {
      var k :| 0 <= k < |invites| && invites[k] == x;
    }
    forall c | c in connections
      ensures !SamePair(added.senderId, added.receiverId, c.userAId, c.userBId)
    {
      var k :| 0 <= k < |connections| && connections[k] == c;
    }
  }

  /** The one invite with a given id is the one `FindInvite` returns. */
  lemma {:induction false} FindInviteOfMember(invites: seq<Invite>, x: Invite)
    requires InviteIdsUnique(invites) && x in invites
    ensures FindInvite(invites, x.id) == Some(x)
  {
    if invites[0] != x {
      assert invites[0].id != x.id by {
        var k :| 0 <= k < |invites| && invites[k] == x;
      }
      assert x in invites[1..];
      assert InviteIdsUnique(invites[1..]) by {
        forall i, j | 0 <= i < j < |invites[1..]|
          ensures invites[1..][i].id != invites[1..][j].id
        {
          assert invites[1..][i] == invites[i + 1] && invites[1..][j] == invites[j + 1];
        }
      }
      FindInviteOfMember(invites[1..], x);
    }
  }

  /** Removing the accepted invite and connecting its pair leaves no invite between connected users. */
  lemma ConnectPairKeepsNoInvite(invites: seq<Invite>, connections: seq<Connection>, invite: Invite, c: Connection)
    requires InvitesWellFormed(invites) && NoInviteJoinsConnected(invites, connections)
    requires invite in invites
    requires SamePair(c.userAId, c.userBId, invite.senderId, invite.receiverId)
    ensures InvitesWellFormed(RemoveInvite(invites, invite.id))
    ensures NoInviteJoinsConnected(RemoveInvite(invites, invite.id), connections + [c])
  {
    var remaining := RemoveInvite(invites, invite.id);
    RemoveInviteFacts(invites, invite.id);
    assert forall d :: d in connections + [c] <==> d in connections || d == c;
    forall x | x in remaining
      ensures !SamePair(x.senderId, x.receiverId, c.userAId, c.userBId)
    {
      assert x in invites && x != invite;
    }
  }

  lemma AddConnectionKeepsWellFormed(connections: seq<Connection>, c: Connection)
    requires ConnectionsWellFormed(connections)
    requires c.userAId != c.userBId && !ConnectedEither(connections, c.userAId, c.userBId)
    ensures ConnectionsWellFormed(connections + [c])
  {
    assert forall d :: d in connections + [c] <==> d in connections || d == c;
    forall d | d in connections
      ensures !SamePair(c.userAId, c.userBId, d.userAId, d.userBId)
    {
      var k :| 0 <= k < |connections| && connections[k] == d;
    }
  }

  /** A connection id not in use is referenced by no conversation. */
  lemma FreshConnectionHasNoConversation(
    connections: seq<Connection>, conversations: seq<Conversation>, id: string)
    requires ConversationsHaveConnections(connections, conversations)
    requires forall k :: 0 <= k < |connections| ==> connections[k].id != id
    ensures forall w :: w in conversations ==> w.connectionId != id
  {
    forall w | w in conversations
      ensures w.connectionId != id
    {
      var d :| d in connections && d.id == w.connectionId;
      var k :| 0 <= k < |connections| && connections[k] == d;
    }
  }

  lemma AddConversationKeepsMatch(
    connections: seq<Connection>, conversations: seq<Conversation>, c: Connection, v: Conversation)
    requires ConversationsMatchConnections(connections, conversations)
    requires forall k :: 0 <= k < |connections| ==> connections[k].id != c.id
    requires v.connectionId == c.id
    ensures ConversationsMatchConnections(connections + [c], conversations + [v])
  {
    var cs := connections + [c];
    var vs := conversations + [v];
    FreshConnectionHasNoConversation(connections, conversations, c.id);
    assert OneConversationPerConnection(vs) by {
      assert forall w :: w in vs <==> w in conversations || w == v;
    }
    assert ConnectionsHaveConversations(cs, vs) by {
      forall d | d in cs
        ensures exists w :: w in vs && w.connectionId == d.id
      {
        if d == c {
          assert v in vs;
        } else {
          assert d in connections;
          var w :| w in conversations && w.connectionId == d.id;
          assert w in vs;
        }
      }
    }
    assert ConversationsHaveConnections(cs, vs) by {
      forall w | w in vs
        ensures exists d :: d in cs && d.id == w.connectionId
      {
        if w == v {
          assert c in cs;
        } else {
          assert w in conversations;
          var d :| d in connections && d.id == w.connectionId;
          assert d in cs;
        }
      }
    }
  }

  /**
    `acceptInvite` keeps the store consistent: the new connection joins a pair
    with no other connection and, its one invite being gone, no invite; its
    conversation is the only one for it.
  */
  lemma AcceptInviteKeepsConsistent(st: Store, inviteId: string, receiverId: string, now: int)
    requires Consistent(st)
    ensures Consistent(AcceptInvite(st, inviteId, receiverId, now).store)
  {
    if AcceptFailure(st, inviteId, receiverId).None? {
      var invite := FindInvite(st.invites, inviteId).value;
      var c := Connection(FreshId(ConnectionIds(st.connections)), invite.senderId, invite.receiverId, now);
      var v := Conversation(FreshId(ConversationIds(st.conversations)), c.id);
      var after := AcceptInvite(st, inviteId, receiverId, now).store;
      assert after == Store(st.users, RemoveInvite(st.invites, invite.id), st.connections + [c], st.conversations + [v]);
      ConnectPairKeepsNoInvite(st.invites, st.connections, invite, c);
      AddConnectionKeepsWellFormed(st.connections, c);
      AddConversationKeepsMatch(st.connections, st.conversations, c, v);
    }
  }

  /** `rejectInvite` keeps the store consistent. */
  lemma RejectInviteKeepsConsistent(st: Store, inviteId: string, receiverId: string)
    requires Consistent(st)
    ensures Consistent(RejectInvite(st, inviteId, receiverId).store)
  {
    RemoveInviteFacts(st.invites, inviteId);
  }

  /** `cancelInvite` keeps the store consistent. */
  lemma CancelInviteKeepsConsistent(st: Store, inviteId: string, senderId: string)
    requires Consistent(st)
    ensures Consistent(CancelInvite(st, inviteId, senderId).store)
  {
    RemoveInviteFacts(st.invites, inviteId);
  }

  /**
    In a consistent store only the receiver may reject an invite and only the
    sender may cancel it, and each removes exactly that one invite.
  */
  lemma RejectAndCancelOwnership(st: Store, x: Invite)
    requires Consistent(st) && x in st.invites
    ensures RejectInvite(st, x.id, x.receiverId).outcome.Ok?
    ensures RejectInvite(st, x.id, x.senderId).outcome == Err(InvalidInvite)
    ensures CancelInvite(st, x.id, x.senderId).outcome.Ok?
    ensures CancelInvite(st, x.id, x.receiverId).outcome == Err(InvalidInvite)
    ensures |RejectInvite(st, x.id, x.receiverId).store.invites| == |st.invites| - 1
    ensures |CancelInvite(st, x.id, x.senderId).store.invites| == |st.invites| - 1
  {
    FindInviteOfMember(st.invites, x);
    RemoveInviteFacts(st.invites, x.id);
    var k :| 0 <= k < |st.invites| && st.invites[k] == x;
  }

  /**
    Once an invite is accepted its two users are connected and no invite joins
    them any more, so neither of them can invite the other again.
  */
  lemma AcceptedPairCannotBeInvitedAgain(st: Store, inviteId: string, receiverId: string, now: int)
    requires Consistent(st)
    requires AcceptInvite(st, inviteId, receiverId, now).outcome.Ok?
    ensures var invite := FindInvite(st.invites, inviteId).value;
            var after := AcceptInvite(st, inviteId, receiverId, now).store;
            && ConnectedEither(after.connections, invite.senderId, invite.receiverId)
            && !InvitedEither(after.invites, invite.senderId, invite.receiverId)
            && forall a, name :: SendAllowed(after, a, name) ==>
                 !SamePair(a, FindUserByUsername(after.users, name).value.id, invite.senderId, invite.receiverId)
  {
    var invite := FindInvite(st.invites, inviteId).value;
    var c := Connection(FreshId(ConnectionIds(st.connections)), invite.senderId, invite.receiverId, now);
    var v := Conversation(FreshId(ConversationIds(st.conversations)), c.id);
    var after := AcceptInvite(st, inviteId, receiverId, now).store;
    assert after == Store(st.users, RemoveInvite(st.invites, invite.id), st.connections + [c], st.conversations + [v]);
    assert after.connections[|st.connections|] == c;
    ConnectPairKeepsNoInvite(st.invites, st.connections, invite, c);
    assert c in after.connections;
    forall k | 0 <= k < |after.invites|
      ensures !SamePair(after.invites[k].senderId, after.invites[k].receiverId, invite.senderId, invite.receiverId)
    {
      assert after.invites[k] in after.invites;
    }
  }

  /** After a successful `sendInvite`, neither user can invite the other while the invite stands. */
  lemma SentPairCannotBeInvitedAgain(st: Store, senderId: string, receiverUsername: string, now: int)
    requires SendInvite(st, senderId, receiverUsername, now).outcome.Ok?
    ensures var receiverId := FindUserByUsername(st.users, receiverUsername).value.id;
            var after := SendInvite(st, senderId, receiverUsername, now).store;
            && InvitedEither(after.invites, senderId, receiverId)
            && forall a, name :: SendAllowed(after, a, name) ==>
                 !SamePair(a, FindUserByUsername(after.users, name).value.id, senderId, receiverId)
  {
    var after := SendInvite(st, senderId, receiverUsername, now).store;
    assert SamePair(after.invites[|st.invites|].senderId, after.invites[|st.invites|].receiverId,
                    senderId, FindUserByUsername(st.users, receiverUsername).value.id);
  }

  /** Which invites a listing shows: those the user received, or those the user sent. */
  datatype Side = Received | Sent

  predicate OnSide(x: Invite, userId: string, side: Side)
  {
    match side
    case Received => x.receiverId == userId
    case Sent => x.senderId == userId
  }

  /** The sort key of `orderBy: { createdAt: sort }`. */
  function CreatedAtKey(order: SortOrder): Invite -> real
  {
    match order
    case Asc => (x: Invite) => x.createdAt as real
    case Desc => (x: Invite) => -(x.createdAt as real)
  }

  /** `invite.count({ where })`: how many invites the user has on one side. */
  function CountOnSide(invites: seq<Invite>, userId: string, side: Side): (n: nat)
    ensures n <= |invites|
    ensures n == 0 <==> forall k :: 0 <= k < |invites| ==> !OnSide(invites[k], userId, side)
  {
    if |invites| == 0 then 0
    else
      assert forall k :: 1 <= k < |invites| ==> invites[k] == invites[1..][k - 1];
      (if OnSide(invites[0], userId, side) then 1 else 0) + CountOnSide(invites[1..], userId, side)
  }

  /** Each invite on the side occurs in `r` as often as in `invites`, every other not at all. */
  ghost predicate SideCopy(r: seq<Invite>, invites: seq<Invite>, userId: string, side: Side)
  {
    forall x :: multiset(r)[x] == if OnSide(x, userId, side) then multiset(invites)[x] else 0
  }

  lemma SideCopyCons(x: Invite, rest: seq<Invite>, tail: seq<Invite>, userId: string, side: Side)
    requires SideCopy(rest, tail, userId, side)
    ensures OnSide(x, userId, side) ==> SideCopy([x] + rest, [x] + tail, userId, side)
    ensures !OnSide(x, userId, side) ==> SideCopy(rest, [x] + tail, userId, side)
  {
    assert multiset([x] + tail) == multiset{x} + multiset(tail);
    assert multiset([x] + rest) == multiset{x} + multiset(rest);
  }

  /** The user's invites on one side, in store order: the `where` of the query. */
  function SideInvites(invites: seq<Invite>, userId: string, side: Side): (r: seq<Invite>)
    ensures SideCopy(r, invites, userId, side)
    ensures |r| == CountOnSide(invites, userId, side)
  {
    if |invites| == 0 then []
    else
      var rest := SideInvites(invites[1..], userId, side);
      assert invites == [invites[0]] + invites[1..];
      SideCopyCons(invites[0], rest, invites[1..], userId, side);
      if OnSide(invites[0], userId, side) then [invites[0]] + rest else rest
  }

  /** The user's invites on one side, ordered by creation time: the rows the store pages through. */
  function InviteRows(invites: seq<Invite>, userId: string, side: Side, order: SortOrder): (rows: seq<Invite>)
    ensures SideCopy(rows, invites, userId, side)
    ensures |rows| == CountOnSide(invites, userId, side)
    ensures Sorted(rows, CreatedAtKey(order))
  {
    var matching := SideInvites(invites, userId, side);
    SortBySorted(matching, CreatedAtKey(order));
    SortBy(matching, CreatedAtKey(order))
  }

  /** Every row is one of the user's invites on the side, and every such invite is a row. */
  lemma RowsAreTheSideInvites(invites: seq<Invite>, userId: string, side: Side, order: SortOrder)
    ensures var rows := InviteRows(invites, userId, side, order);
            && (forall x :: x in rows <==> x in invites && OnSide(x, userId, side))
  {
    var rows := InviteRows(invites, userId, side, order);
    forall x
      ensures x in rows <==> x in invites && OnSide(x, userId, side)
    {
      assert x in rows <==> multiset(rows)[x] > 0;
      assert x in invites <==> multiset(invites)[x] > 0;
    }
  }

  /**
    `listPaginatedReceivedInvites` / `listPaginatedSentInvites`: the rows from
    `skip = (page - 1) * limit`, at most `limit` of them, of the user's invites
    on one side in creation order, with the count and the page numbers.
  */
  function ListPaginatedInvites(
    invites: seq<Invite>, userId: string, side: Side, page: int, limit: int, order: SortOrder): (r: Page<Invite>)
    requires limit > 0 && page >= 1
    ensures var rows := InviteRows(invites, userId, side, order);
            var skip := Skip(page, limit);
            && 0 <= skip
            && r.data == rows[Min(skip, |rows|)..Min(skip + limit, |rows|)]
            && r.total == |rows|
    ensures |r.data| <= limit
    ensures forall k :: 0 <= k < |r.data| ==> r.data[k] in invites && OnSide(r.data[k], userId, side)
    ensures Sorted(r.data, CreatedAtKey(order))
    ensures r.total == CountOnSide(invites, userId, side)
    ensures r.total == 0 <==> forall k :: 0 <= k < |invites| ==> !OnSide(invites[k], userId, side)
    ensures r.page == 0 <==> r.total == 0
    ensures r.total > 0 ==> r.page == page
    ensures r.limit == limit
    ensures PagesCover(r.totalPages, limit, r.total)
  {
    var total := CountOnSide(invites, userId, side);
    var rows := InviteRows(invites, userId, side, order);
    PageIsSorted(rows, page, limit, CreatedAtKey(order));
    RowsAreTheSideInvites(invites, userId, side, order);
    Paginate(rows, total, page, limit)
  }
}
