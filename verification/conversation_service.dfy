/** Opening the conversation of a connection, for one of the two connected users. */
module ConversationService {
  import opened Wrappers
  import opened Entities
  import opened Seqs
  import opened Sorting
  import InviteService

  /** One error per message the service throws, in the order it checks them. */
  datatype ConversationError = ConnectionNotFound | NotAMember | ConversationNotFound

  function ConversationErrorMessage(e: ConversationError): string
  {
    match e
    case ConnectionNotFound => "Conexão não encontrada."
    case NotAMember => "Acesso negado. Você não faz parte desta conexão."
    case ConversationNotFound => "Conversa não encontrada para esta conexão."
  }

  /** The conversation with its messages. */
  datatype ConversationView = ConversationView(conversation: Conversation, messages: seq<Message>)

  function FindConnection(connections: seq<Connection>, id: string): (r: Option<Connection>)
    ensures r.Some? ==> r.value in connections && r.value.id == id
    ensures r.None? ==> forall c :: c in connections ==> c.id != id
  {
    if |connections| == 0 then None
    else if connections[0].id == id then Some(connections[0])
    else FindConnection(connections[1..], id)
  }

  function FindConversationOf(conversations: seq<Conversation>, connectionId: string): (r: Option<Conversation>)
    ensures r.Some? ==> r.value in conversations && r.value.connectionId == connectionId
    ensures r.None? ==> forall v :: v in conversations ==> v.connectionId != connectionId
  {
    if |conversations| == 0 then None
    else if conversations[0].connectionId == connectionId then Some(conversations[0])
    else FindConversationOf(conversations[1..], connectionId)
  }

  /** `userId` is one of the two users of the connection. */
  predicate IsMember(c: Connection, userId: string)
  {
    c.userAId == userId || c.userBId == userId
  }

  /** The key of `orderBy: { sentAt: 'asc' }`. */
  function SentAtKey(m: Message): real
  {
    m.sentAt as real
  }

  /**
    `getConversationByConnectionId`: the connection must exist and the caller must
    be one of its users before the conversation is looked up; its messages come
    in sending order.
  */
  function GetConversationByConnectionId(
    connections: seq<Connection>, conversations: seq<Conversation>, messages: seq<Message>,
    connectionId: string, userId: string): (r: Result<ConversationView, ConversationError>)
    ensures r == Err(ConnectionNotFound) <==> forall c :: c in connections ==> c.id != connectionId
    ensures r == Err(NotAMember) <==>
              FindConnection(connections, connectionId).Some? && !IsMember(FindConnection(connections, connectionId).value, userId)
    ensures r == Err(ConversationNotFound) <==>
              && FindConnection(connections, connectionId).Some?
              && IsMember(FindConnection(connections, connectionId).value, userId)
              && forall v :: v in conversations ==> v.connectionId != connectionId
    ensures r.Ok? ==>
              && r.value.conversation in conversations
              && r.value.conversation.connectionId == connectionId
              && multiset(r.value.messages)
                 == multiset(Filter(messages, (m: Message) => m.conversationId == r.value.conversation.id))
              && Sorted(r.value.messages, SentAtKey)
  {
    match FindConnection(connections, connectionId)
    case None => Err(ConnectionNotFound)
    case Some(connection) =>
      if !IsMember(connection, userId) then Err(NotAMember)
      else
        match FindConversationOf(conversations, connectionId)
        case None => Err(ConversationNotFound)
        case Some(conversation) =>
          var own := Filter(messages, (m: Message) => m.conversationId == conversation.id);
          SortBySorted(own, SentAtKey);
          Ok(ConversationView(conversation, SortBy(own, SentAtKey)))
  }

  /** A caller outside the connection learns nothing about its conversation or messages. */
  lemma NonMemberSeesNothing(
    connections: seq<Connection>, conversations: seq<Conversation>, messages: seq<Message>,
    otherConversations: seq<Conversation>, otherMessages: seq<Message>,
    connectionId: string, userId: string)
    requires forall c :: c in connections && c.id == connectionId ==> !IsMember(c, userId)
    ensures GetConversationByConnectionId(connections, conversations, messages, connectionId, userId).Err?
    ensures GetConversationByConnectionId(connections, conversations, messages, connectionId, userId)
         == GetConversationByConnectionId(connections, otherConversations, otherMessages, connectionId, userId)
  {
  }

  /**
    In a store where every connection has its conversation, as the invite
    operations keep it, a member always gets the conversation.
  */
  lemma MemberOfConsistentStoreGetsConversation(
    connections: seq<Connection>, conversations: seq<Conversation>, messages: seq<Message>,
    connectionId: string, userId: string)
    requires InviteService.ConnectionsHaveConversations(connections, conversations)
    requires exists c :: c in connections && c.id == connectionId
    requires IsMember(FindConnection(connections, connectionId).value, userId)
    ensures GetConversationByConnectionId(connections, conversations, messages, connectionId, userId).Ok?
  {
    var c := FindConnection(connections, connectionId).value;
    var v :| v in conversations && v.connectionId == c.id;
  }
}
