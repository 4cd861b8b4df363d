/**
 The chat service's three queue handlers: each parses its query, validates the caller's access token,
 applies the role gate and only then takes the queue.
 */
module Service {
  import opened Wrappers
  import opened Messages
  import opened RingQueue

  /** The HTTP statuses the handlers answer with. */
  datatype Status = OK | BadRequest | AuthenticationTimeout | Forbidden

  /** A handler's answer: a status and an optional body. */
  datatype Reply = Reply(status: Status, body: Option<string>)

  /** What a validated access token carries: the user's name and the user's role bits. */
  datatype Token = Token(userName: string, userRole: bv8)

  /**
   The parsed query: `None` when the request carries no query or the query is not a JSON object of
   strings and nulls; otherwise each field's value, `None` for a JSON null.
   */
  type Query = Option<map<string, Option<string>>>

  // ---------------------------------------------------------------------------------------------
  // The role gate

  /** Whether bit `i` of a role mask is set. */
  predicate HasRole(mask: bv8, i: nat)
    requires i < 8
  {
    (mask >> i) & 1 == 1
  }

  /** The roles a mask grants, as bit positions. */
  function Roles(mask: bv8): set<nat>
  {
    set i: nat | i < 8 && HasRole(mask, i)
  }

  /**
   The gate of the three handlers, `right_role & user_role != 0`: it passes exactly when the caller
   holds at least one of the service's roles.
   */
  predicate Permits(rightRole: bv8, userRole: bv8): (b: bool)
    ensures b <==> Roles(rightRole) * Roles(userRole) != {}
  {
    RolesOfAnd(rightRole, userRole);
    RolesEmpty(rightRole & userRole);
    rightRole & userRole != 0
  }

  /** A mask is zero exactly when it grants no role. */
  lemma {:induction false} RolesEmpty(mask: bv8)
    ensures mask == 0 <==> Roles(mask) == {}
  {
    if mask != 0 {
      var i := LowestRole(mask);
      assert i in Roles(mask);
    }
  }

  /** Some role bit of a nonzero mask. */
  lemma LowestRole(mask: bv8) returns (i: nat)
    requires mask != 0
    ensures i < 8 && HasRole(mask, i)
  {
    if mask & 1 == 1 { i := 0; }
    else if (mask >> 1) & 1 == 1 { i := 1; }
    else if (mask >> 2) & 1 == 1 { i := 2; }
    else if (mask >> 3) & 1 == 1 { i := 3; }
    else if (mask >> 4) & 1 == 1 { i := 4; }
    else if (mask >> 5) & 1 == 1 { i := 5; }
    else if (mask >> 6) & 1 == 1 { i := 6; }
    else { i := 7; }
  }

  /** The roles of a bitwise and are the common roles. */
  lemma RolesOfAnd(a: bv8, b: bv8)
    ensures Roles(a & b) == Roles(a) * Roles(b)
  {
    forall i: nat | i < 8
      ensures HasRole(a & b, i) <==> HasRole(a, i) && HasRole(b, i)
    {
      AndBit(a, b, i);
    }
  }

  /** Bit `i` of `a & b` is set exactly when it is set in both. */
  lemma AndBit(a: bv8, b: bv8, i: nat)
    requires i < 8
    ensures HasRole(a & b, i) <==> HasRole(a, i) && HasRole(b, i)
  {
  }

  /**
   A caller with no role never passes, nor does anyone at a service whose role mask is zero; more
   roles never lose access.
   */
  lemma PermitsMonotone(rightRole: bv8, userRole: bv8, more: bv8)
    ensures !Permits(rightRole, 0) && !Permits(0, userRole)
    ensures Permits(rightRole, userRole) ==> Permits(rightRole, userRole | more)
  {
  }

  // ---------------------------------------------------------------------------------------------
  // Authentication and authorisation common to the handlers

  /** The outcome of the checks before the queue: rejected with a status, or admitted with a token. */
  datatype Gate = Rejected(status: Status) | Admitted(token: Token)

  /**
   Whether the query has a "token" field whenever it parsed: the handlers index the parsed map by
   that name, which panics when the field is absent.
   */
  predicate HasTokenField(query: Query)
  {
    query.Some? ==> "token" in query.value
  }

  /**
   The checks each handler makes, in order: a missing or unparsable query and a null token are bad
   requests, a token that `verify` (the access-token check) refuses is an authentication timeout,
   and a token whose role fails the gate is forbidden.
   */
  function Authorize(query: Query, verify: string -> Option<Token>, rightRole: bv8): (g: Gate)
    requires HasTokenField(query)
    ensures g == Rejected(BadRequest) <==> query.None? || query.value["token"].None?
    ensures g == Rejected(AuthenticationTimeout) <==>
      query.Some? && query.value["token"].Some? && verify(query.value["token"].value).None?
    ensures g == Rejected(Forbidden) <==>
      && query.Some? && query.value["token"].Some? && verify(query.value["token"].value).Some?
      && !Permits(rightRole, verify(query.value["token"].value).value.userRole)
    ensures g.Admitted? <==>
      && query.Some? && query.value["token"].Some? && verify(query.value["token"].value).Some?
      && Permits(rightRole, verify(query.value["token"].value).value.userRole)
    ensures g.Admitted? ==> g.token == verify(query.value["token"].value).value
    ensures g.Rejected? ==> g.status != OK
  {
    if query.None? then Rejected(BadRequest)
    else
      match query.value["token"]
      case None => Rejected(BadRequest)
      case Some(text) =>
        match verify(text)
        case None => Rejected(AuthenticationTimeout)
        case Some(token) =>
          if !Permits(rightRole, token.userRole) then Rejected(Forbidden) else Admitted(token)
  }

  /** Whether the checks before the queue let the request through. */
  predicate Admits(query: Query, verify: string -> Option<Token>, rightRole: bv8)
  {
    HasTokenField(query) && Authorize(query, verify, rightRole).Admitted?
  }

  // ---------------------------------------------------------------------------------------------
  // The service

  class Chat {
    /** The role mask a caller must share a bit with. */
    const rightRole: bv8
    /** The shared message queue. */
    const queue: Queue

    /** The chat service's state is its queue's. */
    ghost predicate Valid()
      reads this, queue, queue.messages
    {
      queue.Valid()
    }

    /** A service with a fresh queue of `queueLen` slots and the given limits. */
    constructor (queueLen: nat, maxMessageLen: nat, rightRole: bv8)
      ensures Valid() && fresh(queue) && fresh(queue.messages)
      ensures this.rightRole == rightRole
      ensures queue.messages.Length == queueLen && queue.maxMessageLen == maxMessageLen
      ensures queue.endIndex == 0 && queue.history == []
    {
      this.rightRole := rightRole;
      queue := new Queue(queueLen, maxMessageLen);
    }

    /**
     set_message: after the checks, a missing message is a bad request; otherwise the message is
     pushed under the key made of the user's name and `stamp`, the decimal text of the current time
     in milliseconds, and a message the queue refuses as too long is a bad request.
     */
    method SetMessage(query: Query, verify: string -> Option<Token>, stamp: string) returns (reply: Reply)
      requires Valid()
      requires HasTokenField(query)
      requires Admits(query, verify, rightRole) ==> "message" in query.value
      requires Admits(query, verify, rightRole) && query.value["message"].Some? ==>
        queue.messages.Length > 0 || Utf8Len(query.value["message"].value) >= queue.maxMessageLen
      modifies queue, queue.messages
      ensures Valid()
      ensures reply.body == None
      ensures reply.status == Forbidden <==> Authorize(query, verify, rightRole) == Rejected(Forbidden)
      ensures !Admits(query, verify, rightRole) ==>
        reply.status == Authorize(query, verify, rightRole).status
      ensures Admits(query, verify, rightRole) && query.value["message"].None? ==> reply.status == BadRequest
      ensures !Admits(query, verify, rightRole) || query.value["message"].None? ==>
        && queue.endIndex == old(queue.endIndex) && queue.messages[..] == old(queue.messages[..])
        && queue.history == old(queue.history)
      ensures Admits(query, verify, rightRole) && query.value["message"].Some? ==>
        var data := query.value["message"].value;
        var key := Authorize(query, verify, rightRole).token.userName + stamp;
        && (reply.status == OK <==> Utf8Len(data) < queue.maxMessageLen)
        && (reply.status != OK ==> reply.status == BadRequest)
        && queue.history == old(queue.history) + (if reply.status == OK then [Message(key, data)] else [])
        && queue.endIndex ==
             (if reply.status == OK then (old(queue.endIndex) + 1) % queue.messages.Length else old(queue.endIndex))
        && queue.messages[..] ==
             (if reply.status == OK then old(queue.messages[..])[queue.endIndex := Message(key, data)]
              else old(queue.messages[..]))
    {
      var gate := Authorize(query, verify, rightRole);
      if gate.Rejected? {
        return Reply(gate.status, None);
      }
      var key := gate.token.userName + stamp;
      var message := query.value["message"];
      if message.None? {
        return Reply(BadRequest, None);
      }
      var pushed := queue.Push(key, message.value);
      if pushed == Ok {
        return Reply(OK, None);
      }
      return Reply(BadRequest, None);
    }

    /**
     get_messages: after the checks, the whole queue rendered oldest first. Once the checks pass, the
     scan ends only when the cursor is not on the last slot, so the caller must provide such a state.
     */
    method GetMessages(query: Query, verify: string -> Option<Token>) returns (reply: Reply)
      requires queue.WellFormed() && HasTokenField(query)
      requires Admits(query, verify, rightRole) ==> queue.endIndex + 1 < queue.messages.Length
      ensures reply.status == Forbidden <==> Authorize(query, verify, rightRole) == Rejected(Forbidden)
      ensures reply.status == OK <==> Admits(query, verify, rightRole)
      ensures !Admits(query, verify, rightRole) ==>
        reply.status == Authorize(query, verify, rightRole).status
      ensures reply.status != OK ==> reply.body == None
      ensures reply.status == OK ==> reply.body == Some(Render(OldestFirst(queue.messages[..], queue.endIndex)))
    {
      var gate := Authorize(query, verify, rightRole);
      if gate.Rejected? {
        return Reply(gate.status, None);
      }
      var all := queue.GetAll();
      return Reply(OK, Some(all));
    }

    /**
     get_messages_from: after the checks, a null start key is a bad request; otherwise the part of
     the queue from the first message whose key is the start key. Once the checks pass, the field
     must be present, and with a start key the cursor must not be on the last slot, the only states
     in which the scan ends.
     */
    method GetMessagesFrom(query: Query, verify: string -> Option<Token>) returns (reply: Reply)
      requires queue.WellFormed() && HasTokenField(query)
      requires Admits(query, verify, rightRole) ==> "start_key" in query.value
      requires Admits(query, verify, rightRole) && query.value["start_key"].Some? ==>
        queue.endIndex + 1 < queue.messages.Length
      ensures reply.status == Forbidden <==> Authorize(query, verify, rightRole) == Rejected(Forbidden)
      ensures reply.status == OK <==> Admits(query, verify, rightRole) && query.value["start_key"].Some?
      ensures !Admits(query, verify, rightRole) ==>
        reply.status == Authorize(query, verify, rightRole).status
      ensures Admits(query, verify, rightRole) && query.value["start_key"].None? ==> reply.status == BadRequest
      ensures reply.status != OK ==> reply.body == None
      ensures reply.status == OK ==>
        reply.body == Some(Render(FromMarker(OldestFirst(queue.messages[..], queue.endIndex),
                                             query.value["start_key"].value)))
    {
      var gate := Authorize(query, verify, rightRole);
      if gate.Rejected? {
        return Reply(gate.status, None);
      }
      var key := query.value["start_key"];
      if key.None? {
        return Reply(BadRequest, None);
      }
      var from := queue.GetFrom(key.value);
      return Reply(OK, Some(from));
    }
  }
}
