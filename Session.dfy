/** The Socket.IO session handlers and the state they share: `online_users`,
    updated in place by `join`, `leave` and `disconnect`, read by
    `check_nickname` and `send_message`. Each handler runs as one atomic step
    and returns the events it emits, in emission order. */
module Session {
  import opened Commands
  import opened Registry

  /** The sender label of the assistant's second broadcast. */
  const SystemLabel: string := "系统"
  const JoinMessage: string := "成功加入聊天室！"

  /** Who an emitted event is for: the calling connection only, the whole
      chat room, or the room except one connection. */
  datatype Recipient = Caller(sid: Sid) | Room | RoomExcept(skipSid: Sid)

  datatype Payload =
    | JoinSuccess(message: string, users: seq<string>)
    | UserJoined(nickname: string, users: seq<string>)
    | UserLeft(nickname: string, users: seq<string>)
    | ReceiveMessage(nickname: string, message: string, kind: Kind)

  datatype Event = Event(name: string, payload: Payload, to: Recipient)

  /** The `user_left` broadcast, sent alike by `leave` and `disconnect`. */
  function UserLeftEvent(nickname: string, users: seq<string>): Event {
    Event("user_left", UserLeft(nickname, users), Room)
  }

  class ChatServer {
    /** `online_users`, its entries in insertion order. */
    var onlineUsers: seq<User>

    /** The dict invariant: every nickname is a key once. */
    ghost predicate Valid()
      reads this
    {
      DistinctKeys(onlineUsers)
    }

    /** `list(online_users.keys())`. */
    function Users(): seq<string>
      reads this
    {
      Keys(onlineUsers)
    }

    /** The server starts with nobody online. */
    constructor ()
      ensures Valid() && onlineUsers == []
    {
      onlineUsers := [];
    }

    /** `check_nickname`: a nickname is available exactly when nobody is online
        under it. */
    method CheckNickname(nickname: string) returns (valid: bool)
      ensures valid <==> Lookup(onlineUsers, nickname).None?
      ensures valid <==> forall i :: 0 <= i < |onlineUsers| ==> onlineUsers[i].nickname != nickname
    {
      valid := nickname !in Users();
      assert forall i :: 0 <= i < |onlineUsers| ==> Users()[i] == onlineUsers[i].nickname;
    }

    /** `join`: the nickname maps to the caller's session id, overwriting any
        earlier entry in its place; the caller gets `join_success` and the rest
        of the room `user_joined`, both listing the nickname. */
    method Join(nickname: string, sid: Sid) returns (events: seq<Event>)
      requires Valid()
      modifies this
      ensures Valid()
      ensures onlineUsers == Put(old(onlineUsers), nickname, sid)
      ensures Lookup(onlineUsers, nickname) == Some(sid)
      ensures forall other :: other != nickname ==> Lookup(onlineUsers, other) == Lookup(old(onlineUsers), other)
      ensures Users() == if nickname in old(Users()) then old(Users()) else old(Users()) + [nickname]
      ensures nickname in Users()
      ensures events == [Event("join_success", JoinSuccess(JoinMessage, Users()), Caller(sid)),
                         Event("user_joined", UserJoined(nickname, Users()), RoomExcept(sid))]
    {
      ghost var before := onlineUsers;
      onlineUsers := Put(onlineUsers, nickname, sid);
      PutKeepsDistinct(before, nickname, sid);
      PutKeys(before, nickname, sid);
      forall other {
        PutLookup(before, nickname, sid, other);
      }
      var users := Keys(onlineUsers);
      events := [Event("join_success", JoinSuccess(JoinMessage, users), Caller(sid)),
                 Event("user_joined", UserJoined(nickname, users), RoomExcept(sid))];
    }

    /** `leave`: deletes the nickname whichever connection asks; when it was
        online the room gets `user_left` with the remaining nicknames, and
        otherwise nothing changes and nothing is sent. */
    method Leave(nickname: string, sid: Sid) returns (events: seq<Event>)
      requires Valid()
      modifies this
      ensures Valid()
      ensures onlineUsers == Remove(old(onlineUsers), nickname)
      ensures nickname !in Users()
      ensures forall other :: other != nickname ==> Lookup(onlineUsers, other) == Lookup(old(onlineUsers), other)
      ensures nickname in old(Users()) ==>
                var k := IndexOf(old(onlineUsers), nickname).value;
                && k < |old(Users())| && old(Users())[k] == nickname
                && Users() == old(Users())[..k] + old(Users())[k + 1..]
      ensures nickname in old(Users()) ==> events == [UserLeftEvent(nickname, Users())]
      ensures nickname !in old(Users()) ==> onlineUsers == old(onlineUsers) && events == []
    {
      ghost var before := onlineUsers;
      if nickname in Users() {
        KeysRemove(onlineUsers, nickname);
        onlineUsers := Remove(onlineUsers, nickname);
        events := [UserLeftEvent(nickname, Users())];
      } else {
        events := [];
      }
      forall other {
        RemoveLookup(before, nickname, other);
      }
    }

    /** `disconnect`: scans the entries in insertion order and removes the
        first one whose session id is the disconnecting one, announcing its
        nickname with `user_left`; when none matches nothing happens. */
    method Disconnect(sid: Sid) returns (events: seq<Event>)
      requires Valid()
      modifies this
      ensures Valid()
      ensures match FirstWithSid(old(onlineUsers), sid)
              case None => onlineUsers == old(onlineUsers) && events == []
              case Some(k) =>
                && onlineUsers == RemoveAt(old(onlineUsers), k)
                && onlineUsers == Remove(old(onlineUsers), old(onlineUsers)[k].nickname)
                && Users() == old(Users())[..k] + old(Users())[k + 1..]
                && old(onlineUsers)[k].nickname !in Users()
                && events == [UserLeftEvent(old(onlineUsers)[k].nickname, Users())]
    {
      events := [];
      var i := 0;
      while i < |onlineUsers|
        invariant 0 <= i <= |onlineUsers|
        invariant onlineUsers == old(onlineUsers) && events == []
        invariant forall j :: 0 <= j < i ==> onlineUsers[j].sid != sid
      {
        if onlineUsers[i].sid == sid {
          var nickname := onlineUsers[i].nickname;
          RemoveAtKeys(onlineUsers, i, nickname);
          KeysRemoveAt(onlineUsers, i);
          RemoveFirstWithSidIsRemove(onlineUsers, sid);
          onlineUsers := RemoveAt(onlineUsers, i);
          events := [UserLeftEvent(nickname, Users())];
          break;
        }
        i := i + 1;
      }
    }

    /** `send_message`: the raw text always goes to the room first as normal
        text; a second broadcast carries the processed command exactly when it
        is not normal text, signed by the system label for the assistant and
        by the sender otherwise. */
    method HandleMessage(nickname: string, message: string) returns (events: seq<Event>)
      ensures var response := ProcessCommand(message, nickname, Users());
              && |events| == (if response.kind == Normal then 1 else 2)
              && events[0] == Event("receive_message", ReceiveMessage(nickname, message, Normal), Room)
              && (|events| == 2 ==>
                    && events[1].name == "receive_message" && events[1].to == Room
                    && events[1].payload.ReceiveMessage?
                    && events[1].payload.message == response.message
                    && events[1].payload.kind == response.kind
                    && events[1].payload.nickname == if response.kind == AiResponse then SystemLabel else nickname)
    {
      var raw := Event("receive_message", ReceiveMessage(nickname, message, Normal), Room);
      var response := ProcessCommand(message, nickname, Users());
      if response.kind != Normal {
        var sender := if response.kind == AiResponse then SystemLabel else nickname;
        events := [raw, Event("receive_message", ReceiveMessage(sender, response.message, response.kind), Room)];
      } else {
        events := [raw];
      }
    }
  }
}
