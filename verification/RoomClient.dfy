/** The client side of a room: what `MemberLoop` does with each message it receives. */
module RoomClient {
  import opened Bytes
  import opened RoomMessages

  datatype ClientState = Idle | Joining | Joined | Moderator

  datatype Problem =
    | LostConnection | KickedByHost | BannedByHost
    | NameTaken | MacTaken | ConsoleIdTaken | WrongVersion | BadPassword | Full
    | NotPermitted | UnknownUser

  datatype Client = Client(state: ClientState, nickname: Text, username: Text, mac: MacAddress,
                           memberInformation: seq<MemberEntry>, problems: seq<Problem>)

  /** `IsConnected`. */
  predicate Connected(c: Client) {
    c.state != Idle
  }

  /** Our own username, as the last entry with our nickname tells it. */
  function UsernameFrom(entries: seq<MemberEntry>, nickname: Text, username: Text): Text {
    if entries == [] then username
    else
      var last := entries[|entries| - 1];
      if last.nickname == nickname then last.username else UsernameFrom(entries[..|entries| - 1], nickname, username)
  }

  /** Leaving `MemberLoop` runs `Disconnect`, which forgets the members. */
  function Closed(c: Client): Client {
    c.(state := Idle, memberInformation := [])
  }

  function Drop(c: Client, why: Problem): Client {
    Closed(c).(problems := c.problems + [why])
  }

  function Receive(c: Client, message: ServerMessage): Client {
    match message
    case JoinSuccess(mac, moderator) => c.(mac := mac, state := if moderator then Moderator else Joined)
    case RoomInformation(_, members) =>
      c.(memberInformation := members, username := UsernameFrom(members, c.nickname, c.username))
    case NameCollision => Drop(c, NameTaken)
    case MacCollision => Drop(c, MacTaken)
    case ConsoleIdCollision => Drop(c, ConsoleIdTaken)
    case VersionMismatch => Drop(c, WrongVersion)
    case WrongPassword => Drop(c, BadPassword)
    case RoomIsFull => Drop(c, Full)
    case HostKicked => Drop(c, KickedByHost)
    case HostBanned => Drop(c, BannedByHost)
    case CloseRoom => Drop(c, LostConnection)
    case PermissionDenied => c.(problems := c.problems + [NotPermitted])
    case NoSuchUser => c.(problems := c.problems + [UnknownUser])
    case _ => c
  }

  /** A disconnect event is ignored while the client is still joining. */
  function ConnectionLost(c: Client): Client {
    if c.state == Joined || c.state == Moderator then Drop(c, LostConnection) else c
  }

  // ---------------------------------------------------------------- what a message does

  ghost predicate IsLastNamed(entries: seq<MemberEntry>, i: nat, nickname: Text) {
    i < |entries| && entries[i].nickname == nickname && forall j :: i < j < |entries| ==> entries[j].nickname != nickname
  }

  /** The last entry that has our nickname tells our username; without one it stays. */
  lemma {:induction false} UsernameIsTheLastEntrys(entries: seq<MemberEntry>, nickname: Text, username: Text)
    ensures forall i: nat :: IsLastNamed(entries, i, nickname) ==> UsernameFrom(entries, nickname, username) == entries[i].username
    ensures (forall i :: 0 <= i < |entries| ==> entries[i].nickname != nickname) ==> UsernameFrom(entries, nickname, username) == username
    decreases |entries|
  {
    if entries != [] {
      UsernameIsTheLastEntrys(entries[..|entries| - 1], nickname, username);
    }
  }

  /** The messages that end the session. */
  predicate EndsSession(m: ServerMessage) {
    || m.NameCollision? || m.MacCollision? || m.ConsoleIdCollision? || m.VersionMismatch? || m.WrongPassword? || m.RoomIsFull?
    || m.HostKicked? || m.HostBanned? || m.CloseRoom?
  }

  /** What the user is told. Being closed out looks like a lost connection. */
  function Reported(m: ServerMessage): seq<Problem> {
    if m.NameCollision? then [NameTaken]
    else if m.MacCollision? then [MacTaken]
    else if m.ConsoleIdCollision? then [ConsoleIdTaken]
    else if m.VersionMismatch? then [WrongVersion]
    else if m.WrongPassword? then [BadPassword]
    else if m.RoomIsFull? then [Full]
    else if m.HostKicked? then [KickedByHost]
    else if m.HostBanned? then [BannedByHost]
    else if m.CloseRoom? then [LostConnection]
    else if m.PermissionDenied? then [NotPermitted]
    else if m.NoSuchUser? then [UnknownUser]
    else []
  }

  /** A message ends the session, accepts the client, replaces its member list, or leaves all of that alone. */
  lemma MessageEffect(c: Client, m: ServerMessage)
    requires Connected(c)
    ensures var after := Receive(c, m);
            && after.problems == c.problems + Reported(m)
            && after.nickname == c.nickname
            && (Connected(after) <==> !EndsSession(m))
            && (after.state != c.state && Connected(after) ==> m.JoinSuccess?)
            && (m.JoinSuccess? ==> after.state == (if m.moderator then Moderator else Joined))
            && after.mac == (if m.JoinSuccess? then m.mac else c.mac)
            && after.memberInformation == (if EndsSession(m) then [] else if m.RoomInformation? then m.members else c.memberInformation)
            && (!m.RoomInformation? ==> after.username == c.username)
            && (m.RoomInformation? ==>
                  forall i: nat :: IsLastNamed(m.members, i, c.nickname) ==> after.username == m.members[i].username)
  {
    if m.RoomInformation? {
      UsernameIsTheLastEntrys(m.members, c.nickname, c.username);
    }
  }

  /** A lost connection ends a session, and only that; while joining it goes unnoticed. */
  lemma DisconnectEffect(c: Client)
    ensures var after := ConnectionLost(c);
            if c.state == Joined || c.state == Moderator
            then !Connected(after) && after == Client(Idle, c.nickname, c.username, c.mac, [], c.problems + [LostConnection])
            else after == c
  {
  }

  class RoomMemberImpl {
    var state: ClientState
    var nickname: Text
    var username: Text
    var macAddress: MacAddress
    var memberInformation: seq<MemberEntry>
    /** What `SetError` has reported. */
    var problems: seq<Problem>

    ghost function State(): Client
      reads this
    {
      Client(state, nickname, username, macAddress, memberInformation, problems)
    }

    constructor (nickname: Text)
      ensures State() == Client(Joining, nickname, [], NO_PREFERRED_MAC, [], [])
    {
      state, this.nickname, username, macAddress := Joining, nickname, [], NO_PREFERRED_MAC;
      memberInformation, problems := [], [];
    }

    method HandleRoomInformation(entries: seq<MemberEntry>)
      modifies this
      ensures State() == old(State()).(memberInformation := entries,
                                       username := UsernameFrom(entries, old(nickname), old(username)))
    {
      memberInformation := entries;
      var i := 0;
      while i < |entries|
        invariant 0 <= i <= |entries|
        invariant State() == old(State()).(memberInformation := entries,
                                           username := UsernameFrom(entries[..i], old(nickname), old(username)))
      {
        assert entries[..i + 1][..i] == entries[..i];
        if entries[i].nickname == nickname {
          username := entries[i].username;
        }
        i := i + 1;
      }
      assert entries[..i] == entries;
    }

    method Fail(why: Problem)
      modifies this
      ensures State() == Drop(old(State()), why)
    {
      state := Idle;
      problems := problems + [why];
      Disconnect();
    }

    method Disconnect()
      modifies this`memberInformation
      ensures memberInformation == []
    {
      memberInformation := [];
    }

    /** One received message. The ASSERT on a successful join is the precondition. */
    method HandleMessage(message: ServerMessage)
      requires state != Idle
      requires message.JoinSuccess? ==> memberInformation != []
      modifies this
      ensures State() == Receive(old(State()), message)
    {
      match message {
        case JoinSuccess(mac, moderator) =>
          macAddress := mac;
          state := if moderator then Moderator else Joined;
        case RoomInformation(_, members) => HandleRoomInformation(members);
        case NameCollision => Fail(NameTaken);
        case MacCollision => Fail(MacTaken);
        case ConsoleIdCollision => Fail(ConsoleIdTaken);
        case VersionMismatch => Fail(WrongVersion);
        case WrongPassword => Fail(BadPassword);
        case RoomIsFull => Fail(Full);
        case HostKicked => Fail(KickedByHost);
        case HostBanned => Fail(BannedByHost);
        case CloseRoom => Fail(LostConnection);
        case PermissionDenied => problems := problems + [NotPermitted];
        case NoSuchUser => problems := problems + [UnknownUser];
        case _ =>
      }
    }

    method HandleDisconnect()
      requires state != Idle
      modifies this
      ensures State() == ConnectionLost(old(State()))
    {
      if state == Joined || state == Moderator {
        Fail(LostConnection);
      }
    }
  }
}
