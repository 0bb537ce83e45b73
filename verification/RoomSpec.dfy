/**
 What each handler of the room server does to the member and ban lists and which messages it sends, and
 the invariants all of them keep.
 */
module RoomSpec {
  import opened Bytes
  import opened RoomMessages

  /** One connection. A client that connects again is another peer. */
  type Peer = nat

  datatype UserData = UserData(username: Text, displayName: Text, avatarUrl: Text, moderator: bool)

  datatype Member = Member(nickname: Text, consoleIdHash: Text, game: GameInfo, mac: MacAddress, userData: UserData, peer: Peer)

  /** Fixed while the room is open. `addressOf` and `loadUserData` stand for ENet and the verification backend. */
  datatype Config = Config(details: RoomDetails, enableMods: bool, password: Text,
                           addressOf: Peer -> Text, loadUserData: Text -> UserData)

  datatype Room = Room(members: seq<Member>, usernameBans: seq<Text>, ipBans: seq<Text>)

  /** What a handler hands to ENet. A broadcast goes to every connected peer, member or not. */
  datatype Output =
    | Send(to: Peer, message: ServerMessage)
    | Broadcast(message: ServerMessage)
    | Disconnect(peer: Peer)

  // ---------------------------------------------------------------- queries

  /** `std::find_if`: the first index that satisfies `p`, or the length. */
  function FindIf<T>(s: seq<T>, p: T -> bool): (i: nat)
    ensures i <= |s|
    ensures i < |s| ==> p(s[i])
    ensures forall j :: 0 <= j < i ==> !p(s[j])
  {
    if s == [] then 0 else if p(s[0]) then 0 else 1 + FindIf(s[1..], p)
  }

  function Erase<T>(s: seq<T>, i: nat): seq<T>
    requires i < |s|
  {
    s[..i] + s[i + 1..]
  }

  function EraseFirst<T(==)>(s: seq<T>, x: T): seq<T> {
    var i := FindIf(s, y => y == x);
    if i < |s| then Erase(s, i) else s
  }

  function ByNickname(members: seq<Member>, nickname: Text): (i: nat)
    ensures i <= |members|
  {
    FindIf(members, (m: Member) => m.nickname == nickname)
  }

  function ByPeer(members: seq<Member>, peer: Peer): (i: nat)
    ensures i <= |members|
  {
    FindIf(members, (m: Member) => m.peer == peer)
  }

  function ByMac(members: seq<Member>, mac: MacAddress): (i: nat)
    ensures i <= |members|
  {
    FindIf(members, (m: Member) => m.mac == mac)
  }

  /** The character class of the nickname pattern. */
  predicate IsNicknameByte(b: byte) {
    || b == Ascii(' ')
    || Ascii('a') <= b <= Ascii('z')
    || Ascii('A') <= b <= Ascii('Z')
    || Ascii('0') <= b <= Ascii('9')
    || b == Ascii('.') || b == Ascii('_') || b == Ascii('-')
  }

  predicate MatchesPattern(nickname: Text) {
    4 <= |nickname| <= 20 && forall i :: 0 <= i < |nickname| ==> IsNicknameByte(nickname[i])
  }

  predicate IsValidNickname(members: seq<Member>, nickname: Text) {
    MatchesPattern(nickname) && forall i :: 0 <= i < |members| ==> members[i].nickname != nickname
  }

  predicate IsValidMac(members: seq<Member>, mac: MacAddress) {
    forall i :: 0 <= i < |members| ==> members[i].mac != mac
  }

  predicate IsValidConsoleId(members: seq<Member>, hash: Text) {
    forall i :: 0 <= i < |members| ==> members[i].consoleIdHash != hash
  }

  predicate HasModPermission(cfg: Config, members: seq<Member>, peer: Peer) {
    var i := ByPeer(members, peer);
    i < |members| && (
      || (cfg.enableMods && members[i].userData.moderator)
      || (cfg.details.hostUsername != [] && members[i].userData.username == cfg.details.hostUsername))
  }

  // ---------------------------------------------------------------- messages

  function Entry(m: Member): MemberEntry {
    MemberEntry(m.nickname, m.mac, m.game, m.userData.username, m.userData.displayName, m.userData.avatarUrl)
  }

  function Entries(members: seq<Member>): seq<MemberEntry> {
    seq(|members|, i requires 0 <= i < |members| => Entry(members[i]))
  }

  function RoomInfo(cfg: Config, members: seq<Member>): Output {
    Broadcast(RoomInformation(cfg.details, Entries(members)))
  }

  function SendAll(members: seq<Member>, message: ServerMessage): seq<Output> {
    seq(|members|, i requires 0 <= i < |members| => Send(members[i].peer, message))
  }

  /** To everyone but the sender, in member order. */
  function SendOthers(members: seq<Member>, sender: Peer, message: ServerMessage): seq<Output> {
    if members == [] then []
    else
      var last := members[|members| - 1];
      SendOthers(members[..|members| - 1], sender, message) +
      (if last.peer != sender then [Send(last.peer, message)] else [])
  }

  // ---------------------------------------------------------------- handlers

  datatype Verdict = Accept(member: Member) | Refuse(why: ServerMessage)

  /** A generated address is the vendor prefix with three random bytes, drawn until nobody has it. */
  predicate IsFreshMac(members: seq<Member>, mac: MacAddress) {
    mac[..3] == NINTENDO_OUI && IsValidMac(members, mac)
  }

  /** The checks of `HandleJoinRequest`, in the source's order; `drawn` is the generated MAC address. */
  function Judge(cfg: Config, room: Room, peer: Peer, request: ClientMessage, drawn: MacAddress): Verdict
    requires request.JoinRequest?
  {
    var mac := if request.preferredMac != NO_PREFERRED_MAC then request.preferredMac else drawn;
    var user := cfg.loadUserData(request.token);
    if |room.members| >= cfg.details.memberSlots then Refuse(RoomIsFull)
    else if request.password != cfg.password then Refuse(WrongPassword)
    else if !IsValidNickname(room.members, request.nickname) then Refuse(NameCollision)
    else if request.preferredMac != NO_PREFERRED_MAC && !IsValidMac(room.members, request.preferredMac) then Refuse(MacCollision)
    else if !IsValidConsoleId(room.members, request.consoleIdHash) then Refuse(ConsoleIdCollision)
    else if request.version != NETWORK_VERSION then Refuse(VersionMismatch)
    else if user.username != [] && user.username in room.usernameBans then Refuse(HostBanned)
    else if cfg.addressOf(peer) in room.ipBans then Refuse(HostBanned)
    else Accept(Member(request.nickname, request.consoleIdHash, GameInfo([], 0), mac, user, peer))
  }

  function Join(cfg: Config, room: Room, peer: Peer, request: ClientMessage, drawn: MacAddress): (Room, seq<Output>)
    requires request.JoinRequest?
  {
    match Judge(cfg, room, peer, request, drawn)
    case Refuse(why) => (room, [Send(peer, why)])
    case Accept(m) =>
      var members := room.members + [m];
      (room.(members := members),
       SendAll(room.members, Status(MemberJoin, m.nickname, m.userData.username)) +
       [RoomInfo(cfg, members), Send(peer, JoinSuccess(m.mac, HasModPermission(cfg, members, peer)))])
  }

  /** Kicking and banning share everything but the notices and the ban lists. */
  function Expel(cfg: Config, room: Room, sender: Peer, nickname: Text, ban: bool): (Room, seq<Output>) {
    if !HasModPermission(cfg, room.members, sender) then (room, [Send(sender, PermissionDenied)])
    else
      var i := ByNickname(room.members, nickname);
      if i == |room.members| then (room, [Send(sender, NoSuchUser)]) else ExpelAt(cfg, room, i, nickname, ban)
  }

  function ExpelAt(cfg: Config, room: Room, i: nat, nickname: Text, ban: bool): (Room, seq<Output>)
    requires i < |room.members|
  {
    var target := room.members[i];
    var rest := Erase(room.members, i);
    var banned := if ban then AddBans(room, target.userData.username, cfg.addressOf(target.peer)) else room;
    (banned.(members := rest),
     [Send(target.peer, if ban then HostBanned else HostKicked), Disconnect(target.peer)] +
     (SendAll(rest, Status(if ban then MemberBanned else MemberKicked, nickname, target.userData.username)) +
      [RoomInfo(cfg, rest)]))
  }

  function AddBans(room: Room, username: Text, address: Text): Room {
    room.(usernameBans := if username != [] && username !in room.usernameBans then room.usernameBans + [username] else room.usernameBans,
          ipBans := if address !in room.ipBans then room.ipBans + [address] else room.ipBans)
  }

  function Unban(cfg: Config, room: Room, sender: Peer, address: Text): (Room, seq<Output>) {
    if !HasModPermission(cfg, room.members, sender) then (room, [Send(sender, PermissionDenied)])
    else if address !in room.usernameBans && address !in room.ipBans then (room, [Send(sender, NoSuchUser)])
    else
      (room.(usernameBans := EraseFirst(room.usernameBans, address), ipBans := EraseFirst(room.ipBans, address)),
       SendAll(room.members, Status(AddressUnbanned, address, [])))
  }

  function GetBanList(cfg: Config, room: Room, sender: Peer): (Room, seq<Output>) {
    (room, [Send(sender, if HasModPermission(cfg, room.members, sender) then BanList(room.usernameBans, room.ipBans) else PermissionDenied)])
  }

  function Forward(room: Room, sender: Peer, frame: WifiFrame): (Room, seq<Output>) {
    if frame.destination == BROADCAST_MAC then (room, SendOthers(room.members, sender, Wifi(frame)))
    else
      var i := ByMac(room.members, frame.destination);
      (room, if i < |room.members| then [Send(room.members[i].peer, Wifi(frame))] else [])
  }

  function Say(room: Room, sender: Peer, text: Text): (Room, seq<Output>) {
    var i := ByPeer(room.members, sender);
    if i == |room.members| then (room, [])
    else
      var cut := if |text| <= MAX_MESSAGE_SIZE then text else text[..MAX_MESSAGE_SIZE];
      (room, SendOthers(room.members, sender, Chat(room.members[i].nickname, room.members[i].userData.username, cut)))
  }

  function SetGame(cfg: Config, room: Room, sender: Peer, game: GameInfo): (Room, seq<Output>) {
    var i := ByPeer(room.members, sender);
    var members := if i < |room.members| then room.members[i := room.members[i].(game := game)] else room.members;
    (room.(members := members), [RoomInfo(cfg, members)])
  }

  /** `HandleClientDisconnection`. */
  function Leave(cfg: Config, room: Room, peer: Peer): (Room, seq<Output>) {
    var i := ByPeer(room.members, peer);
    if i == |room.members| then (room, [Disconnect(peer), RoomInfo(cfg, room.members)])
    else
      var gone := room.members[i];
      var rest := Erase(room.members, i);
      (room.(members := rest),
       [Disconnect(peer)] +
       (if gone.nickname != [] then SendAll(rest, Status(MemberLeave, gone.nickname, gone.userData.username)) else []) +
       [RoomInfo(cfg, rest)])
  }

  /** The dispatch of `ServerLoop` on a received message. */
  function Handle(cfg: Config, room: Room, peer: Peer, message: ClientMessage, drawn: MacAddress): (Room, seq<Output>) {
    match message
    case JoinRequest(_, _, _, _, _, _) => Join(cfg, room, peer, message, drawn)
    case SetGameInfo(game) => SetGame(cfg, room, peer, game)
    case SendWifi(frame) => Forward(room, peer, frame)
    case SendChat(text) => Say(room, peer, text)
    case ModKick(nickname) => Expel(cfg, room, peer, nickname, false)
    case ModBan(nickname) => Expel(cfg, room, peer, nickname, true)
    case ModUnban(address) => Unban(cfg, room, peer, address)
    case ModGetBanList => GetBanList(cfg, room, peer)
  }

  // ---------------------------------------------------------------- invariants

  ghost predicate Distinguished(a: Member, b: Member) {
    a.nickname != b.nickname && a.mac != b.mac && a.consoleIdHash != b.consoleIdHash
  }

  /** Members differ pairwise in nickname, MAC and console; they fit the room; nobody holds the broadcast MAC. */
  ghost predicate RoomOk(cfg: Config, room: Room) {
    && |room.members| <= cfg.details.memberSlots
    && (forall i, j :: 0 <= i < j < |room.members| ==> Distinguished(room.members[i], room.members[j]))
    && forall i :: 0 <= i < |room.members| ==>
         room.members[i].mac != BROADCAST_MAC && MatchesPattern(room.members[i].nickname)
  }

  /** Everything a room can experience. */
  datatype RoomEvent = Received(peer: Peer, message: ClientMessage, drawn: MacAddress) | Disconnected(peer: Peer)

  function React(cfg: Config, room: Room, event: RoomEvent): (Room, seq<Output>) {
    match event
    case Received(peer, message, drawn) => Handle(cfg, room, peer, message, drawn)
    case Disconnected(peer) => Leave(cfg, room, peer)
  }

  /** The random generator draws an address nobody has. */
  ghost predicate Drawable(room: Room, event: RoomEvent) {
    event.Received? ==> IsFreshMac(room.members, event.drawn)
  }

  ghost predicate IsRoomRun(cfg: Config, rooms: seq<Room>, events: seq<RoomEvent>) {
    && |rooms| == |events| + 1
    && rooms[0].members == []
    && forall i :: 0 <= i < |events| ==> Drawable(rooms[i], events[i]) && rooms[i + 1] == React(cfg, rooms[i], events[i]).0
  }

  lemma EraseKeepsOk(cfg: Config, room: Room, i: nat, room': Room)
    requires RoomOk(cfg, room) && i < |room.members| && room'.members == Erase(room.members, i)
    ensures RoomOk(cfg, room')
  {
    assert forall k :: 0 <= k < |room'.members| ==> room'.members[k] == room.members[if k < i then k else k + 1];
  }

  lemma JoinKeepsOk(cfg: Config, room: Room, peer: Peer, request: ClientMessage, drawn: MacAddress)
    requires RoomOk(cfg, room) && request.JoinRequest? && IsFreshMac(room.members, drawn)
    ensures RoomOk(cfg, Join(cfg, room, peer, request, drawn).0)
  {
    var verdict := Judge(cfg, room, peer, request, drawn);
    if verdict.Accept? {
      assert drawn[..3][0] == drawn[0];
      assert IsValidMac(room.members, verdict.member.mac);
      forall i | 0 <= i < |room.members|
        ensures Distinguished(room.members[i], verdict.member)
      {
      }
    }
  }

  lemma ReactKeepsOk(cfg: Config, room: Room, event: RoomEvent)
    requires RoomOk(cfg, room) && Drawable(room, event)
    ensures RoomOk(cfg, React(cfg, room, event).0)
  {
    match event {
      case Disconnected(peer) =>
        var i := ByPeer(room.members, peer);
        if i < |room.members| {
          EraseKeepsOk(cfg, room, i, Leave(cfg, room, peer).0);
        }
      case Received(peer, message, drawn) =>
        match message {
          case JoinRequest(_, _, _, _, _, _) => JoinKeepsOk(cfg, room, peer, message, drawn);
          case ModKick(nickname) => ExpelKeepsOk(cfg, room, peer, nickname, false);
          case ModBan(nickname) => ExpelKeepsOk(cfg, room, peer, nickname, true);
          case SetGameInfo(game) => SetGameKeepsOk(cfg, room, peer, game);
          case _ =>
        }
    }
  }

  lemma SetGameKeepsOk(cfg: Config, room: Room, sender: Peer, game: GameInfo)
    requires RoomOk(cfg, room)
    ensures RoomOk(cfg, SetGame(cfg, room, sender, game).0)
  {
    var after := SetGame(cfg, room, sender, game).0.members;
    forall i | 0 <= i < |after|
      ensures after[i].nickname == room.members[i].nickname && after[i].mac == room.members[i].mac
      ensures after[i].consoleIdHash == room.members[i].consoleIdHash
    {
    }
  }

  lemma ExpelKeepsOk(cfg: Config, room: Room, sender: Peer, nickname: Text, ban: bool)
    requires RoomOk(cfg, room)
    ensures RoomOk(cfg, Expel(cfg, room, sender, nickname, ban).0)
  {
    var i := ByNickname(room.members, nickname);
    if HasModPermission(cfg, room.members, sender) && i < |room.members| {
      EraseKeepsOk(cfg, room, i, Expel(cfg, room, sender, nickname, ban).0);
    }
  }

  /** The invariant holds at every point of every run from an empty room. */
  lemma {:induction false} RoomStaysOk(cfg: Config, rooms: seq<Room>, events: seq<RoomEvent>, i: nat)
    requires IsRoomRun(cfg, rooms, events) && i <= |events|
    ensures RoomOk(cfg, rooms[i])
  {
    if i > 0 {
      RoomStaysOk(cfg, rooms, events, i - 1);
      ReactKeepsOk(cfg, rooms[i - 1], events[i - 1]);
    }
  }

  /**
   Whoever is a member after an event and was not before has just joined with the right password, has a
   MAC it asked for or was drawn for it, and neither its username nor its address is banned.
   */
  lemma OnlyUnbannedJoin(cfg: Config, room: Room, event: RoomEvent, k: nat)
    requires k < |React(cfg, room, event).0.members|
    requires forall i :: 0 <= i < |room.members| ==> room.members[i].peer != React(cfg, room, event).0.members[k].peer
    ensures var m := React(cfg, room, event).0.members[k];
            && event.Received? && event.message.JoinRequest? && event.peer == m.peer
            && event.message.password == cfg.password && event.message.nickname == m.nickname
            && m.mac == (if event.message.preferredMac == NO_PREFERRED_MAC then event.drawn else event.message.preferredMac)
            && m.userData == cfg.loadUserData(event.message.token)
            && (m.userData.username == [] || m.userData.username !in room.usernameBans)
            && cfg.addressOf(m.peer) !in room.ipBans
  {
    var m := React(cfg, room, event).0.members[k];
    if event.Received? && event.message.JoinRequest? {
    } else {
      NonJoinKeepsPeers(cfg, room, event, k);
    }
  }

  /** A request is accepted exactly when all the conditions hold, in whatever order they are checked. */
  lemma AcceptedIff(cfg: Config, room: Room, peer: Peer, request: ClientMessage, drawn: MacAddress)
    requires request.JoinRequest? && IsFreshMac(room.members, drawn)
    ensures Judge(cfg, room, peer, request, drawn).Accept? <==>
            && |room.members| < cfg.details.memberSlots
            && request.password == cfg.password
            && request.version == NETWORK_VERSION
            && MatchesPattern(request.nickname)
            && (forall i :: 0 <= i < |room.members| ==>
                  && room.members[i].nickname != request.nickname
                  && room.members[i].consoleIdHash != request.consoleIdHash
                  && (request.preferredMac != NO_PREFERRED_MAC ==> room.members[i].mac != request.preferredMac))
            && !(cfg.loadUserData(request.token).username != [] && cfg.loadUserData(request.token).username in room.usernameBans)
            && cfg.addressOf(peer) !in room.ipBans
  {
  }

  lemma NonJoinKeepsPeers(cfg: Config, room: Room, event: RoomEvent, k: nat)
    requires !(event.Received? && event.message.JoinRequest?)
    requires k < |React(cfg, room, event).0.members|
    ensures exists i :: 0 <= i < |room.members| && room.members[i].peer == React(cfg, room, event).0.members[k].peer
  {
    var after := React(cfg, room, event).0.members;
    if |after| == |room.members| {
      SameCount(cfg, room, event, k);
    } else if event.Disconnected? {
      ErasedFrom(room.members, ByPeer(room.members, event.peer), k);
    } else {
      ErasedFrom(room.members, ByNickname(room.members, event.message.nickname), k);
    }
  }

  lemma SameCount(cfg: Config, room: Room, event: RoomEvent, k: nat)
    requires k < |room.members| == |React(cfg, room, event).0.members|
    ensures React(cfg, room, event).0.members[k].peer == room.members[k].peer
  {
  }

  lemma ErasedFrom(members: seq<Member>, i: nat, k: nat)
    requires i < |members| && k < |Erase(members, i)|
    ensures exists j :: 0 <= j < |members| && members[j].peer == Erase(members, i)[k].peer
  {
    assert Erase(members, i)[k] == members[if k < i then k else k + 1];
  }

  // ---------------------------------------------------------------- frames

  /** The messages `outputs` puts into the channel of a peer that is connected when they begin. */
  function ReceivedBy(outputs: seq<Output>, peer: Peer): seq<ServerMessage> {
    if outputs == [] then []
    else
      var before := outputs[..|outputs| - 1];
      var rest := ReceivedBy(before, peer);
      if Disconnect(peer) in before then rest
      else
        match outputs[|outputs| - 1]
        case Send(to, message) => if to == peer then rest + [message] else rest
        case Broadcast(message) => rest + [message]
        case Disconnect(_) => rest
  }

  lemma ReceivedSnoc(outputs: seq<Output>, o: Output, peer: Peer)
    requires Disconnect(peer) !in outputs
    ensures ReceivedBy(outputs + [o], peer) == ReceivedBy(outputs, peer) +
            match o
            case Send(to, message) => if to == peer then [message] else []
            case Broadcast(message) => [message]
            case Disconnect(_) => []
  {
    assert (outputs + [o])[..|outputs|] == outputs;
  }

  ghost predicate DistinctPeers(members: seq<Member>) {
    forall i, j :: 0 <= i < j < |members| ==> members[i].peer != members[j].peer
  }

  ghost predicate HasPeer(members: seq<Member>, peer: Peer) {
    exists i :: 0 <= i < |members| && members[i].peer == peer
  }

  lemma HasPeerSnoc(members: seq<Member>, peer: Peer)
    requires members != []
    ensures HasPeer(members, peer) <==> HasPeer(members[..|members| - 1], peer) || members[|members| - 1].peer == peer
  {
    if HasPeer(members[..|members| - 1], peer) {
      var i :| 0 <= i < |members| - 1 && members[..|members| - 1][i].peer == peer;
      assert members[i].peer == peer;
    }
    if HasPeer(members, peer) && members[|members| - 1].peer != peer {
      var i :| 0 <= i < |members| && members[i].peer == peer;
      assert members[..|members| - 1][i].peer == peer;
    }
  }

  lemma {:induction false} SendOthersReach(members: seq<Member>, sender: Peer, message: ServerMessage, peer: Peer)
    requires DistinctPeers(members)
    ensures ReceivedBy(SendOthers(members, sender, message), peer) ==
            if peer != sender && HasPeer(members, peer) then [message] else []
    ensures Disconnect(peer) !in SendOthers(members, sender, message)
  {
    if members != [] {
      var n := |members| - 1;
      var rest := SendOthers(members[..n], sender, message);
      SendOthersReach(members[..n], sender, message, peer);
      HasPeerSnoc(members, peer);
      NoDuplicatePeer(members);
      if members[n].peer == sender {
        assert SendOthers(members, sender, message) == rest;
      } else {
        assert SendOthers(members, sender, message) == rest + [Send(members[n].peer, message)];
        ReceivedSnoc(rest, Send(members[n].peer, message), peer);
      }
    }
  }

  lemma NoDuplicatePeer(members: seq<Member>)
    requires members != [] && DistinctPeers(members)
    ensures !HasPeer(members[..|members| - 1], members[|members| - 1].peer)
  {
  }

  /** A broadcast frame reaches every member but the sender, exactly once, and nobody else. */
  lemma BroadcastReachesTheOthers(room: Room, sender: Peer, frame: WifiFrame, peer: Peer)
    requires DistinctPeers(room.members) && frame.destination == BROADCAST_MAC
    ensures ReceivedBy(Forward(room, sender, frame).1, peer) ==
            if peer != sender && HasPeer(room.members, peer) then [Wifi(frame)] else []
  {
    SendOthersReach(room.members, sender, Wifi(frame), peer);
  }

  /** A frame for one MAC reaches the member that holds it, which is unique, and no one if nobody does. */
  lemma UnicastReachesTheHolder(cfg: Config, room: Room, sender: Peer, frame: WifiFrame, peer: Peer)
    requires RoomOk(cfg, room) && DistinctPeers(room.members) && frame.destination != BROADCAST_MAC
    ensures ReceivedBy(Forward(room, sender, frame).1, peer) ==
            if exists i :: 0 <= i < |room.members| && room.members[i].peer == peer && room.members[i].mac == frame.destination
            then [Wifi(frame)] else []
  {
    var k := ByMac(room.members, frame.destination);
    if k < |room.members| {
      assert Forward(room, sender, frame).1 == [Send(room.members[k].peer, Wifi(frame))];
      assert [Send(room.members[k].peer, Wifi(frame))][..0] == [];
      forall i | 0 <= i < |room.members| && i != k
        ensures room.members[i].mac != frame.destination
      {
        if i < k {
          assert Distinguished(room.members[i], room.members[k]);
        } else {
          assert Distinguished(room.members[k], room.members[i]);
        }
      }
    }
  }
}
