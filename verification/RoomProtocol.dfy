/**
 A room and any number of clients, joined by one reliable FIFO channel per direction and connection. The
 server handles one event at a time, so each handler is one step. Every interleaving is a run.
 */
module RoomProtocol {
  import opened Bytes
  import opened RoomMessages
  import opened RoomSpec
  import opened RoomClient

  /** `connected` are the peers the server can send to; the three maps are keyed by every peer there ever was. */
  datatype Network = Network(room: Room, connected: set<Peer>, clients: map<Peer, Client>,
                             toServer: map<Peer, seq<ClientMessage>>, toClient: map<Peer, seq<ServerMessage>>)

  datatype Step =
    | Connect(request: ClientMessage, peer: Peer)          // `RoomMember::Join`
    | ClientSends(peer: Peer, message: ClientMessage)
    | ServerHandles(peer: Peer, drawn: MacAddress)
    | ServerSeesDisconnect(peer: Peer)
    | ClientHandles(peer: Peer)
    | ClientSeesDisconnect(peer: Peer)
    | ClientLeaves(peer: Peer)
    | MessagesLost(peer: Peer, kept: nat)                  // the tail of the channel of a disconnected peer

  ghost predicate Enabled(n: Network, s: Step) {
    match s
    case Connect(request, peer) => peer !in n.clients && request.JoinRequest?
    case ClientSends(peer, message) => peer in n.clients && Connected(n.clients[peer]) && peer in n.toServer && !message.JoinRequest?
    case ServerHandles(peer, drawn) =>
      peer in n.connected && peer in n.toServer && n.toServer[peer] != [] && IsFreshMac(n.room.members, drawn)
    case ServerSeesDisconnect(peer) => peer in n.clients
    case ClientHandles(peer) =>
      peer in n.clients && Connected(n.clients[peer]) && peer in n.toClient && n.toClient[peer] != []
    case ClientSeesDisconnect(peer) => peer in n.clients && Connected(n.clients[peer])
    case ClientLeaves(peer) => peer in n.clients
    case MessagesLost(peer, kept) => peer !in n.connected && peer in n.toClient && kept <= |n.toClient[peer]|
  }

  /** The room has changed to `room` and ENet carries out the outputs. */
  function Deliver(n: Network, room: Room, outputs: seq<Output>): Network {
    n.(room := room,
       connected := (set p | p in n.connected && Disconnect(p) !in outputs),
       toClient := (map p | p in n.toClient :: n.toClient[p] + (if p in n.connected then ReceivedBy(outputs, p) else [])))
  }

  function Next(cfg: Config, n: Network, s: Step): Network
    requires Enabled(n, s)
  {
    match s
    case Connect(request, peer) =>
      n.(connected := n.connected + {peer},
         clients := n.clients[peer := Client(Joining, request.nickname, [], NO_PREFERRED_MAC, [], [])],
         toServer := n.toServer[peer := [request]],
         toClient := n.toClient[peer := []])
    case ClientSends(peer, message) => n.(toServer := n.toServer[peer := n.toServer[peer] + [message]])
    case ServerHandles(peer, drawn) =>
      var (room, outputs) := Handle(cfg, n.room, peer, n.toServer[peer][0], drawn);
      Deliver(n.(toServer := n.toServer[peer := n.toServer[peer][1..]]), room, outputs)
    case ServerSeesDisconnect(peer) =>
      var (room, outputs) := Leave(cfg, n.room, peer);
      Deliver(n, room, outputs)
    case ClientHandles(peer) =>
      n.(clients := n.clients[peer := Receive(n.clients[peer], n.toClient[peer][0])],
         toClient := n.toClient[peer := n.toClient[peer][1..]])
    case ClientSeesDisconnect(peer) => n.(clients := n.clients[peer := ConnectionLost(n.clients[peer])])
    case ClientLeaves(peer) => n.(clients := n.clients[peer := Closed(n.clients[peer])])
    case MessagesLost(peer, kept) => n.(toClient := n.toClient[peer := n.toClient[peer][..kept]])
  }

  function Opened(usernameBans: seq<Text>, ipBans: seq<Text>): Network {
    Network(Room([], usernameBans, ipBans), {}, map[], map[], map[])
  }

  ghost predicate IsRun(cfg: Config, states: seq<Network>, steps: seq<Step>) {
    && |states| == |steps| + 1
    && states[0] == Opened(states[0].room.usernameBans, states[0].room.ipBans)
    && forall i :: 0 <= i < |steps| ==> Enabled(states[i], steps[i]) && states[i + 1] == Next(cfg, states[i], steps[i])
  }

  // ---------------------------------------------------------------- what the channels promise

  /** Nicknames and MACs are unique in `entries`, and one entry is ours with this MAC. */
  ghost predicate Lists(entries: seq<MemberEntry>, nickname: Text, mac: MacAddress) {
    && (forall i, j :: 0 <= i < j < |entries| ==> entries[i].nickname != entries[j].nickname && entries[i].mac != entries[j].mac)
    && exists i :: 0 <= i < |entries| && entries[i].nickname == nickname && entries[i].mac == mac
  }

  /** The member list a client will hold once it has handled `messages`. */
  function LastInfo(info: seq<MemberEntry>, messages: seq<ServerMessage>): seq<MemberEntry> {
    if messages == [] then info
    else
      var last := messages[|messages| - 1];
      if last.RoomInformation? then last.members else LastInfo(info, messages[..|messages| - 1])
  }

  /** Whenever a success message comes up, the client will already hold a list with its own entry. */
  ghost predicate Promise(info: seq<MemberEntry>, messages: seq<ServerMessage>, nickname: Text) {
    forall k :: 0 <= k < |messages| && messages[k].JoinSuccess? ==>
      Lists(LastInfo(info, messages[..k]), nickname, messages[k].mac)
  }

  predicate NoSuccess(messages: seq<ServerMessage>) {
    forall k :: 0 <= k < |messages| ==> !messages[k].JoinSuccess?
  }

  lemma {:induction false} LastInfoConcat(info: seq<MemberEntry>, a: seq<ServerMessage>, b: seq<ServerMessage>)
    ensures LastInfo(info, a + b) == LastInfo(LastInfo(info, a), b)
    decreases |b|
  {
    if b == [] {
      assert a + b == a;
    } else {
      assert (a + b)[..|a + b| - 1] == a + b[..|b| - 1];
      LastInfoConcat(info, a, b[..|b| - 1]);
    }
  }

  lemma PromiseConcat(info: seq<MemberEntry>, a: seq<ServerMessage>, b: seq<ServerMessage>, nickname: Text)
    requires Promise(info, a, nickname) && Promise(LastInfo(info, a), b, nickname)
    ensures Promise(info, a + b, nickname)
  {
    forall k | 0 <= k < |a + b| && (a + b)[k].JoinSuccess?
      ensures Lists(LastInfo(info, (a + b)[..k]), nickname, (a + b)[k].mac)
    {
      if k < |a| {
        assert (a + b)[..k] == a[..k];
      } else {
        assert (a + b)[..k] == a + b[..k - |a|];
        LastInfoConcat(info, a, b[..k - |a|]);
      }
    }
  }

  lemma PromiseTail(info: seq<MemberEntry>, messages: seq<ServerMessage>, nickname: Text)
    requires messages != [] && Promise(info, messages, nickname)
    ensures Promise(LastInfo(info, messages[..1]), messages[1..], nickname)
    ensures LastInfo(info, messages[..1]) == if messages[0].RoomInformation? then messages[0].members else info
  {
    assert messages[..1][..0] == [];
    forall k | 0 <= k < |messages[1..]| && messages[1..][k].JoinSuccess?
      ensures Lists(LastInfo(LastInfo(info, messages[..1]), messages[1..][..k]), nickname, messages[1..][k].mac)
    {
      assert messages[1..][k] == messages[k + 1];
      assert messages[..k + 1] == messages[..1] + messages[1..][..k];
      LastInfoConcat(info, messages[..1], messages[1..][..k]);
    }
  }

  lemma PromisePrefix(info: seq<MemberEntry>, messages: seq<ServerMessage>, kept: nat, nickname: Text)
    requires kept <= |messages| && Promise(info, messages, nickname)
    ensures Promise(info, messages[..kept], nickname)
  {
    forall k | 0 <= k < kept && messages[..kept][k].JoinSuccess?
      ensures Lists(LastInfo(info, messages[..kept][..k]), nickname, messages[..kept][k].mac)
    {
      assert messages[..kept][..k] == messages[..k];
    }
  }

  // ---------------------------------------------------------------- what the handlers send

  predicate Quiet(outputs: seq<Output>) {
    forall o :: o in outputs ==> !o.Disconnect? ==> !o.message.JoinSuccess?
  }

  lemma {:induction false} QuietOutputs(outputs: seq<Output>, peer: Peer)
    requires Quiet(outputs)
    ensures NoSuccess(ReceivedBy(outputs, peer))
    decreases |outputs|
  {
    if outputs != [] {
      QuietOutputs(outputs[..|outputs| - 1], peer);
    }
  }

  lemma {:induction false} SendOthersQuiet(members: seq<Member>, sender: Peer, message: ServerMessage)
    requires !message.JoinSuccess?
    ensures Quiet(SendOthers(members, sender, message))
    decreases |members|
  {
    if members != [] {
      SendOthersQuiet(members[..|members| - 1], sender, message);
    }
  }

  lemma ForwardQuiet(room: Room, sender: Peer, frame: WifiFrame)
    requires DistinctPeers(room.members)
    ensures Quiet(Forward(room, sender, frame).1) && forall p :: Disconnect(p) !in Forward(room, sender, frame).1
  {
    SendOthersQuiet(room.members, sender, Wifi(frame));
    forall p
      ensures Disconnect(p) !in SendOthers(room.members, sender, Wifi(frame))
    {
      SendOthersReach(room.members, sender, Wifi(frame), p);
    }
  }

  lemma SayQuiet(room: Room, sender: Peer, text: Text)
    requires DistinctPeers(room.members)
    ensures Quiet(Say(room, sender, text).1) && forall p :: Disconnect(p) !in Say(room, sender, text).1
  {
    var i := ByPeer(room.members, sender);
    if i < |room.members| {
      var cut := if |text| <= MAX_MESSAGE_SIZE then text else text[..MAX_MESSAGE_SIZE];
      var chat := Chat(room.members[i].nickname, room.members[i].userData.username, cut);
      SendOthersQuiet(room.members, sender, chat);
      forall p
        ensures Disconnect(p) !in SendOthers(room.members, sender, chat)
      {
        SendOthersReach(room.members, sender, chat, p);
      }
    }
  }

  /** Only an accepted join request is answered with success. */
  lemma OthersAreQuiet(cfg: Config, room: Room, peer: Peer, message: ClientMessage, drawn: MacAddress)
    requires DistinctPeers(room.members)
    requires message.JoinRequest? ==> Judge(cfg, room, peer, message, drawn).Refuse?
    ensures Quiet(Handle(cfg, room, peer, message, drawn).1)
  {
    if message.SendWifi? {
      ForwardQuiet(room, peer, message.frame);
    } else if message.SendChat? {
      SayQuiet(room, peer, message.text);
    }
  }

  lemma ErasedPeerGone(members: seq<Member>, i: nat)
    requires DistinctPeers(members) && i <= |members|
    ensures i < |members| ==> !HasPeer(Erase(members, i), members[i].peer) && DistinctPeers(Erase(members, i))
    ensures i < |members| ==> forall p :: HasPeer(Erase(members, i), p) ==> HasPeer(members, p)
  {
    if i < |members| {
      var rest := Erase(members, i);
      assert forall k :: 0 <= k < |rest| ==> rest[k] == members[if k < i then k else k + 1];
    }
  }

  /**
   What the joining client receives: possibly its own announcement, if it is a member already, then the new
   member list and then the success message, with nothing in between.
   */
  lemma {:induction false} JoinReceived(outputs: seq<Output>, info: ServerMessage, success: ServerMessage, peer: Peer, p: Peer)
    requires Quiet(outputs) && Disconnect(p) !in outputs
    ensures ReceivedBy(outputs + [Broadcast(info), Send(peer, success)], p) ==
            ReceivedBy(outputs, p) + [info] + if p == peer then [success] else []
  {
    assert outputs + [Broadcast(info), Send(peer, success)] == (outputs + [Broadcast(info)]) + [Send(peer, success)];
    ReceivedSnoc(outputs, Broadcast(info), p);
    ReceivedSnoc(outputs + [Broadcast(info)], Send(peer, success), p);
  }

  lemma EntriesList(cfg: Config, room: Room, k: nat)
    requires RoomOk(cfg, room) && k < |room.members|
    ensures Lists(Entries(room.members), room.members[k].nickname, room.members[k].mac)
  {
    var entries := Entries(room.members);
    forall i, j | 0 <= i < j < |entries|
      ensures entries[i].nickname != entries[j].nickname && entries[i].mac != entries[j].mac
    {
      assert Distinguished(room.members[i], room.members[j]);
    }
    assert entries[k].nickname == room.members[k].nickname && entries[k].mac == room.members[k].mac;
  }

  // ---------------------------------------------------------------- the invariant

  ghost predicate Domains(n: Network) {
    n.toServer.Keys == n.clients.Keys && n.toClient.Keys == n.clients.Keys && n.connected <= n.clients.Keys
  }

  predicate NoJoin(requests: seq<ClientMessage>) {
    forall k :: 0 <= k < |requests| ==> !requests[k].JoinRequest?
  }

  /** At most one request to join, and under this name. */
  predicate OneJoin(requests: seq<ClientMessage>, nickname: Text) {
    && (forall k :: 0 <= k < |requests| && requests[k].JoinRequest? ==> requests[k].nickname == nickname)
    && (forall j, k :: 0 <= j < k < |requests| ==> !(requests[j].JoinRequest? && requests[k].JoinRequest?))
  }

  lemma OneJoinTail(requests: seq<ClientMessage>, nickname: Text)
    requires requests != [] && OneJoin(requests, nickname)
    ensures OneJoin(requests[1..], nickname)
    ensures requests[0].JoinRequest? || NoJoin(requests) ==> NoJoin(requests[1..])
    ensures requests[0].JoinRequest? ==> requests[0].nickname == nickname && !NoJoin(requests)
  {
    assert forall k :: 0 <= k < |requests| - 1 ==> requests[1..][k] == requests[k + 1];
  }

  lemma OneJoinAppend(requests: seq<ClientMessage>, nickname: Text, message: ClientMessage)
    requires OneJoin(requests, nickname) && !message.JoinRequest?
    ensures OneJoin(requests + [message], nickname)
    ensures NoJoin(requests) ==> NoJoin(requests + [message])
  {
  }

  /** A peer asks to join at most once, under its own nickname, and members have asked already. */
  ghost predicate AsksOnce(n: Network, p: Peer)
    requires Domains(n) && p in n.clients
  {
    && OneJoin(n.toServer[p], n.clients[p].nickname)
    && (HasPeer(n.room.members, p) ==> p in n.connected && NoJoin(n.toServer[p]))
  }

  ghost predicate Inv(cfg: Config, n: Network) {
    && RoomOk(cfg, n.room)
    && DistinctPeers(n.room.members)
    && Domains(n)
    && (forall i :: 0 <= i < |n.room.members| ==> n.room.members[i].peer in n.clients)
    && (forall p :: p in n.clients ==> AsksOnce(n, p))
    && (forall p :: p in n.clients && Connected(n.clients[p]) ==>
          Promise(n.clients[p].memberInformation, n.toClient[p], n.clients[p].nickname))
  }

  /** What the protocol needs of a handler; `nickname` is set when it may admit `peer` under that name. */
  ghost predicate Behaves(before: Room, after: Room, outputs: seq<Output>, peer: Peer, joins: bool, nickname: Text) {
    && DistinctPeers(after.members)
    && (forall p :: HasPeer(after.members, p) ==> HasPeer(before.members, p) || (joins && p == peer))
    && (forall p :: HasPeer(after.members, p) ==> Disconnect(p) !in outputs)
    && (forall p, info, name :: (joins && p == peer ==> name == nickname) ==> Promise(info, ReceivedBy(outputs, p), name))
  }

  lemma QuietBehaves(before: Room, after: Room, outputs: seq<Output>, peer: Peer, joins: bool, nickname: Text)
    requires Quiet(outputs) && DistinctPeers(after.members)
    requires forall p :: HasPeer(after.members, p) ==> HasPeer(before.members, p) && Disconnect(p) !in outputs
    ensures Behaves(before, after, outputs, peer, joins, nickname)
  {
    forall p
      ensures NoSuccess(ReceivedBy(outputs, p))
    {
      QuietOutputs(outputs, p);
    }
  }

  lemma AddedPeer(members: seq<Member>, m: Member)
    requires DistinctPeers(members) && !HasPeer(members, m.peer)
    ensures DistinctPeers(members + [m])
    ensures forall p :: HasPeer(members + [m], p) ==> HasPeer(members, p) || p == m.peer
  {
    forall p | HasPeer(members + [m], p)
      ensures HasPeer(members, p) || p == m.peer
    {
      HasPeerSnoc(members + [m], p);
      assert (members + [m])[..|members|] == members;
    }
  }

  lemma NoticesAreQuiet(members: seq<Member>, message: ServerMessage, p: Peer)
    requires !message.JoinSuccess?
    ensures Disconnect(p) !in SendAll(members, message) && Quiet(SendAll(members, message))
    ensures NoSuccess(ReceivedBy(SendAll(members, message), p))
  {
    QuietOutputs(SendAll(members, message), p);
  }

  lemma AcceptBehaves(cfg: Config, room: Room, m: Member, outputs: seq<Output>)
    requires DistinctPeers(room.members) && !HasPeer(room.members, m.peer)
    requires var members := room.members + [m];
             && Lists(Entries(members), m.nickname, m.mac)
             && outputs == SendAll(room.members, Status(MemberJoin, m.nickname, m.userData.username)) +
                           [RoomInfo(cfg, members), Send(m.peer, JoinSuccess(m.mac, HasModPermission(cfg, members, m.peer)))]
    ensures Behaves(room, room.(members := room.members + [m]), outputs, m.peer, true, m.nickname)
  {
    var members := room.members + [m];
    var notice := Status(MemberJoin, m.nickname, m.userData.username);
    var first := SendAll(room.members, notice);
    var info := RoomInformation(cfg.details, Entries(members));
    var success := JoinSuccess(m.mac, HasModPermission(cfg, members, m.peer));
    AddedPeer(room.members, m);
    forall p
      ensures Disconnect(p) !in outputs
    {
      NoticesAreQuiet(room.members, notice, p);
    }
    forall p, known, name | p == m.peer ==> name == m.nickname
      ensures Promise(known, ReceivedBy(outputs, p), name)
    {
      NoticesAreQuiet(room.members, notice, p);
      JoinReceived(first, info, success, m.peer, p);
      JoinPromise(known, ReceivedBy(first, p), info, m.mac, success, p == m.peer, name);
    }
  }

  lemma JoinBehaves(cfg: Config, room: Room, peer: Peer, request: ClientMessage, drawn: MacAddress)
    requires request.JoinRequest? && IsFreshMac(room.members, drawn)
    requires RoomOk(cfg, room) && DistinctPeers(room.members) && !HasPeer(room.members, peer)
    ensures var (after, outputs) := Join(cfg, room, peer, request, drawn);
            Behaves(room, after, outputs, peer, true, request.nickname)
  {
    var (after, outputs) := Join(cfg, room, peer, request, drawn);
    match Judge(cfg, room, peer, request, drawn) {
      case Refuse(_) => QuietBehaves(room, after, outputs, peer, true, request.nickname);
      case Accept(m) =>
        JoinKeepsOk(cfg, room, peer, request, drawn);
        EntriesList(cfg, after, |room.members|);
        AcceptBehaves(cfg, room, m, outputs);
    }
  }

  lemma JoinPromise(known: seq<MemberEntry>, notices: seq<ServerMessage>, info: ServerMessage, mac: MacAddress,
                    success: ServerMessage, own: bool, name: Text)
    requires NoSuccess(notices) && info.RoomInformation? && success.JoinSuccess? && success.mac == mac
    requires own ==> Lists(info.members, name, mac)
    ensures Promise(known, notices + [info] + if own then [success] else [], name)
  {
    var messages := notices + [info] + if own then [success] else [];
    if own {
      assert messages[..|notices| + 1] == notices + [info];
      assert (notices + [info])[|notices|] == info;
    }
  }

  lemma ExpelBehaves(cfg: Config, room: Room, sender: Peer, nickname: Text, ban: bool)
    requires DistinctPeers(room.members)
    ensures var (after, outputs) := Expel(cfg, room, sender, nickname, ban);
            Behaves(room, after, outputs, sender, false, [])
  {
    var (after, outputs) := Expel(cfg, room, sender, nickname, ban);
    var i := ByNickname(room.members, nickname);
    ErasedPeerGone(room.members, i);
    QuietBehaves(room, after, outputs, sender, false, []);
  }

  lemma LeaveBehaves(cfg: Config, room: Room, peer: Peer)
    requires DistinctPeers(room.members)
    ensures var (after, outputs) := Leave(cfg, room, peer);
            Behaves(room, after, outputs, peer, false, [])
  {
    var (after, outputs) := Leave(cfg, room, peer);
    var i := ByPeer(room.members, peer);
    ErasedPeerGone(room.members, i);
    QuietBehaves(room, after, outputs, peer, false, []);
  }

  lemma SpeechBehaves(cfg: Config, room: Room, peer: Peer, message: ClientMessage, drawn: MacAddress)
    requires DistinctPeers(room.members) && (message.SendWifi? || message.SendChat?)
    ensures var (after, outputs) := Handle(cfg, room, peer, message, drawn);
            Behaves(room, after, outputs, peer, false, [])
  {
    if message.SendWifi? {
      ForwardQuiet(room, peer, message.frame);
      QuietBehaves(room, room, Forward(room, peer, message.frame).1, peer, false, []);
    } else {
      SayQuiet(room, peer, message.text);
      QuietBehaves(room, room, Say(room, peer, message.text).1, peer, false, []);
    }
  }

  lemma BanListBehaves(cfg: Config, room: Room, peer: Peer, message: ClientMessage, drawn: MacAddress)
    requires DistinctPeers(room.members) && (message.ModUnban? || message.ModGetBanList?)
    ensures var (after, outputs) := Handle(cfg, room, peer, message, drawn);
            Behaves(room, after, outputs, peer, false, [])
  {
    var (after, outputs) := Handle(cfg, room, peer, message, drawn);
    OthersAreQuiet(cfg, room, peer, message, drawn);
    QuietBehaves(room, after, outputs, peer, false, []);
  }

  lemma HandleBehaves(cfg: Config, room: Room, peer: Peer, message: ClientMessage, drawn: MacAddress)
    requires RoomOk(cfg, room) && DistinctPeers(room.members) && IsFreshMac(room.members, drawn)
    requires message.JoinRequest? ==> !HasPeer(room.members, peer)
    ensures var (after, outputs) := Handle(cfg, room, peer, message, drawn);
            Behaves(room, after, outputs, peer, message.JoinRequest?, if message.JoinRequest? then message.nickname else [])
  {
    match message {
      case JoinRequest(_, _, _, _, _, _) => JoinBehaves(cfg, room, peer, message, drawn);
      case ModKick(nickname) => ExpelBehaves(cfg, room, peer, nickname, false);
      case ModBan(nickname) => ExpelBehaves(cfg, room, peer, nickname, true);
      case SetGameInfo(game) => SetGameBehaves(cfg, room, peer, game);
      case SendWifi(_) => SpeechBehaves(cfg, room, peer, message, drawn);
      case SendChat(_) => SpeechBehaves(cfg, room, peer, message, drawn);
      case ModUnban(_) => BanListBehaves(cfg, room, peer, message, drawn);
      case ModGetBanList => BanListBehaves(cfg, room, peer, message, drawn);
    }
  }

  lemma SetGameBehaves(cfg: Config, room: Room, sender: Peer, game: GameInfo)
    requires DistinctPeers(room.members)
    ensures var (after, outputs) := SetGame(cfg, room, sender, game);
            Behaves(room, after, outputs, sender, false, [])
  {
    var (after, outputs) := SetGame(cfg, room, sender, game);
    assert forall i :: 0 <= i < |after.members| ==> after.members[i].peer == room.members[i].peer;
    forall p | HasPeer(after.members, p)
      ensures HasPeer(room.members, p)
    {
      var i :| 0 <= i < |after.members| && after.members[i].peer == p;
      assert room.members[i].peer == p;
    }
    QuietBehaves(room, after, outputs, sender, false, []);
  }

  // ---------------------------------------------------------------- every step keeps the invariant

  ghost predicate Promises(n: Network) {
    forall p :: p in n.clients && p in n.toClient && Connected(n.clients[p]) ==>
      Promise(n.clients[p].memberInformation, n.toClient[p], n.clients[p].nickname)
  }

  /** Delivering what a well-behaved handler sends keeps every promise. */
  lemma DeliverKeepsPromises(n: Network, room: Room, outputs: seq<Output>, peer: Peer, joins: bool, nickname: Text)
    requires Promises(n) && Behaves(n.room, room, outputs, peer, joins, nickname)
    requires joins ==> peer in n.clients && n.clients[peer].nickname == nickname
    ensures Promises(Deliver(n, room, outputs))
  {
    var after := Deliver(n, room, outputs);
    forall p | p in after.clients && p in after.toClient && Connected(after.clients[p])
      ensures Promise(after.clients[p].memberInformation, after.toClient[p], after.clients[p].nickname)
    {
      var c := n.clients[p];
      if p in n.connected {
        PromiseConcat(c.memberInformation, n.toClient[p], ReceivedBy(outputs, p), c.nickname);
      } else {
        assert n.toClient[p] + [] == n.toClient[p];
      }
    }
  }

  /** Consuming one message leaves every peer asking at most once, and one whose request it was not at all. */
  lemma PopKeepsAsking(n: Network, popped: Network, peer: Peer, p: Peer)
    requires Domains(n) && p in n.clients && AsksOnce(n, p)
    requires peer in n.clients && n.toServer[peer] != []
    requires popped == n.(toServer := n.toServer[peer := n.toServer[peer][1..]])
    ensures Domains(popped) && AsksOnce(popped, p)
    ensures p == peer && n.toServer[peer][0].JoinRequest? ==> NoJoin(popped.toServer[peer])
  {
    if p == peer {
      OneJoinTail(n.toServer[p], n.clients[p].nickname);
    }
  }

  /** A member admitted by a well-behaved handler has asked already. */
  lemma DeliverKeepsAsking(n: Network, room: Room, outputs: seq<Output>, peer: Peer, joins: bool, nickname: Text, p: Peer)
    requires Domains(n) && p in n.clients && AsksOnce(n, p)
    requires Behaves(n.room, room, outputs, peer, joins, nickname)
    requires joins ==> peer in n.connected && NoJoin(n.toServer[peer])
    ensures Domains(Deliver(n, room, outputs)) && AsksOnce(Deliver(n, room, outputs), p)
  {
  }

  lemma ServerHandlesKeepsInv(cfg: Config, n: Network, s: Step)
    requires Inv(cfg, n) && Enabled(n, s) && s.ServerHandles?
    ensures Inv(cfg, Next(cfg, n, s))
  {
    var peer, message := s.peer, n.toServer[s.peer][0];
    var popped := n.(toServer := n.toServer[peer := n.toServer[peer][1..]]);
    var (room, outputs) := Handle(cfg, n.room, peer, message, s.drawn);
    var nickname := if message.JoinRequest? then message.nickname else [];
    assert AsksOnce(n, peer);
    HandleBehaves(cfg, n.room, peer, message, s.drawn);
    ReactKeepsOk(cfg, n.room, Received(peer, message, s.drawn));
    DeliveryKeepsInv(cfg, n, popped, room, outputs, peer, nickname);
  }

  lemma DeliveryKeepsInv(cfg: Config, n: Network, popped: Network, room: Room, outputs: seq<Output>, peer: Peer, nickname: Text)
    requires Inv(cfg, n) && peer in n.connected && n.toServer[peer] != []
    requires popped == n.(toServer := n.toServer[peer := n.toServer[peer][1..]])
    requires RoomOk(cfg, room) && Behaves(n.room, room, outputs, peer, n.toServer[peer][0].JoinRequest?, nickname)
    requires n.toServer[peer][0].JoinRequest? ==> n.clients[peer].nickname == nickname
    ensures Inv(cfg, Deliver(popped, room, outputs))
  {
    var joins := n.toServer[peer][0].JoinRequest?;
    PopKeepsAsking(n, popped, peer, peer);
    forall p | p in n.clients
      ensures AsksOnce(Deliver(popped, room, outputs), p)
    {
      PopKeepsAsking(n, popped, peer, p);
      DeliverKeepsAsking(popped, room, outputs, peer, joins, nickname, p);
    }
    DeliverKeepsPromises(popped, room, outputs, peer, joins, nickname);
    MembersKnown(n, Deliver(popped, room, outputs), peer);
  }

  lemma MembersKnown(n: Network, after: Network, peer: Peer)
    requires forall i :: 0 <= i < |n.room.members| ==> n.room.members[i].peer in n.clients
    requires forall p :: HasPeer(after.room.members, p) ==> HasPeer(n.room.members, p) || p == peer
    requires after.clients == n.clients && peer in n.clients
    ensures forall i :: 0 <= i < |after.room.members| ==> after.room.members[i].peer in after.clients
  {
    forall i | 0 <= i < |after.room.members|
      ensures after.room.members[i].peer in after.clients
    {
      assert HasPeer(after.room.members, after.room.members[i].peer);
    }
  }

  lemma DisconnectKeepsInv(cfg: Config, n: Network, s: Step)
    requires Inv(cfg, n) && Enabled(n, s) && s.ServerSeesDisconnect?
    ensures Inv(cfg, Next(cfg, n, s))
  {
    var (room, outputs) := Leave(cfg, n.room, s.peer);
    var after := Deliver(n, room, outputs);
    LeaveBehaves(cfg, n.room, s.peer);
    ReactKeepsOk(cfg, n.room, Disconnected(s.peer));
    DeliverKeepsPromises(n, room, outputs, s.peer, false, []);
    forall p | p in after.clients
      ensures AsksOnce(after, p)
    {
      DeliverKeepsAsking(n, room, outputs, s.peer, false, [], p);
    }
    MembersKnown(n, after, s.peer);
  }

  lemma ClientKeepsAsking(cfg: Config, n: Network, s: Step, p: Peer)
    requires Domains(n) && Enabled(n, s) && !s.ServerHandles? && !s.ServerSeesDisconnect?
    requires if p in n.clients then AsksOnce(n, p) else !HasPeer(n.room.members, p)
    requires Domains(Next(cfg, n, s)) && p in Next(cfg, n, s).clients
    ensures AsksOnce(Next(cfg, n, s), p)
  {
    if s.ClientSends? && s.peer == p {
      OneJoinAppend(n.toServer[p], n.clients[p].nickname, s.message);
    }
  }

  lemma ReceiveKeepsPromise(c: Client, messages: seq<ServerMessage>)
    requires messages != [] && Promise(c.memberInformation, messages, c.nickname)
    requires Connected(Receive(c, messages[0]))
    ensures Promise(Receive(c, messages[0]).memberInformation, messages[1..], c.nickname)
    ensures Receive(c, messages[0]).nickname == c.nickname
  {
    PromiseTail(c.memberInformation, messages, c.nickname);
  }

  lemma ClientKeepsPromise(cfg: Config, n: Network, s: Step, p: Peer)
    requires Domains(n) && Enabled(n, s) && !s.ServerHandles? && !s.ServerSeesDisconnect?
    requires p in n.clients && Connected(n.clients[p]) ==> Promise(n.clients[p].memberInformation, n.toClient[p], n.clients[p].nickname)
    requires p in Next(cfg, n, s).clients && Connected(Next(cfg, n, s).clients[p])
    ensures p in Next(cfg, n, s).toClient
    ensures var c := Next(cfg, n, s).clients[p];
            Promise(c.memberInformation, Next(cfg, n, s).toClient[p], c.nickname)
  {
    match s {
      case ClientHandles(peer) =>
        if p == peer {
          ReceiveKeepsPromise(n.clients[p], n.toClient[p]);
        }
      case MessagesLost(peer, kept) =>
        if p == peer {
          PromisePrefix(n.clients[p].memberInformation, n.toClient[p], kept, n.clients[p].nickname);
        }
      case _ =>
    }
  }

  lemma ClientKeepsInv(cfg: Config, n: Network, s: Step)
    requires Inv(cfg, n) && Enabled(n, s) && !s.ServerHandles? && !s.ServerSeesDisconnect?
    ensures Inv(cfg, Next(cfg, n, s))
  {
    var after := Next(cfg, n, s);
    assert Domains(after);
    forall p | p in after.clients
      ensures AsksOnce(after, p)
      ensures Connected(after.clients[p]) ==>
                Promise(after.clients[p].memberInformation, after.toClient[p], after.clients[p].nickname)
    {
      assert p !in n.clients ==> !HasPeer(n.room.members, p);
      ClientKeepsAsking(cfg, n, s, p);
      if Connected(after.clients[p]) {
        ClientKeepsPromise(cfg, n, s, p);
      }
    }
  }

  lemma StepKeepsInv(cfg: Config, n: Network, s: Step)
    requires Inv(cfg, n) && Enabled(n, s)
    ensures Inv(cfg, Next(cfg, n, s))
  {
    if s.ServerHandles? {
      ServerHandlesKeepsInv(cfg, n, s);
    } else if s.ServerSeesDisconnect? {
      DisconnectKeepsInv(cfg, n, s);
    } else {
      ClientKeepsInv(cfg, n, s);
    }
  }

  lemma {:induction false} RunKeepsInv(cfg: Config, states: seq<Network>, steps: seq<Step>, i: nat)
    requires IsRun(cfg, states, steps) && i <= |steps|
    ensures Inv(cfg, states[i])
  {
    if i > 0 {
      RunKeepsInv(cfg, states, steps, i - 1);
      StepKeepsInv(cfg, states[i - 1], steps[i - 1]);
    }
  }

  /**
   Join agreement, in every reachable state: when a success message is next for a client, the client holds a
   member list in which it is listed exactly once, with the MAC address of that message.
   */
  lemma JoinAgreement(cfg: Config, states: seq<Network>, steps: seq<Step>, i: nat, peer: Peer)
    requires IsRun(cfg, states, steps) && i <= |steps|
    requires Enabled(states[i], ClientHandles(peer)) && states[i].toClient[peer][0].JoinSuccess?
    ensures var c := states[i].clients[peer];
            c.memberInformation != [] && Lists(c.memberInformation, c.nickname, states[i].toClient[peer][0].mac)
  {
    RunKeepsInv(cfg, states, steps, i);
    var n := states[i];
    assert n.toClient[peer][..0] == [];
    assert LastInfo(n.clients[peer].memberInformation, []) == n.clients[peer].memberInformation;
  }

  /** In every reachable state the room is in order and every member is a connected peer that joined once. */
  lemma MembersAreConnectedOnce(cfg: Config, states: seq<Network>, steps: seq<Step>, i: nat)
    requires IsRun(cfg, states, steps) && i <= |steps|
    ensures RoomOk(cfg, states[i].room) && DistinctPeers(states[i].room.members)
    ensures forall k :: 0 <= k < |states[i].room.members| ==> states[i].room.members[k].peer in states[i].connected
  {
    RunKeepsInv(cfg, states, steps, i);
    forall k | 0 <= k < |states[i].room.members|
      ensures states[i].room.members[k].peer in states[i].connected
    {
      assert HasPeer(states[i].room.members, states[i].room.members[k].peer);
      assert AsksOnce(states[i], states[i].room.members[k].peer);
    }
  }
}
