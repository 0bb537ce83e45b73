/**
 What a peer of the room sees of each event, said of the members, the ban lists and the messages that
 arrive, and what a ban means for the rest of a run.
 */
module RoomEffects {
  import opened Bytes
  import opened RoomMessages
  import opened RoomSpec

  // ---------------------------------------------------------------- vocabulary

  /** `members[i]` is the first member with this nickname. */
  ghost predicate IsNamed(members: seq<Member>, i: nat, nickname: Text) {
    i < |members| && members[i].nickname == nickname && forall j :: 0 <= j < i ==> members[j].nickname != nickname
  }

  /** `members[i]` is the first member behind this peer. */
  ghost predicate IsBehind(members: seq<Member>, i: nat, peer: Peer) {
    i < |members| && members[i].peer == peer && forall j :: 0 <= j < i ==> members[j].peer != peer
  }

  /** A moderator while moderators are enabled, or the host. */
  ghost predicate Moderates(cfg: Config, m: Member) {
    if cfg.details.hostUsername != [] && m.userData.username == cfg.details.hostUsername then true
    else if cfg.enableMods then m.userData.moderator else false
  }

  ghost predicate Permitted(cfg: Config, room: Room, peer: Peer) {
    exists i: nat :: IsBehind(room.members, i, peer) && Moderates(cfg, room.members[i])
  }

  /** The list less the first occurrence of `x`, or the same list without one. */
  ghost predicate LosesFirst(before: seq<Text>, after: seq<Text>, x: Text) {
    if x in before then
      exists i: nat :: i < |before| && before[i] == x && x !in before[..i] && after == before[..i] + before[i + 1..]
    else
      after == before
  }

  /** The list with `x` at its end, or the same list when it has `x`. */
  ghost predicate GainsOnce(before: seq<Text>, after: seq<Text>, x: Text) {
    if x in before then after == before else after == before + [x]
  }

  /** A room information message for these members. */
  ghost predicate IsRoster(message: ServerMessage, cfg: Config, members: seq<Member>) {
    && message.RoomInformation?
    && message.details == cfg.details
    && |message.members| == |members|
    && forall i :: 0 <= i < |members| ==> Describes(message.members[i], members[i])
  }

  ghost predicate Describes(entry: MemberEntry, m: Member) {
    && entry.nickname == m.nickname && entry.mac == m.mac && entry.game == m.game
    && entry.username == m.userData.username && entry.displayName == m.userData.displayName
    && entry.avatarUrl == m.userData.avatarUrl
  }

  /** What arrives when the members of the room are told `news` and everybody gets the new roster. */
  ghost predicate IsNews(received: seq<ServerMessage>, told: bool, news: ServerMessage, cfg: Config, members: seq<Member>) {
    if told then |received| == 2 && received[0] == news && IsRoster(received[1], cfg, members)
    else |received| == 1 && IsRoster(received[0], cfg, members)
  }

  // ---------------------------------------------------------------- who may moderate, what arrives

  lemma PermittedIff(cfg: Config, room: Room, peer: Peer)
    ensures HasModPermission(cfg, room.members, peer) <==> Permitted(cfg, room, peer)
  {
    var i := ByPeer(room.members, peer);
    if i < |room.members| {
      assert IsBehind(room.members, i, peer);
    }
  }

  lemma ByNicknameIs(members: seq<Member>, i: nat, nickname: Text)
    requires IsNamed(members, i, nickname)
    ensures ByNickname(members, nickname) == i
  {
  }

  lemma ByPeerIs(members: seq<Member>, i: nat, peer: Peer)
    requires IsBehind(members, i, peer)
    ensures ByPeer(members, peer) == i
  {
  }

  lemma RosterIsRoster(cfg: Config, members: seq<Member>)
    ensures IsRoster(RoomInfo(cfg, members).message, cfg, members)
  {
    var message := RoomInfo(cfg, members).message;
    assert message == RoomInformation(cfg.details, Entries(members));
    forall i | 0 <= i < |members|
      ensures Describes(message.members[i], members[i])
    {
      assert message.members[i] == Entry(members[i]);
    }
  }

  lemma {:induction false} SendAllReach(members: seq<Member>, message: ServerMessage, peer: Peer)
    requires DistinctPeers(members)
    ensures ReceivedBy(SendAll(members, message), peer) == if HasPeer(members, peer) then [message] else []
    ensures forall p :: Disconnect(p) !in SendAll(members, message)
  {
    if members != [] {
      var n := |members| - 1;
      var rest := SendAll(members[..n], message);
      SendAllReach(members[..n], message, peer);
      HasPeerSnoc(members, peer);
      NoDuplicatePeer(members);
      assert SendAll(members, message) == rest + [Send(members[n].peer, message)];
      ReceivedSnoc(rest, Send(members[n].peer, message), peer);
    }
  }

  /** Outputs that follow others arrive behind them, unless the others cut the connection. */
  lemma {:induction false} ReceivedConcat(a: seq<Output>, b: seq<Output>, peer: Peer)
    ensures ReceivedBy(a + b, peer) ==
            if Disconnect(peer) in a then ReceivedBy(a, peer) else ReceivedBy(a, peer) + ReceivedBy(b, peer)
  {
    if b == [] {
      assert a + b == a;
    } else {
      var n := |b| - 1;
      ReceivedConcat(a, b[..n], peer);
      assert (a + b)[..|a + b| - 1] == a + b[..n];
      assert (a + b)[|a + b| - 1] == b[n];
    }
  }

  lemma ReceivedOne(o: Output, peer: Peer)
    ensures ReceivedBy([o], peer) ==
            match o
            case Send(to, message) => if to == peer then [message] else []
            case Broadcast(message) => [message]
            case Disconnect(_) => []
  {
    ReceivedSnoc([], o, peer);
    assert [] + [o] == [o];
  }

  /** The members are told, then everybody gets the roster. */
  lemma NewsArrive(cfg: Config, members: seq<Member>, listeners: seq<Member>, news: ServerMessage, peer: Peer)
    requires DistinctPeers(listeners)
    ensures IsNews(ReceivedBy(SendAll(listeners, news) + [RoomInfo(cfg, members)], peer), HasPeer(listeners, peer), news, cfg, members)
    ensures forall p :: Disconnect(p) !in SendAll(listeners, news) + [RoomInfo(cfg, members)]
  {
    SendAllReach(listeners, news, peer);
    RosterIsRoster(cfg, members);
    ReceivedConcat(SendAll(listeners, news), [RoomInfo(cfg, members)], peer);
    ReceivedOne(RoomInfo(cfg, members), peer);
  }

  // ---------------------------------------------------------------- joining

  /** Four to twenty of: space, period, hyphen, underscore, digits and letters. */
  lemma NicknameForm(nickname: Text)
    ensures MatchesPattern(nickname) <==>
            && 4 <= |nickname| && |nickname| <= 20
            && forall b :: b in nickname ==>
                 b == 32 || b == 45 || b == 46 || b == 95 || 48 <= b < 58 || 65 <= b < 91 || 97 <= b < 123
  {
    forall i | 0 <= i < |nickname|
      ensures nickname[i] in nickname
    {
    }
  }

  /** An address that is drawn has the vendor's first three bytes and is nobody else's. */
  lemma DrawnForm(members: seq<Member>, mac: MacAddress)
    ensures IsFreshMac(members, mac) <==>
            mac[0] == 0x00 && mac[1] == 0x1F && mac[2] == 0x32 && forall i :: 0 <= i < |members| ==> members[i].mac != mac
  {
    assert mac[..3] == [mac[0], mac[1], mac[2]];
  }

  /** An accepted request adds its sender, last, and changes neither another member nor a ban. */
  lemma JoinEffect(cfg: Config, room: Room, peer: Peer, request: ClientMessage, drawn: MacAddress)
    requires request.JoinRequest? && Judge(cfg, room, peer, request, drawn).Accept?
    ensures var after := React(cfg, room, Received(peer, request, drawn)).0;
            && after.usernameBans == room.usernameBans && after.ipBans == room.ipBans
            && after.members == room.members + [Newcomer(cfg, peer, request, drawn)]
  {
  }

  /** The member a request asks to become. */
  ghost function Newcomer(cfg: Config, peer: Peer, request: ClientMessage, drawn: MacAddress): Member
    requires request.JoinRequest?
  {
    Member(request.nickname, request.consoleIdHash, GameInfo([], 0),
           if request.preferredMac == NO_PREFERRED_MAC then drawn else request.preferredMac,
           cfg.loadUserData(request.token), peer)
  }

  /**
   The newcomer gets the roster with itself in it and then its address, and nothing else; the members
   before it are told of it and everybody gets the roster.
   */
  lemma JoinIsAnnounced(cfg: Config, room: Room, peer: Peer, request: ClientMessage, drawn: MacAddress, p: Peer)
    requires request.JoinRequest? && Judge(cfg, room, peer, request, drawn).Accept?
    requires DistinctPeers(room.members) && !HasPeer(room.members, peer)
    ensures var outputs := React(cfg, room, Received(peer, request, drawn)).1;
            var m := Newcomer(cfg, peer, request, drawn);
            var received := ReceivedBy(outputs, p);
            && Disconnect(p) !in outputs
            && (p != peer ==>
                  IsNews(received, HasPeer(room.members, p), Status(MemberJoin, m.nickname, m.userData.username), cfg, room.members + [m]))
            && (p == peer ==>
                  && |received| == 2 && IsRoster(received[0], cfg, room.members + [m])
                  && received[1] == JoinSuccess(m.mac, Moderates(cfg, m)))
  {
    var m := Newcomer(cfg, peer, request, drawn);
    var members := room.members + [m];
    var told := SendAll(room.members, Status(MemberJoin, m.nickname, m.userData.username)) + [RoomInfo(cfg, members)];
    NewcomerModerates(cfg, room, m);
    var answer := Send(peer, JoinSuccess(m.mac, Moderates(cfg, m)));
    assert React(cfg, room, Received(peer, request, drawn)).1 == told + [answer];
    NewsArrive(cfg, members, room.members, Status(MemberJoin, m.nickname, m.userData.username), p);
    ReceivedConcat(told, [answer], p);
    ReceivedOne(answer, p);
  }

  lemma NewcomerModerates(cfg: Config, room: Room, m: Member)
    requires !HasPeer(room.members, m.peer)
    ensures HasModPermission(cfg, room.members + [m], m.peer) <==> Moderates(cfg, m)
  {
    assert IsBehind(room.members + [m], |room.members|, m.peer);
    ByPeerIs(room.members + [m], |room.members|, m.peer);
  }

  /** The answer names the first check that fails, in this order. */
  lemma RefusalNamesTheFirstFailure(cfg: Config, room: Room, peer: Peer, request: ClientMessage, drawn: MacAddress)
    requires request.JoinRequest? && IsFreshMac(room.members, drawn)
    requires Judge(cfg, room, peer, request, drawn).Refuse?
    ensures var (after, outputs) := React(cfg, room, Received(peer, request, drawn));
            && after == room
            && outputs == [Send(peer,
                 if |room.members| >= cfg.details.memberSlots then RoomIsFull
                 else if request.password != cfg.password then WrongPassword
                 else if !MatchesPattern(request.nickname) then NameCollision
                 else if exists i :: 0 <= i < |room.members| && room.members[i].nickname == request.nickname then NameCollision
                 else if request.preferredMac != NO_PREFERRED_MAC &&
                         exists i :: 0 <= i < |room.members| && room.members[i].mac == request.preferredMac then MacCollision
                 else if exists i :: 0 <= i < |room.members| && room.members[i].consoleIdHash == request.consoleIdHash
                 then ConsoleIdCollision
                 else if request.version != 4 then VersionMismatch
                 else HostBanned)]
  {
  }

  // ---------------------------------------------------------------- moderation

  /** Without permission nothing changes and the sender is told so. */
  lemma UnpermittedChangesNothing(cfg: Config, room: Room, sender: Peer, message: ClientMessage, drawn: MacAddress)
    requires message.ModKick? || message.ModBan? || message.ModUnban? || message.ModGetBanList?
    requires !Permitted(cfg, room, sender)
    ensures React(cfg, room, Received(sender, message, drawn)) == (room, [Send(sender, PermissionDenied)])
  {
    PermittedIff(cfg, room, sender);
  }

  /** A nickname nobody has. */
  lemma UnknownUserIsReported(cfg: Config, room: Room, sender: Peer, message: ClientMessage, drawn: MacAddress)
    requires message.ModKick? || message.ModBan?
    requires Permitted(cfg, room, sender) && forall i :: 0 <= i < |room.members| ==> room.members[i].nickname != message.nickname
    ensures React(cfg, room, Received(sender, message, drawn)) == (room, [Send(sender, NoSuchUser)])
  {
    PermittedIff(cfg, room, sender);
  }

  /** A permitted ban: her address and, unless empty, her user name are listed, and she alone has gone. */
  lemma BanEffect(cfg: Config, room: Room, sender: Peer, nickname: Text, drawn: MacAddress, i: nat)
    requires Permitted(cfg, room, sender) && IsNamed(room.members, i, nickname)
    ensures var after := React(cfg, room, Received(sender, ModBan(nickname), drawn)).0;
            var gone := room.members[i];
            && GainsOnce(room.ipBans, after.ipBans, cfg.addressOf(gone.peer))
            && (gone.userData.username != [] ==> GainsOnce(room.usernameBans, after.usernameBans, gone.userData.username))
            && (gone.userData.username == [] ==> after.usernameBans == room.usernameBans)
            && after.members == room.members[..i] + room.members[i + 1..]
  {
    PermittedIff(cfg, room, sender);
    ByNicknameIs(room.members, i, nickname);
  }

  /** A permitted kick: she alone has gone, and the ban lists are as before. */
  lemma KickEffect(cfg: Config, room: Room, sender: Peer, nickname: Text, drawn: MacAddress, i: nat)
    requires Permitted(cfg, room, sender) && IsNamed(room.members, i, nickname)
    ensures var after := React(cfg, room, Received(sender, ModKick(nickname), drawn)).0;
            && after.ipBans == room.ipBans && after.usernameBans == room.usernameBans
            && after.members == room.members[..i] + room.members[i + 1..]
  {
    PermittedIff(cfg, room, sender);
    ByNicknameIs(room.members, i, nickname);
  }

  /** She is told, her connection alone is cut, the members that stay are told, and everybody else gets the roster. */
  lemma ExpulsionIsAnnounced(cfg: Config, room: Room, sender: Peer, message: ClientMessage, drawn: MacAddress, i: nat, p: Peer)
    requires message.ModKick? || message.ModBan?
    requires Permitted(cfg, room, sender) && IsNamed(room.members, i, message.nickname) && DistinctPeers(room.members)
    ensures var (after, outputs) := React(cfg, room, Received(sender, message, drawn));
            var gone := room.members[i];
            var received := ReceivedBy(outputs, p);
            && (Disconnect(p) in outputs <==> p == gone.peer)
            && (p == gone.peer ==> received == [if message.ModBan? then HostBanned else HostKicked])
            && (p != gone.peer ==>
                  IsNews(received, HasPeer(room.members, p),
                         Status(if message.ModBan? then MemberBanned else MemberKicked, message.nickname, gone.userData.username),
                 cfg, after.members))
  {
    PermittedIff(cfg, room, sender);
    ByNicknameIs(room.members, i, message.nickname);
    var (after, outputs) := React(cfg, room, Received(sender, message, drawn));
    var gone := room.members[i];
    var rest := after.members;
    var notice := Send(gone.peer, if message.ModBan? then HostBanned else HostKicked);
    var news := Status(if message.ModBan? then MemberBanned else MemberKicked, message.nickname, gone.userData.username);
    var told := SendAll(rest, news) + [RoomInfo(cfg, rest)];
    assert outputs == [notice, Disconnect(gone.peer)] + told;
    assert [notice, Disconnect(gone.peer)] == [notice] + [Disconnect(gone.peer)];
    RestKeepsPeers(room.members, i, p);
    NewsArrive(cfg, rest, rest, news, p);
    ReceivedConcat([notice], [Disconnect(gone.peer)], p);
    ReceivedConcat([notice, Disconnect(gone.peer)], told, p);
    ReceivedOne(notice, p);
    ReceivedOne(Disconnect(gone.peer), p);
  }

  lemma RestKeepsPeers(members: seq<Member>, i: nat, p: Peer)
    requires i < |members| && DistinctPeers(members)
    ensures DistinctPeers(Erase(members, i))
    ensures HasPeer(Erase(members, i), p) <==> HasPeer(members, p) && p != members[i].peer
  {
    var rest := Erase(members, i);
    forall k | 0 <= k < |rest|
      ensures rest[k] == members[if k < i then k else k + 1]
    {
    }
    if HasPeer(members, p) && p != members[i].peer {
      var k :| 0 <= k < |members| && members[k].peer == p;
      assert rest[if k < i then k else k - 1].peer == p;
    }
  }

  lemma EraseFirstIs(before: seq<Text>, x: Text)
    ensures LosesFirst(before, EraseFirst(before, x), x)
  {
    var i := FindIf(before, y => y == x);
    if i < |before| {
      assert x !in before[..i];
    }
  }

  /** A permitted unban takes the first entry of that name from each list, tells the members, and does no more. */
  lemma UnbanEffect(cfg: Config, room: Room, sender: Peer, address: Text, drawn: MacAddress, p: Peer)
    requires Permitted(cfg, room, sender) && DistinctPeers(room.members)
    ensures var (after, outputs) := React(cfg, room, Received(sender, ModUnban(address), drawn));
            && LosesFirst(room.usernameBans, after.usernameBans, address) && LosesFirst(room.ipBans, after.ipBans, address)
            && after.members == room.members
            && Disconnect(p) !in outputs
            && (address in room.usernameBans || address in room.ipBans ==>
                  ReceivedBy(outputs, p) == if HasPeer(room.members, p) then [Status(AddressUnbanned, address, [])] else [])
            && (address !in room.usernameBans && address !in room.ipBans ==> outputs == [Send(sender, NoSuchUser)])
  {
    PermittedIff(cfg, room, sender);
    EraseFirstIs(room.usernameBans, address);
    EraseFirstIs(room.ipBans, address);
    SendAllReach(room.members, Status(AddressUnbanned, address, []), p);
  }

  /** A permitted moderator gets both lists, user names first. */
  lemma BanListIsSent(cfg: Config, room: Room, sender: Peer, drawn: MacAddress)
    requires Permitted(cfg, room, sender)
    ensures React(cfg, room, Received(sender, ModGetBanList, drawn)) == (room, [Send(sender, BanList(room.usernameBans, room.ipBans))])
  {
    PermittedIff(cfg, room, sender);
  }

  // ---------------------------------------------------------------- talking and leaving

  /** Chat reaches every other member, cut to 500 bytes and under the sender's names; a stranger's reaches nobody. */
  lemma ChatReachesTheOthers(cfg: Config, room: Room, sender: Peer, text: Text, drawn: MacAddress, p: Peer)
    requires DistinctPeers(room.members)
    ensures var (after, outputs) := React(cfg, room, Received(sender, SendChat(text), drawn));
            && after == room
            && Disconnect(p) !in outputs
            && (forall i: nat :: IsBehind(room.members, i, sender) ==>
                  ReceivedBy(outputs, p) ==
                  if p != sender && HasPeer(room.members, p)
                  then [Chat(room.members[i].nickname, room.members[i].userData.username, if |text| > 500 then text[..500] else text)]
                  else [])
            && (!HasPeer(room.members, sender) ==> outputs == [])
  {
    var i := ByPeer(room.members, sender);
    if i < |room.members| {
      var m := room.members[i];
      var message := Chat(m.nickname, m.userData.username, if |text| > 500 then text[..500] else text);
      assert Say(room, sender, text).1 == SendOthers(room.members, sender, message);
      SendOthersReach(room.members, sender, message, p);
    }
  }

  /** The sender's game changes, nothing else does, and everybody gets the new roster. */
  lemma GameIsAnnounced(cfg: Config, room: Room, sender: Peer, game: GameInfo, drawn: MacAddress, p: Peer)
    ensures var (after, outputs) := React(cfg, room, Received(sender, SetGameInfo(game), drawn));
            && after.usernameBans == room.usernameBans && after.ipBans == room.ipBans
            && |after.members| == |room.members|
            && (forall k :: 0 <= k < |room.members| ==>
                  after.members[k] == if IsBehind(room.members, k, sender) then room.members[k].(game := game) else room.members[k])
            && Disconnect(p) !in outputs
            && IsNews(ReceivedBy(outputs, p), false, RoomIsFull, cfg, after.members)
  {
    var (after, outputs) := React(cfg, room, Received(sender, SetGameInfo(game), drawn));
    RosterIsRoster(cfg, after.members);
    ReceivedOne(RoomInfo(cfg, after.members), p);
  }

  /** A lost connection takes its member away, if there is one, and nothing else. */
  lemma LeaveEffect(cfg: Config, room: Room, peer: Peer)
    ensures var after := React(cfg, room, Disconnected(peer)).0;
            && after.usernameBans == room.usernameBans && after.ipBans == room.ipBans
            && (!HasPeer(room.members, peer) ==> after.members == room.members)
            && (forall i: nat :: IsBehind(room.members, i, peer) ==> after.members == room.members[..i] + room.members[i + 1..])
  {
  }

  /** The members that stay are told, everybody else gets the roster, and the lost peer gets nothing. */
  lemma LeavingIsAnnounced(cfg: Config, room: Room, i: nat, peer: Peer, p: Peer)
    requires RoomOk(cfg, room) && DistinctPeers(room.members) && IsBehind(room.members, i, peer)
    ensures var (after, outputs) := React(cfg, room, Disconnected(peer));
            && (Disconnect(p) in outputs <==> p == peer)
            && (p == peer ==> ReceivedBy(outputs, p) == [])
            && (p != peer ==> IsNews(ReceivedBy(outputs, p), HasPeer(room.members, p),
                                     Status(MemberLeave, room.members[i].nickname, room.members[i].userData.username), cfg, after.members))
  {
    var gone := room.members[i];
    assert MatchesPattern(gone.nickname);
    ByPeerIs(room.members, i, peer);
    var rest := Erase(room.members, i);
    var news := Status(MemberLeave, gone.nickname, gone.userData.username);
    var told := SendAll(rest, news) + [RoomInfo(cfg, rest)];
    assert React(cfg, room, Disconnected(peer)).1 == [Disconnect(peer)] + told;
    RestKeepsPeers(room.members, i, p);
    NewsArrive(cfg, rest, rest, news, p);
    ReceivedConcat([Disconnect(peer)], told, p);
    ReceivedOne(Disconnect(peer), p);
  }

  /** A lost connection that was never a member's changes nothing; everybody else gets the roster. */
  lemma StrangerLeaves(cfg: Config, room: Room, peer: Peer, p: Peer)
    requires !HasPeer(room.members, peer)
    ensures var (after, outputs) := React(cfg, room, Disconnected(peer));
            && after == room
            && (Disconnect(p) in outputs <==> p == peer)
            && (p != peer ==> IsNews(ReceivedBy(outputs, p), false, RoomIsFull, cfg, room.members))
  {
    var outputs := React(cfg, room, Disconnected(peer)).1;
    assert outputs == [Disconnect(peer)] + [RoomInfo(cfg, room.members)];
    RosterIsRoster(cfg, room.members);
    ReceivedConcat([Disconnect(peer)], [RoomInfo(cfg, room.members)], p);
    ReceivedOne(Disconnect(peer), p);
    ReceivedOne(RoomInfo(cfg, room.members), p);
  }

  // ---------------------------------------------------------------- bans over runs

  /** A moderator's request to lift the ban of `entry`. */
  ghost predicate Lifts(cfg: Config, room: Room, event: RoomEvent, entry: Text) {
    event.Received? && event.message == ModUnban(entry) && Permitted(cfg, room, event.peer)
  }

  /** Only a permitted ban or unban touches the lists. */
  lemma OthersKeepTheLists(cfg: Config, room: Room, event: RoomEvent)
    requires event.Received? && (event.message.ModBan? || event.message.ModUnban?) ==> !Permitted(cfg, room, event.peer)
    ensures React(cfg, room, event).0.ipBans == room.ipBans && React(cfg, room, event).0.usernameBans == room.usernameBans
  {
    if event.Received? {
      PermittedIff(cfg, room, event.peer);
    }
  }

  /** What is listed stays listed, until it is lifted. */
  lemma EntryStays(cfg: Config, room: Room, event: RoomEvent, entry: Text)
    requires !Lifts(cfg, room, event, entry)
    ensures entry in room.ipBans ==> entry in React(cfg, room, event).0.ipBans
    ensures entry in room.usernameBans ==> entry in React(cfg, room, event).0.usernameBans
  {
    if event.Received? && event.message.ModUnban? && Permitted(cfg, room, event.peer) {
      var after := React(cfg, room, event).0;
      PermittedIff(cfg, room, event.peer);
      EraseFirstIs(room.usernameBans, event.message.address);
      EraseFirstIs(room.ipBans, event.message.address);
      OtherEntryStays(room.usernameBans, after.usernameBans, event.message.address, entry);
      OtherEntryStays(room.ipBans, after.ipBans, event.message.address, entry);
    }
  }

  lemma OtherEntryStays(before: seq<Text>, after: seq<Text>, x: Text, entry: Text)
    requires LosesFirst(before, after, x) && entry != x
    ensures entry in before ==> entry in after
  {
    if x in before && entry in before {
      var i: nat :| i < |before| && before[i] == x && x !in before[..i] && after == before[..i] + before[i + 1..];
      var k :| 0 <= k < |before| && before[k] == entry;
      assert after[if k < i then k else k - 1] == entry;
    }
  }

  /** No moderator lifts the ban of `entry` from event `from` on, before event `to`. */
  ghost predicate NeverLifted(cfg: Config, rooms: seq<Room>, events: seq<RoomEvent>, entry: Text, from: nat, to: nat)
    requires to <= |events| && |rooms| == |events| + 1
  {
    forall k: nat :: from <= k < to ==> !Lifts(cfg, rooms[k], events[k], entry)
  }

  /** The same along a run. */
  lemma {:induction false} EntryStaysAlong(cfg: Config, rooms: seq<Room>, events: seq<RoomEvent>, entry: Text, from: nat, to: nat)
    requires |rooms| == |events| + 1 && from <= to <= |events|
    requires forall k: nat :: from <= k < to ==> IsStep(cfg, rooms, events, k)
    requires NeverLifted(cfg, rooms, events, entry, from, to)
    ensures entry in rooms[from].ipBans ==> entry in rooms[to].ipBans
    ensures entry in rooms[from].usernameBans ==> entry in rooms[to].usernameBans
  {
    if from < to {
      var last := to - 1;
      EntryStaysAlong(cfg, rooms, events, entry, from, last);
      assert IsStep(cfg, rooms, events, last);
      EntryStays(cfg, rooms[last], events[last], entry);
    }
  }

  ghost predicate IsStep(cfg: Config, rooms: seq<Room>, events: seq<RoomEvent>, k: nat) {
    |rooms| == |events| + 1 && k < |events| && rooms[k + 1] == React(cfg, rooms[k], events[k]).0
  }

  /** A request is turned down: the room is as before, and the only message is a refusal to its sender. */
  ghost predicate IsTurnedDown(cfg: Config, rooms: seq<Room>, events: seq<RoomEvent>, j: nat)
    requires j < |events| && |rooms| == |events| + 1 && events[j].Received?
  {
    && rooms[j + 1] == rooms[j]
    && exists why {:trigger Send(events[j].peer, why)} ::
         && React(cfg, rooms[j], events[j]).1 == [Send(events[j].peer, why)]
         && (why.RoomIsFull? || why.WrongPassword? || why.NameCollision? || why.MacCollision? || why.ConsoleIdCollision?
             || why.VersionMismatch? || why.HostBanned?)
  }

  /**
   From a moderator's ban of a member until a moderator lifts it, every join request from her address is
   turned down, and, unless her user name is empty, every join request of that user as well.
   */
  lemma BannedDoNotReturn(cfg: Config, rooms: seq<Room>, events: seq<RoomEvent>, k: nat, i: nat, j: nat)
    requires IsRoomRun(cfg, rooms, events) && k < j < |events|
    requires events[k].Received? && events[k].message.ModBan? && Permitted(cfg, rooms[k], events[k].peer)
    requires IsNamed(rooms[k].members, i, events[k].message.nickname)
    requires events[j].Received? && events[j].message.JoinRequest?
    requires var gone := rooms[k].members[i];
             var user := cfg.loadUserData(events[j].message.token).username;
             || (cfg.addressOf(events[j].peer) == cfg.addressOf(gone.peer) &&
                 NeverLifted(cfg, rooms, events, cfg.addressOf(gone.peer), k + 1, j))
             || (user == gone.userData.username && user != [] &&
                 NeverLifted(cfg, rooms, events, user, k + 1, j))
    ensures IsTurnedDown(cfg, rooms, events, j)
  {
    var gone := rooms[k].members[i];
    var address := cfg.addressOf(gone.peer);
    var event := events[k];
    BanEffect(cfg, rooms[k], event.peer, event.message.nickname, event.drawn, i);
    assert Received(event.peer, ModBan(event.message.nickname), event.drawn) == event;
    forall n: nat | n < |events|
      ensures IsStep(cfg, rooms, events, n)
    {
    }
    if cfg.addressOf(events[j].peer) == address && NeverLifted(cfg, rooms, events, address, k + 1, j) {
      EntryStaysAlong(cfg, rooms, events, address, k + 1, j);
    } else {
      EntryStaysAlong(cfg, rooms, events, gone.userData.username, k + 1, j);
    }
    var why := Judge(cfg, rooms[j], events[j].peer, events[j].message, events[j].drawn).why;
    assert React(cfg, rooms[j], events[j]).1 == [Send(events[j].peer, why)];
  }
}
