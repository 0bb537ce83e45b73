/** The server of a room: its member and ban lists, and the handlers that update them message by message. */
module RoomServer {
  import opened Bytes
  import opened RoomMessages
  import opened RoomSpec

  /** `std::find_if`. */
  method Find<T>(s: seq<T>, p: T -> bool) returns (i: nat)
    ensures i == FindIf(s, p)
  {
    i := 0;
    while i < |s| && !p(s[i])
      invariant 0 <= i <= |s|
      invariant forall j :: 0 <= j < i ==> !p(s[j])
    {
      i := i + 1;
    }
    var k := FindIf(s, p);
  }

  /** `std::all_of`. */
  method AllOf<T>(s: seq<T>, p: T -> bool) returns (all: bool)
    ensures all <==> forall i :: 0 <= i < |s| ==> p(s[i])
  {
    for i := 0 to |s|
      invariant forall j :: 0 <= j < i ==> p(s[j])
    {
      if !p(s[i]) {
        return false;
      }
    }
    return true;
  }

  /** `std::find` and `erase`. */
  method RemoveFirst<T(==)>(s: seq<T>, x: T) returns (r: seq<T>, found: bool)
    ensures r == EraseFirst(s, x) && found == (x in s)
  {
    var i := Find(s, (y: T) => y == x);
    ghost var k := FindIf(s, y => y == x);
    assert i == k;
    found := i < |s|;
    r := if found then Erase(s, i) else s;
  }

  class RoomImpl {
    const cfg: Config
    var members: seq<Member>
    var usernameBanList: seq<Text>
    var ipBanList: seq<Text>
    /** Everything handed to ENet so far, in order. */
    var sent: seq<Output>

    ghost function State(): Room
      reads this
    {
      Room(members, usernameBanList, ipBanList)
    }

    constructor (cfg: Config, usernameBans: seq<Text>, ipBans: seq<Text>)
      ensures this.cfg == cfg && State() == Room([], usernameBans, ipBans) && sent == []
    {
      this.cfg := cfg;
      members, usernameBanList, ipBanList, sent := [], usernameBans, ipBans, [];
    }

    // -------------------------------------------------------------- queries and senders

    method NicknameIsValid(nickname: Text) returns (valid: bool)
      ensures valid == IsValidNickname(members, nickname)
    {
      if !MatchesPattern(nickname) {
        return false;
      }
      valid := AllOf(members, (m: Member) => m.nickname != nickname);
    }

    method MacIsValid(mac: MacAddress) returns (valid: bool)
      ensures valid == IsValidMac(members, mac)
    {
      valid := AllOf(members, (m: Member) => m.mac != mac);
    }

    method ConsoleIdIsValid(hash: Text) returns (valid: bool)
      ensures valid == IsValidConsoleId(members, hash)
    {
      valid := AllOf(members, (m: Member) => m.consoleIdHash != hash);
    }

    method MayModerate(peer: Peer) returns (permitted: bool)
      ensures permitted == HasModPermission(cfg, members, peer)
    {
      var i := Find(members, (m: Member) => m.peer == peer);
      if i == |members| {
        return false;
      }
      if cfg.enableMods && members[i].userData.moderator {
        return true;
      }
      return cfg.details.hostUsername != [] && members[i].userData.username == cfg.details.hostUsername;
    }

    /** `draw` is the random generator; some draw must yield an address nobody has. */
    method GenerateMacAddress(draw: nat -> seq<byte>) returns (mac: MacAddress)
      requires forall n :: |draw(n)| == 3
      requires exists n :: IsFreshMac(members, NINTENDO_OUI + draw(n))
      ensures IsFreshMac(members, mac)
    {
      ghost var last: nat :| IsFreshMac(members, NINTENDO_OUI + draw(last));
      var n := 0;
      mac := NINTENDO_OUI + draw(n);
      var free := MacIsValid(mac);
      while !free
        invariant n <= last && mac == NINTENDO_OUI + draw(n) && free == IsValidMac(members, mac)
        decreases last - n, !free
      {
        n := n + 1;
        mac := NINTENDO_OUI + draw(n);
        free := MacIsValid(mac);
      }
    }

    method Emit(o: Output)
      modifies this`sent
      ensures sent == old(sent) + [o]
    {
      sent := sent + [o];
    }

    method SendStatusMessage(what: StatusType, nickname: Text, username: Text)
      modifies this`sent
      ensures sent == old(sent) + SendAll(members, Status(what, nickname, username))
    {
      var i := 0;
      while i < |members|
        invariant 0 <= i <= |members|
        invariant sent == old(sent) + SendAll(members, Status(what, nickname, username))[..i]
      {
        sent := sent + [Send(members[i].peer, Status(what, nickname, username))];
        i := i + 1;
      }
    }

    method SendToOthers(sender: Peer, message: ServerMessage)
      modifies this`sent
      ensures sent == old(sent) + SendOthers(members, sender, message)
    {
      var i := 0;
      while i < |members|
        invariant 0 <= i <= |members|
        invariant sent == old(sent) + SendOthers(members[..i], sender, message)
      {
        assert members[..i + 1][..i] == members[..i];
        if members[i].peer != sender {
          sent := sent + [Send(members[i].peer, message)];
        }
        i := i + 1;
      }
      assert members[..i] == members;
    }

    method BroadcastRoomInformation()
      modifies this`sent
      ensures sent == old(sent) + [RoomInfo(cfg, members)]
    {
      var entries := [];
      var i := 0;
      while i < |members|
        invariant 0 <= i <= |members|
        invariant entries == Entries(members)[..i]
      {
        entries := entries + [Entry(members[i])];
        i := i + 1;
      }
      assert entries == Entries(members);
      Emit(Broadcast(RoomInformation(cfg.details, entries)));
    }

    // -------------------------------------------------------------- handlers

    method HandleJoinRequest(peer: Peer, request: ClientMessage, draw: nat -> seq<byte>) returns (ghost drawn: MacAddress)
      requires request.JoinRequest?
      requires forall n :: |draw(n)| == 3
      requires exists n :: IsFreshMac(members, NINTENDO_OUI + draw(n))
      modifies this
      ensures IsFreshMac(old(members), drawn)
      ensures State() == Join(cfg, old(State()), peer, request, drawn).0
      ensures sent == old(sent) + Join(cfg, old(State()), peer, request, drawn).1
    {
      ghost var free: nat :| IsFreshMac(members, NINTENDO_OUI + draw(free));
      drawn := NINTENDO_OUI + draw(free);
      if |members| >= cfg.details.memberSlots {
        Emit(Send(peer, RoomIsFull));
        return;
      }
      if request.password != cfg.password {
        Emit(Send(peer, WrongPassword));
        return;
      }
      var ok := NicknameIsValid(request.nickname);
      if !ok {
        Emit(Send(peer, NameCollision));
        return;
      }
      var mac := request.preferredMac;
      if mac != NO_PREFERRED_MAC {
        ok := MacIsValid(mac);
        if !ok {
          Emit(Send(peer, MacCollision));
          return;
        }
      } else {
        mac := GenerateMacAddress(draw);
        drawn := mac;
      }
      ok := ConsoleIdIsValid(request.consoleIdHash);
      if !ok {
        Emit(Send(peer, ConsoleIdCollision));
        return;
      }
      if request.version != NETWORK_VERSION {
        Emit(Send(peer, VersionMismatch));
        return;
      }
      var user := cfg.loadUserData(request.token);
      if user.username != [] && user.username in usernameBanList {
        Emit(Send(peer, HostBanned));
        return;
      }
      if cfg.addressOf(peer) in ipBanList {
        Emit(Send(peer, HostBanned));
        return;
      }
      var member := Member(request.nickname, request.consoleIdHash, GameInfo([], 0), mac, user, peer);
      assert Judge(cfg, State(), peer, request, drawn) == Accept(member);
      Admit(member);
    }

    /** The second half of `HandleJoinRequest`: tell the others, add the member, tell everyone, answer. */
    method Admit(member: Member)
      modifies this
      ensures State() == old(State()).(members := old(members) + [member])
      ensures sent == old(sent) + (SendAll(old(members), Status(MemberJoin, member.nickname, member.userData.username)) +
                      [RoomInfo(cfg, members), Send(member.peer, JoinSuccess(member.mac, HasModPermission(cfg, members, member.peer)))])
    {
      SendStatusMessage(MemberJoin, member.nickname, member.userData.username);
      members := members + [member];
      BroadcastRoomInformation();
      var moderator := MayModerate(member.peer);
      Emit(Send(member.peer, JoinSuccess(member.mac, moderator)));
    }

    /** `HandleModKickPacket` and, with `ban`, `HandleModBanPacket`. */
    method HandleExpel(sender: Peer, nickname: Text, ban: bool)
      modifies this
      ensures State() == Expel(cfg, old(State()), sender, nickname, ban).0
      ensures sent == old(sent) + Expel(cfg, old(State()), sender, nickname, ban).1
    {
      var permitted := MayModerate(sender);
      if !permitted {
        Emit(Send(sender, PermissionDenied));
        return;
      }
      var i := Find(members, (m: Member) => m.nickname == nickname);
      if i == |members| {
        Emit(Send(sender, NoSuchUser));
        return;
      }
      Remove(i, nickname, ban);
    }

    method Remove(i: nat, nickname: Text, ban: bool)
      requires i < |members|
      modifies this
      ensures State() == ExpelAt(cfg, old(State()), i, nickname, ban).0
      ensures sent == old(sent) + ExpelAt(cfg, old(State()), i, nickname, ban).1
    {
      var target := members[i];
      Emit(Send(target.peer, if ban then HostBanned else HostKicked));
      Emit(Disconnect(target.peer));
      members := Erase(members, i);
      if ban {
        Ban(target.userData.username, cfg.addressOf(target.peer));
      }
      Announce(if ban then MemberBanned else MemberKicked, nickname, target.userData.username);
    }

    method Ban(username: Text, address: Text)
      modifies this`usernameBanList, this`ipBanList
      ensures State() == AddBans(old(State()), username, address)
    {
      if username != [] && username !in usernameBanList {
        usernameBanList := usernameBanList + [username];
      }
      if address !in ipBanList {
        ipBanList := ipBanList + [address];
      }
    }

    method Announce(what: StatusType, nickname: Text, username: Text)
      modifies this`sent
      ensures sent == old(sent) + (SendAll(members, Status(what, nickname, username)) + [RoomInfo(cfg, members)])
    {
      SendStatusMessage(what, nickname, username);
      BroadcastRoomInformation();
    }

    method HandleModUnban(sender: Peer, address: Text)
      modifies this
      ensures State() == Unban(cfg, old(State()), sender, address).0
      ensures sent == old(sent) + Unban(cfg, old(State()), sender, address).1
    {
      var permitted := MayModerate(sender);
      if !permitted {
        Emit(Send(sender, PermissionDenied));
        return;
      }
      var bannedName, bannedAddress;
      usernameBanList, bannedName := RemoveFirst(usernameBanList, address);
      ipBanList, bannedAddress := RemoveFirst(ipBanList, address);
      var unbanned := bannedName || bannedAddress;
      if unbanned {
        SendStatusMessage(AddressUnbanned, address, []);
      } else {
        Emit(Send(sender, NoSuchUser));
      }
    }

    method HandleModGetBanList(sender: Peer)
      modifies this
      ensures State() == GetBanList(cfg, old(State()), sender).0
      ensures sent == old(sent) + GetBanList(cfg, old(State()), sender).1
    {
      var permitted := MayModerate(sender);
      Emit(Send(sender, if permitted then BanList(usernameBanList, ipBanList) else PermissionDenied));
    }

    method HandleWifiPacket(sender: Peer, frame: WifiFrame)
      modifies this
      ensures State() == Forward(old(State()), sender, frame).0
      ensures sent == old(sent) + Forward(old(State()), sender, frame).1
    {
      if frame.destination == BROADCAST_MAC {
        SendToOthers(sender, Wifi(frame));
      } else {
        var i := Find(members, (m: Member) => m.mac == frame.destination);
        if i < |members| {
          Emit(Send(members[i].peer, Wifi(frame)));
        }
      }
    }

    method HandleChatPacket(sender: Peer, text: Text)
      modifies this
      ensures State() == Say(old(State()), sender, text).0
      ensures sent == old(sent) + Say(old(State()), sender, text).1
    {
      var i := Find(members, (m: Member) => m.peer == sender);
      if i == |members| {
        return;
      }
      var cut := if |text| <= MAX_MESSAGE_SIZE then text else text[..MAX_MESSAGE_SIZE];
      SendToOthers(sender, Chat(members[i].nickname, members[i].userData.username, cut));
    }

    method HandleGameNamePacket(sender: Peer, game: GameInfo)
      modifies this
      ensures State() == SetGame(cfg, old(State()), sender, game).0
      ensures sent == old(sent) + SetGame(cfg, old(State()), sender, game).1
    {
      var i := Find(members, (m: Member) => m.peer == sender);
      if i < |members| {
        members := members[i := members[i].(game := game)];
      }
      BroadcastRoomInformation();
    }

    method HandleClientDisconnection(peer: Peer)
      modifies this
      ensures State() == Leave(cfg, old(State()), peer).0
      ensures sent == old(sent) + Leave(cfg, old(State()), peer).1
    {
      var nickname: Text, username: Text := [], [];
      var i := Find(members, (m: Member) => m.peer == peer);
      if i < |members| {
        nickname := members[i].nickname;
        username := members[i].userData.username;
        members := Erase(members, i);
      }
      Emit(Disconnect(peer));
      if nickname != [] {
        SendStatusMessage(MemberLeave, nickname, username);
      }
      BroadcastRoomInformation();
    }
  }
}
