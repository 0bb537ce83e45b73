/** The messages a room and its members exchange, with the payload each one carries. */
module RoomMessages {
  import opened Bytes

  const NETWORK_VERSION := 4
  const MAX_MESSAGE_SIZE := 500

  type MacAddress = m: seq<byte> | |m| == 6 witness [0, 0, 0, 0, 0, 0]

  const NO_PREFERRED_MAC: MacAddress := [0xFF, 0xFF, 0xFF, 0xFF, 0xFF, 0xFF]
  const BROADCAST_MAC: MacAddress := [0xFF, 0xFF, 0xFF, 0xFF, 0xFF, 0xFF]
  const NINTENDO_OUI: seq<byte> := [0x00, 0x1F, 0x32]

  datatype GameInfo = GameInfo(name: Text, id: nat)

  /** What the room tells about itself; `memberSlots` bounds the number of members. */
  datatype RoomDetails = RoomDetails(name: Text, description: Text, memberSlots: nat, port: nat,
                                     preferredGame: Text, hostUsername: Text)

  datatype MemberEntry = MemberEntry(nickname: Text, mac: MacAddress, game: GameInfo,
                                     username: Text, displayName: Text, avatarUrl: Text)

  datatype WifiFrame = WifiFrame(frameType: byte, channel: byte, transmitter: MacAddress,
                                 destination: MacAddress, data: seq<byte>)

  datatype StatusType = MemberJoin | MemberLeave | MemberKicked | MemberBanned | AddressUnbanned

  datatype ServerMessage =
    | JoinSuccess(mac: MacAddress, moderator: bool)
    | RoomInformation(details: RoomDetails, members: seq<MemberEntry>)
    | Wifi(frame: WifiFrame)
    | Chat(nickname: Text, username: Text, text: Text)
    | Status(what: StatusType, nickname: Text, username: Text)
    | BanList(usernames: seq<Text>, addresses: seq<Text>)
    | NameCollision
    | MacCollision
    | ConsoleIdCollision
    | VersionMismatch
    | WrongPassword
    | RoomIsFull
    | HostKicked
    | HostBanned
    | PermissionDenied
    | NoSuchUser
    | CloseRoom

  datatype ClientMessage =
    | JoinRequest(nickname: Text, consoleIdHash: Text, preferredMac: MacAddress, version: nat, password: Text, token: Text)
    | SetGameInfo(game: GameInfo)
    | SendWifi(frame: WifiFrame)
    | SendChat(text: Text)
    | ModKick(nickname: Text)
    | ModBan(nickname: Text)
    | ModUnban(address: Text)
    | ModGetBanList
}
