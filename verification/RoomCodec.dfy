/**
 The room's messages as packets: an identifying byte and then the fields, in the order in which one side
 writes and the other reads them.
 */
module RoomCodec {
  import opened Bytes
  import opened Common
  import opened RoomMessages
  import opened Packet

  // ---------------------------------------------------------------- fields

  const MAC := Fixed(U8, 6)
  const MEMBER_ENTRY := Tuple([String, MAC, String, U64, String, String, String])

  function Int(n: int): Value { IntValue(n) }

  function Str(s: Text): Value { StringValue(s) }

  function ByteList(bytes: seq<byte>): Value {
    ListValue(seq(|bytes|, i requires 0 <= i < |bytes| => IntValue(bytes[i])))
  }

  predicate IsByteList(v: Value) {
    v.ListValue? && forall i :: 0 <= i < |v.values| ==> v.values[i].IntValue? && 0 <= v.values[i].n < 0x100
  }

  function BytesOf(v: Value): (bytes: seq<byte>)
    requires IsByteList(v)
    ensures |bytes| == |v.values| && forall i :: 0 <= i < |bytes| ==> bytes[i] == v.values[i].n
  {
    seq<byte>(|v.values|, i requires 0 <= i < |v.values| => v.values[i].n)
  }

  function TextList(texts: seq<Text>): Value {
    ListValue(seq(|texts|, i requires 0 <= i < |texts| => StringValue(texts[i])))
  }

  predicate IsTextList(v: Value) {
    v.ListValue? && forall i :: 0 <= i < |v.values| ==> v.values[i].StringValue?
  }

  function TextsOf(v: Value): (texts: seq<Text>)
    requires IsTextList(v)
    ensures |texts| == |v.values| && forall i :: 0 <= i < |texts| ==> texts[i] == v.values[i].text
  {
    seq(|v.values|, i requires 0 <= i < |v.values| => v.values[i].text)
  }

  function EntryValue(e: MemberEntry): Value {
    ListValue([Str(e.nickname), ByteList(e.mac), Str(e.game.name), Int(e.game.id), Str(e.username), Str(e.displayName), Str(e.avatarUrl)])
  }

  predicate IsEntryValue(v: Value) {
    && v.ListValue? && |v.values| == 7
    && v.values[0].StringValue? && IsByteList(v.values[1]) && |v.values[1].values| == 6
    && v.values[2].StringValue? && v.values[3].IntValue? && v.values[3].n >= 0
    && v.values[4].StringValue? && v.values[5].StringValue? && v.values[6].StringValue?
  }

  function EntryOf(v: Value): MemberEntry
    requires IsEntryValue(v)
  {
    MemberEntry(v.values[0].text, BytesOf(v.values[1]), GameInfo(v.values[2].text, v.values[3].n),
                v.values[4].text, v.values[5].text, v.values[6].text)
  }

  function EntryList(es: seq<MemberEntry>): Value {
    ListValue(seq(|es|, i requires 0 <= i < |es| => EntryValue(es[i])))
  }

  predicate IsEntryList(v: Value) {
    v.ListValue? && forall i :: 0 <= i < |v.values| ==> IsEntryValue(v.values[i])
  }

  function EntriesOf(v: Value): (es: seq<MemberEntry>)
    requires IsEntryList(v)
    ensures |es| == |v.values| && forall i :: 0 <= i < |es| ==> es[i] == EntryOf(v.values[i])
  {
    seq(|v.values|, i requires 0 <= i < |v.values| => EntryOf(v.values[i]))
  }

  lemma ListsInvert(bytes: seq<byte>, texts: seq<Text>, es: seq<MemberEntry>)
    ensures IsByteList(ByteList(bytes)) && BytesOf(ByteList(bytes)) == bytes
    ensures IsTextList(TextList(texts)) && TextsOf(TextList(texts)) == texts
    ensures IsEntryList(EntryList(es)) && EntriesOf(EntryList(es)) == es
  {
    forall i | 0 <= i < |es|
      ensures IsEntryValue(EntryValue(es[i])) && EntryOf(EntryValue(es[i])) == es[i]
    {
      assert BytesOf(ByteList(es[i].mac)) == es[i].mac;
    }
  }

  // ---------------------------------------------------------------- server messages

  function StatusCode(s: StatusType): byte {
    match s case MemberJoin => 1 case MemberLeave => 2 case MemberKicked => 3 case MemberBanned => 4 case AddressUnbanned => 5
  }

  function StatusOf(n: int): Option<StatusType> {
    if n == 1 then Some(MemberJoin) else if n == 2 then Some(MemberLeave) else if n == 3 then Some(MemberKicked)
    else if n == 4 then Some(MemberBanned) else if n == 5 then Some(AddressUnbanned) else None
  }

  function ServerId(m: ServerMessage): byte {
    match m
    case JoinSuccess(_, moderator) => if moderator then 24 else 2
    case RoomInformation(_, _) => 3
    case Wifi(_) => 5
    case Chat(_, _, _) => 6
    case NameCollision => 7
    case MacCollision => 8
    case VersionMismatch => 9
    case WrongPassword => 10
    case CloseRoom => 11
    case RoomIsFull => 12
    case ConsoleIdCollision => 13
    case Status(_, _, _) => 14
    case HostKicked => 15
    case HostBanned => 16
    case BanList(_, _) => 21
    case PermissionDenied => 22
    case NoSuchUser => 23
  }

  /** The types the client extracts for a message identifier. */
  function ServerTypes(id: byte): seq<Type> {
    if id == 2 || id == 24 then [MAC]
    else if id == 3 then [String, String, U32, U16, String, String, Vector(MEMBER_ENTRY)]
    else if id == 5 then [U8, U8, MAC, MAC, Vector(U8)]
    else if id == 6 then [String, String, String]
    else if id == 9 then [U32]
    else if id == 14 then [U8, String, String]
    else if id == 21 then [Vector(String), Vector(String)]
    else []
  }

  /** The values the server writes. */
  function ServerFields(m: ServerMessage): seq<Value> {
    match m
    case JoinSuccess(mac, _) => [ByteList(mac)]
    case RoomInformation(d, members) =>
      [Str(d.name), Str(d.description), Int(d.memberSlots), Int(d.port), Str(d.preferredGame), Str(d.hostUsername), EntryList(members)]
    case Wifi(f) => [Int(f.frameType), Int(f.channel), ByteList(f.transmitter), ByteList(f.destination), ByteList(f.data)]
    case Chat(nickname, username, text) => [Str(nickname), Str(username), Str(text)]
    case VersionMismatch => [Int(NETWORK_VERSION)]
    case Status(what, nickname, username) => [Int(StatusCode(what)), Str(nickname), Str(username)]
    case BanList(usernames, addresses) => [TextList(usernames), TextList(addresses)]
    case _ => []
  }

  predicate FieldsFit(id: byte, vs: seq<Value>) {
    |vs| == |ServerTypes(id)| &&
    if id == 2 || id == 24 then IsByteList(vs[0]) && |vs[0].values| == 6
    else if id == 3 then
      && vs[0].StringValue? && vs[1].StringValue? && vs[2].IntValue? && vs[2].n >= 0 && vs[3].IntValue? && vs[3].n >= 0
      && vs[4].StringValue? && vs[5].StringValue? && IsEntryList(vs[6])
    else if id == 5 then
      && vs[0].IntValue? && 0 <= vs[0].n < 0x100 && vs[1].IntValue? && 0 <= vs[1].n < 0x100
      && IsByteList(vs[2]) && |vs[2].values| == 6 && IsByteList(vs[3]) && |vs[3].values| == 6 && IsByteList(vs[4])
    else if id == 6 then vs[0].StringValue? && vs[1].StringValue? && vs[2].StringValue?
    else if id == 14 then vs[0].IntValue? && StatusOf(vs[0].n).Some? && vs[1].StringValue? && vs[2].StringValue?
    else if id == 21 then IsTextList(vs[0]) && IsTextList(vs[1])
    else true
  }

  /** What the client makes of the extracted values; `None` for an identifier it ignores. */
  function ServerMessageOf(id: byte, vs: seq<Value>): Option<ServerMessage> {
    if !FieldsFit(id, vs) then None
    else if id == 2 || id == 24 then Some(JoinSuccess(BytesOf(vs[0]), id == 24))
    else if id == 3 then
      Some(RoomInformation(RoomDetails(vs[0].text, vs[1].text, vs[2].n, vs[3].n, vs[4].text, vs[5].text), EntriesOf(vs[6])))
    else if id == 5 then Some(Wifi(WifiFrame(vs[0].n, vs[1].n, BytesOf(vs[2]), BytesOf(vs[3]), BytesOf(vs[4]))))
    else if id == 6 then Some(Chat(vs[0].text, vs[1].text, UpToZero(vs[2].text)))
    else if id == 7 then Some(NameCollision)
    else if id == 8 then Some(MacCollision)
    else if id == 9 then Some(VersionMismatch)
    else if id == 10 then Some(WrongPassword)
    else if id == 11 then Some(CloseRoom)
    else if id == 12 then Some(RoomIsFull)
    else if id == 13 then Some(ConsoleIdCollision)
    else if id == 14 then Some(Status(StatusOf(vs[0].n).value, vs[1].text, vs[2].text))
    else if id == 15 then Some(HostKicked)
    else if id == 16 then Some(HostBanned)
    else if id == 21 then Some(BanList(TextsOf(vs[0]), TextsOf(vs[1])))
    else if id == 22 then Some(PermissionDenied)
    else if id == 23 then Some(NoSuchUser)
    else None
  }

  /** The fields fit the wire: strings and lists shorter than 2^32, numbers in the range of their type. */
  predicate Sendable(m: ServerMessage) {
    AllHaveTypes(ServerFields(m), ServerTypes(ServerId(m)))
  }

  function Serialize(m: ServerMessage): seq<byte>
    requires Sendable(m)
  {
    [ServerId(m)] + EncodeAll(ServerFields(m), ServerTypes(ServerId(m)))
  }

  function Parse(data: seq<byte>): Option<ServerMessage> {
    if data == [] then None
    else
      match DecodeAll(ServerTypes(data[0]), data, 1)
      case Invalid => None
      case Got(vs, _) => ServerMessageOf(data[0], vs)
  }

  lemma InformationInverts(details: RoomDetails, members: seq<MemberEntry>)
    requires Sendable(RoomInformation(details, members))
    ensures ServerMessageOf(3, ServerFields(RoomInformation(details, members))) == Some(RoomInformation(details, members))
  {
    ListsInvert([], [], members);
  }

  lemma FrameInverts(f: WifiFrame)
    requires Sendable(Wifi(f))
    ensures ServerMessageOf(5, ServerFields(Wifi(f))) == Some(Wifi(f))
  {
    ListsInvert(f.transmitter, [], []);
    ListsInvert(f.destination, [], []);
    ListsInvert(f.data, [], []);
  }

  /** The message as the client takes it: a chat text ends at its first zero byte. */
  function Delivered(m: ServerMessage): ServerMessage {
    if m.Chat? then m.(text := UpToZero(m.text)) else m
  }

  lemma FieldsInvert(m: ServerMessage)
    requires Sendable(m)
    ensures ServerMessageOf(ServerId(m), ServerFields(m)) == Some(Delivered(m))
  {
    if m.RoomInformation? {
      InformationInverts(m.details, m.members);
    } else if m.Wifi? {
      FrameInverts(m.frame);
    } else if m.JoinSuccess? {
      ListsInvert(m.mac, [], []);
    } else if m.BanList? {
      ListsInvert([], m.usernames, []);
      ListsInvert([], m.addresses, []);
    }
  }

  lemma FieldsReadBack(m: ServerMessage)
    requires Sendable(m)
    ensures DecodeAll(ServerTypes(ServerId(m)), Serialize(m), 1) == Got(ServerFields(m), |Serialize(m)|)
  {
    var data, vs, ts := Serialize(m), ServerFields(m), ServerTypes(ServerId(m));
    assert data[1..1 + |EncodeAll(vs, ts)|] == EncodeAll(vs, ts);
    DecodeInvertsEncodeAll(vs, ts, data, 1);
  }

  /** The client takes what the server serialized, and exactly that unless it is a chat text with a zero byte. */
  lemma ServerRoundTrip(m: ServerMessage)
    requires Sendable(m)
    ensures Parse(Serialize(m)) == Some(Delivered(m))
    ensures Parse(Serialize(m)) == Some(m) <==> (m.Chat? ==> 0 !in m.text)
  {
    FieldsReadBack(m);
    FieldsInvert(m);
  }

  /** The server forwards any bytes as a chat text; the member who gets these three reads only the first. */
  lemma ZeroCutsChat(nickname: Text, username: Text)
    requires Sendable(Chat(nickname, username, [67, 0, 68]))
    ensures Parse(Serialize(Chat(nickname, username, [67, 0, 68]))) == Some(Chat(nickname, username, [67]))
  {
    ServerRoundTrip(Chat(nickname, username, [67, 0, 68]));
    var text: Text := [67, 0, 68];
    assert text[0] != 0 && text[1] == 0;
    assert UpToZero(text) == text[..1] == [67];
  }

  /** How the server writes a message. */
  method WriteMessage(m: ServerMessage) returns (data: seq<byte>)
    requires Sendable(m)
    ensures data == Serialize(m)
  {
    var packet := new PacketBuffer();
    packet.Append([ServerId(m)]);
    packet.WriteAll(ServerFields(m), ServerTypes(ServerId(m)));
    data := packet.data;
  }

  /**
   How the client's handlers take a packet apart: they skip the identifier and extract the fields of its kind.
   A message that the server wrote is used up to its end.
   */
  method ReadMessage(data: seq<byte>) returns (m: Option<ServerMessage>, atEnd: bool)
    requires data != []
    ensures m == Parse(data)
    ensures forall sent :: Sendable(sent) && data == Serialize(sent) ==> m == Some(Delivered(sent)) && atEnd
  {
    var packet := new PacketBuffer();
    packet.Append(data);
    assert packet.data == data;
    packet.IgnoreBytes(1);
    var vs := packet.ExtractAll(ServerTypes(data[0]));
    m := if packet.isValid then ServerMessageOf(data[0], vs) else None;
    atEnd := packet.EndOfPacket();
    forall sent | Sendable(sent) && data == Serialize(sent)
      ensures m == Some(Delivered(sent)) && packet.readPos == |data|
    {
      ServerRoundTrip(sent);
      FieldsReadBack(sent);
    }
  }

  // ---------------------------------------------------------------- client messages

  function ClientId(m: ClientMessage): byte {
    match m
    case JoinRequest(_, _, _, _, _, _) => 1
    case SetGameInfo(_) => 4
    case SendWifi(_) => 5
    case SendChat(_) => 6
    case ModKick(_) => 17
    case ModBan(_) => 18
    case ModUnban(_) => 19
    case ModGetBanList => 20
  }

  function ClientTypes(id: byte): seq<Type> {
    if id == 1 then [String, String, MAC, U32, String, String]
    else if id == 4 then [String, U64]
    else if id == 5 then [U8, U8, MAC, MAC, Vector(U8)]
    else if id == 6 || id == 17 || id == 18 || id == 19 then [String]
    else []
  }

  function ClientFields(m: ClientMessage): seq<Value> {
    match m
    case JoinRequest(nickname, hash, mac, version, password, token) =>
      [Str(nickname), Str(hash), ByteList(mac), Int(version), Str(password), Str(token)]
    case SetGameInfo(game) => [Str(game.name), Int(game.id)]
    case SendWifi(f) => [Int(f.frameType), Int(f.channel), ByteList(f.transmitter), ByteList(f.destination), ByteList(f.data)]
    case SendChat(text) => [Str(text)]
    case ModKick(nickname) => [Str(nickname)]
    case ModBan(nickname) => [Str(nickname)]
    case ModUnban(address) => [Str(address)]
    case ModGetBanList => []
  }

  predicate ClientFieldsFit(id: byte, vs: seq<Value>) {
    |vs| == |ClientTypes(id)| &&
    if id == 1 then
      && vs[0].StringValue? && vs[1].StringValue? && IsByteList(vs[2]) && |vs[2].values| == 6
      && vs[3].IntValue? && vs[3].n >= 0 && vs[4].StringValue? && vs[5].StringValue?
    else if id == 4 then vs[0].StringValue? && vs[1].IntValue? && vs[1].n >= 0
    else if id == 5 then
      && vs[0].IntValue? && 0 <= vs[0].n < 0x100 && vs[1].IntValue? && 0 <= vs[1].n < 0x100
      && IsByteList(vs[2]) && |vs[2].values| == 6 && IsByteList(vs[3]) && |vs[3].values| == 6 && IsByteList(vs[4])
    else if |vs| == 1 then vs[0].StringValue?
    else true
  }

  function ClientMessageOf(id: byte, vs: seq<Value>): Option<ClientMessage> {
    if !ClientFieldsFit(id, vs) then None
    else if id == 1 then Some(JoinRequest(vs[0].text, vs[1].text, BytesOf(vs[2]), vs[3].n, vs[4].text, vs[5].text))
    else if id == 4 then Some(SetGameInfo(GameInfo(vs[0].text, vs[1].n)))
    else if id == 5 then Some(SendWifi(WifiFrame(vs[0].n, vs[1].n, BytesOf(vs[2]), BytesOf(vs[3]), BytesOf(vs[4]))))
    else if id == 6 then Some(SendChat(vs[0].text))
    else if id == 17 then Some(ModKick(vs[0].text))
    else if id == 18 then Some(ModBan(vs[0].text))
    else if id == 19 then Some(ModUnban(vs[0].text))
    else if id == 20 then Some(ModGetBanList)
    else None
  }

  predicate ClientSendable(m: ClientMessage) {
    AllHaveTypes(ClientFields(m), ClientTypes(ClientId(m)))
  }

  function SerializeRequest(m: ClientMessage): seq<byte>
    requires ClientSendable(m)
  {
    [ClientId(m)] + EncodeAll(ClientFields(m), ClientTypes(ClientId(m)))
  }

  function ParseRequest(data: seq<byte>): Option<ClientMessage> {
    if data == [] then None
    else
      match DecodeAll(ClientTypes(data[0]), data, 1)
      case Invalid => None
      case Got(vs, _) => ClientMessageOf(data[0], vs)
  }

  lemma ClientFieldsInvert(m: ClientMessage)
    requires ClientSendable(m)
    ensures ClientMessageOf(ClientId(m), ClientFields(m)) == Some(m)
  {
    match m {
      case JoinRequest(_, _, mac, _, _, _) => ListsInvert(mac, [], []);
      case SendWifi(f) =>
        ListsInvert(f.transmitter, [], []);
        ListsInvert(f.destination, [], []);
        ListsInvert(f.data, [], []);
      case _ =>
    }
  }

  /** The server parses exactly the request the client serialized. */
  lemma ClientRoundTrip(m: ClientMessage)
    requires ClientSendable(m)
    ensures ParseRequest(SerializeRequest(m)) == Some(m)
  {
    var data, vs, ts := SerializeRequest(m), ClientFields(m), ClientTypes(ClientId(m));
    assert data[1..1 + |EncodeAll(vs, ts)|] == EncodeAll(vs, ts);
    DecodeInvertsEncodeAll(vs, ts, data, 1);
    ClientFieldsInvert(m);
  }

  /** The bytes before the destination address of a frame: identifier, type, channel and transmitter. */
  const DESTINATION_AT := 9

  /** Skips the fields before the destination by their sizes, and extracts a value of type `t`. */
  method ExtractBehindTransmitter(data: seq<byte>, t: Type) returns (v: Value, ok: bool)
    ensures ok == Decode(t, data, DESTINATION_AT).Got?
    ensures ok ==> v == Decode(t, data, DESTINATION_AT).value
  {
    var packet := new PacketBuffer();
    packet.Append(data);
    assert packet.data == data;
    packet.IgnoreBytes(1);
    packet.IgnoreBytes(1);
    packet.IgnoreBytes(1);
    packet.IgnoreBytes(6);
    v := packet.Extract(t);
    ok := packet.isValid;
  }

  /** How the server finds the address a wifi frame goes to: in a packet that a client wrote it is the destination. */
  method ReadDestination(data: seq<byte>) returns (address: Value, ok: bool)
    ensures forall f :: ClientSendable(SendWifi(f)) && data == SerializeRequest(SendWifi(f)) ==> ok && address == ByteList(f.destination)
  {
    address, ok := ExtractBehindTransmitter(data, MAC);
    DestinationFound(data);
  }

  lemma DestinationFound(data: seq<byte>)
    ensures forall f :: ClientSendable(SendWifi(f)) && data == SerializeRequest(SendWifi(f)) ==>
              Decode(MAC, data, DESTINATION_AT) == Got(ByteList(f.destination), DESTINATION_AT + 6)
  {
    forall f | ClientSendable(SendWifi(f)) && data == SerializeRequest(SendWifi(f))
      ensures Decode(MAC, data, DESTINATION_AT) == Got(ByteList(f.destination), DESTINATION_AT + 6)
    {
      DestinationStands(f);
    }
  }

  lemma {:induction false} BytesLength(vs: seq<Value>)
    requires EachHasType(vs, U8)
    ensures |EncodeEach(vs, U8)| == |vs|
    decreases |vs|
  {
    if vs != [] {
      BytesLength(vs[1..]);
    }
  }

  lemma DestinationStands(f: WifiFrame)
    requires ClientSendable(SendWifi(f))
    ensures Decode(MAC, SerializeRequest(SendWifi(f)), DESTINATION_AT) == Got(ByteList(f.destination), DESTINATION_AT + 6)
  {
    var vs, ts := ClientFields(SendWifi(f)), ClientTypes(5);
    BodyStands(5, EncodeAll(vs, ts));
    FourthStands(SerializeRequest(SendWifi(f)), vs, ts);
  }

  lemma BodyStands(id: byte, body: seq<byte>)
    ensures Holds([id] + body, 1, body)
  {
  }

  lemma FourthStands(data: seq<byte>, vs: seq<Value>, ts: seq<Type>)
    requires AllHaveTypes(vs, ts) && ts == [U8, U8, MAC, MAC, Vector(U8)] && Holds(data, 1, EncodeAll(vs, ts))
    ensures |vs| == 5 && Decode(MAC, data, DESTINATION_AT) == Got(vs[3], DESTINATION_AT + 6)
  {
    FieldStands(data, 1, vs, ts, 3);
    FrameSizes(vs, ts);
    DecodeInvertsEncode(vs[3], MAC, data, DESTINATION_AT);
  }

  /** The sizes of the fields before the destination of a frame. */
  lemma FrameSizes(vs: seq<Value>, ts: seq<Type>)
    requires EachTyped(vs, ts) && ts == [U8, U8, MAC, MAC, Vector(U8)]
    ensures SizeBefore(vs, ts, 3) == 8 && |Encode(vs[3], ts[3])| == 6
  {
    assert SizeBefore(vs, ts, 1) == |Encode(vs[0], ts[0])| == 1;
    assert SizeBefore(vs, ts, 2) == 1 + |Encode(vs[1], ts[1])| == 2;
    BytesLength(vs[2].values);
    BytesLength(vs[3].values);
  }

  /** The server passes the bytes of a wifi frame on as they came; the receiver parses the sender's frame. */
  lemma ForwardedFrameParses(frame: WifiFrame)
    requires ClientSendable(SendWifi(frame))
    ensures Parse(SerializeRequest(SendWifi(frame))) == Some(Wifi(frame))
  {
    ServerRoundTrip(Wifi(frame));
  }
}
