/** The room's messages byte by byte, and that this is what the two sides write. */
module RoomWire {
  import opened Bytes
  import opened RoomMessages
  import opened Packet
  import opened RoomCodec

  // ---------------------------------------------------------------- layout

  /** Parts one behind the other. */
  function Joined(parts: seq<seq<byte>>): seq<byte> {
    if parts == [] then [] else parts[0] + Joined(parts[1..])
  }

  function Sized(bytes: seq<byte>): seq<byte> {
    SizeBytes(|bytes|) + bytes
  }

  function TwoBytes(n: nat): seq<byte> {
    [n / 0x100 % 0x100, n % 0x100]
  }

  function EightBytes(n: nat): seq<byte> {
    SizeBytes(n / 0x1_0000_0000) + SizeBytes(n % 0x1_0000_0000)
  }

  function EntryBytes(e: MemberEntry): seq<byte> {
    Joined([Sized(e.nickname), e.mac, Sized(e.game.name), EightBytes(e.game.id),
            Sized(e.username), Sized(e.displayName), Sized(e.avatarUrl)])
  }

  function FrameBytes(f: WifiFrame): seq<byte> {
    [5] + Joined([[f.frameType], [f.channel], f.transmitter, f.destination, Sized(f.data)])
  }

  function ServerBytes(m: ServerMessage): seq<byte> {
    match m
    case JoinSuccess(mac, moderator) => [if moderator then 24 else 2] + Joined([mac])
    case RoomInformation(d, members) =>
      [3] + Joined([Sized(d.name), Sized(d.description), SizeBytes(d.memberSlots), TwoBytes(d.port), Sized(d.preferredGame),
              Sized(d.hostUsername), EntriesSized(members)])
    case Wifi(f) => FrameBytes(f)
    case Chat(nickname, username, text) => [6] + Joined([Sized(nickname), Sized(username), Sized(text)])
    case NameCollision => [7]
    case MacCollision => [8]
    case VersionMismatch => [9, 0, 0, 0, 4]
    case WrongPassword => [10]
    case CloseRoom => [11]
    case RoomIsFull => [12]
    case ConsoleIdCollision => [13]
    case Status(what, nickname, username) =>
      [14] + Joined([[StatusByte(what)], Sized(nickname), Sized(username)])
    case HostKicked => [15]
    case HostBanned => [16]
    case BanList(usernames, addresses) => [21] + Joined([SizedTexts(usernames), SizedTexts(addresses)])
    case PermissionDenied => [22]
    case NoSuchUser => [23]
  }

  /** A user that joined, left, was kicked or was banned, or an address that may come back. */
  function StatusByte(what: StatusType): byte {
    match what
    case MemberJoin => 1
    case MemberLeave => 2
    case MemberKicked => 3
    case MemberBanned => 4
    case AddressUnbanned => 5
  }

  function SizedTexts(texts: seq<Text>): seq<byte> {
    SizeBytes(|texts|) + Joined(seq(|texts|, i requires 0 <= i < |texts| => Sized(texts[i])))
  }

  function EntriesSized(es: seq<MemberEntry>): seq<byte> {
    SizeBytes(|es|) + Joined(seq(|es|, i requires 0 <= i < |es| => EntryBytes(es[i])))
  }

  function ClientBytes(m: ClientMessage): seq<byte> {
    match m
    case JoinRequest(nickname, hash, mac, version, password, token) =>
      [1] + Joined([Sized(nickname), Sized(hash), mac, SizeBytes(version), Sized(password), Sized(token)])
    case SetGameInfo(game) => [4] + Joined([Sized(game.name), EightBytes(game.id)])
    case SendWifi(f) => FrameBytes(f)
    case SendChat(text) => [6] + Joined([Sized(text)])
    case ModKick(nickname) => [17] + Joined([Sized(nickname)])
    case ModBan(nickname) => [18] + Joined([Sized(nickname)])
    case ModUnban(address) => [19] + Joined([Sized(address)])
    case ModGetBanList => [20]
  }

  // ---------------------------------------------------------------- fields

  ghost predicate PartsAre(vs: seq<Value>, ts: seq<Type>, parts: seq<seq<byte>>) {
    EachTyped(vs, ts) && |parts| == |ts| && forall i :: 0 <= i < |ts| ==> parts[i] == Encode(vs[i], ts[i])
  }

  lemma {:induction false} FieldsAreParts(vs: seq<Value>, ts: seq<Type>, parts: seq<seq<byte>>)
    requires AllHaveTypes(vs, ts) && PartsAre(vs, ts, parts)
    ensures EncodeAll(vs, ts) == Joined(parts)
    decreases |ts|
  {
    if ts != [] {
      AllAreTyped(vs[1..], ts[1..]);
      FieldsAreParts(vs[1..], ts[1..], parts[1..]);
    }
  }

  ghost predicate ElementsAre(vs: seq<Value>, e: Type, parts: seq<seq<byte>>) {
    |parts| == |vs| && forall i :: 0 <= i < |vs| ==> HasType(vs[i], e) && parts[i] == Encode(vs[i], e)
  }

  lemma {:induction false} ElementsAreParts(vs: seq<Value>, e: Type, parts: seq<seq<byte>>)
    requires EachHasType(vs, e) && ElementsAre(vs, e, parts)
    ensures EncodeEach(vs, e) == Joined(parts)
    decreases |vs|
  {
    if vs != [] {
      ElementsAreParts(vs[1..], e, parts[1..]);
    }
  }

  lemma {:induction false} EachIsTyped(vs: seq<Value>, e: Type, i: nat)
    requires EachHasType(vs, e) && i < |vs|
    ensures HasType(vs[i], e)
    decreases |vs|
  {
    if i > 0 {
      EachIsTyped(vs[1..], e, i - 1);
    }
  }

  /** A number in range, as the bytes of its width. */
  lemma NumberBytes(n: nat, w: nat)
    requires HasType(Int(n), Integer(w, false))
    ensures Encode(Int(n), Integer(w, false)) == BigEndian(n, w)
    ensures w == 1 ==> n < 0x100 && BigEndian(n, w) == [n]
    ensures w == 2 ==> BigEndian(n, w) == TwoBytes(n)
    ensures w == 4 ==> BigEndian(n, w) == SizeBytes(n)
    ensures w == 8 ==> BigEndian(n, w) == EightBytes(n)
  {
    SmallMod(n, Pow256(w));
    if w == 1 {
      OneByte(n);
      Pow256Of4();
    } else if w == 2 {
      TwoByteNumber(n);
    } else if w == 4 {
      SizesAreFourBytes(n);
    } else if w == 8 {
      EightByteNumber(n, n / 0x1_0000_0000, n % 0x1_0000_0000);
    }
  }

  lemma TwoByteNumber(n: nat)
    ensures BigEndian(n, 2) == TwoBytes(n)
  {
    OneByte(n / 0x100);
    assert BigEndian(n, 2) == BigEndian(n / 0x100, 1) + [n % 0x100];
  }

  lemma EightByteNumber(n: nat, high: nat, low: nat)
    requires n == high * 0x1_0000_0000 + low && low < 0x1_0000_0000
    ensures BigEndian(n, 8) == SizeBytes(high) + SizeBytes(low)
  {
    Pow256Of4();
    BigEndianSplit(high, low, 4, 4);
    SizesAreFourBytes(high);
    SizesAreFourBytes(low);
  }

  lemma OneByte(n: nat)
    ensures BigEndian(n, 1) == [n % 0x100]
  {
    assert BigEndian(n / 0x100, 0) == [];
  }

  lemma StringBytes(text: Text)
    requires HasType(Str(text), String)
    ensures Encode(Str(text), String) == Sized(text)
  {
    SizesAreFourBytes(|text|);
  }

  lemma {:induction false} SinglesJoin(bytes: seq<byte>, parts: seq<seq<byte>>)
    requires |parts| == |bytes| && forall i :: 0 <= i < |bytes| ==> parts[i] == [bytes[i]]
    ensures Joined(parts) == bytes
    decreases |bytes|
  {
    if bytes != [] {
      SinglesJoin(bytes[1..], parts[1..]);
    }
  }

  lemma ByteListBytes(bytes: seq<byte>)
    requires EachHasType(ByteList(bytes).values, U8)
    ensures EncodeEach(ByteList(bytes).values, U8) == bytes
  {
    var vs := ByteList(bytes).values;
    var parts := seq(|bytes|, i requires 0 <= i < |bytes| => [bytes[i]]);
    forall i: nat | i < |vs|
      ensures HasType(vs[i], U8) && parts[i] == Encode(vs[i], U8)
    {
      EachIsTyped(vs, U8, i);
      NumberBytes(bytes[i], 1);
    }
    ElementsAreParts(vs, U8, parts);
    SinglesJoin(bytes, parts);
  }

  lemma MacBytes(mac: MacAddress)
    requires HasType(ByteList(mac), MAC)
    ensures Encode(ByteList(mac), MAC) == mac
  {
    ByteListBytes(mac);
  }

  lemma DataBytes(data: seq<byte>)
    requires HasType(ByteList(data), Vector(U8))
    ensures Encode(ByteList(data), Vector(U8)) == Sized(data)
  {
    ByteListBytes(data);
    SizesAreFourBytes(|data|);
  }

  lemma TextsBytes(texts: seq<Text>)
    requires HasType(TextList(texts), Vector(String))
    ensures Encode(TextList(texts), Vector(String)) == SizedTexts(texts)
  {
    var vs := TextList(texts).values;
    var parts := seq(|texts|, i requires 0 <= i < |texts| => Sized(texts[i]));
    forall i: nat | i < |vs|
      ensures HasType(vs[i], String) && parts[i] == Encode(vs[i], String)
    {
      EachIsTyped(vs, String, i);
      StringBytes(texts[i]);
    }
    ElementsAreParts(vs, String, parts);
    SizesAreFourBytes(|texts|);
  }

  /** A field that `<<` writes as these bytes. */
  ghost predicate IsField(v: Value, t: Type, part: seq<byte>) {
    HasType(v, t) && Encode(v, t) == part
  }

  /** No message has more than seven fields. */
  lemma SevenFields(vs: seq<Value>, ts: seq<Type>, parts: seq<seq<byte>>)
    requires |vs| == |ts| == |parts| <= 7 && AllHaveTypes(vs, ts)
    requires |vs| > 0 ==> IsField(vs[0], ts[0], parts[0])
    requires |vs| > 1 ==> IsField(vs[1], ts[1], parts[1])
    requires |vs| > 2 ==> IsField(vs[2], ts[2], parts[2])
    requires |vs| > 3 ==> IsField(vs[3], ts[3], parts[3])
    requires |vs| > 4 ==> IsField(vs[4], ts[4], parts[4])
    requires |vs| > 5 ==> IsField(vs[5], ts[5], parts[5])
    requires |vs| > 6 ==> IsField(vs[6], ts[6], parts[6])
    ensures EncodeAll(vs, ts) == Joined(parts)
  {
    AllAreTyped(vs, ts);
    forall i | 0 <= i < |ts|
      ensures parts[i] == Encode(vs[i], ts[i])
    {
      if i == 0 {
      } else if i == 1 {
      } else if i == 2 {
      } else if i == 3 {
      } else if i == 4 {
      } else if i == 5 {
      } else {
      }
    }
    FieldsAreParts(vs, ts, parts);
  }

  lemma FieldTyped(vs: seq<Value>, ts: seq<Type>, i: nat, v: Value, t: Type)
    requires AllHaveTypes(vs, ts) && i < |ts| && (i < |vs| ==> vs[i] == v) && ts[i] == t
    ensures HasType(v, t)
  {
    AllAreTyped(vs, ts);
  }

  lemma EntryTyped(e: MemberEntry, vs: seq<Value>, ts: seq<Type>)
    requires vs == [Str(e.nickname), ByteList(e.mac), Str(e.game.name), Int(e.game.id), Str(e.username), Str(e.displayName),
            Str(e.avatarUrl)]
    requires ts == [String, MAC, String, U64, String, String, String] && AllHaveTypes(vs, ts)
    ensures HasType(Str(e.nickname), String) && HasType(ByteList(e.mac), MAC) && HasType(Str(e.game.name), String)
    ensures HasType(Int(e.game.id), U64) && HasType(Str(e.username), String) && HasType(Str(e.displayName), String)
    ensures HasType(Str(e.avatarUrl), String)
  {
    FieldTyped(vs, ts, 0, Str(e.nickname), String);
    FieldTyped(vs, ts, 1, ByteList(e.mac), MAC);
    FieldTyped(vs, ts, 2, Str(e.game.name), String);
    FieldTyped(vs, ts, 3, Int(e.game.id), U64);
    FieldTyped(vs, ts, 4, Str(e.username), String);
    FieldTyped(vs, ts, 5, Str(e.displayName), String);
    FieldTyped(vs, ts, 6, Str(e.avatarUrl), String);
  }

  lemma EntryParts(e: MemberEntry, vs: seq<Value>, ts: seq<Type>)
    requires vs == [Str(e.nickname), ByteList(e.mac), Str(e.game.name), Int(e.game.id), Str(e.username), Str(e.displayName),
            Str(e.avatarUrl)]
    requires ts == [String, MAC, String, U64, String, String, String] && AllHaveTypes(vs, ts)
    requires HasType(Str(e.nickname), String) && HasType(ByteList(e.mac), MAC) && HasType(Str(e.game.name), String)
    requires HasType(Int(e.game.id), U64) && HasType(Str(e.username), String) && HasType(Str(e.displayName), String)
    requires HasType(Str(e.avatarUrl), String)
    ensures EncodeAll(vs, ts) == Joined([Sized(e.nickname), e.mac, Sized(e.game.name), EightBytes(e.game.id),
            Sized(e.username), Sized(e.displayName), Sized(e.avatarUrl)])
  {
    StringBytes(e.nickname);
    MacBytes(e.mac);
    StringBytes(e.game.name);
    NumberBytes(e.game.id, 8);
    StringBytes(e.username);
    StringBytes(e.displayName);
    StringBytes(e.avatarUrl);
    SevenFields(vs, ts, [Sized(e.nickname), e.mac, Sized(e.game.name), EightBytes(e.game.id), Sized(e.username),
            Sized(e.displayName), Sized(e.avatarUrl)]);
  }

  lemma EntryFields(e: MemberEntry)
    requires HasType(EntryValue(e), MEMBER_ENTRY)
    ensures Encode(EntryValue(e), MEMBER_ENTRY) == EntryBytes(e)
  {
    var vs, ts := EntryValue(e).values, MEMBER_ENTRY.elements;
    assert ts == [String, MAC, String, U64, String, String, String];
    EntryTyped(e, vs, ts);
    EntryParts(e, vs, ts);
  }

  lemma EntriesBytes(es: seq<MemberEntry>)
    requires HasType(EntryList(es), Vector(MEMBER_ENTRY))
    ensures Encode(EntryList(es), Vector(MEMBER_ENTRY)) ==
            EntriesSized(es)
  {
    var vs := EntryList(es).values;
    var parts := seq(|es|, i requires 0 <= i < |es| => EntryBytes(es[i]));
    forall i: nat | i < |vs|
      ensures HasType(vs[i], MEMBER_ENTRY) && parts[i] == Encode(vs[i], MEMBER_ENTRY)
    {
      EachIsTyped(vs, MEMBER_ENTRY, i);
      EntryFields(es[i]);
    }
    ElementsAreParts(vs, MEMBER_ENTRY, parts);
    SizesAreFourBytes(|es|);
  }

  // ---------------------------------------------------------------- messages

  lemma FrameTyped(f: WifiFrame, vs: seq<Value>, ts: seq<Type>)
    requires vs == [Int(f.frameType), Int(f.channel), ByteList(f.transmitter), ByteList(f.destination), ByteList(f.data)]
    requires ts == [U8, U8, MAC, MAC, Vector(U8)] && AllHaveTypes(vs, ts)
    ensures HasType(Int(f.frameType), U8) && HasType(Int(f.channel), U8) && HasType(ByteList(f.transmitter), MAC)
    ensures HasType(ByteList(f.destination), MAC) && HasType(ByteList(f.data), Vector(U8))
  {
    FieldTyped(vs, ts, 0, Int(f.frameType), U8);
    FieldTyped(vs, ts, 1, Int(f.channel), U8);
    FieldTyped(vs, ts, 2, ByteList(f.transmitter), MAC);
    FieldTyped(vs, ts, 3, ByteList(f.destination), MAC);
    FieldTyped(vs, ts, 4, ByteList(f.data), Vector(U8));
  }

  lemma FrameParts(f: WifiFrame, vs: seq<Value>, ts: seq<Type>)
    requires vs == [Int(f.frameType), Int(f.channel), ByteList(f.transmitter), ByteList(f.destination), ByteList(f.data)]
    requires ts == [U8, U8, MAC, MAC, Vector(U8)] && AllHaveTypes(vs, ts)
    requires HasType(Int(f.frameType), U8) && HasType(Int(f.channel), U8) && HasType(ByteList(f.transmitter), MAC)
    requires HasType(ByteList(f.destination), MAC) && HasType(ByteList(f.data), Vector(U8))
    ensures EncodeAll(vs, ts) == Joined([[f.frameType], [f.channel], f.transmitter, f.destination, Sized(f.data)])
  {
    NumberBytes(f.frameType, 1);
    NumberBytes(f.channel, 1);
    MacBytes(f.transmitter);
    MacBytes(f.destination);
    DataBytes(f.data);
    SevenFields(vs, ts, [[f.frameType], [f.channel], f.transmitter, f.destination, Sized(f.data)]);
  }

  lemma FrameFields(f: WifiFrame, vs: seq<Value>, ts: seq<Type>)
    requires vs == [Int(f.frameType), Int(f.channel), ByteList(f.transmitter), ByteList(f.destination), ByteList(f.data)]
    requires ts == [U8, U8, MAC, MAC, Vector(U8)] && AllHaveTypes(vs, ts)
    ensures [5] + EncodeAll(vs, ts) == FrameBytes(f)
  {
    FrameTyped(f, vs, ts);
    FrameParts(f, vs, ts);
  }

  lemma InformationTyped(d: RoomDetails, members: seq<MemberEntry>, vs: seq<Value>, ts: seq<Type>)
    requires vs == [Str(d.name), Str(d.description), Int(d.memberSlots), Int(d.port), Str(d.preferredGame),
            Str(d.hostUsername), EntryList(members)]
    requires ts == [String, String, U32, U16, String, String, Vector(MEMBER_ENTRY)] && AllHaveTypes(vs, ts)
    ensures HasType(Str(d.name), String) && HasType(Str(d.description), String) && HasType(Int(d.memberSlots), U32)
    ensures HasType(Int(d.port), U16) && HasType(Str(d.preferredGame), String) && HasType(Str(d.hostUsername), String)
    ensures HasType(EntryList(members), Vector(MEMBER_ENTRY))
  {
    FieldTyped(vs, ts, 0, Str(d.name), String);
    FieldTyped(vs, ts, 1, Str(d.description), String);
    FieldTyped(vs, ts, 2, Int(d.memberSlots), U32);
    FieldTyped(vs, ts, 3, Int(d.port), U16);
    FieldTyped(vs, ts, 4, Str(d.preferredGame), String);
    FieldTyped(vs, ts, 5, Str(d.hostUsername), String);
    FieldTyped(vs, ts, 6, EntryList(members), Vector(MEMBER_ENTRY));
  }

  lemma InformationParts(d: RoomDetails, members: seq<MemberEntry>, vs: seq<Value>, ts: seq<Type>)
    requires vs == [Str(d.name), Str(d.description), Int(d.memberSlots), Int(d.port), Str(d.preferredGame),
            Str(d.hostUsername), EntryList(members)]
    requires ts == [String, String, U32, U16, String, String, Vector(MEMBER_ENTRY)] && AllHaveTypes(vs, ts)
    requires HasType(Str(d.name), String) && HasType(Str(d.description), String) && HasType(Int(d.memberSlots), U32)
    requires HasType(Int(d.port), U16) && HasType(Str(d.preferredGame), String) && HasType(Str(d.hostUsername), String)
    requires HasType(EntryList(members), Vector(MEMBER_ENTRY))
    ensures EncodeAll(vs, ts) == Joined([Sized(d.name), Sized(d.description), SizeBytes(d.memberSlots), TwoBytes(d.port),
            Sized(d.preferredGame), Sized(d.hostUsername), EntriesSized(members)])
  {
    StringBytes(d.name);
    StringBytes(d.description);
    NumberBytes(d.memberSlots, 4);
    NumberBytes(d.port, 2);
    StringBytes(d.preferredGame);
    StringBytes(d.hostUsername);
    EntriesBytes(members);
    SevenFields(vs, ts, [Sized(d.name), Sized(d.description), SizeBytes(d.memberSlots), TwoBytes(d.port),
            Sized(d.preferredGame), Sized(d.hostUsername), EntriesSized(members)]);
  }

  lemma InformationFields(d: RoomDetails, members: seq<MemberEntry>)
    requires Sendable(RoomInformation(d, members))
    ensures Serialize(RoomInformation(d, members)) == ServerBytes(RoomInformation(d, members))
  {
    var vs, ts := ServerFields(RoomInformation(d, members)), ServerTypes(3);
    InformationTyped(d, members, vs, ts);
    InformationParts(d, members, vs, ts);
  }

  lemma ChatFields(nickname: Text, username: Text, text: Text)
    requires Sendable(Chat(nickname, username, text))
    ensures Serialize(Chat(nickname, username, text)) == ServerBytes(Chat(nickname, username, text))
  {
    var vs, ts := ServerFields(Chat(nickname, username, text)), ServerTypes(6);
    FieldTyped(vs, ts, 0, Str(nickname), String);
    StringBytes(nickname);
    FieldTyped(vs, ts, 1, Str(username), String);
    StringBytes(username);
    FieldTyped(vs, ts, 2, Str(text), String);
    StringBytes(text);
    SevenFields(vs, ts, [Sized(nickname), Sized(username), Sized(text)]);
  }

  lemma BanListFields(usernames: seq<Text>, addresses: seq<Text>)
    requires Sendable(BanList(usernames, addresses))
    ensures Serialize(BanList(usernames, addresses)) == ServerBytes(BanList(usernames, addresses))
  {
    var vs, ts := ServerFields(BanList(usernames, addresses)), ServerTypes(21);
    FieldTyped(vs, ts, 0, TextList(usernames), Vector(String));
    TextsBytes(usernames);
    FieldTyped(vs, ts, 1, TextList(addresses), Vector(String));
    TextsBytes(addresses);
    SevenFields(vs, ts, [SizedTexts(usernames), SizedTexts(addresses)]);
  }

  lemma StatusFields(what: StatusType, nickname: Text, username: Text)
    requires Sendable(Status(what, nickname, username))
    ensures Serialize(Status(what, nickname, username)) == ServerBytes(Status(what, nickname, username))
  {
    var code := StatusByte(what);
    var vs, ts := ServerFields(Status(what, nickname, username)), ServerTypes(14);
    FieldTyped(vs, ts, 0, Int(code), U8);
    NumberBytes(code, 1);
    FieldTyped(vs, ts, 1, Str(nickname), String);
    StringBytes(nickname);
    FieldTyped(vs, ts, 2, Str(username), String);
    StringBytes(username);
    SevenFields(vs, ts, [[code], Sized(nickname), Sized(username)]);
  }

  lemma JoinSuccessFields(mac: MacAddress, moderator: bool)
    requires Sendable(JoinSuccess(mac, moderator))
    ensures Serialize(JoinSuccess(mac, moderator)) == ServerBytes(JoinSuccess(mac, moderator))
  {
    var id: byte := if moderator then 24 else 2;
    var vs, ts := ServerFields(JoinSuccess(mac, moderator)), ServerTypes(id);
    FieldTyped(vs, ts, 0, ByteList(mac), MAC);
    MacBytes(mac);
    SevenFields(vs, ts, [mac]);
  }

  lemma MismatchFields()
    ensures Sendable(VersionMismatch) ==> Serialize(VersionMismatch) == ServerBytes(VersionMismatch)
  {
    if Sendable(VersionMismatch) {
      var vs, ts := ServerFields(VersionMismatch), ServerTypes(9);
      FieldTyped(vs, ts, 0, Int(4), U32);
      NumberBytes(4, 4);
      SevenFields(vs, ts, [SizeBytes(4)]);
      assert Joined([SizeBytes(4)]) == SizeBytes(4) + Joined([]);
    }
  }

  /** What the server writes, byte by byte. */
  lemma ServerWrites(m: ServerMessage)
    requires Sendable(m)
    ensures Serialize(m) == ServerBytes(m)
  {
    match m {
      case RoomInformation(d, members) => InformationFields(d, members);
      case Wifi(f) => FrameFields(f, ServerFields(m), ServerTypes(5));
      case Chat(nickname, username, text) => ChatFields(nickname, username, text);
      case Status(what, nickname, username) => StatusFields(what, nickname, username);
      case BanList(usernames, addresses) => BanListFields(usernames, addresses);
      case JoinSuccess(mac, moderator) => JoinSuccessFields(mac, moderator);
      case VersionMismatch => MismatchFields();
      case _ =>
    }
  }

  lemma JoinRequestTyped(m: ClientMessage, vs: seq<Value>, ts: seq<Type>)
    requires m.JoinRequest?
    requires vs == [Str(m.nickname), Str(m.consoleIdHash), ByteList(m.preferredMac), Int(m.version), Str(m.password),
            Str(m.token)]
    requires ts == [String, String, MAC, U32, String, String] && AllHaveTypes(vs, ts)
    ensures HasType(Str(m.nickname), String) && HasType(Str(m.consoleIdHash), String) && HasType(ByteList(m.preferredMac), MAC)
    ensures HasType(Int(m.version), U32) && HasType(Str(m.password), String) && HasType(Str(m.token), String)
  {
    FieldTyped(vs, ts, 0, Str(m.nickname), String);
    FieldTyped(vs, ts, 1, Str(m.consoleIdHash), String);
    FieldTyped(vs, ts, 2, ByteList(m.preferredMac), MAC);
    FieldTyped(vs, ts, 3, Int(m.version), U32);
    FieldTyped(vs, ts, 4, Str(m.password), String);
    FieldTyped(vs, ts, 5, Str(m.token), String);
  }

  lemma JoinRequestParts(m: ClientMessage, vs: seq<Value>, ts: seq<Type>)
    requires m.JoinRequest?
    requires vs == [Str(m.nickname), Str(m.consoleIdHash), ByteList(m.preferredMac), Int(m.version), Str(m.password),
            Str(m.token)]
    requires ts == [String, String, MAC, U32, String, String] && AllHaveTypes(vs, ts)
    requires HasType(Str(m.nickname), String) && HasType(Str(m.consoleIdHash), String) && HasType(ByteList(m.preferredMac), MAC)
    requires HasType(Int(m.version), U32) && HasType(Str(m.password), String) && HasType(Str(m.token), String)
    ensures EncodeAll(vs, ts) == Joined([Sized(m.nickname), Sized(m.consoleIdHash), m.preferredMac, SizeBytes(m.version),
            Sized(m.password), Sized(m.token)])
  {
    StringBytes(m.nickname);
    StringBytes(m.consoleIdHash);
    MacBytes(m.preferredMac);
    NumberBytes(m.version, 4);
    StringBytes(m.password);
    StringBytes(m.token);
    SevenFields(vs, ts, [Sized(m.nickname), Sized(m.consoleIdHash), m.preferredMac, SizeBytes(m.version), Sized(m.password),
            Sized(m.token)]);
  }

  lemma JoinRequestFields(m: ClientMessage)
    requires m.JoinRequest? && ClientSendable(m)
    ensures SerializeRequest(m) == ClientBytes(m)
  {
    var vs, ts := ClientFields(m), ClientTypes(1);
    JoinRequestTyped(m, vs, ts);
    JoinRequestParts(m, vs, ts);
  }

  lemma GameFields(game: GameInfo)
    requires ClientSendable(SetGameInfo(game))
    ensures SerializeRequest(SetGameInfo(game)) == ClientBytes(SetGameInfo(game))
  {
    var vs, ts := ClientFields(SetGameInfo(game)), ClientTypes(4);
    FieldTyped(vs, ts, 0, Str(game.name), String);
    StringBytes(game.name);
    FieldTyped(vs, ts, 1, Int(game.id), U64);
    NumberBytes(game.id, 8);
    SevenFields(vs, ts, [Sized(game.name), EightBytes(game.id)]);
  }

  lemma OneStringFields(text: Text, vs: seq<Value>, ts: seq<Type>)
    requires vs == [Str(text)] && ts == [String] && AllHaveTypes(vs, ts)
    ensures EncodeAll(vs, ts) == Joined([Sized(text)])
  {
    FieldTyped(vs, ts, 0, Str(text), String);
    StringBytes(text);
    SevenFields(vs, ts, [Sized(text)]);
  }

  /** What the client writes, byte by byte. */
  lemma ClientWrites(m: ClientMessage)
    requires ClientSendable(m)
    ensures SerializeRequest(m) == ClientBytes(m)
  {
    match m {
      case JoinRequest(_, _, _, _, _, _) => JoinRequestFields(m);
      case SetGameInfo(game) => GameFields(game);
      case SendWifi(f) => FrameFields(f, ClientFields(m), ClientTypes(5));
      case SendChat(text) => OneStringFields(text, ClientFields(m), ClientTypes(6));
      case ModKick(nickname) => OneStringFields(nickname, ClientFields(m), ClientTypes(17));
      case ModBan(nickname) => OneStringFields(nickname, ClientFields(m), ClientTypes(18));
      case ModUnban(address) => OneStringFields(address, ClientFields(m), ClientTypes(19));
      case ModGetBanList =>
    }
  }
}
