/** Room search over many worlds, and the server tree, on one client's stream. */
module Rooms {
  import opened Options
  import opened Wire
  import opened RpcnClient

  /** A found room; what is not needed to group rooms is opaque. */
  datatype Room = Room(id: nat, intAttrs: seq<nat>, details: Bytes)

  datatype Search = Search(total: nat, rooms: seq<Room>)

  /** The protobuf parser: None where it raises its own exception. */
  type Decoder = Bytes -> Option<Search>

  /** Serialises the search of one world; a request holds a dozen integers. */
  type Message = bs: Bytes | |bs| < 0x1_0000
  type Encoder = nat -> Message

  datatype Groups = Groups(playerMatch: seq<Room>, rankMatch: seq<Room>)

  // ---- Grouping ----

  const TYPE_ATTR := 4

  /** Building a room's view reads its fifth attribute, and raises IndexError without one. */
  predicate Typed(room: Room) {
    |room.intAttrs| > TYPE_ATTR
  }

  predicate AllTyped(rooms: seq<Room>) {
    forall i :: 0 <= i < |rooms| ==> Typed(rooms[i])
  }

  predicate PlayerMatch(room: Room) {
    Typed(room) && room.intAttrs[TYPE_ATTR] == 0
  }

  function Kept(rooms: seq<Room>, player: bool): seq<Room> {
    if rooms == [] then []
    else
      var last := |rooms| - 1;
      Kept(rooms[..last], player) + if PlayerMatch(rooms[last]) == player then [rooms[last]] else []
  }

  /** Where the rooms of one type stand. */
  function Places(rooms: seq<Room>, player: bool): seq<nat> {
    if rooms == [] then []
    else
      var last := |rooms| - 1;
      Places(rooms[..last], player) + if PlayerMatch(rooms[last]) == player then [last] else []
  }

  /** The two groups are a stable partition: increasing places, each room in the one group of its type. */
  lemma {:induction false} StablePartition(rooms: seq<Room>, player: bool)
    ensures var places, kept := Places(rooms, player), Kept(rooms, player);
      && |places| == |kept|
      && (forall k :: 0 <= k < |places| ==> places[k] < |rooms| && rooms[places[k]] == kept[k])
      && (forall j, k :: 0 <= j < k < |places| ==> places[j] < places[k])
      && (forall i :: 0 <= i < |rooms| ==>
          (i in places <==> (|rooms[i].intAttrs| >= 5 && rooms[i].intAttrs[4] == 0) == player))
  {
    PlacesExactly(rooms, player);
    PlacesInOrder(rooms, player);
    hide Places, Kept;
  }

  lemma {:induction false} PlacesInOrder(rooms: seq<Room>, player: bool)
    ensures var places, kept := Places(rooms, player), Kept(rooms, player);
      && |places| == |kept|
      && (forall k :: 0 <= k < |places| ==> places[k] < |rooms| && rooms[places[k]] == kept[k])
      && (forall j, k :: 0 <= j < k < |places| ==> places[j] < places[k])
  {
    if rooms != [] {
      var last := |rooms| - 1;
      PlacesInOrder(rooms[..last], player);
      var places, kept := Places(rooms[..last], player), Kept(rooms[..last], player);
      var added := PlayerMatch(rooms[last]) == player;
      assert Places(rooms, player) == places + if added then [last] else [];
      assert Kept(rooms, player) == kept + if added then [rooms[last]] else [];
      hide PlayerMatch, Places, Kept;
      forall k | 0 <= k < |places| ensures rooms[places[k]] == kept[k] {
        assert rooms[..last][places[k]] == kept[k];
      }
    }
  }

  lemma {:induction false} PlacesExactly(rooms: seq<Room>, player: bool)
    ensures forall i :: i in Places(rooms, player) ==> i < |rooms|
    ensures forall i :: 0 <= i < |rooms| ==>
      (i in Places(rooms, player) <==> (|rooms[i].intAttrs| >= 5 && rooms[i].intAttrs[4] == 0) == player)
  {
    if rooms != [] {
      var last := |rooms| - 1;
      var before := Places(rooms[..last], player);
      PlacesExactly(rooms[..last], player);
      var added := PlayerMatch(rooms[last]) == player;
      assert Places(rooms, player) == before + if added then [last] else [];
      hide Places;
      assert forall i :: i in Places(rooms, player) <==> i in before || (added && i == last);
      assert forall i :: 0 <= i < last ==> rooms[..last][i] == rooms[i];
    }
  }

  /** Together the two groups hold every room as often as it was found. */
  lemma {:induction false} GroupsHoldAll(rooms: seq<Room>)
    ensures multiset(Kept(rooms, true)) + multiset(Kept(rooms, false)) == multiset(rooms)
  {
    hide PlayerMatch;
    if rooms != [] {
      var last := |rooms| - 1;
      GroupsHoldAll(rooms[..last]);
      assert rooms == rooms[..last] + [rooms[last]];
    }
  }

  method GroupRoomsByType(rooms: seq<Room>) returns (groups: Groups)
    ensures groups == Groups(Kept(rooms, true), Kept(rooms, false))
  {
    groups := Groups([], []);
    for i := 0 to |rooms|
      invariant groups == Groups(Kept(rooms[..i], true), Kept(rooms[..i], false))
    {
      var room := rooms[i];
      assert rooms[..i + 1] == rooms[..i] + [room];
      if PlayerMatch(room) {
        groups := groups.(playerMatch := groups.playerMatch + [room]);
      } else {
        groups := groups.(rankMatch := groups.rankMatch + [room]);
      }
    }
    assert rooms[..|rooms|] == rooms;
  }

  // ---- Searching ----

  /** What one world contributes: rooms, nothing because the error is swallowed, or an exception that escapes. */
  datatype Found = Rooms(rooms: seq<Room>) | Swallowed | Escaped

  function Contribution(decode: Decoder, reply: Reply): Found {
    match Data(reply)
    case RpcnError => Swallowed
    case OtherError => Escaped
    case Ok(data) =>
      match UnpackBlob(data)
      case None => Swallowed
      case Some(raw) =>
        match decode(raw)
        case None => Escaped
        case Some(search) =>
          if search.total == 0 then Rooms([])
          else if AllTyped(search.rooms) then Rooms(search.rooms)
          else Escaped
  }

  function SearchRequest(cmd: nat, comId: Bytes, encode: Encoder, world: nat): Request {
    Request(cmd, comId + PackBlob(encode(world)))
  }

  function SearchRequests(cmd: nat, comId: Bytes, encode: Encoder, worlds: seq<nat>): (r: seq<Request>)
    ensures |r| == |worlds|
    ensures forall i :: 0 <= i < |worlds| ==> r[i] == SearchRequest(cmd, comId, encode, worlds[i])
  {
    if worlds == [] then []
    else [SearchRequest(cmd, comId, encode, worlds[0])] + SearchRequests(cmd, comId, encode, worlds[1..])
  }

  /** The rooms of the worlds that answered, in order, unless an exception escapes. */
  function Concat(decode: Decoder, replies: seq<Reply>): Outcome<seq<Room>> {
    if replies == [] then Ok([])
    else
      match Contribution(decode, replies[0])
      case Escaped => OtherError
      case Swallowed => Concat(decode, replies[1..])
      case Rooms(rooms) => Prepend(rooms, Concat(decode, replies[1..]))
  }

  function Prepend(rooms: seq<Room>, others: Outcome<seq<Room>>): Outcome<seq<Room>> {
    match others
    case Ok(more) => Ok(rooms + more)
    case RpcnError => RpcnError
    case OtherError => OtherError
  }

  /** How far the loop gets: it stops after the first reply whose exception escapes. */
  function Asked(decode: Decoder, replies: seq<Reply>): (n: nat)
    ensures n <= |replies|
  {
    if replies == [] then 0
    else if Contribution(decode, replies[0]).Escaped? then 1
    else 1 + Asked(decode, replies[1..])
  }

  function Grouped(rooms: Outcome<seq<Room>>): Outcome<Groups> {
    match rooms
    case Ok(all) => Ok(Groups(Kept(all, true), Kept(all, false)))
    case RpcnError => RpcnError
    case OtherError => OtherError
  }

  /** The whole search, as a run of calls that all get their reply. */
  function SearchAll(server: Server, s: Session, requests: seq<Request>, decode: Decoder)
    : (Session, Outcome<seq<Room>>)
  {
    var replies := AskAll(server, s, requests).1;
    (AskAll(server, s, requests[..Asked(decode, replies)]).0, Concat(decode, replies))
  }

  lemma SearchFirst(server: Server, s: Session, requests: seq<Request>, decode: Decoder)
    requires requests != []
    ensures var (next, reply) := Ask(server, s, requests[0]);
      var others := SearchAll(server, next, requests[1..], decode);
      SearchAll(server, s, requests, decode)
      == match Contribution(decode, reply)
         case Escaped => (next, OtherError)
         case Swallowed => others
         case Rooms(rooms) => (others.0, Prepend(rooms, others.1))
  {
    hide Contribution, Ask;
    var (next, reply) := Ask(server, s, requests[0]);
    var replies := AskAll(server, s, requests).1;
    var rest := AskAll(server, next, requests[1..]).1;
    assert replies[0] == reply && replies[1..] == rest;
    var n := Asked(decode, replies);
    assert requests[..n][0] == requests[0] && requests[..n][1..] == requests[1..][..n - 1];
    assert AskAll(server, s, requests[..n]).0 == AskAll(server, next, requests[1..][..n - 1]).0;
    if Contribution(decode, reply).Escaped? {
      assert requests[1..][..0] == [];
    }
  }

  // ---- With an in-order server ----

  /** What the server's answer to the k-th world, and to no other, contributes. */
  function FoundAt(
    policy: Policy, sent: seq<Packet>, requests: seq<Request>, id: nat, decode: Decoder, k: nat): Found
    requires k < |requests|
  {
    Contribution(decode, ReplyOf(policy(Received(sent, requests, id, k)).reply.payload))
  }

  function FoundAll(policy: Policy, sent: seq<Packet>, requests: seq<Request>, id: nat, decode: Decoder): seq<Found> {
    seq(|requests|, k requires 0 <= k < |requests| => FoundAt(policy, sent, requests, id, decode, k))
  }

  function Flatten(found: seq<Found>): seq<Room> {
    if found == [] then []
    else (if found[0].Rooms? then found[0].rooms else []) + Flatten(found[1..])
  }

  /** A world whose error was swallowed might as well not have been asked about. */
  lemma {:induction false} SwallowedIsAbsent(a: seq<Found>, b: seq<Found>)
    ensures Flatten(a + [Swallowed] + b) == Flatten(a + b)
  {
    if a == [] {
      assert (a + [Swallowed] + b)[1..] == b && a + b == b;
    } else {
      SwallowedIsAbsent(a[1..], b);
      assert (a + [Swallowed] + b)[1..] == a[1..] + [Swallowed] + b;
      assert (a + b)[1..] == a[1..] + b;
    }
  }

  lemma {:induction false} ConcatFlattens(decode: Decoder, replies: seq<Reply>, found: seq<Found>)
    requires |found| == |replies|
    requires forall k :: 0 <= k < |replies| ==> found[k] == Contribution(decode, replies[k])
    ensures Concat(decode, replies) == if Escaped in found then OtherError else Ok(Flatten(found))
    ensures Escaped !in found ==> Asked(decode, replies) == |replies|
  {
    hide Contribution;
    if replies != [] {
      ConcatFlattens(decode, replies[1..], found[1..]);
      assert found == [found[0]] + found[1..];
      assert Escaped in found <==> found[0] == Escaped || Escaped in found[1..];
      assert [] + Flatten(found[1..]) == Flatten(found[1..]);
    }
  }

  lemma SearchPacks(cmd: nat, comId: Bytes, encode: Encoder, world: nat, id: nat)
    requires cmd < 0x1_0000 && |comId| == COMMUNICATION_ID_SIZE && id < 0x1_0000_0000_0000_0000
    ensures Packable(Frame(SearchRequest(cmd, comId, encode, world), id))
  {
  }

  /** The rooms found are those of exactly the worlds that answered, in the order of the worlds; the k-th world's
      rooms are decoded from the answer to the k-th request, whichever others were refused. */
  lemma RoomsOfAnsweringWorlds(
    server: Server, policy: Policy, s: Session, sent: seq<Packet>,
    cmd: nat, comId: Bytes, encode: Encoder, worlds: seq<nat>, decode: Decoder)
    requires InOrder(server, policy) && InStep(s, sent)
    requires cmd < 0x1_0000 && |comId| == COMMUNICATION_ID_SIZE && s.id + |worlds| < 0x1_0000_0000_0000_0000
    ensures var requests := SearchRequests(cmd, comId, encode, worlds);
      var found := FoundAll(policy, sent, requests, s.id, decode);
      var (end, rooms) := SearchAll(server, s, requests, decode);
      var asked := Asked(decode, AskAll(server, s, requests).1);
      && rooms == (if Escaped in found then OtherError else Ok(Flatten(found)))
      && InStep(end, sent + Frames(requests[..asked], s.id))
      && (Escaped !in found ==> asked == |worlds|)
  {
    hide Packable, InOrder, InStep, Contribution, Frames, Received, Ask, Concat, Asked;
    var requests := SearchRequests(cmd, comId, encode, worlds);
    var found := FoundAll(policy, sent, requests, s.id, decode);
    var replies := AskAll(server, s, requests).1;
    EveryCallGetsItsReply(server, policy, s, sent, requests);
    forall k | 0 <= k < |replies| ensures found[k] == Contribution(decode, replies[k]) {
      SearchPacks(cmd, comId, encode, worlds[k], s.id + k + 1);
      assert Paired(policy, sent, requests, s.id, k, replies[k]);
      CarriesOne(policy(Received(sent, requests, s.id, k)).reply.payload, replies[k]);
    }
    ConcatFlattens(decode, replies, found);
    var n := Asked(decode, replies);
    EveryCallGetsItsReply(server, policy, s, sent, requests[..n]);
  }

  lemma SearchNone(server: Server, s: Session, decode: Decoder)
    ensures SearchAll(server, s, [], decode) == (s, Ok([]))
  {
  }

  lemma PrependTwice(a: seq<Room>, b: seq<Room>, others: Outcome<seq<Room>>)
    ensures Prepend(a, Prepend(b, others)) == Prepend(a + b, others)
  {
    if others.Ok? {
      assert a + (b + others.value) == (a + b) + others.value;
    }
  }

  method GetRooms(client: Client, cmd: nat, comId: string, worlds: seq<nat>, encode: Encoder, decode: Decoder)
    returns (groups: Outcome<Groups>)
    modifies client, client.sock
    ensures EncodeComId(comId) == None ==>
      client.Now() == old(client.Now()) && groups == if worlds == [] then Grouped(Ok([])) else OtherError
    ensures EncodeComId(comId) != None ==>
      var requests := SearchRequests(cmd, EncodeComId(comId).value, encode, worlds);
      var (end, rooms) := SearchAll(client.sock.server, old(client.Now()), requests, decode);
      client.Now() == end && groups == Grouped(rooms)
  {
    hide SearchAll, Ask, Contribution, SearchRequests;
    var all: seq<Room> := [];
    ghost var id := if EncodeComId(comId) == None then [] else EncodeComId(comId).value;
    ghost var requests := SearchRequests(cmd, id, encode, worlds);
    ghost var whole := SearchAll(client.sock.server, client.Now(), requests, decode);
    assert requests[0..] == requests;
    assert whole.1.Ok? ==> [] + whole.1.value == whole.1.value;
    for i := 0 to |worlds|
      invariant EncodeComId(comId) == None ==> i == 0 && client.Now() == old(client.Now()) && all == []
      invariant var rest := SearchAll(client.sock.server, client.Now(), requests[i..], decode);
        whole == (rest.0, Prepend(all, rest.1))
    {
      var code := EncodeComId(comId);
      if code == None {
        return OtherError;
      }
      SearchFirst(client.sock.server, client.Now(), requests[i..], decode);
      assert requests[i..][1..] == requests[i + 1..];
      var reply := client.Call(Request(cmd, code.value + PackBlob(encode(worlds[i]))));
      var found := Contribution(decode, reply);
      match found {
        case Escaped =>
          return OtherError;
        case Swallowed =>
        case Rooms(rooms) =>
          PrependTwice(all, rooms, SearchAll(client.sock.server, client.Now(), requests[i + 1..], decode).1);
          all := all + rooms;
      }
    }
    SearchNone(client.sock.server, client.Now(), decode);
    assert EncodeComId(comId) != None || worlds == [];
    assert requests[|worlds|..] == [] && all + [] == all;
    var result := GroupRoomsByType(all);
    return Ok(result);
  }

  // ---- The server tree ----

  type Tree = map<nat, seq<nat>>

  function WorldsOf(server: Server, s: Session, comId: Bytes, ids: seq<nat>, tree: Tree): (Session, Outcome<Tree>)
    decreases |ids|
  {
    if ids == [] then (s, Ok(tree))
    else if ids[0] >= 0x1_0000 then (s, OtherError)
    else
      var (next, reply) := Ask(server, s, WorldListRequest(comId, ids[0]));
      match ListData(reply, 4, 4)
      case Ok(worlds) => WorldsOf(server, next, comId, ids[1..], tree[ids[0] := worlds])
      case RpcnError => (next, RpcnError)
      case OtherError => (next, OtherError)
  }

  lemma WorldsOfFirst(server: Server, s: Session, comId: Bytes, ids: seq<nat>, tree: Tree)
    requires ids != []
    ensures WorldsOf(server, s, comId, ids, tree) ==
      if ids[0] >= 0x1_0000 then (s, OtherError)
      else
        var (next, reply) := Ask(server, s, WorldListRequest(comId, ids[0]));
        match ListData(reply, 4, 4)
        case Ok(worlds) => WorldsOf(server, next, comId, ids[1..], tree[ids[0] := worlds])
        case RpcnError => (next, RpcnError)
        case OtherError => (next, OtherError)
  {
  }

  function ReadTree(server: Server, s: Session, comId: Bytes): (Session, Outcome<Tree>) {
    var (next, reply) := Ask(server, s, ServerListRequest(comId));
    match ListData(reply, 2, 2)
    case Ok(ids) => WorldsOf(server, next, comId, ids, map[])
    case RpcnError => (next, RpcnError)
    case OtherError => (next, OtherError)
  }

  method GetServerWorldTree(client: Client, comId: string) returns (r: Outcome<Tree>)
    modifies client, client.sock
    ensures EncodeComId(comId) == None ==> client.Now() == old(client.Now()) && r == OtherError
    ensures EncodeComId(comId) != None ==>
      (client.Now(), r) == ReadTree(client.sock.server, old(client.Now()), EncodeComId(comId).value)
  {
    hide ListData, Ask;
    var servers := client.GetServerList(comId);
    match servers {
      case RpcnError => return RpcnError;
      case OtherError => return OtherError;
      case Ok(ids) =>
        var tree: Tree := map[];
        ghost var code := EncodeComId(comId).value;
        ghost var whole := WorldsOf(client.sock.server, client.Now(), code, ids, tree);
        assert ids[0..] == ids;
        for i := 0 to |ids|
          invariant whole == WorldsOf(client.sock.server, client.Now(), code, ids[i..], tree)
        {
          WorldsOfFirst(client.sock.server, client.Now(), code, ids[i..], tree);
          assert ids[i..][1..] == ids[i + 1..];
          hide WorldsOf;
          var worlds := client.GetWorldList(comId, ids[i]);
          match worlds {
            case RpcnError => return RpcnError;
            case OtherError => return OtherError;
            case Ok(list) => tree := tree[ids[i] := list];
          }
        }
        return Ok(tree);
    }
  }

  /** The servers and worlds a server holds, within the widths of the two list formats. */
  datatype Directory = Directory(servers: seq<nat>, worlds: nat -> seq<nat>) {
    predicate Fits() {
      && |servers| < Span(2)
      && (forall id :: id in servers ==> id < Span(2) && |worlds(id)| < Span(4))
      && (forall id, i :: id in servers && 0 <= i < |worlds(id)| ==> worlds(id)[i] < Span(4))
    }
  }

  function Listing(xs: seq<nat>, countWidth: nat, width: nat): Bytes {
    LE(|xs|, countWidth) + Items(xs, width)
  }

  predicate AnswersFrom(d: Directory, comId: Bytes, request: Packet, payload: Bytes) {
    && (request.cmd == CMD_GET_SERVER_LIST && request.payload == comId ==> payload == [0] + Listing(d.servers, 2, 2))
    && (forall id :: id in d.servers && request.cmd == CMD_GET_WORLD_LIST && request.payload == comId + LE(id, 2) ==>
      payload == [0] + Listing(d.worlds(id), 4, 4))
  }

  /** An in-order server that answers the two list requests from its directory. */
  ghost predicate Serves(server: Server, policy: Policy, d: Directory, comId: Bytes) {
    && |comId| == COMMUNICATION_ID_SIZE
    && d.Fits()
    && InOrder(server, policy)
    && forall ps: seq<Packet> :: ps != [] ==>
      AnswersFrom(d, comId, ps[|ps| - 1], policy(ps).reply.payload)
  }

  ghost predicate AtBoundary(s: Session) {
    Parse(s.outbox).Some? && InStep(s, Parse(s.outbox).value)
  }

  lemma ListingRead(xs: seq<nat>, width: nat)
    requires width >= 1 && |xs| < Span(width) && forall i :: 0 <= i < |xs| ==> xs[i] < Span(width)
    ensures ListData(Reply(0, Listing(xs, width, width)), width, width) == Ok(xs)
  {
    hide LE, Items, Span, ReadList;
    ListRoundTrip(xs, width, width, []);
    assert LE(|xs|, width) + Items(xs, width) + [] == Listing(xs, width, width);
  }

  lemma AskServer(
    server: Server, policy: Policy, s: Session, d: Directory, comId: Bytes, request: Request)
    returns (payload: Bytes)
    requires Serves(server, policy, d, comId) && AtBoundary(s) && Packable(Frame(request, s.id + 1))
    ensures var (next, reply) := Ask(server, s, request);
      AtBoundary(next) && next.id == s.id + 1 && Carries(payload, reply)
    ensures AnswersFrom(d, comId, Frame(request, s.id + 1), payload)
  {
    hide Packable, Ask, InOrder, Parse, AnswersFrom, Carries;
    AskInStep(server, policy, s, Parse(s.outbox).value, request);
    payload := policy(Parse(s.outbox).value + [Frame(request, s.id + 1)]).reply.payload;
  }

  lemma ServersRead(server: Server, policy: Policy, s: Session, d: Directory, comId: Bytes)
    requires Serves(server, policy, d, comId) && AtBoundary(s) && s.id + 1 < 0x1_0000_0000_0000_0000
    ensures var (next, reply) := Ask(server, s, ServerListRequest(comId));
      AtBoundary(next) && next.id == s.id + 1 && ListData(reply, 2, 2) == Ok(d.servers)
  {
    hide AtBoundary, Ask, InOrder, Listing, ListData;
    var payload := AskServer(server, policy, s, d, comId, ServerListRequest(comId));
    CarriedExactly(0, Listing(d.servers, 2, 2), Ask(server, s, ServerListRequest(comId)).1);
    hide Carries;
    forall i | 0 <= i < |d.servers| ensures d.servers[i] < Span(2) {
      assert d.servers[i] in d.servers;
    }
    ListingRead(d.servers, 2);
  }

  lemma WorldsRead(server: Server, policy: Policy, s: Session, d: Directory, comId: Bytes, id: nat)
    requires Serves(server, policy, d, comId) && AtBoundary(s) && s.id + 1 < 0x1_0000_0000_0000_0000
    requires id in d.servers
    ensures var (next, reply) := Ask(server, s, WorldListRequest(comId, id));
      AtBoundary(next) && next.id == s.id + 1 && ListData(reply, 4, 4) == Ok(d.worlds(id))
  {
    hide AtBoundary, Ask, InOrder, Listing, ListData;
    var payload := AskServer(server, policy, s, d, comId, WorldListRequest(comId, id));
    CarriedExactly(0, Listing(d.worlds(id), 4, 4), Ask(server, s, WorldListRequest(comId, id)).1);
    hide Carries;
    ListingRead(d.worlds(id), 4);
  }

  /** What reading the worlds of `ids` adds to a partial tree. */
  ghost predicate Filled(d: Directory, ids: seq<nat>, tree: Tree, result: Tree) {
    && (forall id :: id in result <==> id in tree || id in ids)
    && (forall id :: id in result ==> result[id] == if id in ids then d.worlds(id) else tree[id])
  }

  lemma FilledLater(d: Directory, ids: seq<nat>, tree: Tree, result: Tree)
    requires ids != [] && Filled(d, ids[1..], tree[ids[0] := d.worlds(ids[0])], result)
    ensures Filled(d, ids, tree, result)
  {
    assert forall id :: id in ids <==> id == ids[0] || id in ids[1..];
  }

  lemma FilledWhole(d: Directory, result: Tree)
    requires Filled(d, d.servers, map[], result)
    ensures result == map id | id in d.servers :: d.worlds(id)
  {
  }

  lemma {:induction false} WorldsOfServers(
    server: Server, policy: Policy, s: Session, d: Directory, comId: Bytes, ids: seq<nat>, tree: Tree)
    requires Serves(server, policy, d, comId) && AtBoundary(s) && s.id + |ids| < 0x1_0000_0000_0000_0000
    requires forall i :: 0 <= i < |ids| ==> ids[i] in d.servers
    ensures var run := WorldsOf(server, s, comId, ids, tree);
      AtBoundary(run.0) && run.1.Ok? && Filled(d, ids, tree, run.1.value)
    decreases |ids|
  {
    hide AtBoundary, Ask, ListData;
    if ids != [] {
      Spans();
      var id := ids[0];
      assert id < Span(2);
      WorldsRead(server, policy, s, d, comId, id);
      hide Filled, Serves;
      var next := Ask(server, s, WorldListRequest(comId, id)).0;
      var longer := tree[id := d.worlds(id)];
      WorldsOfServers(server, policy, next, d, comId, ids[1..], longer);
      FilledLater(d, ids, tree, WorldsOf(server, next, comId, ids[1..], longer).1.value);
    }
  }

  /** The tree a caller gets is the directory the server holds: every server once, each with its own worlds. */
  lemma TreeIsDirectory(server: Server, policy: Policy, s: Session, d: Directory, comId: Bytes)
    requires Serves(server, policy, d, comId) && AtBoundary(s)
    requires s.id + 1 + |d.servers| < 0x1_0000_0000_0000_0000
    ensures var run := ReadTree(server, s, comId);
      AtBoundary(run.0) && run.1 == Ok(map id | id in d.servers :: d.worlds(id))
  {
    ServersRead(server, policy, s, d, comId);
    hide Serves, AtBoundary, Ask, ListData, WorldsOf;
    var next := Ask(server, s, ServerListRequest(comId)).0;
    WorldsOfServers(server, policy, next, d, comId, d.servers, map[]);
    FilledWhole(d, WorldsOf(server, next, comId, d.servers, map[]).1.value);
  }
}
