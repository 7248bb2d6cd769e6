/** What a room search shows of the server's answers, byte by byte. */
module RoomAnswers {
  import opened Options
  import opened Wire
  import opened RpcnClient
  import opened Rooms

  /** A server's answer for one world: an error code, a message behind its length, one cut short of its length, too
      little for a length, or nothing at all. */
  datatype WorldAnswer =
    | Refused(error: Byte, data: Bytes)
    | Sent(raw: Bytes, after: Bytes)
    | Cut(size: nat, raw: Bytes)
    | Short(data: Bytes)
    | Empty
  {
    predicate Plausible() {
      match this
      case Refused(error, _) => error != 0
      case Sent(raw, _) => |raw| < 0x1_0000_0000
      case Cut(size, raw) => |raw| < size < 0x1_0000_0000
      case Short(data) => |data| < 4
      case Empty => true
    }

    function Payload(): Bytes {
      match this
      case Refused(error, data) => [error] + data
      case Sent(raw, after) => [0] + (LE(|raw|, 4) + raw + after)
      case Cut(size, raw) => [0] + (LE(size, 4) + raw)
      case Short(data) => [0] + data
      case Empty => []
    }

    predicate HasMessage() {
      Sent? || Cut?
    }
  }

  /** Every payload is one of these answers. */
  lemma EveryPayload(payload: Bytes)
    ensures exists a: WorldAnswer :: a.Plausible() && a.Payload() == payload
  {
    if payload == [] {
      assert Empty.Plausible() && Empty.Payload() == payload;
    } else if payload[0] != 0 {
      Shaped(Refused(payload[0], payload[1..]), payload);
    } else if |payload| < 5 {
      Shaped(Short(payload[1..]), payload);
    } else {
      LongPayload(payload);
    }
  }

  lemma LongPayload(payload: Bytes)
    requires |payload| >= 5 && payload[0] == 0
    ensures exists a: WorldAnswer :: a.Plausible() && a.Payload() == payload
  {
    var size, rest := FromLE(payload[1..5]), payload[5..];
    FieldUnique(payload[1..5]);
    Spans();
    hide FromLE, LE, Span;
    if size <= |rest| {
      assert payload == [0] + (payload[1..5] + rest[..size] + rest[size..]);
      Shaped(Sent(rest[..size], rest[size..]), payload);
    } else {
      assert payload == [0] + (payload[1..5] + rest);
      Shaped(Cut(size, rest), payload);
    }
  }

  lemma Shaped(a: WorldAnswer, payload: Bytes)
    requires a.Plausible() && a.Payload() == payload
    ensures exists b: WorldAnswer :: b.Plausible() && b.Payload() == payload
  {
  }

  /** The rooms of a message that says there are any. */
  function RoomsIn(decode: Decoder, a: WorldAnswer): seq<Room> {
    if a.HasMessage() && decode(a.raw).Some? && decode(a.raw).value.total > 0 then decode(a.raw).value.rooms else []
  }

  /** The message cannot be parsed, or says there are rooms and has one with fewer than five attributes. */
  predicate Unreadable(decode: Decoder, a: WorldAnswer) {
    && a.HasMessage()
    && (decode(a.raw) == None
        || exists i :: 0 <= i < |RoomsIn(decode, a)| && |RoomsIn(decode, a)[i].intAttrs| < 5)
  }

  predicate SomeUnreadable(decode: Decoder, answers: seq<WorldAnswer>) {
    exists k :: 0 <= k < |answers| && Unreadable(decode, answers[k])
  }

  /** The rooms of all answers, in the order of the worlds. */
  function RoomsOf(decode: Decoder, answers: seq<WorldAnswer>): seq<Room> {
    if answers == [] then [] else RoomsIn(decode, answers[0]) + RoomsOf(decode, answers[1..])
  }

  /** What the answer of one world brings. */
  function Brought(decode: Decoder, a: WorldAnswer): Found {
    if Unreadable(decode, a) then Escaped else if a.HasMessage() then Found.Rooms(RoomsIn(decode, a)) else Swallowed
  }

  lemma CutBlob(size: nat, raw: Bytes)
    requires |raw| < size < 0x1_0000_0000
    ensures UnpackBlob(LE(size, 4) + raw) == Some(raw)
  {
    Spans();
    FieldRoundTrip(size, 4);
    var data := LE(size, 4) + raw;
    assert data[..4] == LE(size, 4) && data[4..] == raw;
  }

  lemma AnswerContributes(decode: Decoder, a: WorldAnswer, reply: Reply)
    requires a.Plausible() && Carries(a.Payload(), reply)
    ensures Contribution(decode, reply) == Brought(decode, a)
  {
    match a
    case Refused(error, data) => CarriedExactly(error, data, reply);
    case Short(data) => CarriedExactly(0, data, reply);
    case Empty => CarriesOne([], reply);
    case Cut(size, raw) =>
      CarriedExactly(0, LE(size, 4) + raw, reply);
      CutBlob(size, raw);
      hide UnpackBlob, LE, Carries;
    case Sent(raw, after) =>
      CarriedExactly(0, LE(|raw|, 4) + raw + after, reply);
      BlobRoundTrip(raw, after);
      hide UnpackBlob, LE, Carries;
  }

  /** The answers are those to the requests of the worlds, one for one. */
  ghost predicate Given(
    policy: Policy, sent: seq<Packet>, requests: seq<Request>, id: nat, answers: seq<WorldAnswer>)
  {
    && |answers| == |requests|
    && forall k :: 0 <= k < |answers| ==>
      answers[k].Plausible() && policy(Received(sent, requests, id, k)).reply.payload == answers[k].Payload()
  }

  lemma {:induction false} FlattenAnswers(decode: Decoder, answers: seq<WorldAnswer>, found: seq<Found>)
    requires |found| == |answers|
    requires forall k :: 0 <= k < |answers| ==> found[k] == Brought(decode, answers[k])
    ensures Escaped in found <==> SomeUnreadable(decode, answers)
    ensures Escaped !in found ==> Flatten(found) == RoomsOf(decode, answers)
  {
    hide Unreadable;
    if answers != [] {
      assert forall k :: 0 <= k < |answers| - 1 ==> answers[1..][k] == answers[k + 1] && found[1..][k] == found[k + 1];
      FlattenAnswers(decode, answers[1..], found[1..]);
      assert found == [found[0]] + found[1..];
      FirstOrLater(decode, answers);
    }
  }

  lemma FirstOrLater(decode: Decoder, answers: seq<WorldAnswer>)
    requires answers != []
    ensures SomeUnreadable(decode, answers) <==> Unreadable(decode, answers[0]) || SomeUnreadable(decode, answers[1..])
  {
    hide Unreadable;
    if k: nat :| k < |answers[1..]| && Unreadable(decode, answers[1..][k]) {
      assert Unreadable(decode, answers[k + 1]);
    }
    if k: nat :| k < |answers| && Unreadable(decode, answers[k]) {
      assert k > 0 ==> answers[1..][k - 1] == answers[k];
    }
  }

  /** A search returns the rooms of exactly the readable messages that announce any, each at its world's place; error
      codes, empty results and answers too short for a length add none. It raises exactly when some message is
      unreadable. */
  lemma SearchShowsAnswers(
    server: Server, policy: Policy, s: Session, sent: seq<Packet>,
    cmd: nat, comId: Bytes, encode: Encoder, worlds: seq<nat>, decode: Decoder, answers: seq<WorldAnswer>)
    requires InOrder(server, policy) && InStep(s, sent)
    requires cmd < 0x1_0000 && |comId| == COMMUNICATION_ID_SIZE && s.id + |worlds| < 0x1_0000_0000_0000_0000
    requires Given(policy, sent, SearchRequests(cmd, comId, encode, worlds), s.id, answers)
    ensures SearchAll(server, s, SearchRequests(cmd, comId, encode, worlds), decode).1
         == if SomeUnreadable(decode, answers) then OtherError else Ok(RoomsOf(decode, answers))
  {
    var requests := SearchRequests(cmd, comId, encode, worlds);
    RoomsOfAnsweringWorlds(server, policy, s, sent, cmd, comId, encode, worlds, decode);
    var found := FoundAll(policy, sent, requests, s.id, decode);
    hide InOrder, InStep, Unreadable, Contribution, Received, SearchAll, SearchRequests;
    forall k | 0 <= k < |answers|
      ensures found[k] == Brought(decode, answers[k])
    {
      var payload := policy(Received(sent, requests, s.id, k)).reply.payload;
      CarriesOne(payload, ReplyOf(payload));
      AnswerContributes(decode, answers[k], ReplyOf(payload));
    }
    FlattenAnswers(decode, answers, found);
  }

  /** The frame of the k-th world's search holds the command, the communication id and the world's message behind its
      length. */
  lemma SearchesSent(cmd: nat, comId: Bytes, encode: Encoder, worlds: seq<nat>, id: nat)
    requires cmd < 0x1_0000 && |comId| == COMMUNICATION_ID_SIZE && id + |worlds| < 0x1_0000_0000_0000_0000
    ensures var frames := Frames(SearchRequests(cmd, comId, encode, worlds), id);
      && |frames| == |worlds|
      && forall k :: 0 <= k < |worlds| ==>
        var message := encode(worlds[k]);
        frames[k] == Packet(0, cmd, id + k + 1, comId + (LE(|message|, 4) + message))
  {
    var requests := SearchRequests(cmd, comId, encode, worlds);
    forall k | 0 <= k < |requests| ensures Packable(Frame(requests[k], id + k + 1)) {
      SearchPacks(cmd, comId, encode, worlds[k], id + k + 1);
    }
    hide Packable;
    FramesNumbered(requests, id);
  }

  /** What a caller gets: the rooms of the answers, those with a fifth attribute of zero under player match and the
      others under rank match, each group in the order of the answers and none lost. */
  lemma GroupsShowAnswers(
    server: Server, policy: Policy, s: Session, sent: seq<Packet>,
    cmd: nat, comId: Bytes, encode: Encoder, worlds: seq<nat>, decode: Decoder, answers: seq<WorldAnswer>)
    requires InOrder(server, policy) && InStep(s, sent)
    requires cmd < 0x1_0000 && |comId| == COMMUNICATION_ID_SIZE && s.id + |worlds| < 0x1_0000_0000_0000_0000
    requires Given(policy, sent, SearchRequests(cmd, comId, encode, worlds), s.id, answers)
    requires !SomeUnreadable(decode, answers)
    ensures var rooms := RoomsOf(decode, answers);
      var r := Grouped(SearchAll(server, s, SearchRequests(cmd, comId, encode, worlds), decode).1);
      r.Ok? && Parted(r.value, rooms)
  {
    SearchShowsAnswers(server, policy, s, sent, cmd, comId, encode, worlds, decode, answers);
    var rooms := RoomsOf(decode, answers);
    RoomsParted(rooms);
    assert Grouped(Ok(rooms)) == Ok(Groups(Kept(rooms, true), Kept(rooms, false)));
    hide *;
  }

  /** The first group has the rooms whose fifth attribute is zero, the second the others, both in the order of the
      list, and nothing is lost. */
  ghost predicate Parted(groups: Groups, rooms: seq<Room>) {
    && PartOf(groups.playerMatch, rooms, true)
    && PartOf(groups.rankMatch, rooms, false)
    && multiset(groups.playerMatch) + multiset(groups.rankMatch) == multiset(rooms)
  }

  ghost predicate PartOf(part: seq<Room>, whole: seq<Room>, zero: bool) {
    exists places :: PartAt(part, whole, places, zero)
  }

  /** A part of a list, at increasing places: exactly those whose fifth attribute is zero, or exactly the others. */
  predicate PartAt(part: seq<Room>, whole: seq<Room>, places: seq<nat>, zero: bool) {
    && |places| == |part|
    && (forall k :: 0 <= k < |places| ==> places[k] < |whole| && whole[places[k]] == part[k])
    && (forall j, k :: 0 <= j < k < |places| ==> places[j] < places[k])
    && (forall i :: 0 <= i < |whole| ==>
        (i in places <==> (|whole[i].intAttrs| >= 5 && whole[i].intAttrs[4] == 0) == zero))
  }

  lemma RoomsParted(rooms: seq<Room>)
    ensures Parted(Groups(Kept(rooms, true), Kept(rooms, false)), rooms)
  {
    GroupsHoldAll(rooms);
    KeptIsPart(rooms, true);
    KeptIsPart(rooms, false);
    hide PartOf, Kept;
  }

  lemma KeptIsPart(rooms: seq<Room>, zero: bool)
    ensures PartOf(Kept(rooms, zero), rooms, zero)
  {
    StablePartition(rooms, zero);
    hide Kept, Places;
    assert PartAt(Kept(rooms, zero), rooms, Places(rooms, zero), zero);
  }
}
