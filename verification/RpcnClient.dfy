/** One client's side of an RPCN session: framing, reassembly of chunks, and replies matched by order. */
module RpcnClient {
  import opened Options
  import opened Wire

  /** What a call ends with: a reply's error byte and data, or the exception it raises. */
  datatype Reply =
    | Reply(error: Byte, data: Bytes)
    | Closed
    | Unexpected(kind: Byte)
    | NotPacked

  datatype Request = Request(cmd: nat, payload: Bytes)

  /** The packet id last used, the bytes sent, and the bytes that arrived and are not yet read. */
  datatype Session = Session(id: nat, outbox: Bytes, inbox: Bytes)

  /** What the server sends back, given all the bytes it has received so far. */
  type Server = Bytes -> Bytes

  // ---- Specification ----

  function ReplyOf(payload: Bytes): Reply {
    Reply(if payload == [] then 0 else payload[0], if |payload| > 1 then payload[1..] else [])
  }

  /** The first byte of a reply's payload is its error code and the rest its data; nothing stands for no error and
      no data. */
  predicate Carries(payload: Bytes, reply: Reply) {
    && reply.Reply?
    && if payload == [] then reply.error == 0 && reply.data == [] else payload == [reply.error] + reply.data
  }

  lemma CarriesOne(payload: Bytes, reply: Reply)
    ensures Carries(payload, reply) <==> reply == ReplyOf(payload)
  {
    if payload != [] {
      assert payload == [payload[0]] + payload[1..];
      assert |payload| == 1 ==> payload[1..] == [];
    }
  }

  lemma CarriedExactly(e: Byte, d: Bytes, reply: Reply)
    ensures Carries([e] + d, reply) <==> reply == Reply(e, d)
  {
    CarriesOne([e] + d, Reply(e, d));
    CarriesOne([e] + d, reply);
    hide ReplyOf;
  }

  /** The next reply on a stream and what remains of the stream. */
  function ReadReply(stream: Bytes): (Reply, Bytes)
    decreases |stream|
  {
    if |stream| < HEADER_SIZE then (Closed, [])
    else
      var h := stream[..HEADER_SIZE];
      var end := if SizeOf(h) > HEADER_SIZE then SizeOf(h) else HEADER_SIZE;
      if |stream| < end then (Closed, [])
      else if KindOf(h) == PKT_NOTIF then ReadReply(stream[end..])
      else if KindOf(h) != PKT_REPLY then (Unexpected(KindOf(h)), stream[end..])
      else (ReplyOf(stream[HEADER_SIZE..end]), stream[end..])
  }

  function Frame(request: Request, id: nat): Packet {
    Packet(PKT_REQUEST, request.cmd, id, request.payload)
  }

  /** One call: a frame sent under the next id, then the next reply read. */
  function Ask(server: Server, s: Session, request: Request): (Session, Reply) {
    var p := Frame(request, s.id + 1);
    if !Packable(p) then (s.(id := s.id + 1), NotPacked)
    else
      var sent := s.outbox + Encode(p);
      var (reply, rest) := ReadReply(s.inbox + server(sent));
      (Session(s.id + 1, sent, rest), reply)
  }

  function AskAll(server: Server, s: Session, requests: seq<Request>): (r: (Session, seq<Reply>))
    ensures |r.1| == |requests|
    decreases |requests|
  {
    if requests == [] then (s, [])
    else
      var first := Ask(server, s, requests[0]);
      var others := AskAll(server, first.0, requests[1..]);
      (others.0, [first.1] + others.1)
  }

  /** The packets a list of requests puts on the wire; a request that does not pack uses up its id. */
  function Frames(requests: seq<Request>, id: nat): seq<Packet> {
    if requests == [] then []
    else
      var p := Frame(requests[0], id + 1);
      (if Packable(p) then [p] else []) + Frames(requests[1..], id + 1)
  }

  // ---- Streams of whole packets ----

  predicate Notifications(ps: seq<Packet>) {
    forall i :: 0 <= i < |ps| ==> ps[i].kind == PKT_NOTIF && Packable(ps[i])
  }

  lemma {:induction false} EncodeAppend(a: seq<Packet>, b: seq<Packet>)
    ensures EncodeAll(a + b) == EncodeAll(a) + EncodeAll(b)
  {
    hide Encode;
    if a == [] {
      assert a + b == b;
    } else {
      EncodeAppend(a[1..], b);
      EncodeFirst(a + b);
      EncodeFirst(a);
      hide EncodeAll;
      assert (a + b)[0] == a[0] && (a + b)[1..] == a[1..] + b;
      Joined(Encode(a[0]), EncodeAll(a[1..]), EncodeAll(b));
    }
  }

  lemma EncodeFirst(ps: seq<Packet>)
    requires ps != []
    ensures EncodeAll(ps) == Encode(ps[0]) + EncodeAll(ps[1..])
  {
  }

  lemma Joined(x: Bytes, y: Bytes, z: Bytes)
    ensures x + (y + z) == (x + y) + z
  {
  }

  /** A reply is read whole, whatever its error byte, and nothing after it is touched. */
  lemma ReplyRead(p: Packet, rest: Bytes)
    requires p.kind == PKT_REPLY && Packable(p)
    ensures ReadReply(Encode(p) + rest) == (ReplyOf(p.payload), rest)
    ensures Carries(p.payload, ReadReply(Encode(p) + rest).0)
  {
    FirstPacket(p, rest);
    HeaderRoundTrip(p);
    CarriesOne(p.payload, ReplyOf(p.payload));
  }

  /** A reply with error byte e and data d is read as just these, and an empty one as no error and no data. */
  lemma ErrorAndDataRead(cmd: nat, id: nat, e: Byte, d: Bytes, rest: Bytes)
    requires Packable(Packet(PKT_REPLY, cmd, id, [e] + d))
    ensures ReadReply(Encode(Packet(PKT_REPLY, cmd, id, [e] + d)) + rest) == (Reply(e, d), rest)
    ensures ReadReply(Encode(Packet(PKT_REPLY, cmd, id, [])) + rest) == (Reply(0, []), rest)
  {
    ReplyRead(Packet(PKT_REPLY, cmd, id, [e] + d), rest);
    ReplyRead(Packet(PKT_REPLY, cmd, id, []), rest);
    CarriesOne([e] + d, Reply(e, d));
    CarriesOne([], Reply(0, []));
  }

  /** A connection that ends inside a reply ends the call as closed, with nothing left to read. */
  lemma CutReplyCloses(p: Packet, n: nat)
    requires p.kind == PKT_REPLY && Packable(p) && n < |Encode(p)|
    ensures ReadReply(Encode(p)[..n]) == (Closed, [])
  {
    HeaderRoundTrip(p);
    if n >= HEADER_SIZE {
      assert Encode(p)[..n][..HEADER_SIZE] == Header(p);
    }
  }

  lemma NotificationSkipped(p: Packet, rest: Bytes)
    requires p.kind == PKT_NOTIF && Packable(p)
    ensures ReadReply(Encode(p) + rest) == ReadReply(rest)
  {
    FirstPacket(p, rest);
    HeaderRoundTrip(p);
  }

  lemma {:induction false} NotificationsSkipped(ps: seq<Packet>, rest: Bytes)
    requires Notifications(ps)
    ensures ReadReply(EncodeAll(ps) + rest) == ReadReply(rest)
  {
    if ps == [] {
      assert EncodeAll(ps) + rest == rest;
    } else {
      assert EncodeAll(ps) + rest == Encode(ps[0]) + (EncodeAll(ps[1..]) + rest);
      NotificationSkipped(ps[0], EncodeAll(ps[1..]) + rest);
      NotificationsSkipped(ps[1..], rest);
    }
  }

  /** A packet that is neither reply nor notification ends one call and leaves that call's reply to the next. */
  lemma UnexpectedLeavesReply(odd: Packet, reply: Packet, rest: Bytes)
    requires odd.kind != PKT_REPLY && odd.kind != PKT_NOTIF && Packable(odd)
    requires reply.kind == PKT_REPLY && Packable(reply)
    ensures var (first, later) := ReadReply(Encode(odd) + (Encode(reply) + rest));
      first == Unexpected(odd.kind) && ReadReply(later).1 == rest && Carries(reply.payload, ReadReply(later).0)
  {
    FirstPacket(odd, Encode(reply) + rest);
    HeaderRoundTrip(odd);
    ReplyRead(reply, rest);
  }

  /** Command and packet id are never compared: they have no influence on the answer. */
  lemma CommandNotCompared(p: Packet, cmd: nat, id: nat, rest: Bytes)
    requires p.kind == PKT_REPLY && Packable(p) && Packable(p.(cmd := cmd, id := id))
    ensures ReadReply(Encode(p) + rest) == ReadReply(Encode(p.(cmd := cmd, id := id)) + rest)
  {
    ReplyRead(p, rest);
    ReplyRead(p.(cmd := cmd, id := id), rest);
  }

  // ---- In-order servers ----

  /** One reply, with any notifications pushed before and after it. */
  datatype Answer = Answer(before: seq<Packet>, reply: Packet, after: seq<Packet>)

  /** How a server answers the newest of the requests it has received. */
  type Policy = seq<Packet> -> Answer

  predicate WellFormed(a: Answer) {
    Notifications(a.before) && Notifications(a.after) && a.reply.kind == PKT_REPLY && Packable(a.reply)
  }

  function AnswerBytes(a: Answer): Bytes {
    EncodeAll(a.before) + (Encode(a.reply) + EncodeAll(a.after))
  }

  /** The server cuts what it received into requests and gives each exactly one answer. */
  ghost predicate InOrder(server: Server, policy: Policy) {
    forall received :: received != [] && Parse(received).Some? ==>
      WellFormed(policy(Parse(received).value)) && server(received) == AnswerBytes(policy(Parse(received).value))
  }

  /** Between calls: the requests the server has seen, and nothing but notifications left to read. */
  predicate InStep(s: Session, sent: seq<Packet>) {
    && Parse(s.outbox) == Some(sent)
    && Parse(s.inbox).Some?
    && Notifications(Parse(s.inbox).value)
  }

  lemma FrameAppended(outbox: Bytes, sent: seq<Packet>, p: Packet)
    requires Parse(outbox) == Some(sent) && Packable(p)
    ensures Parse(outbox + Encode(p)) == Some(sent + [p])
  {
    ParseUnique(outbox);
    EncodeAppend(sent, [p]);
    assert EncodeAll([p]) == Encode(p) + EncodeAll([]);
    assert EncodeAll([p]) == Encode(p);
    ParseEncoded(sent + [p]);
  }

  lemma AskInStep(server: Server, policy: Policy, s: Session, sent: seq<Packet>, request: Request)
    requires InOrder(server, policy) && InStep(s, sent) && Packable(Frame(request, s.id + 1))
    ensures var received := sent + [Frame(request, s.id + 1)];
      var (next, reply) := Ask(server, s, request);
      InStep(next, received) && next.id == s.id + 1 && Carries(policy(received).reply.payload, reply)
  {
    hide Parse, ReadReply, Packable;
    var p := Frame(request, s.id + 1);
    var received := sent + [p];
    FrameAppended(s.outbox, sent, p);
    var a := policy(received);
    assert WellFormed(a) && server(s.outbox + Encode(p)) == AnswerBytes(a);
    ParseUnique(s.inbox);
    var left := Parse(s.inbox).value;
    assert s.inbox == EncodeAll(left);
    var tail := Encode(a.reply) + EncodeAll(a.after);
    assert s.inbox + AnswerBytes(a) == EncodeAll(left) + (EncodeAll(a.before) + tail);
    NotificationsSkipped(left, EncodeAll(a.before) + tail);
    NotificationsSkipped(a.before, tail);
    ReplyRead(a.reply, EncodeAll(a.after));
    ParseEncoded(a.after);
  }

  /** The requests the server has received once it has the k-th of `requests`. */
  function Received(sent: seq<Packet>, requests: seq<Request>, id: nat, k: nat): seq<Packet>
    requires k < |requests|
  {
    sent + Frames(requests[..k + 1], id)
  }

  /** How the k-th call of a run must end. */
  predicate Paired(policy: Policy, sent: seq<Packet>, requests: seq<Request>, id: nat, k: nat, reply: Reply)
    requires k < |requests|
  {
    var p := Frame(requests[k], id + k + 1);
    if !Packable(p) then reply == NotPacked
    else
      var received := Received(sent, requests, id, k);
      received != [] && received[|received| - 1] == p && Carries(policy(received).reply.payload, reply)
  }

  lemma ReceivedLater(sent: seq<Packet>, requests: seq<Request>, id: nat, k: nat)
    requires k + 1 < |requests|
    ensures Received(sent, requests, id, k + 1) == Received(sent + Frames(requests[..1], id), requests[1..], id + 1, k)
  {
    var longer, shorter := requests[..k + 2], requests[1..][..k + 1];
    FramesSplit(longer, id);
    assert longer[1..] == shorter && longer[..1] == requests[..1];
    var first, later := Frames(requests[..1], id), Frames(shorter, id + 1);
    assert sent + (first + later) == (sent + first) + later;
  }

  lemma FramesSplit(requests: seq<Request>, id: nat)
    requires requests != []
    ensures Frames(requests, id) == Frames(requests[..1], id) + Frames(requests[1..], id + 1)
  {
    assert requests[..1][0] == requests[0] && requests[..1][1..] == [];
    assert Frames([], id + 1) == [];
  }

  lemma PairedLater(policy: Policy, sent: seq<Packet>, requests: seq<Request>, id: nat, k: nat, reply: Reply)
    requires k + 1 < |requests|
    requires Paired(policy, sent + Frames(requests[..1], id), requests[1..], id + 1, k, reply)
    ensures Paired(policy, sent, requests, id, k + 1, reply)
  {
    hide Packable, Frames, Received;
    ReceivedLater(sent, requests, id, k);
    assert Frame(requests[1..][k], id + 1 + k + 1) == Frame(requests[k + 1], id + (k + 1) + 1);
  }

  predicate AllPaired(policy: Policy, sent: seq<Packet>, requests: seq<Request>, id: nat, replies: seq<Reply>) {
    && |replies| == |requests|
    && forall k :: 0 <= k < |requests| ==> Paired(policy, sent, requests, id, k, replies[k])
  }

  lemma AllPairedLater(policy: Policy, sent: seq<Packet>, requests: seq<Request>, id: nat, replies: seq<Reply>)
    requires requests != [] && replies != []
    requires Paired(policy, sent, requests, id, 0, replies[0])
    requires AllPaired(policy, sent + Frames(requests[..1], id), requests[1..], id + 1, replies[1..])
    ensures AllPaired(policy, sent, requests, id, replies)
  {
    hide Paired, Frames;
    forall k | 0 <= k < |requests| ensures Paired(policy, sent, requests, id, k, replies[k]) {
      if k > 0 {
        assert replies[1..][k - 1] == replies[k];
        PairedLater(policy, sent, requests, id, k - 1, replies[k]);
      }
    }
  }

  /** The whole run ends in step, and every call with the answer to its own request. */
  predicate Served(server: Server, policy: Policy, s: Session, sent: seq<Packet>, requests: seq<Request>) {
    var run := AskAll(server, s, requests);
    && InStep(run.0, sent + Frames(requests, s.id))
    && run.0.id == s.id + |requests|
    && AllPaired(policy, sent, requests, s.id, run.1)
  }

  lemma ServedLater(server: Server, policy: Policy, s: Session, sent: seq<Packet>, requests: seq<Request>)
    requires requests != []
    requires var first := Ask(server, s, requests[0]);
      && first.0.id == s.id + 1
      && Paired(policy, sent, requests, s.id, 0, first.1)
      && Served(server, policy, first.0, sent + Frames(requests[..1], s.id), requests[1..])
    ensures Served(server, policy, s, sent, requests)
  {
    hide Ask, Paired, InStep, AllPaired, Frames;
    var first := Ask(server, s, requests[0]);
    var others := AskAll(server, first.0, requests[1..]);
    FramesSplit(requests, s.id);
    var a, b := Frames(requests[..1], s.id), Frames(requests[1..], s.id + 1);
    assert (sent + a) + b == sent + (a + b);
    var replies := [first.1] + others.1;
    assert replies[1..] == others.1;
    AllPairedLater(policy, sent, requests, s.id, replies);
  }

  /** With an in-order server, the k-th call ends with the answer to the k-th request, whatever notifications
      come between and whatever error codes came before, and the session is left at a packet boundary. */
  lemma {:induction false} EveryCallGetsItsReply(
    server: Server, policy: Policy, s: Session, sent: seq<Packet>, requests: seq<Request>)
    requires InOrder(server, policy) && InStep(s, sent)
    ensures Served(server, policy, s, sent, requests)
    decreases |requests|
  {
    if requests == [] {
      assert sent + Frames(requests, s.id) == sent;
    } else {
      FirstCall(server, policy, s, sent, requests);
      hide *;
      var first := Ask(server, s, requests[0]);
      EveryCallGetsItsReply(server, policy, first.0, sent + Frames(requests[..1], s.id), requests[1..]);
      ServedLater(server, policy, s, sent, requests);
    }
  }

  lemma FirstCall(server: Server, policy: Policy, s: Session, sent: seq<Packet>, requests: seq<Request>)
    requires InOrder(server, policy) && InStep(s, sent) && requests != []
    ensures var (next, reply) := Ask(server, s, requests[0]);
      && InStep(next, sent + Frames(requests[..1], s.id))
      && next.id == s.id + 1
      && Paired(policy, sent, requests, s.id, 0, reply)
  {
    var p := Frame(requests[0], s.id + 1);
    assert requests[..1][0] == requests[0] && requests[..1][1..] == [];
    assert Frames(requests[..1], s.id) == if Packable(p) then [p] else [];
    if Packable(p) {
      AskInStep(server, policy, s, sent, requests[0]);
    } else {
      assert sent + Frames(requests[..1], s.id) == sent;
    }
  }

  /** A new session's frames carry the ids 1 to n in order, and each request's command and payload. */
  lemma {:induction false} FramesNumbered(requests: seq<Request>, id: nat)
    requires forall i :: 0 <= i < |requests| ==> Packable(Frame(requests[i], id + i + 1))
    ensures |Frames(requests, id)| == |requests|
    ensures forall i :: 0 <= i < |requests| ==> Frames(requests, id)[i] == Frame(requests[i], id + i + 1)
  {
    if requests != [] {
      var others := requests[1..];
      forall i | 0 <= i < |others| ensures Packable(Frame(others[i], id + 1 + i + 1)) {
        assert Frame(others[i], id + 1 + i + 1) == Frame(requests[i + 1], id + (i + 1) + 1);
      }
      FramesNumbered(others, id + 1);
      assert Frame(requests[0], id + 0 + 1) == Frame(requests[0], id + 1);
      assert Frames(requests, id) == [Frame(requests[0], id + 1)] + Frames(others, id + 1);
    }
  }

  // ---- Decoded calls ----

  /** A call's value, an RpcnError, or an exception of another type. */
  datatype Outcome<+T> = Ok(value: T) | RpcnError | OtherError

  const PKT_SERVERINFO: Byte := 3
  const PROTOCOL_VERSION := 30
  const COMMUNICATION_ID_SIZE := 12

  /** Reads the packet a server opens with; Ok only for the one supported version. */
  function ReadGreeting(stream: Bytes): (Outcome<nat>, Bytes) {
    if |stream| < HEADER_SIZE then (RpcnError, [])
    else
      var h, rest := stream[..HEADER_SIZE], stream[HEADER_SIZE..];
      var size := SizeOf(h) - HEADER_SIZE;
      if KindOf(h) != PKT_SERVERINFO || size < 4 then (RpcnError, rest)
      else if |rest| < size then (RpcnError, [])
      else if FromLE(rest[..4]) != PROTOCOL_VERSION then (RpcnError, rest[size..])
      else (Ok(PROTOCOL_VERSION), rest[size..])
  }

  /** A whole opening packet is accepted exactly when it is a server-info packet of this version. */
  lemma GreetingAccepted(p: Packet, rest: Bytes)
    requires Packable(p)
    ensures ReadGreeting(Encode(p) + rest).0.Ok? <==>
      p.kind == PKT_SERVERINFO && |p.payload| >= 4 && FromLE(p.payload[..4]) == PROTOCOL_VERSION
    ensures ReadGreeting(Encode(p) + rest).0.Ok? ==> ReadGreeting(Encode(p) + rest).1 == rest
  {
    FirstPacket(p, rest);
    HeaderRoundTrip(p);
    var s := Encode(p) + rest;
    assert s[HEADER_SIZE..][..|p.payload|] == p.payload;
    assert |p.payload| >= 4 ==> s[HEADER_SIZE..][..4] == p.payload[..4];
    assert s[HEADER_SIZE..][|p.payload|..] == rest;
  }

  /** Twelve ASCII characters as bytes; None where a ValueError is raised. */
  function EncodeComId(text: string): Option<Bytes> {
    if |text| == COMMUNICATION_ID_SIZE && forall i :: 0 <= i < |text| ==> text[i] < 128 as char
    then Some(seq(|text|, i requires 0 <= i < |text| && text[i] < 128 as char => text[i] as int))
    else None
  }

  /** A reply as its caller sees it: an error code and a lost connection are both an RpcnError. */
  function Data(reply: Reply): Outcome<Bytes> {
    match reply
    case NotPacked => OtherError
    case Closed => RpcnError
    case Unexpected(_) => RpcnError
    case Reply(error, data) => if error != 0 then RpcnError else Ok(data)
  }

  function ListData(reply: Reply, countWidth: nat, width: nat): Outcome<seq<nat>>
    requires width >= 1
  {
    match Data(reply)
    case RpcnError => RpcnError
    case OtherError => OtherError
    case Ok(data) =>
      match ReadList(data, countWidth, width)
      case None => OtherError
      case Some(items) => Ok(items)
  }

  function LoginData(reply: Reply): Outcome<LoginInfo> {
    match Data(reply)
    case RpcnError => RpcnError
    case OtherError => OtherError
    case Ok(data) =>
      match ReadLogin(data)
      case None => OtherError
      case Some(info) => Ok(info)
  }

  /** An error code, a lost connection and an unexpected packet make every decoded call an RpcnError, and data that
      lacks a part another exception. */
  lemma RefusalIsRpcnError(reply: Reply, countWidth: nat, width: nat)
    requires width >= 1
    ensures reply.Closed? || reply.Unexpected? || (reply.Reply? && reply.error != 0) ==>
      Data(reply) == RpcnError && ListData(reply, countWidth, width) == RpcnError && LoginData(reply) == RpcnError
    ensures reply.NotPacked? || (reply.Reply? && reply.error == 0) ==>
      Data(reply) != RpcnError && ListData(reply, countWidth, width) != RpcnError && LoginData(reply) != RpcnError
    ensures reply.Reply? && reply.error == 0 ==> Data(reply) == Ok(reply.data)
    ensures reply.NotPacked? ==> Data(reply) == OtherError
  {
    hide ReadList, ReadLogin;
  }

  /** The bytes of a communication id are the codes of its twelve characters, and only twelve ASCII characters have
      any. */
  lemma ComIdBytes(text: string)
    ensures EncodeComId(text).Some? <==> |text| == 12 && forall i :: 0 <= i < |text| ==> text[i] as int < 128
    ensures EncodeComId(text).Some? ==>
      |EncodeComId(text).value| == 12 && forall i :: 0 <= i < 12 ==> EncodeComId(text).value[i] == text[i] as int
  {
  }

  function ServerListRequest(comId: Bytes): Request {
    Request(CMD_GET_SERVER_LIST, comId)
  }

  function WorldListRequest(comId: Bytes, server: nat): Request {
    Request(CMD_GET_WORLD_LIST, comId + LE(server, 2))
  }

  // ---- The client ----

  /** A connection; `inbox` holds what has arrived and has not been read. */
  class Socket {
    const server: Server
    var inbox: Bytes
    var outbox: Bytes

    constructor (server: Server, greeting: Bytes)
      ensures this.server == server && inbox == greeting && outbox == []
    {
      this.server := server;
      inbox, outbox := greeting, [];
    }

    method SendAll(data: Bytes)
      modifies this
      ensures outbox == old(outbox) + data && inbox == old(inbox) + server(outbox)
    {
      outbox := outbox + data;
      inbox := inbox + server(outbox);
    }

    /** Any non-empty run of at most `n` bytes; empty only when nothing more comes. */
    method Recv(n: int) returns (chunk: Bytes)
      requires n > 0
      modifies this`inbox
      ensures old(inbox) == chunk + inbox && |chunk| <= n
      ensures chunk == [] <==> old(inbox) == []
    {
      if inbox == [] {
        return [];
      }
      var size: nat :| 1 <= size <= n && size <= |inbox|;
      chunk := inbox[..size];
      inbox := inbox[size..];
    }
  }

  class Client {
    const sock: Socket
    var packetId: nat

    ghost function Now(): Session
      reads this, sock
    {
      Session(packetId, sock.outbox, sock.inbox)
    }

    constructor (sock: Socket)
      ensures this.sock == sock && packetId == 0
    {
      this.sock := sock;
      packetId := 0;
    }

    method Send(request: Request) returns (sent: bool)
      modifies this, sock
      ensures packetId == old(packetId) + 1
      ensures sent == Packable(Frame(request, packetId))
      ensures sent ==> sock.outbox == old(sock.outbox) + Encode(Frame(request, packetId))
      ensures sent ==> sock.inbox == old(sock.inbox) + sock.server(sock.outbox)
      ensures !sent ==> sock.outbox == old(sock.outbox) && sock.inbox == old(sock.inbox)
    {
      packetId := packetId + 1;
      var p := Packet(PKT_REQUEST, request.cmd, packetId, request.payload);
      sent := Packable(p);
      if sent {
        sock.SendAll(Header(p) + p.payload);
      }
    }

    /** Exactly the next `n` bytes, however they are cut into chunks; None only when fewer remain. */
    method RecvExact(n: int) returns (r: Option<Bytes>)
      modifies sock`inbox
      ensures n <= 0 ==> r == Some([]) && sock.inbox == old(sock.inbox)
      ensures 0 < n <= |old(sock.inbox)| ==> r == Some(old(sock.inbox)[..n]) && sock.inbox == old(sock.inbox)[n..]
      ensures n > |old(sock.inbox)| ==> r == None && sock.inbox == []
    {
      var buf: Bytes := [];
      while |buf| < n
        invariant old(sock.inbox) == buf + sock.inbox
        invariant |buf| <= n || buf == []
        decreases n - |buf|
      {
        var chunk := sock.Recv(n - |buf|);
        if chunk == [] {
          return None;
        }
        buf := buf + chunk;
      }
      return Some(buf);
    }

    method RecvReply() returns (reply: Reply)
      modifies sock`inbox
      ensures (reply, sock.inbox) == ReadReply(old(sock.inbox))
    {
      while true
        invariant ReadReply(sock.inbox) == ReadReply(old(sock.inbox))
        decreases |sock.inbox|
      {
        ghost var stream := sock.inbox;
        var header := RecvExact(HEADER_SIZE);
        if header == None {
          return Closed;
        }
        var kind, size := KindOf(header.value), SizeOf(header.value);
        var payload: Option<Bytes> := Some([]);
        if size - HEADER_SIZE > 0 {
          payload := RecvExact(size - HEADER_SIZE);
          if payload == None {
            return Closed;
          }
          assert payload.value == stream[HEADER_SIZE..size];
        }
        if kind == PKT_NOTIF {
          continue;
        }
        if kind != PKT_REPLY {
          return Unexpected(kind);
        }
        var error: Byte := 0;
        var data: Bytes := [];
        if |payload.value| > 0 {
          error := payload.value[0];
        }
        if |payload.value| > 1 {
          data := payload.value[1..];
        }
        return Reply(error, data);
      }
    }

    method Call(request: Request) returns (reply: Reply)
      modifies this, sock
      ensures (Now(), reply) == Ask(sock.server, old(Now()), request)
    {
      var sent := Send(request);
      if !sent {
        return NotPacked;
      }
      reply := RecvReply();
    }

    /** Reads the server's opening packet on a fresh connection. */
    method Connect() returns (version: Outcome<nat>)
      modifies sock`inbox
      ensures (version, sock.inbox) == ReadGreeting(old(sock.inbox))
    {
      var header := RecvExact(HEADER_SIZE);
      if header == None {
        return RpcnError;
      }
      var size := SizeOf(header.value) - HEADER_SIZE;
      if KindOf(header.value) != PKT_SERVERINFO || size < 4 {
        return RpcnError;
      }
      var payload := RecvExact(size);
      if payload == None {
        return RpcnError;
      }
      assert old(sock.inbox)[HEADER_SIZE..][..4] == payload.value[..4];
      if FromLE(payload.value[..4]) != PROTOCOL_VERSION {
        return RpcnError;
      }
      return Ok(PROTOCOL_VERSION);
    }

    method Login(user: Bytes, password: Bytes, token: Bytes) returns (info: Outcome<LoginInfo>)
      modifies this, sock
      ensures var (end, reply) := Ask(sock.server, old(Now()), Request(CMD_LOGIN, LoginPayload(user, password, token)));
        Now() == end && info == LoginData(reply) && (reply.Reply? && reply.error != 0 ==> info == RpcnError)
    {
      var reply := Call(Request(CMD_LOGIN, LoginPayload(user, password, token)));
      info := LoginData(reply);
    }

    method GetServerList(comId: string) returns (servers: Outcome<seq<nat>>)
      modifies this, sock
      ensures EncodeComId(comId) == None ==> Now() == old(Now()) && servers == OtherError
      ensures EncodeComId(comId) != None ==>
        var (end, reply) := Ask(sock.server, old(Now()), ServerListRequest(EncodeComId(comId).value));
        Now() == end && servers == ListData(reply, 2, 2)
        && (reply.Reply? && reply.error != 0 ==> servers == RpcnError)
    {
      var id := EncodeComId(comId);
      if id == None {
        return OtherError;
      }
      var reply := Call(ServerListRequest(id.value));
      servers := ListData(reply, 2, 2);
    }

    method GetWorldList(comId: string, server: nat) returns (worlds: Outcome<seq<nat>>)
      modifies this, sock
      ensures EncodeComId(comId) == None || server >= 0x1_0000 ==> Now() == old(Now()) && worlds == OtherError
      ensures EncodeComId(comId) != None && server < 0x1_0000 ==>
        var (end, reply) := Ask(sock.server, old(Now()), WorldListRequest(EncodeComId(comId).value, server));
        Now() == end && worlds == ListData(reply, 4, 4)
        && (reply.Reply? && reply.error != 0 ==> worlds == RpcnError)
    {
      var id := EncodeComId(comId);
      if id == None || server >= 0x1_0000 {
        return OtherError;
      }
      var reply := Call(WorldListRequest(id.value, server));
      worlds := ListData(reply, 4, 4);
    }
  }
}
