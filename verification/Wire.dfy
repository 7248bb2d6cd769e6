/** The RPCN wire format: little-endian fields, 15-byte headers, counted lists, terminated strings. */
module Wire {
  import opened Options

  type Byte = b: int | 0 <= b < 256

  type Bytes = seq<Byte>

  // ---- Little-endian fields ----

  function Span(width: nat): nat {
    if width == 0 then 1 else 256 * Span(width - 1)
  }

  function LE(n: nat, width: nat): (bs: Bytes)
    ensures |bs| == width
  {
    if width == 0 then [] else [n % 256] + LE(n / 256, width - 1)
  }

  function FromLE(bs: Bytes): nat {
    if bs == [] then 0 else bs[0] + 256 * FromLE(bs[1..])
  }

  function Power(i: nat): nat
    ensures Power(i) >= 1
  {
    if i == 0 then 1 else 256 * Power(i - 1)
  }

  /** The sum of the bytes, byte i weighing 256 to the power i. */
  function Weighed(bs: Bytes): nat {
    if bs == [] then 0
    else
      var last := |bs| - 1;
      Weighed(bs[..last]) + bs[last] * Power(last)
  }

  lemma {:induction false} WeighedFirst(b: Byte, bs: Bytes)
    ensures Weighed([b] + bs) == b + 256 * Weighed(bs)
  {
    if bs == [] {
      assert [b][..0] == [] && Power(0) == 1;
    } else {
      var last := |bs| - 1;
      WeighedFirst(b, bs[..last]);
      assert ([b] + bs)[..|bs|] == [b] + bs[..last];
      assert bs[last] * (256 * Power(last)) == 256 * (bs[last] * Power(last));
    }
  }

  /** A field's bytes stand lowest first. */
  lemma {:induction false} LowestFirst(bs: Bytes)
    ensures FromLE(bs) == Weighed(bs)
  {
    if bs != [] {
      LowestFirst(bs[1..]);
      WeighedFirst(bs[0], bs[1..]);
      assert bs == [bs[0]] + bs[1..];
    }
  }

  /** A field that fits its width is read back as written. */
  lemma {:induction false} FieldRoundTrip(n: nat, width: nat)
    requires n < Span(width)
    ensures FromLE(LE(n, width)) == n
  {
    if width > 0 {
      FieldRoundTrip(n / 256, width - 1);
      assert LE(n, width)[1..] == LE(n / 256, width - 1);
    }
  }

  /** Every run of bytes is the one encoding of the number it stands for. */
  lemma {:induction false} FieldUnique(bs: Bytes)
    ensures FromLE(bs) < Span(|bs|) && LE(FromLE(bs), |bs|) == bs
  {
    if bs != [] {
      FieldUnique(bs[1..]);
      var n := FromLE(bs[1..]);
      LowByte(bs[0], n);
    }
  }

  lemma LowByte(b: Byte, n: nat)
    ensures (b + 256 * n) % 256 == b && (b + 256 * n) / 256 == n
  {
  }

  // ---- Packets ----

  const HEADER_SIZE := 15
  const PKT_REQUEST: Byte := 0
  const PKT_REPLY: Byte := 1
  const PKT_NOTIF: Byte := 2

  const CMD_LOGIN := 0
  const CMD_GET_SERVER_LIST := 12
  const CMD_GET_WORLD_LIST := 13
  const CMD_SEARCH_ROOM := 17
  const CMD_SEARCH_ROOM_ALL := 0x0105

  datatype Packet = Packet(kind: Byte, cmd: nat, id: nat, payload: Bytes)

  /** What the `<BHIQ` format accepts. */
  predicate Packable(p: Packet) {
    p.cmd < 0x1_0000 && HEADER_SIZE + |p.payload| < 0x1_0000_0000 && p.id < 0x1_0000_0000_0000_0000
  }

  function Header(p: Packet): (bs: Bytes)
    ensures |bs| == HEADER_SIZE
  {
    [p.kind] + LE(p.cmd, 2) + LE(HEADER_SIZE + |p.payload|, 4) + LE(p.id, 8)
  }

  function Encode(p: Packet): Bytes {
    Header(p) + p.payload
  }

  function KindOf(header: Bytes): Byte
    requires |header| == HEADER_SIZE
  {
    header[0]
  }

  function CmdOf(header: Bytes): nat
    requires |header| == HEADER_SIZE
  {
    FromLE(header[1..3])
  }

  function SizeOf(header: Bytes): nat
    requires |header| == HEADER_SIZE
  {
    FromLE(header[3..7])
  }

  function IdOf(header: Bytes): nat
    requires |header| == HEADER_SIZE
  {
    FromLE(header[7..])
  }

  lemma Spans()
    ensures Span(2) == 0x1_0000 && Span(4) == 0x1_0000_0000 && Span(8) == 0x1_0000_0000_0000_0000
  {
    assert Span(1) == 256 && Span(3) == 0x100_0000;
    assert Span(5) == 0x100_0000_0000 && Span(6) == 0x1_0000_0000_0000 && Span(7) == 0x100_0000_0000_0000;
  }

  lemma HeaderParts(p: Packet)
    ensures KindOf(Header(p)) == p.kind
    ensures Header(p)[1..3] == LE(p.cmd, 2)
    ensures Header(p)[3..7] == LE(HEADER_SIZE + |p.payload|, 4)
    ensures Header(p)[7..] == LE(p.id, 8)
  {
  }

  /** A packed header unpacks to the fields it was packed from. */
  lemma HeaderRoundTrip(p: Packet)
    requires Packable(p)
    ensures var h := Header(p);
      KindOf(h) == p.kind && CmdOf(h) == p.cmd && SizeOf(h) == HEADER_SIZE + |p.payload| && IdOf(h) == p.id
  {
    Spans();
    HeaderParts(p);
    FieldRoundTrip(p.cmd, 2);
    FieldRoundTrip(HEADER_SIZE + |p.payload|, 4);
    FieldRoundTrip(p.id, 8);
  }

  /** Where the fields of a packed header stand: the kind, two bytes of command, four of size, eight of id. */
  lemma HeaderLayout(p: Packet)
    requires Packable(p)
    ensures var h := Header(p);
      && |h| == 15 && h[0] == p.kind
      && Weighed(h[1..3]) == p.cmd && Weighed(h[3..7]) == 15 + |p.payload| && Weighed(h[7..15]) == p.id
  {
    HeaderRoundTrip(p);
    var h := Header(p);
    LowestFirst(h[1..3]);
    LowestFirst(h[3..7]);
    assert h[7..] == h[7..15];
    LowestFirst(h[7..15]);
  }

  lemma HeaderUnique(header: Bytes, payload: Bytes)
    requires |header| == HEADER_SIZE && SizeOf(header) == HEADER_SIZE + |payload|
    ensures var p := Packet(KindOf(header), CmdOf(header), IdOf(header), payload); Header(p) == header && Packable(p)
  {
    Spans();
    FieldUnique(header[1..3]);
    FieldUnique(header[3..7]);
    FieldUnique(header[7..]);
    var p := Packet(KindOf(header), CmdOf(header), IdOf(header), payload);
    assert header == [header[0]] + header[1..3] + header[3..7] + header[7..];
    assert Header(p) == [header[0]] + header[1..3] + header[3..7] + header[7..];
  }

  // ---- Streams of packets ----

  function EncodeAll(ps: seq<Packet>): Bytes {
    if ps == [] then [] else Encode(ps[0]) + EncodeAll(ps[1..])
  }

  /** Cuts a stream into packets by their size fields. */
  function Parse(stream: Bytes): Option<seq<Packet>>
    decreases |stream|
  {
    if stream == [] then Some([])
    else if |stream| < HEADER_SIZE then None
    else
      var h := stream[..HEADER_SIZE];
      if !(HEADER_SIZE <= SizeOf(h) <= |stream|) then None
      else
        var rest := Parse(stream[SizeOf(h)..]);
        if rest == None then None
        else Some([Packet(KindOf(h), CmdOf(h), IdOf(h), stream[HEADER_SIZE..SizeOf(h)])] + rest.value)
  }

  lemma FirstPacket(p: Packet, rest: Bytes)
    requires Packable(p)
    ensures var s := Encode(p) + rest;
      && |s| >= HEADER_SIZE + |p.payload|
      && s[..HEADER_SIZE] == Header(p)
      && s[HEADER_SIZE..HEADER_SIZE + |p.payload|] == p.payload
      && s[HEADER_SIZE + |p.payload|..] == rest
  {
  }

  /** What was sent is what is read. */
  lemma {:induction false} ParseEncoded(ps: seq<Packet>)
    requires forall i :: 0 <= i < |ps| ==> Packable(ps[i])
    ensures Parse(EncodeAll(ps)) == Some(ps)
  {
    if ps != [] {
      ParseEncoded(ps[1..]);
      FirstPacket(ps[0], EncodeAll(ps[1..]));
      HeaderRoundTrip(ps[0]);
      assert ps == [ps[0]] + ps[1..];
    }
  }

  /** A stream parses to one list of packets only: the one that encodes to it. */
  lemma {:induction false} ParseUnique(stream: Bytes)
    requires Parse(stream).Some?
    ensures EncodeAll(Parse(stream).value) == stream
    ensures forall i :: 0 <= i < |Parse(stream).value| ==> Packable(Parse(stream).value[i])
    decreases |stream|
  {
    if stream != [] {
      ParseFirst(stream);
      hide Parse;
      var h := stream[..HEADER_SIZE];
      var payload, rest := stream[HEADER_SIZE..SizeOf(h)], stream[SizeOf(h)..];
      ParseUnique(rest);
      HeaderUnique(h, payload);
      hide SizeOf, CmdOf, IdOf, KindOf, Header, Packable;
      assert stream == h + payload + rest;
      assert Parse(stream).value[1..] == Parse(rest).value;
    }
  }

  lemma ParseFirst(stream: Bytes)
    requires stream != [] && Parse(stream).Some?
    ensures |stream| >= HEADER_SIZE
    ensures var h := stream[..HEADER_SIZE];
      && HEADER_SIZE <= SizeOf(h) <= |stream|
      && Parse(stream[SizeOf(h)..]).Some?
      && Parse(stream).value == [Packet(KindOf(h), CmdOf(h), IdOf(h), stream[HEADER_SIZE..SizeOf(h)])]
        + Parse(stream[SizeOf(h)..]).value
  {
  }

  // ---- Payloads ----

  /** `n` items of one width, as `struct.unpack_from` reads them; None when the data is too short. */
  function ReadItems(data: Bytes, pos: nat, n: nat, width: nat): Option<seq<nat>>
    requires width >= 1
    decreases n
  {
    if n == 0 then Some([])
    else if pos + width > |data| then None
    else
      var rest := ReadItems(data, pos + width, n - 1, width);
      if rest == None then None else Some([FromLE(data[pos..pos + width])] + rest.value)
  }

  /** A count field of `countWidth` bytes, then that many items. */
  function ReadList(data: Bytes, countWidth: nat, width: nat): Option<seq<nat>>
    requires width >= 1
  {
    if |data| < countWidth then None else ReadItems(data, countWidth, FromLE(data[..countWidth]), width)
  }

  function Items(xs: seq<nat>, width: nat): Bytes {
    if xs == [] then [] else LE(xs[0], width) + Items(xs[1..], width)
  }

  lemma FirstItem(data: Bytes, pos: nat, n: nat, width: nat, x: nat, rest: seq<nat>)
    requires width >= 1 && n >= 1 && pos + width <= |data| && data[pos..pos + width] == LE(x, width)
    requires x < Span(width) && ReadItems(data, pos + width, n - 1, width) == Some(rest)
    ensures ReadItems(data, pos, n, width) == Some([x] + rest)
  {
    FieldRoundTrip(x, width);
  }

  lemma {:induction false} ItemsRoundTrip(xs: seq<nat>, width: nat, before: Bytes, after: Bytes)
    requires width >= 1 && forall i :: 0 <= i < |xs| ==> xs[i] < Span(width)
    ensures ReadItems(before + Items(xs, width) + after, |before|, |xs|, width) == Some(xs)
  {
    hide LE, Span, FromLE;
    if xs != [] {
      hide ReadItems;
      var data := before + Items(xs, width) + after;
      var field := LE(xs[0], width);
      assert data == (before + field) + Items(xs[1..], width) + after;
      ItemsRoundTrip(xs[1..], width, before + field, after);
      assert data[|before|..|before| + width] == field;
      FirstItem(data, |before|, |xs|, width, xs[0], xs[1..]);
      assert xs == [xs[0]] + xs[1..];
    }
  }

  /** A counted list is read back whole, whatever follows it. */
  lemma ListRoundTrip(xs: seq<nat>, countWidth: nat, width: nat, after: Bytes)
    requires width >= 1 && |xs| < Span(countWidth) && forall i :: 0 <= i < |xs| ==> xs[i] < Span(width)
    ensures ReadList(LE(|xs|, countWidth) + Items(xs, width) + after, countWidth, width) == Some(xs)
  {
    var data := LE(|xs|, countWidth) + Items(xs, width) + after;
    FieldRoundTrip(|xs|, countWidth);
    assert data[..countWidth] == LE(|xs|, countWidth);
    ItemsRoundTrip(xs, width, LE(|xs|, countWidth), after);
  }

  /** Where the first zero byte at or after a position is; None if there is none. */
  function FindZero(data: Bytes, pos: nat): (r: Option<nat>)
    ensures r.Some? ==> pos <= r.value < |data| && data[r.value] == 0 && 0 !in data[pos..r.value]
    ensures r.None? && pos <= |data| ==> 0 !in data[pos..]
    decreases |data| - pos
  {
    if pos >= |data| then None
    else if data[pos] == 0 then Some(pos)
    else
      var r := FindZero(data, pos + 1);
      assert pos + 1 <= |data|;
      assert data[pos..] == [data[pos]] + data[pos + 1..];
      assert r.Some? ==> data[pos..r.value] == [data[pos]] + data[pos + 1..r.value];
      r
  }

  /** The string up to the next zero byte and the position after that byte. */
  function ReadCstr(data: Bytes, pos: nat): Option<(Bytes, nat)> {
    var zero := FindZero(data, pos);
    if zero == None then None else Some((data[pos..zero.value], zero.value + 1))
  }

  lemma {:induction false} FindZeroAt(data: Bytes, pos: nat, end: nat)
    requires pos <= end < |data| && data[end] == 0
    requires forall k :: pos <= k < end ==> data[k] != 0
    ensures FindZero(data, pos) == Some(end)
    decreases end - pos
  {
    if pos < end {
      FindZeroAt(data, pos + 1, end);
    }
  }

  lemma CstrRoundTrip(before: Bytes, text: Bytes, after: Bytes)
    requires 0 !in text
    ensures ReadCstr(before + text + [0] + after, |before|) == Some((text, |before| + |text| + 1))
  {
    var data := before + text + [0] + after;
    var end := |before| + |text|;
    assert data[|before|..end] == text;
    forall k | |before| <= k < end ensures data[k] != 0 {
      assert data[k] == text[k - |before|];
    }
    FindZeroAt(data, |before|, end);
  }

  /** A counted list is read exactly when the data holds its count field and all of its items. */
  lemma ListReadExactly(data: Bytes, countWidth: nat, width: nat)
    requires width >= 1
    ensures ReadList(data, countWidth, width).Some? <==>
      |data| >= countWidth && |data| >= countWidth + FromLE(data[..countWidth]) * width
  {
    if |data| >= countWidth {
      ItemsReadExactly(data, countWidth, FromLE(data[..countWidth]), width);
    }
  }

  lemma {:induction false} ItemsReadExactly(data: Bytes, pos: nat, n: nat, width: nat)
    requires width >= 1 && pos <= |data|
    ensures ReadItems(data, pos, n, width).Some? <==> |data| >= pos + n * width
    decreases n
  {
    if n > 0 {
      assert n * width == width + (n - 1) * width;
      if pos + width <= |data| {
        ItemsReadExactly(data, pos + width, n - 1, width);
      } else {
        assert (n - 1) * width >= 0;
      }
    }
  }

  function LoginPayload(user: Bytes, password: Bytes, token: Bytes): Bytes {
    user + [0] + password + [0] + token + [0]
  }

  /** Three strings without a zero byte come back from three reads that land just after each terminator. */
  lemma LoginRoundTrip(user: Bytes, password: Bytes, token: Bytes)
    requires 0 !in user && 0 !in password && 0 !in token
    ensures var data := LoginPayload(user, password, token);
      var p1, p2, p3 := |user| + 1, |user| + |password| + 2, |data|;
      && ReadCstr(data, 0) == Some((user, p1))
      && ReadCstr(data, p1) == Some((password, p2))
      && ReadCstr(data, p2) == Some((token, p3))
  {
    hide ReadCstr;
    var data := LoginPayload(user, password, token);
    assert data == [] + user + [0] + (password + [0] + token + [0]);
    CstrRoundTrip([], user, password + [0] + token + [0]);
    assert data == (user + [0]) + password + [0] + (token + [0]);
    CstrRoundTrip(user + [0], password, token + [0]);
    assert data == (user + [0] + password + [0]) + token + [0] + [];
    CstrRoundTrip(user + [0] + password + [0], token, []);
  }

  /** Two's complement in eight bytes. */
  function Signed64(bs: Bytes): int
    requires |bs| == 8
  {
    var n := FromLE(bs);
    if n < 0x8000_0000_0000_0000 then n else n - 0x1_0000_0000_0000_0000
  }

  datatype LoginInfo = LoginInfo(onlineName: Bytes, avatarUrl: Bytes, userId: int)

  /** The reply to a login; None when a terminator or the id is missing. */
  function ReadLogin(data: Bytes): Option<LoginInfo> {
    var name := ReadCstr(data, 0);
    if name == None then None
    else
      var avatar := ReadCstr(data, name.value.1);
      if avatar == None || avatar.value.1 + 8 > |data| then None
      else Some(LoginInfo(name.value.0, avatar.value.0, Signed64(data[avatar.value.1..avatar.value.1 + 8])))
  }

  function Int64(n: int): Bytes
    requires -0x8000_0000_0000_0000 <= n < 0x8000_0000_0000_0000
  {
    LE(if n < 0 then n + 0x1_0000_0000_0000_0000 else n, 8)
  }

  /** A login reply is decoded to the account it names, whatever follows the account. */
  lemma LoginReplyRoundTrip(name: Bytes, avatar: Bytes, id: int, friends: Bytes)
    requires 0 !in name && 0 !in avatar && -0x8000_0000_0000_0000 <= id < 0x8000_0000_0000_0000
    ensures ReadLogin(name + [0] + avatar + [0] + Int64(id) + friends) == Some(LoginInfo(name, avatar, id))
  {
    var data := name + [0] + avatar + [0] + Int64(id) + friends;
    assert data == [] + name + [0] + (avatar + [0] + Int64(id) + friends);
    CstrRoundTrip([], name, avatar + [0] + Int64(id) + friends);
    assert data == (name + [0]) + avatar + [0] + (Int64(id) + friends);
    CstrRoundTrip(name + [0], avatar, Int64(id) + friends);
    var pos := |name| + |avatar| + 2;
    assert data[pos..pos + 8] == Int64(id);
    Spans();
    FieldRoundTrip(if id < 0 then id + 0x1_0000_0000_0000_0000 else id, 8);
  }

  function PackBlob(raw: Bytes): Bytes {
    LE(|raw|, 4) + raw
  }

  /** The bytes behind a length prefix, cut short if the data ends first; None without a whole prefix. */
  function UnpackBlob(data: Bytes): Option<Bytes> {
    if |data| < 4 then None
    else
      var size := FromLE(data[..4]);
      Some(if 4 + size <= |data| then data[4..4 + size] else data[4..])
  }

  /** A length-prefixed message is unpacked whole, whatever follows it. */
  lemma BlobRoundTrip(raw: Bytes, after: Bytes)
    requires |raw| < 0x1_0000_0000
    ensures UnpackBlob(PackBlob(raw) + after) == Some(raw)
  {
    Spans();
    FieldRoundTrip(|raw|, 4);
    var data := PackBlob(raw) + after;
    assert data[..4] == LE(|raw|, 4);
    assert data[4..4 + |raw|] == raw;
  }
}
