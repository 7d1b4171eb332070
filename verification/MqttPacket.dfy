// MQTTPacket.c: the remaining length, length-delimited strings and the PUBLISH packet.
module MqttPacket {
  import opened Wrappers
  import opened CStrings

  // ---------------------------------------------------------------------------------------
  // The remaining length: section 2.2.3 of MQTT 3.1.1

  // Seven bits a byte, least significant first; the top bit says that another byte follows.
  function LengthBytes(n: nat): (b: seq<Byte>)
    ensures |b| > 0
  {
    if n < 128 then [n] else [n % 128 + 128] + LengthBytes(n / 128)
  }

  function ValueOf(b: seq<Byte>): nat {
    if b == [] then 0 else b[0] % 128 + 128 * ValueOf(b[1..])
  }

  // All bytes but the last have a successor.
  predicate IsLength(b: seq<Byte>) {
    b != [] && b[|b| - 1] < 128 && forall i :: 0 <= i < |b| - 1 ==> b[i] >= 128
  }

  function Power(k: nat): nat {
    if k == 0 then 1 else 128 * Power(k - 1)
  }

  const MAX_REMAINING := 268435455

  lemma {:induction false} LengthBytesValue(n: nat)
    ensures IsLength(LengthBytes(n)) && ValueOf(LengthBytes(n)) == n
  {
    if n >= 128 {
      LengthBytesValue(n / 128);
      var rest := LengthBytes(n / 128);
      var b := [n % 128 + 128] + rest;
      assert b[1..] == rest;
      assert forall i :: 0 < i < |b| ==> b[i] == rest[i - 1];
    }
  }

  // No form of the same number is shorter, and none of the same size is different.
  lemma {:induction false} LengthBytesMinimal(b: seq<Byte>)
    requires IsLength(b)
    ensures |LengthBytes(ValueOf(b))| <= |b|
    ensures |LengthBytes(ValueOf(b))| == |b| ==> LengthBytes(ValueOf(b)) == b
  {
    if |b| > 1 {
      var rest := b[1..];
      LengthBytesMinimal(rest);
      var n := ValueOf(b);
      assert n / 128 == ValueOf(rest) && n % 128 == b[0] % 128;
      if n < 128 {
        assert |LengthBytes(n)| == 1;
      } else {
        assert LengthBytes(n) == [b[0]] + LengthBytes(ValueOf(rest));
      }
    }
  }

  lemma {:induction false} LengthBytesSize(n: nat, k: nat)
    requires k > 0
    ensures |LengthBytes(n)| <= k <==> n < Power(k)
  {
    if n >= 128 && k > 1 {
      LengthBytesSize(n / 128, k - 1);
    } else if n < 128 {
      PowerGrows(k);
    } else {
      assert Power(1) == 128;
    }
  }

  lemma {:induction false} PowerGrows(k: nat)
    requires k > 0
    ensures Power(k) >= 128
  {
    if k > 1 {
      PowerGrows(k - 1);
    }
  }

  // One to four bytes are exactly the numbers that the standard allows.
  lemma FourBytes(n: nat)
    ensures |LengthBytes(n)| <= 4 <==> n <= MAX_REMAINING
  {
    LengthBytesSize(n, 4);
    assert Power(4) == 128 * (128 * (128 * (128 * Power(0))));
  }

  lemma {:induction false} ValueAppend(b: seq<Byte>, c: Byte)
    ensures ValueOf(b + [c]) == ValueOf(b) + c % 128 * Power(|b|)
  {
    if b == [] {
    } else {
      assert (b + [c])[1..] == b[1..] + [c];
      ValueAppend(b[1..], c);
      assert 128 * (c % 128 * Power(|b| - 1)) == c % 128 * (128 * Power(|b| - 1));
    }
  }

  method Encode(buf: array<Byte>, start: nat, length: nat) returns (rc: nat)
    requires start + |LengthBytes(length)| <= buf.Length
    modifies buf
    ensures rc == |LengthBytes(length)|
    ensures buf[..] == old(buf[..start]) + LengthBytes(length) + old(buf[start + rc..])
  {
    rc := 0;
    var n := length;
    var more := true;
    ghost var all := LengthBytes(length);
    while more
      invariant rc <= |all| && (more <==> rc < |all|)
      invariant more ==> LengthBytes(n) == all[rc..]
      invariant buf[start..start + rc] == all[..rc]
      invariant buf[..start] == old(buf[..start]) && buf[start + rc..] == old(buf[start + rc..])
      decreases |all| - rc
    {
      var d := n % 128;
      n := n / 128;
      if n > 0 {
        d := d + 0x80;
      }
      assert all[rc..][0] == d && all[rc..][1..] == all[rc + 1..];
      ghost var before := buf[start + rc..];
      buf[start + rc] := d;
      rc := rc + 1;
      assert buf[start + rc..] == before[1..];
      more := n > 0;
    }
    assert buf[..] == buf[..start] + buf[start..start + rc] + buf[start + rc..];
  }

  datatype Status = Complete | Interrupted | SocketError

  // Bytes come from the input one at a time; the read is interrupted when there are none left.
  method Decode(input: seq<Byte>) returns (rc: Status, value: nat, used: nat)
    ensures used <= |input| && used <= 4
    ensures rc == Complete ==> IsLength(input[..used]) && value == ValueOf(input[..used])
    ensures rc == Interrupted ==> used == |input| < 4 && forall i :: 0 <= i < used ==> input[i] >= 128
    ensures rc == SocketError ==> used == 4 && forall i :: 0 <= i < used ==> input[i] >= 128
  {
    var multiplier := 1;
    var len := 0;
    value, used := 0, 0;
    var c: Byte := 128;
    while c >= 128
      invariant used == len <= |input| && len <= 4 && multiplier == Power(len)
      invariant value == ValueOf(input[..len])
      invariant c < 128 ==> IsLength(input[..len])
      invariant c >= 128 ==> forall i :: 0 <= i < len ==> input[i] >= 128
      decreases 4 - len, c
    {
      len := len + 1;
      if len > 4 {
        rc := SocketError;
        return;
      }
      if used == |input| {
        rc := Interrupted;
        return;
      }
      c := input[used];
      ValueAppend(input[..used], c);
      assert input[..used] + [c] == input[..used + 1];
      used := used + 1;
      value := value + c % 128 * multiplier;
      multiplier := multiplier * 128;
    }
    rc := Complete;
  }

  lemma LengthEnd(input: seq<Byte>, j: nat)
    requires j <= |input|
    ensures IsLength(input[..j]) <==> j > 0 && input[j - 1] < 128 && forall i :: 0 <= i < j - 1 ==> input[i] >= 128
  {
    if j > 0 {
      assert input[..j][j - 1] == input[j - 1];
      assert forall i :: 0 <= i < j - 1 ==> input[..j][i] == input[i];
    }
  }

  // The only way that an input can begin with a length.
  lemma LengthPrefixUnique(input: seq<Byte>, j: nat, k: nat)
    requires j <= |input| && k <= |input| && IsLength(input[..j])
    requires IsLength(input[..k]) || forall i :: 0 <= i < k ==> input[i] >= 128
    ensures IsLength(input[..k]) ==> j == k
    ensures !IsLength(input[..k]) ==> k < j
  {
    LengthEnd(input, j);
    LengthEnd(input, k);
  }

  // Reading back a written length gives the number and takes exactly its bytes, if there are
  // at most four of them; otherwise it is an error.
  method DecodeEncoded(n: nat, rest: seq<Byte>) returns (rc: Status, value: nat, used: nat)
    ensures n <= MAX_REMAINING ==> rc == Complete && value == n && used == |LengthBytes(n)|
    ensures n > MAX_REMAINING ==> rc == SocketError
  {
    var b := LengthBytes(n);
    LengthBytesValue(n);
    FourBytes(n);
    assert (b + rest)[..|b|] == b;
    rc, value, used := Decode(b + rest);
    if rc == Complete {
      LengthPrefixUnique(b + rest, |b|, used);
    } else {
      LengthEnd(b + rest, used);
      LengthPrefixUnique(b + rest, |b|, used);
    }
  }

  // ---------------------------------------------------------------------------------------
  // Two-byte integers and length-delimited strings: sections 1.5.2 and 1.5.3

  // The two low bytes, most significant first.
  function IntBytes(n: nat): (b: seq<Byte>)
    ensures |b| == 2
  {
    [n / 256 % 256, n % 256]
  }

  lemma IntRoundTrip(n: nat)
    ensures 256 * (IntBytes(n)[0] as int) + IntBytes(n)[1] as int == n % 0x10000
  {
  }

  method WriteInt(buf: array<Byte>, p: nat, n: nat) returns (next: nat)
    requires p + 2 <= buf.Length
    modifies buf
    ensures next == p + 2
    ensures buf[..] == old(buf[..p]) + IntBytes(n) + old(buf[next..])
  {
    buf[p] := n / 256 % 256;
    buf[p + 1] := n % 256;
    next := p + 2;
  }

  method WriteUtf(buf: array<Byte>, p: nat, s: CString) returns (next: nat)
    requires p + 2 + |s| <= buf.Length
    modifies buf
    ensures next == p + 2 + |s|
    ensures buf[..] == old(buf[..p]) + IntBytes(|s|) + s + old(buf[next..])
  {
    next := WriteInt(buf, p, |s|);
    ghost var before := buf[..];
    for i := 0 to |s|
      invariant forall k :: 0 <= k < i ==> buf[next + k] == s[k]
      invariant forall k :: 0 <= k < buf.Length && !(next <= k < next + i) ==> buf[k] == before[k]
    {
      buf[next + i] := s[i];
    }
    assert buf[..] == before[..next] + s + before[next + |s|..];
    next := next + |s|;
  }

  function ReadInt(data: seq<Byte>, p: nat): (n: nat)
    requires p + 2 <= |data|
    ensures n < 0x10000
    ensures data[p..p + 2] == IntBytes(n)
  {
    256 * (data[p] as int) + data[p + 1] as int
  }

  lemma StringStart(data: seq<Byte>, t: seq<Byte>)
    requires |t| < 0x10000 && |data| >= 2
    ensures IntBytes(|t|) + t <= data ==> |t| == 256 * (data[0] as int) + data[1] as int && |t| + 2 <= |data|
  {
    IntRoundTrip(|t|);
    if IntBytes(|t|) + t <= data {
      assert data[0] == (IntBytes(|t|) + t)[0] && data[1] == (IntBytes(|t|) + t)[1];
    }
  }

  // A length at the cursor, and as many bytes behind it.
  predicate HasString(data: seq<Byte>, p: nat) {
    p + 2 <= |data| && p + 2 + ReadInt(data, p) <= |data|
  }

  // The string that starts at the cursor. It is refused when it would run past the end.
  method ReadUtf(data: seq<Byte>, p: nat) returns (s: Option<seq<Byte>>, next: nat)
    requires p <= |data|
    ensures p <= next <= |data|
    ensures s.Some? <==> HasString(data, p)
    ensures s.Some? ==> next == p + 2 + ReadInt(data, p)
    ensures s.Some? ==> |s.value| < 0x10000 && data[p..next] == IntBytes(|s.value|) + s.value
    ensures s.None? ==> forall t: seq<Byte> | |t| < 0x10000 :: !(IntBytes(|t|) + t <= data[p..])
  {
    s, next := None, p;
    if |data| - p > 1 {
      var len := ReadInt(data, p);
      next := p + 2;
      if next + len <= |data| {
        s := Some(data[next..next + len]);
        next := next + len;
        assert data[p..next] == data[p..p + 2] + data[p + 2..next];
      } else {
        forall t: seq<Byte> | |t| < 0x10000
          ensures !(IntBytes(|t|) + t <= data[p..])
        {
          StringStart(data[p..], t);
        }
      }
    }
  }

  // ---------------------------------------------------------------------------------------
  // PUBLISH: section 3.3

  const PUBLISH := 3

  // The first byte of a packet.
  datatype Header = Header(kind: nat, dup: bool, qos: nat, retain: bool)

  predicate Fits(h: Header) {
    h.kind < 16 && h.qos < 4
  }

  function Bit(b: bool): nat {
    if b then 1 else 0
  }

  function Pack(h: Header): Byte
    requires Fits(h)
  {
    h.kind * 16 + Bit(h.dup) * 8 + h.qos * 2 + Bit(h.retain)
  }

  function Unpack(b: Byte): (h: Header)
    ensures Fits(h) && Pack(h) == b
  {
    UnpackBits(b);
    Header(b / 16, b / 8 % 2 == 1, b / 2 % 4, b % 2 == 1)
  }

  lemma UnpackBits(b: Byte)
    ensures b == b / 16 * 16 + b / 8 % 2 * 8 + b / 2 % 4 * 2 + b % 2
  {
    assert b / 8 == b / 16 * 2 + b / 8 % 2;
    assert b / 2 == b / 8 * 4 + b / 2 % 4;
  }

  lemma UnpackPack(h: Header)
    requires Fits(h)
    ensures Unpack(Pack(h)) == h
  {
  }

  // Section 3.3.1: the packet type in bits 7 to 4, DUP in bit 3, the quality of service in bits 2
  // and 1 and RETAIN in bit 0.
  predicate IsFirstByte(b: Byte, h: Header) {
    b / 16 == h.kind && (b / 8 % 2 == 1 <==> h.dup) && b / 4 % 2 * 2 + b / 2 % 2 == h.qos && (b % 2 == 1 <==> h.retain)
  }

  lemma FirstByteIs(b: Byte, h: Header)
    requires Fits(h)
    ensures Pack(h) == b <==> IsFirstByte(b, h)
    ensures Unpack(b) == h <==> IsFirstByte(b, h)
  {
    hide Pack, Unpack;
    UnpackPack(h);
    HasItsBits(Unpack(b));
    HasItsBits(h);
  }

  lemma HasItsBits(h: Header)
    requires Fits(h)
    ensures IsFirstByte(Pack(h), h)
  {
    var low := Bit(h.dup) * 8 + h.qos * 2 + Bit(h.retain);
    Quarters(h.kind, low);
    LowBits(h.dup, h.qos, h.retain);
  }

  // The four flags are the last four bits.
  lemma Quarters(kind: nat, low: nat)
    requires low < 16
    ensures var b := kind * 16 + low;
      b / 16 == kind && b / 8 % 2 == low / 8 % 2 && b / 4 % 2 == low / 4 % 2 && b / 2 % 2 == low / 2 % 2 && b % 2 == low % 2
  {
    Eighths(kind, low);
    Fourths(kind, low);
    Halves(kind, low);
    Even(8 * kind, low);
    assert (kind * 16 + low) / 16 == kind;
  }

  lemma Eighths(kind: nat, low: nat)
    ensures (kind * 16 + low) / 8 % 2 == low / 8 % 2
  {
    assert (kind * 16 + low) / 8 == 2 * kind + low / 8;
  }

  lemma Fourths(kind: nat, low: nat)
    ensures (kind * 16 + low) / 4 % 2 == low / 4 % 2
  {
    assert (kind * 16 + low) / 4 == 4 * kind + low / 4;
  }

  lemma Halves(kind: nat, low: nat)
    ensures (kind * 16 + low) / 2 % 2 == low / 2 % 2
  {
    assert (kind * 16 + low) / 2 == 8 * kind + low / 2;
    Even(4 * kind, low / 2);
  }

  lemma Even(k: nat, low: nat)
    ensures (2 * k + low) % 2 == low % 2
  {
  }

  lemma LowBits(dup: bool, qos: nat, retain: bool)
    requires qos < 4
    ensures var low := Bit(dup) * 8 + qos * 2 + Bit(retain);
      low / 8 % 2 == Bit(dup) && low / 4 % 2 * 2 + low / 2 % 2 == qos && low % 2 == Bit(retain)
  {
    assert qos == 0 || qos == 1 || qos == 2 || qos == 3;
  }

  // The flags of a PUBLISH packet, 0x30 to 0x3f.
  lemma PublishBytes(dup: bool, qos: nat, retain: bool)
    requires qos < 4
    ensures Pack(Header(PUBLISH, dup, qos, retain))
      == 0x30 + (if dup then 0x08 else 0) + [0x00, 0x02, 0x04, 0x06][qos] + if retain then 0x01 else 0
  {
  }

  datatype Publish = Publish(header: Header, topic: seq<Byte>, msgId: nat, payload: seq<Byte>)

  // Everything after the remaining length.
  function Body(p: Publish): seq<Byte> {
    IntBytes(|p.topic|) + p.topic + (if p.header.qos > 0 then IntBytes(p.msgId) else []) + p.payload
  }

  datatype Parsed = Packet(publish: Publish) | Refused | ReadsPastEnd

  // The topic is there, but not the two bytes of the message id that the header announces.
  predicate LacksMsgId(header: Byte, data: seq<Byte>) {
    HasString(data, 0) && Unpack(header).qos > 0 && |data| < 2 + ReadInt(data, 0) + 2
  }

  // An empty topic at QoS 1, and nothing behind it.
  lemma LacksMsgIdExample()
    ensures LacksMsgId(0x32, [0, 0])
  {
    var data: seq<Byte> := [0, 0];
    assert ReadInt(data, 0) == 0;
    assert Unpack(0x32) == Header(3, false, 1, false);
  }

  // The message id is read without a look at the end of the data.
  method ParsePublish(header: Byte, data: seq<Byte>) returns (r: Parsed)
    ensures r.Packet? ==> var p := r.publish;
      Body(p) == data && Fits(p.header) && Pack(p.header) == header && |p.topic| < 0x10000 && p.msgId < 0x10000
    ensures r.Packet? && r.publish.header.qos == 0 ==> r.publish.msgId == 0
    ensures r == Refused <==> !HasString(data, 0)
    ensures r == ReadsPastEnd <==> LacksMsgId(header, data)
    ensures !r.Packet? ==> forall p: Publish | Fits(p.header) && Pack(p.header) == header && |p.topic| < 0x10000 :: Body(p) != data
  {
    var h := Unpack(header);
    var topic, next := ReadUtf(data, 0);
    if topic.None? {
      forall p: Publish | Fits(p.header) && Pack(p.header) == header && |p.topic| < 0x10000
        ensures Body(p) != data
      {
        assert IntBytes(|p.topic|) + p.topic <= Body(p);
        assert data[0..] == data;
      }
      return Refused;
    }
    var msgId := 0;
    ghost var start := next;
    if h.qos > 0 {
      if next + 2 > |data| {
        NoRoom(header, data, topic.value, next);
        return ReadsPastEnd;
      }
      msgId := ReadInt(data, next);
      next := next + 2;
    }
    r := Packet(Publish(h, topic.value, msgId, data[next..]));
    assert data == data[0..start] + data[start..next] + data[next..];
  }

  lemma NoRoom(header: Byte, data: seq<Byte>, topic: seq<Byte>, next: nat)
    requires next <= |data| && |topic| < 0x10000 && data[0..next] == IntBytes(|topic|) + topic
    requires Unpack(header).qos > 0 && next + 2 > |data|
    ensures forall p: Publish | Fits(p.header) && Pack(p.header) == header && |p.topic| < 0x10000 :: Body(p) != data
  {
    forall p: Publish | Fits(p.header) && Pack(p.header) == header && |p.topic| < 0x10000
      ensures Body(p) != data
    {
      UnpackPack(p.header);
      IntRoundTrip(|topic|);
      assert data[0] == data[0..next][0] && data[1] == data[0..next][1];
      assert IntBytes(|p.topic|) + p.topic <= Body(p);
      StringStart(data, p.topic);
    }
  }

  // The whole packet as it goes out.
  function Wire(p: Publish): seq<Byte>
    requires Fits(p.header)
  {
    [Pack(p.header)] + LengthBytes(|Body(p)|) + Body(p)
  }

  // The message x for the topic a/b at quality of service 1, with the message id 10.
  lemma SamplePacket()
    ensures Wire(Publish(Header(PUBLISH, false, 1, false), Ascii("a/b"), 10, Ascii("x")))
      == [0x32, 0x08, 0x00, 0x03, 'a' as int, '/' as int, 'b' as int, 0x00, 0x0a, 'x' as int]
  {
    var p := Publish(Header(PUBLISH, false, 1, false), Ascii("a/b"), 10, Ascii("x"));
    assert Body(p) == [0x00, 0x03, 'a' as int, '/' as int, 'b' as int, 0x00, 0x0a, 'x' as int];
  }

  // The pieces of the packet are handed over in order. The lengths are C ints.
  method SendPublish(topic: CString, msgId: nat, payload: seq<Byte>, dup: bool, qos: nat, retained: bool)
    returns (out: seq<Byte>)
    requires qos < 4 && |topic| + |payload| + 4 < 0x8000_0000
    ensures out == Wire(Publish(Header(PUBLISH, dup, qos, retained), topic, msgId, payload))
  {
    var header := Header(PUBLISH, dup, qos, retained);
    var topicLen := new Byte[2];
    var bufs: seq<seq<Byte>>;
    ghost var p := Publish(header, topic, msgId, payload);
    if qos > 0 {
      var buf := new Byte[2];
      var _ := WriteInt(buf, 0, msgId);
      var _ := WriteInt(topicLen, 0, |topic|);
      assert topicLen[..] == IntBytes(|topic|) && buf[..] == IntBytes(msgId);
      bufs := [topicLen[..], topic, buf[..], payload];
      assert Joined(bufs) == Body(p) by {
        assert bufs[..3][..2] == bufs[..2] && bufs[..3][..2][..1] == bufs[..1];
        assert Joined(bufs[..1]) == topicLen[..];
        assert Joined(bufs[..2]) == topicLen[..] + topic;
        assert Joined(bufs[..3]) == topicLen[..] + topic + buf[..];
      }
    } else {
      var _ := WriteInt(topicLen, 0, |topic|);
      assert topicLen[..] == IntBytes(|topic|);
      bufs := [topicLen[..], topic, payload];
      assert Joined(bufs) == Body(p) by {
        assert Joined(bufs[..1]) == topicLen[..];
        assert bufs[..2][..1] == bufs[..1];
        assert Joined(bufs[..2]) == topicLen[..] + topic;
      }
    }
    out := Sends(header, bufs);
  }

  function Joined(bufs: seq<seq<Byte>>): seq<Byte> {
    if bufs == [] then [] else Joined(bufs[..|bufs| - 1]) + bufs[|bufs| - 1]
  }

  // The header and the total length go before the buffers.
  method Sends(header: Header, bufs: seq<seq<Byte>>) returns (out: seq<Byte>)
    requires Fits(header) && |Joined(bufs)| < 0x8000_0000
    ensures out == [Pack(header)] + LengthBytes(|Joined(bufs)|) + Joined(bufs)
  {
    var buf := new Byte[10](i => 0);
    buf[0] := Pack(header);
    var total := 0;
    for i := 0 to |bufs|
      invariant total == |Joined(bufs[..i])|
    {
      assert bufs[..i + 1][..i] == bufs[..i];
      total := total + |bufs[i]|;
    }
    assert bufs[..|bufs|] == bufs;
    LengthBytesSize(total, 5);
    assert Power(5) == 128 * (128 * (128 * (128 * (128 * Power(0)))));
    var n := Encode(buf, 1, total);
    out := buf[..1 + n];
    assert out == [Pack(header)] + LengthBytes(total);
    for i := 0 to |bufs|
      invariant out == [Pack(header)] + LengthBytes(total) + Joined(bufs[..i])
    {
      assert bufs[..i + 1][..i] == bufs[..i];
      out := out + bufs[i];
    }
  }

  // A header byte, a length of at most four bytes and as many bytes as it says.
  ghost predicate Framed(input: seq<Byte>, len: seq<Byte>, body: seq<Byte>) {
    && IsLength(len) && |len| <= 4 && ValueOf(len) == |body|
    && 1 + |len| + |body| <= |input|
    && input[1..1 + |len|] == len && input[1 + |len|..1 + |len| + |body|] == body
  }

  datatype Received = Failed(rc: Status) | OtherKind | Got(parsed: Parsed)

  // One packet from the input. Packets of other types are not looked into.
  method Receive(input: seq<Byte>) returns (r: Received, ghost len: seq<Byte>, ghost body: seq<Byte>)
    ensures !r.Failed? ==> Framed(input, len, body)
    ensures r.Failed? ==> forall l, b :: !Framed(input, l, b)
    ensures r.Got? <==> !r.Failed? && Unpack(input[0]).kind == PUBLISH
    ensures r.Got? && r.parsed.Packet? ==> var p := r.parsed.publish;
      Fits(p.header) && Pack(p.header) == input[0] && Body(p) == body && |p.topic| < 0x10000 && p.msgId < 0x10000
    ensures r.Got? && r.parsed.Packet? && r.parsed.publish.header.qos == 0 ==> r.parsed.publish.msgId == 0
    ensures r.Got? ==> (r.parsed == Refused <==> !HasString(body, 0))
    ensures r.Got? ==> (r.parsed == ReadsPastEnd <==> LacksMsgId(input[0], body))
    ensures r.Got? && !r.parsed.Packet? ==>
      forall p: Publish | Fits(p.header) && Pack(p.header) == input[0] && |p.topic| < 0x10000 :: Body(p) != body
  {
    len, body := [], [];
    if input == [] {
      return Failed(Interrupted), [], [];
    }
    var rc, n, used := Decode(input[1..]);
    assert input[1..][..used] == input[1..1 + used];
    forall l, b | Framed(input, l, b)
      ensures rc == Complete && used == |l| && n == |b|
    {
      assert input[1..][..|l|] == l;
      LengthEnd(input[1..], used);
      LengthPrefixUnique(input[1..], |l|, used);
    }
    if rc != Complete {
      return Failed(rc), [], [];
    }
    var end := 1 + used + n;
    if end > |input| {
      return Failed(Interrupted), [], [];
    }
    len, body := input[1..1 + used], input[1 + used..end];
    if Unpack(input[0]).kind != PUBLISH {
      r := OtherKind;
    } else {
      var p := ParsePublish(input[0], input[1 + used..end]);
      r := Got(p);
    }
  }

  // Packets with the same bytes are the same, as far as the bytes carry them.
  lemma BodyInjective(p: Publish, q: Publish)
    requires p.header == q.header && Body(p) == Body(q)
    requires |p.topic| < 0x10000 && |q.topic| < 0x10000
    requires p.header.qos > 0 ==> p.msgId < 0x10000 && q.msgId < 0x10000
    requires p.header.qos == 0 ==> p.msgId == q.msgId
    ensures p == q
  {
    hide IntBytes, Body;
    BodyParts(p);
    BodyParts(q);
    IntRoundTrip(|p.topic|);
    IntRoundTrip(|q.topic|);
    if p.header.qos > 0 {
      IntRoundTrip(p.msgId);
      IntRoundTrip(q.msgId);
    }
  }

  lemma BodyParts(p: Publish)
    ensures var n := |p.topic|; var b := Body(p);
      |b| >= 2 + n && b[..2] == IntBytes(n) && b[2..2 + n] == p.topic
    ensures var n := |p.topic|; var b := Body(p);
      p.header.qos > 0 ==> |b| >= 4 + n && b[2 + n..4 + n] == IntBytes(p.msgId) && b[4 + n..] == p.payload
    ensures p.header.qos == 0 ==> Body(p)[2 + |p.topic|..] == p.payload
  {
    hide IntBytes;
  }

  lemma WireIsFramed(p: Publish, rest: seq<Byte>)
    requires Fits(p.header)
    ensures |Body(p)| <= MAX_REMAINING ==> Framed(Wire(p) + rest, LengthBytes(|Body(p)|), Body(p))
    ensures |Body(p)| > MAX_REMAINING ==> forall l, b :: !Framed(Wire(p) + rest, l, b)
    ensures (Wire(p) + rest)[0] == Pack(p.header)
  {
    var input, len, body := Wire(p) + rest, LengthBytes(|Body(p)|), Body(p);
    LengthBytesValue(|body|);
    FourBytes(|body|);
    assert input == [Pack(p.header)] + len + body + rest;
    assert input[1..1 + |len|] == len;
    assert input[1 + |len|..1 + |len| + |body|] == body;
    forall l, b | Framed(input, l, b)
      ensures |l| == |len|
    {
      assert input[1..][..|l|] == l && input[1..][..|len|] == len;
      LengthPrefixUnique(input[1..], |l|, |len|);
    }
  }

  lemma FrameUnique(input: seq<Byte>, l: seq<Byte>, b: seq<Byte>, l': seq<Byte>, b': seq<Byte>)
    requires Framed(input, l, b) && Framed(input, l', b')
    ensures l == l' && b == b'
  {
    assert input[1..][..|l|] == l && input[1..][..|l'|] == l';
    LengthPrefixUnique(input[1..], |l|, |l'|);
  }

  // What goes out comes back, exactly when topic and message id fit in sixteen bits and the
  // whole fits in four bytes of length.
  method SendThenReceive(p: Publish, rest: seq<Byte>) returns (r: Received)
    requires p.header.kind == PUBLISH && p.header.qos < 4 && 0 !in p.topic
    requires |p.topic| + |p.payload| + 4 < 0x8000_0000
    ensures r == Got(Packet(p)) <==>
      |p.topic| < 0x10000 && p.msgId < (if p.header.qos > 0 then 0x10000 else 1) && |Body(p)| <= MAX_REMAINING
  {
    var out := SendPublish(p.topic, p.msgId, p.payload, p.header.dup, p.header.qos, p.header.retain);
    WireIsFramed(p, rest);
    UnpackPack(p.header);
    ghost var len, body;
    r, len, body := Receive(out + rest);
    if |Body(p)| <= MAX_REMAINING {
      FrameUnique(out + rest, len, body, LengthBytes(|Body(p)|), Body(p));
      if r.Got? && r.parsed.Packet? {
        var q := r.parsed.publish;
        assert q.header == p.header by {
          UnpackPack(q.header);
        }
        if |p.topic| < 0x10000 && p.msgId < (if p.header.qos > 0 then 0x10000 else 1) {
          BodyInjective(p, q);
        }
      }
    }
  }
}
