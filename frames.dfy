/** SSCP frames: [station:1][function:2][data length:2, big-endian][data].
    The request builders of SSCPClient (login, create_read_variables_request, write_variable),
    decoders that read a request back off the wire, and the checks applied to replies. */
module Frames {
  import opened Bytes
  import opened Errors
  import opened Codec

  /** An MD5 digest. */
  type Digest = s: seq<byte> | |s| == 16 witness [0, 0, 0, 0, 0, 0, 0, 0, 0, 0, 0, 0, 0, 0, 0, 0]

  /** The 2-byte data length field can hold at most this many bytes. */
  const MaxData: nat := 65535

  lemma Pow256Two()
    ensures Pow256(2) == MaxData + 1
  {
    assert Pow256(1) == 256;
  }

  /** The header common to every frame: the station, the two function bytes and the data
      length as a big-endian 2-byte field. */
  function Header(station: byte, hi: byte, lo: byte, dataLength: nat): (r: seq<byte>)
    requires dataLength <= MaxData
    ensures |r| == 5
    ensures r[0] == station && r[1] == hi && r[2] == lo
    ensures UIntValue(r[3..5]) == dataLength
  {
    LengthField(dataLength);
    var len := UIntBytes(dataLength, 2);
    assert ([station, hi, lo] + len)[3..5] == len;
    [station, hi, lo] + len
  }

  /** The 2-byte length field reads back as the length it was written from. */
  lemma LengthField(dataLength: nat)
    requires dataLength <= MaxData
    ensures dataLength < Pow256(2) && UIntValue(UIntBytes(dataLength, 2)) == dataLength
  {
    Pow256Two();
    UIntRoundTrip(dataLength, 2);
  }

  // ---------------------------------------------------------------- read requests

  /** One variable to read: uid, offset and length, each sent as 4 unsigned bytes. */
  datatype Descriptor = Descriptor(uid: int, offset: int, length: int)

  /** The bytes a read request spends on one descriptor: flags and uid, plus offset and
      length when the offset is non-zero. */
  function DescriptorSize(d: Descriptor): nat
  {
    if d.offset != 0 then 13 else 5
  }

  /** Whether struct.pack('>I', ...) accepts every field the descriptor puts on the wire. */
  predicate Encodable(d: Descriptor)
  {
    Fits(d.uid, 4, false) && (d.offset != 0 ==> Fits(d.offset, 4, false) && Fits(d.length, 4, false))
  }

  /** One descriptor of a read request; None when struct.pack raises. */
  function DescriptorBytes(d: Descriptor): (r: Option<seq<byte>>)
    ensures r.Some? <==> Encodable(d)
    ensures r.Some? ==> |r.value| == DescriptorSize(d)
  {
    var flags: byte := if d.offset != 0 then 0x80 else 0x00;
    match ToBytes(d.uid, 4, false)
    case None => None
    case Some(uid) =>
      if flags == 0x80 then
        (match (ToBytes(d.offset, 4, false), ToBytes(d.length, 4, false))
         case (Some(offset), Some(length)) => Some([flags] + uid + offset + length)
         case _ => None)
      else Some([flags] + uid)
  }

  function PayloadSize(vs: seq<Descriptor>): nat
  {
    if vs == [] then 0 else DescriptorSize(vs[0]) + PayloadSize(vs[1..])
  }

  /** The data part of a read request: the descriptors one after another. */
  function ReadPayload(vs: seq<Descriptor>): (r: Result<seq<byte>>)
    ensures r.Ok? <==> forall i :: 0 <= i < |vs| ==> Encodable(vs[i])
    ensures r.Ok? ==> |r.value| == PayloadSize(vs)
    ensures r.Err? ==> r.error == OutOfRange
  {
    if vs == [] then Ok([])
    else
      var rest := ReadPayload(vs[1..]);
      assert forall i :: 1 <= i < |vs| ==> vs[i] == vs[1..][i - 1];
      match (DescriptorBytes(vs[0]), rest)
      case (Some(head), Ok(tail)) => Ok(head + tail)
      case _ => Err(OutOfRange)
  }

  /** create_read_variables_request: station, 05 00, the data length, the data. */
  function ReadRequest(station: int, vs: seq<Descriptor>): Result<seq<byte>>
  {
    if !Fits(station, 1, false) then Err(OutOfRange)
    else
      match ReadPayload(vs)
      case Err(e) => Err(e)
      case Ok(data) =>
        if |data| > MaxData then Err(FrameTooLarge)
        else Ok(Header(station, 0x05, 0x00, |data|) + data)
  }

  /** Appending a descriptor to the request list appends its bytes to the payload. */
  lemma {:induction false} ReadPayloadSnoc(vs: seq<Descriptor>, d: Descriptor)
    ensures ReadPayload(vs + [d]) ==
      match (ReadPayload(vs), DescriptorBytes(d))
      case (Ok(p), Some(b)) => Ok(p + b)
      case _ => Err(OutOfRange)
  {
    var w := vs + [d];
    if vs == [] {
      assert w == [d] && w[1..] == [];
      assert ReadPayload([]) == Ok([]);
      if DescriptorBytes(d).Some? {
        var b := DescriptorBytes(d).value;
        assert b + [] == b && [] + b == b;
        assert ReadPayload(w) == Ok(b);
      }
    } else {
      assert w[0] == vs[0] && w[1..] == vs[1..] + [d];
      ReadPayloadSnoc(vs[1..], d);
      if DescriptorBytes(vs[0]).Some? && ReadPayload(vs[1..]).Ok? && DescriptorBytes(d).Some? {
        var h := DescriptorBytes(vs[0]).value;
        var t := ReadPayload(vs[1..]).value;
        var b := DescriptorBytes(d).value;
        assert ReadPayload(vs) == Ok(h + t);
        assert ReadPayload(w) == Ok(h + (t + b));
        assert h + (t + b) == (h + t) + b;
      }
    }
  }

  /** One pass of the descriptor loop of create_read_variables_request: the flags byte,
      the uid and, when the offset is non-zero, offset and length are appended to data;
      None when struct.pack raises. */
  method AppendDescriptor(data: seq<byte>, d: Descriptor) returns (r: Option<seq<byte>>)
    ensures r.Some? <==> Encodable(d)
    ensures r.Some? ==> r.value == data + DescriptorBytes(d).value
  {
    var out := data;
    var flags: byte := 0x00;
    if d.offset != 0 {
      flags := 0x80;
    }
    out := out + [flags];
    var uid := ToBytes(d.uid, 4, false);
    if uid.None? {
      return None;
    }
    out := out + uid.value;
    if flags == 0x80 {
      var offset := ToBytes(d.offset, 4, false);
      if offset.None? {
        return None;
      }
      out := out + offset.value;
      var length := ToBytes(d.length, 4, false);
      if length.None? {
        return None;
      }
      out := out + length.value;
      assert out == data + ([flags] + uid.value + offset.value + length.value);
    } else {
      assert out == data + ([flags] + uid.value);
    }
    return Some(out);
  }

  /** create_read_variables_request as the source writes it: a loop that appends each
      descriptor to a growing data buffer, then the header. */
  method BuildReadRequest(station: int, vs: seq<Descriptor>) returns (r: Result<seq<byte>>)
    ensures r == ReadRequest(station, vs)
  {
    if !Fits(station, 1, false) {
      return Err(OutOfRange);
    }
    var frame: seq<byte> := [station];
    frame := frame + [0x05, 0x00];
    var data: seq<byte> := [];
    for i := 0 to |vs|
      invariant ReadPayload(vs[..i]) == Ok(data)
    {
      var d := vs[i];
      assert vs[..i + 1] == vs[..i] + [d];
      ReadPayloadSnoc(vs[..i], d);
      var next := AppendDescriptor(data, d);
      if next.None? {
        return Err(OutOfRange);
      }
      data := next.value;
    }
    assert vs[..|vs|] == vs;
    if |data| > MaxData {
      return Err(FrameTooLarge);
    }
    Pow256Two();
    frame := frame + UIntBytes(|data|, 2);
    frame := frame + data;
    assert frame == Header(station, 0x05, 0x00, |data|) + data;
    return Ok(frame);
  }

  /** When a read request is built and when it is refused: every field must fit its bytes,
      and a payload over 65535 bytes raises instead of producing a frame. */
  lemma ReadRequestOutcome(station: int, vs: seq<Descriptor>)
    ensures ReadRequest(station, vs).Ok? <==>
      Fits(station, 1, false) && (forall i :: 0 <= i < |vs| ==> Encodable(vs[i])) && PayloadSize(vs) <= MaxData
    ensures ReadRequest(station, vs) == Err(FrameTooLarge) <==>
      Fits(station, 1, false) && (forall i :: 0 <= i < |vs| ==> Encodable(vs[i])) && PayloadSize(vs) > MaxData
  {
  }

  /** The layout of a built read request: station, 05 00, a length field equal to the
      number of data bytes that follow, and 5 or 13 data bytes per descriptor. */
  lemma ReadRequestLayout(station: int, vs: seq<Descriptor>)
    requires ReadRequest(station, vs).Ok?
    ensures var f := ReadRequest(station, vs).value;
      && |f| == 5 + PayloadSize(vs)
      && f[0] == station && f[1] == 0x05 && f[2] == 0x00
      && UIntValue(f[3..5]) == |f| - 5
  {
    var data := ReadPayload(vs).value;
    Pow256Two();
    UIntRoundTrip(|data|, 2);
    var f := ReadRequest(station, vs).value;
    assert f[3..5] == UIntBytes(|data|, 2);
  }

  /** What a read request can say about a descriptor: a zero offset sends no length. */
  function Normalize(d: Descriptor): Descriptor
  {
    if d.offset != 0 then d else Descriptor(d.uid, 0, 0)
  }

  function NormalizeAll(vs: seq<Descriptor>): (r: seq<Descriptor>)
    ensures |r| == |vs|
  {
    if vs == [] then [] else [Normalize(vs[0])] + NormalizeAll(vs[1..])
  }

  /** Reads descriptors back from read request data: flags 00 then a uid, or flags 80
      then uid, offset and length. */
  function DecodeDescriptors(p: seq<byte>): Option<seq<Descriptor>>
    decreases |p|
  {
    if p == [] then Some([])
    else if p[0] == 0x00 && |p| >= 5 then
      match DecodeDescriptors(p[5..])
      case None => None
      case Some(rest) => Some([Descriptor(UIntValue(p[1..5]), 0, 0)] + rest)
    else if p[0] == 0x80 && |p| >= 13 then
      match DecodeDescriptors(p[13..])
      case None => None
      case Some(rest) =>
        Some([Descriptor(UIntValue(p[1..5]), UIntValue(p[5..9]), UIntValue(p[9..13]))] + rest)
    else None
  }

  /** Reads a read request back off the wire: the station and the descriptors. */
  function DecodeReadRequest(f: seq<byte>): Option<(int, seq<Descriptor>)>
  {
    if |f| < 5 || f[1] != 0x05 || f[2] != 0x00 || UIntValue(f[3..5]) != |f| - 5 then None
    else
      match DecodeDescriptors(f[5..])
      case None => None
      case Some(ds) => Some((f[0], ds))
  }

  lemma DescriptorDecodes(d: Descriptor, rest: seq<byte>)
    requires Encodable(d)
    ensures DecodeDescriptors(DescriptorBytes(d).value + rest) ==
      match DecodeDescriptors(rest)
      case None => None
      case Some(ds) => Some([Normalize(d)] + ds)
  {
    var b := DescriptorBytes(d).value;
    var p := b + rest;
    UIntRoundTrip(d.uid, 4);
    assert p[1..5] == UIntBytes(d.uid, 4);
    if d.offset != 0 {
      UIntRoundTrip(d.offset, 4);
      UIntRoundTrip(d.length, 4);
      assert p[5..9] == UIntBytes(d.offset, 4);
      assert p[9..13] == UIntBytes(d.length, 4);
      assert p[13..] == rest;
    } else {
      assert p[5..] == rest;
    }
  }

  lemma {:induction false} PayloadDecodes(vs: seq<Descriptor>)
    requires ReadPayload(vs).Ok?
    ensures DecodeDescriptors(ReadPayload(vs).value) == Some(NormalizeAll(vs))
  {
    if vs != [] {
      PayloadDecodes(vs[1..]);
      DescriptorDecodes(vs[0], ReadPayload(vs[1..]).value);
    }
  }

  /** A built read request reads back as the station and the requested descriptors, up to
      the length that a zero offset leaves out. */
  lemma ReadRequestRoundTrip(station: int, vs: seq<Descriptor>)
    requires ReadRequest(station, vs).Ok?
    ensures DecodeReadRequest(ReadRequest(station, vs).value) == Some((station, NormalizeAll(vs)))
  {
    ReadRequestLayout(station, vs);
    var f := ReadRequest(station, vs).value;
    assert f[5..] == ReadPayload(vs).value;
    PayloadDecodes(vs);
  }

  // ---------------------------------------------------------------- login

  /** The login frame: station, 01 00, the length, then 17 28 00, the user name with its
      length before it, 10 and the password digest, and a 00 proxy id. */
  function LoginFrame(station: int, user: seq<byte>, digest: Digest): Result<seq<byte>>
  {
    var dataLength := 6 + |user| + |digest|;
    if !Fits(station, 1, false) || !Fits(dataLength, 2, false) || !Fits(|user|, 1, false) then
      Err(OutOfRange)
    else
      Pow256Two();
      Ok(Header(station, 0x01, 0x00, dataLength) + [0x17, 0x28, 0x00, |user|] + user + [|digest|] + digest + [0x00])
  }

  /** login's frame as the source builds it: a bytearray extended field by field. */
  method BuildLoginFrame(station: int, user: seq<byte>, digest: Digest) returns (r: Result<seq<byte>>)
    ensures r == LoginFrame(station, user, digest)
  {
    var dataLength := 6 + |user| + |digest|;
    if !Fits(station, 1, false) {
      return Err(OutOfRange);
    }
    var frame: seq<byte> := [station];
    frame := frame + [0x01, 0x00];
    if !Fits(dataLength, 2, false) {
      return Err(OutOfRange);
    }
    Pow256Two();
    frame := frame + UIntBytes(dataLength, 2);
    frame := frame + [0x17];
    frame := frame + [0x28, 0x00];
    if !Fits(|user|, 1, false) {
      return Err(OutOfRange);
    }
    frame := frame + [|user|];
    frame := frame + user;
    frame := frame + [|digest|];
    frame := frame + digest;
    frame := frame + [0x00];
    assert frame == Header(station, 0x01, 0x00, dataLength) + [0x17, 0x28, 0x00, |user|] + user + [|digest|] + digest + [0x00];
    return Ok(frame);
  }

  /** Reads a login frame back: the station, the user name and the digest. */
  function DecodeLoginFrame(f: seq<byte>): Option<(int, seq<byte>, seq<byte>)>
  {
    if |f| < 9 || f[1..3] != [0x01, 0x00] || f[5..8] != [0x17, 0x28, 0x00] then None
    else
      var n: int := f[8];
      if |f| != 9 + n + 18 || UIntValue(f[3..5]) != |f| - 5 || f[9 + n] != 16 || f[|f| - 1] != 0x00 then None
      else Some((f[0], f[9..9 + n], f[10 + n..26 + n]))
  }

  /** A login frame is built exactly when the station is a byte and the user name has at
      most 255 bytes; its length field then equals 6 + len(user) + 16, the number of bytes
      that follow it, and it reads back as the station, the user name and the digest. */
  lemma LoginFrameRoundTrip(station: int, user: seq<byte>, digest: Digest)
    ensures LoginFrame(station, user, digest).Ok? <==> 0 <= station < 256 && |user| < 256
    ensures LoginFrame(station, user, digest).Ok? ==>
      var f := LoginFrame(station, user, digest).value;
      && UIntValue(f[3..5]) == 6 + |user| + 16 == |f| - 5
      && DecodeLoginFrame(f) == Some((station, user, digest))
  {
    Pow256Two();
    assert Pow256(1) == 256;
    if LoginFrame(station, user, digest).Ok? {
      var f := LoginFrame(station, user, digest).value;
      var n := |user|;
      UIntRoundTrip(6 + n + 16, 2);
      assert f[3..5] == UIntBytes(6 + n + 16, 2);
      assert |f| == 9 + n + 18;
      assert f[0] == station && f[1..3] == [0x01, 0x00] && f[5..8] == [0x17, 0x28, 0x00] && f[8] == n;
      assert f[9..9 + n] == user;
      assert f[9 + n] == 16;
      assert f[10 + n..26 + n] == digest;
      assert f[|f| - 1] == 0;
    }
  }

  // ---------------------------------------------------------------- write requests

  /** The frame write_variable sends: station, 05 10, the length, then flags (80 exactly when
      offset > 0), a variable count of 1, the uid, offset and length when flagged, and the
      value encoded for its type. */
  function WriteFrame(station: int, uid: int, v: PlcValue, offset: int, length: int, typeName: string)
    : Result<seq<byte>>
  {
    if !Fits(station, 1, false) then Err(OutOfRange)
    else
      var flags: byte := if offset > 0 then 0x80 else 0x00;
      if !Fits(uid, 4, false) then Err(OutOfRange)
      else if flags == 0x80 && !(Fits(offset, 4, false) && Fits(length, 4, false)) then Err(OutOfRange)
      else
        match EncodeValue(typeName, v)
        case Err(e) => Err(e)
        case Ok(value) =>
          var qualifier := if flags == 0x80 then UIntBytes(offset, 4) + UIntBytes(length, 4) else [];
          var data := [flags, 0x01] + UIntBytes(uid, 4) + qualifier + value;
          if |data| > MaxData then Err(FrameTooLarge)
          else Ok(Header(station, 0x05, 0x10, |data|) + data)
  }

  /** write_variable's frame as the source builds it: the header, then a data buffer that
      grows by flags, count, uid, the optional qualifier and the value. */
  method BuildWriteFrame(station: int, uid: int, v: PlcValue, offset: int, length: int, typeName: string)
    returns (r: Result<seq<byte>>)
    ensures r == WriteFrame(station, uid, v, offset, length, typeName)
  {
    if !Fits(station, 1, false) {
      return Err(OutOfRange);
    }
    var frame: seq<byte> := [station];
    frame := frame + [0x05, 0x10];
    var flags: byte := 0x00;
    if offset > 0 {
      flags := 0x80;
    }
    var data: seq<byte> := [flags];
    data := data + [0x01];
    var uidBytes := ToBytes(uid, 4, false);
    if uidBytes.None? {
      return Err(OutOfRange);
    }
    data := data + uidBytes.value;
    ghost var qualifier: seq<byte> := [];
    if flags == 0x80 {
      var offsetBytes := ToBytes(offset, 4, false);
      if offsetBytes.None? {
        return Err(OutOfRange);
      }
      data := data + offsetBytes.value;
      var lengthBytes := ToBytes(length, 4, false);
      if lengthBytes.None? {
        return Err(OutOfRange);
      }
      data := data + lengthBytes.value;
      qualifier := offsetBytes.value + lengthBytes.value;
      assert qualifier == UIntBytes(offset, 4) + UIntBytes(length, 4);
    }
    var value := EncodeValue(typeName, v);
    if value.Err? {
      return Err(value.error);
    }
    data := data + value.value;
    assert data == [flags, 0x01] + UIntBytes(uid, 4) + qualifier + value.value;
    if |data| > MaxData {
      return Err(FrameTooLarge);
    }
    Pow256Two();
    frame := frame + UIntBytes(|data|, 2);
    assert frame == Header(station, 0x05, 0x10, |data|);
    frame := frame + data;
    return Ok(frame);
  }

  /** The fields of a write request as they appear on the wire. */
  datatype WriteRequest = WriteRequest(station: int, uid: int, qualifier: Option<(int, int)>, value: seq<byte>)

  /** Reads a write request back off the wire. */
  function DecodeWriteFrame(f: seq<byte>): Option<WriteRequest>
  {
    if |f| < 11 || f[1..3] != [0x05, 0x10] || UIntValue(f[3..5]) != |f| - 5 || f[6] != 0x01 then None
    else if f[5] == 0x00 then
      Some(WriteRequest(f[0], UIntValue(f[7..11]), None, f[11..]))
    else if f[5] == 0x80 && |f| >= 19 then
      Some(WriteRequest(f[0], UIntValue(f[7..11]), Some((UIntValue(f[11..15]), UIntValue(f[15..19]))), f[19..]))
    else None
  }

  /** The data of a write request is at most 22 bytes, so the 65535-byte ceiling that
      write_variable tests for is never reached. */
  lemma WriteFrameNeverTooLarge(station: int, uid: int, v: PlcValue, offset: int, length: int, typeName: string)
    ensures WriteFrame(station, uid, v, offset, length, typeName) != Err(FrameTooLarge)
  {
    match EncodeValue(typeName, v)
    case Err(_) =>
    case Ok(value) =>
      assert |value| <= 8 by {
        var t := TypeOf(typeName).value;
        assert |value| == Width(t);
      }
  }

  /** A built write frame declares the number of data bytes that follow its length field
      and reads back as the station, the uid, the qualifier (present exactly when
      offset > 0) and value bytes that decode, as the requested type, to the written value. */
  lemma WriteFrameRoundTrip(station: int, uid: int, v: PlcValue, offset: int, length: int, typeName: string)
    requires WriteFrame(station, uid, v, offset, length, typeName).Ok?
    ensures var f := WriteFrame(station, uid, v, offset, length, typeName).value;
      && UIntValue(f[3..5]) == |f| - 5
      && DecodeWriteFrame(f).Some?
      && var w := DecodeWriteFrame(f).value;
      && w.station == station && w.uid == uid
      && w.qualifier == (if offset > 0 then Some((offset, length)) else None)
      && w.value == EncodeValue(typeName, v).value
      && DecodeValue(w.value, typeName) == Ok(Canonical(TypeOf(typeName).value, v))
  {
    var f := WriteFrame(station, uid, v, offset, length, typeName).value;
    var value := EncodeValue(typeName, v).value;
    var flags: byte := if offset > 0 then 0x80 else 0x00;
    var q := if offset > 0 then UIntBytes(offset, 4) + UIntBytes(length, 4) else [];
    var data := [flags, 0x01] + UIntBytes(uid, 4) + q + value;
    assert f == Header(station, 0x05, 0x10, |data|) + data;
    WriteLayoutDecodes(station, flags, UIntBytes(uid, 4), q, value);
    UIntRoundTrip(uid, 4);
    if offset > 0 {
      UIntRoundTrip(offset, 4);
      UIntRoundTrip(length, 4);
      assert q[..4] == UIntBytes(offset, 4) && q[4..] == UIntBytes(length, 4);
    }
    EncodeDecode(TypeOf(typeName).value, v);
  }

  /** How DecodeWriteFrame reads a frame laid out as write_variable lays it out. */
  lemma WriteLayoutDecodes(station: byte, flags: byte, uidBytes: seq<byte>, q: seq<byte>, value: seq<byte>)
    requires |uidBytes| == 4
    requires (flags == 0x00 && q == []) || (flags == 0x80 && |q| == 8)
    requires 6 + |q| + |value| <= MaxData
    ensures var data := [flags, 0x01] + uidBytes + q + value;
      var f := Header(station, 0x05, 0x10, |data|) + data;
      && UIntValue(f[3..5]) == |f| - 5
      && DecodeWriteFrame(f) == Some(WriteRequest(station, UIntValue(uidBytes),
           if flags == 0x80 then Some((UIntValue(q[..4]), UIntValue(q[4..]))) else None, value))
  {
    var data := [flags, 0x01] + uidBytes + q + value;
    var f := Header(station, 0x05, 0x10, |data|) + data;
    Pow256Two();
    UIntRoundTrip(|data|, 2);
    assert f[3..5] == UIntBytes(|data|, 2);
    assert f[0] == station && f[1..3] == [0x05, 0x10] && f[5] == flags && f[6] == 0x01;
    assert f[7..11] == uidBytes;
    if flags == 0x80 {
      assert f[11..15] == q[..4] && f[15..19] == q[4..] && f[19..] == value;
    } else {
      assert f[11..] == value;
    }
  }

  // ---------------------------------------------------------------- replies

  /** The login reply is accepted when its function code (bytes 1-2) is 81 00. */
  predicate LoginAccepted(reply: seq<byte>)
  {
    Slice(reply, 1, 3) == [0x81, 0x00]
  }

  /** The check write_variable applies to its reply: 85 10 succeeds, C5 10 is a rejected
      write, anything else an unexpected code. */
  function WriteReply(reply: seq<byte>): (r: Result<()>)
    ensures r.Ok? <==> |reply| >= 3 && reply[1] == 0x85 && reply[2] == 0x10
    ensures r == Err(WriteFailed) <==> |reply| >= 3 && reply[1] == 0xC5 && reply[2] == 0x10
  {
    var code := Slice(reply, 1, 3);
    if code == [0x85, 0x10] then Ok(())
    else if code == [0xC5, 0x10] then Err(WriteFailed)
    else Err(UnexpectedFunctionCode)
  }

  /** parse_response: the station byte, then the function code, then the declared length
      against the received data, then the value decoded as the caller's type. */
  function ParseResponse(station: int, response: seq<byte>, fromCode: string, typeName: string)
    : Result<PlcValue>
  {
    if |response| == 0 then Err(IndexError)
    else if response[0] != station then Err(AddressMismatch)
    else if fromCode != "read_variables" then Err(UnknownFunction)
    else
      var code := Slice(response, 1, 3);
      if code == [0xC5, 0x00] then Err(ReadFailed)
      else if code != [0x85, 0x00] then Err(UnexpectedFunctionCode)
      else
        var declared := UIntValue(Slice(response, 3, 5));
        var raw := Slice(response, 5, |response|);
        if |raw| != declared then Err(DataLengthMismatch)
        else DecodeValue(raw, typeName)
  }

  /** The reply a controller sends to a successful read: station, 85 00, length, data. */
  function ReadReply(station: byte, raw: seq<byte>): seq<byte>
    requires |raw| <= MaxData
  {
    Header(station, 0x85, 0x00, |raw|) + raw
  }

  /** The station byte is checked first: a reply from another station is refused whatever
      it carries. */
  lemma AddressCheckedFirst(station: int, response: seq<byte>, fromCode: string, typeName: string)
    requires |response| > 0 && response[0] != station
    ensures ParseResponse(station, response, fromCode, typeName) == Err(AddressMismatch)
  {
  }

  /** A read is rejected exactly when the reply comes from the station with code C5 00. */
  lemma ReadRejectedExactly(station: int, response: seq<byte>, typeName: string)
    ensures ParseResponse(station, response, "read_variables", typeName) == Err(ReadFailed) <==>
      |response| >= 3 && response[0] == station && response[1] == 0xC5 && response[2] == 0x00
  {
  }

  /** The checks a reply passes when parse_response accepts it: the station, 85 00, and a
      declared length equal to the length of a non-empty data part. */
  lemma AcceptedShape(station: int, response: seq<byte>, typeName: string)
    requires ParseResponse(station, response, "read_variables", typeName).Ok?
    ensures |response| > 5 && response[0] == station
    ensures response[1] == 0x85 && response[2] == 0x00
    ensures UIntValue(response[3..5]) == |response| - 5
    ensures ParseResponse(station, response, "read_variables", typeName) == DecodeValue(response[5..], typeName)
  {
    var raw := Slice(response, 5, |response|);
    assert 0 < |raw| == UIntValue(Slice(response, 3, 5)) by {
      var t := TypeOf(typeName).value;
      assert |raw| == Width(t);
    }
    assert raw == response[5..];
    assert Slice(response, 3, 5) == response[3..5];
    assert Slice(response, 1, 3) == [0x85, 0x00];
  }

  /** parse_response accepts exactly the well-formed read replies of the station: a reply
      it accepts is ReadReply of its own data, and the value is that data decoded. */
  lemma ParseResponseAccepts(station: int, response: seq<byte>, typeName: string)
    requires ParseResponse(station, response, "read_variables", typeName).Ok?
    ensures |response| > 5 && 0 <= station < 256 && |response| - 5 <= MaxData
    ensures response == ReadReply(station, response[5..])
    ensures ParseResponse(station, response, "read_variables", typeName) == DecodeValue(response[5..], typeName)
  {
    AcceptedShape(station, response, typeName);
    ShapeIsReadReply(station, response);
  }

  /** A reply with the station, 85 00 and a declared length that matches its data part is
      ReadReply of that data. */
  lemma ShapeIsReadReply(station: int, response: seq<byte>)
    requires |response| > 5 && response[0] == station
    requires response[1] == 0x85 && response[2] == 0x00
    requires UIntValue(response[3..5]) == |response| - 5
    ensures 0 <= station < 256 && |response| - 5 <= MaxData
    ensures response == ReadReply(station, response[5..])
  {
    var lenBytes, raw := response[3..5], response[5..];
    assert |raw| <= MaxData by {
      Pow256Two();
    }
    assert UIntBytes(|raw|, 2) == lenBytes by {
      UIntBytesOfValue(lenBytes);
    }
    assert response[..3] == [response[0], 0x85, 0x00];
    assert response == response[..3] + lenBytes + raw;
  }

  /** The fields of a read reply: station, 85 00, the data length, the data. */
  lemma ReadReplyFields(station: byte, raw: seq<byte>)
    requires |raw| <= MaxData
    ensures var r := ReadReply(station, raw);
      && |r| == 5 + |raw| && r[0] == station && r[1] == 0x85 && r[2] == 0x00
      && UIntValue(r[3..5]) == |raw| && r[5..] == raw
  {
    Pow256Two();
    var h := UIntBytes(|raw|, 2);
    var r := [station, 0x85, 0x00] + h + raw;
    assert r == ReadReply(station, raw);
    assert UIntValue(h) == |raw| by {
      UIntRoundTrip(|raw|, 2);
    }
    assert r[3..5] == h;
    assert r[5..] == raw;
  }

  /** Every well-formed read reply of the station is accepted and decodes its data. */
  lemma ReadReplyParses(station: byte, raw: seq<byte>, typeName: string)
    requires |raw| <= MaxData
    ensures ParseResponse(station, ReadReply(station, raw), "read_variables", typeName) == DecodeValue(raw, typeName)
  {
    var r := ReadReply(station, raw);
    ReadReplyFields(station, raw);
    assert Slice(r, 1, 3) == [0x85, 0x00];
    assert Slice(r, 3, 5) == r[3..5];
    assert Slice(r, 5, |r|) == raw;
  }
}
