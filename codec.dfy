/** The type codec of the SSCP client: the type names it accepts, their fixed widths and
    the big-endian encoding of values (write_variable) and decoding of replies (_parse_data). */
module Codec {
  import opened Bytes
  import opened Errors

  datatype VarType = BOOL | BYTE | WORD | INT | UINT | DINT | UDINT | LINT | REAL | LREAL

  /** The number of bytes a value of the type occupies on the wire. */
  function Width(t: VarType): nat
  {
    match t
    case BOOL => 1
    case BYTE => 1
    case WORD => 2
    case INT => 2
    case UINT => 2
    case DINT => 4
    case UDINT => 4
    case LINT => 8
    case REAL => 4
    case LREAL => 8
  }

  /** The types encoded in two's complement. */
  predicate IsSigned(t: VarType)
  {
    t == INT || t == DINT || t == LINT
  }

  /** The types whose values are Python ints. */
  predicate IsInteger(t: VarType)
  {
    t != BOOL && t != REAL && t != LREAL
  }

  function NameOf(t: VarType): string
  {
    match t
    case BOOL => "BOOL"
    case BYTE => "BYTE"
    case WORD => "WORD"
    case INT => "INT"
    case UINT => "UINT"
    case DINT => "DINT"
    case UDINT => "UDINT"
    case LINT => "LINT"
    case REAL => "REAL"
    case LREAL => "LREAL"
  }

  /** str.upper() on one character, for the characters whose upper case is a letter of a
      type name: the ASCII letters and the dotless i (U+0131), which upper-cases to I. */
  function UpperChar(c: char): char
  {
    if 'a' <= c <= 'z' then (c as int - 32) as char
    else if c == '\U{131}' then 'I'
    else c
  }

  function Upper(s: string): (r: string)
    ensures |r| == |s| && forall i :: 0 <= i < |s| ==> r[i] == UpperChar(s[i])
  {
    seq(|s|, i requires 0 <= i < |s| => UpperChar(s[i]))
  }

  /** The type a name selects (type_data.upper() compared with the ten names), if any. */
  function TypeOf(name: string): (r: Option<VarType>)
    ensures r.Some? ==> Upper(name) == NameOf(r.value)
    ensures r.None? ==> forall t :: Upper(name) != NameOf(t)
  {
    var u := Upper(name);
    if u == "BOOL" then Some(BOOL)
    else if u == "BYTE" then Some(BYTE)
    else if u == "WORD" then Some(WORD)
    else if u == "INT" then Some(INT)
    else if u == "UINT" then Some(UINT)
    else if u == "DINT" then Some(DINT)
    else if u == "UDINT" then Some(UDINT)
    else if u == "LINT" then Some(LINT)
    else if u == "REAL" then Some(REAL)
    else if u == "LREAL" then Some(LREAL)
    else None
  }

  /** Names are matched without regard to case: a name and its upper-case form select the
      same type. */
  lemma TypeOfIgnoresCase(name: string)
    ensures TypeOf(name) == TypeOf(Upper(name))
  {
    UpperIdempotent(name);
  }

  /** Upper-casing an upper-cased name changes nothing more. */
  lemma UpperIdempotent(s: string)
    ensures Upper(Upper(s)) == Upper(s)
  {
    assert forall i :: 0 <= i < |s| ==> UpperChar(UpperChar(s[i])) == UpperChar(s[i]);
  }

  /** The type names are already upper case. */
  lemma UpperNameOf(t: VarType)
    ensures Upper(NameOf(t)) == NameOf(t)
  {
    var n := NameOf(t);
    assert forall i :: 0 <= i < |n| ==> 'A' <= n[i] <= 'Z';
  }

  /** Every type is selected by its own name. */
  lemma TypeOfNameOf(t: VarType)
    ensures TypeOf(NameOf(t)) == Some(t)
  {
    UpperNameOf(t);
  }

  /** A value handed to write_variable or returned by read_variable: a Python bool, a Python
      int, or a float carried as the IEEE 754 big-endian bytes struct would produce. */
  datatype PlcValue = Bool(b: bool) | Int(i: int) | Real(bits: seq<byte>)

  /** Python truth value of the value (used for BOOL). */
  function Truthy(v: PlcValue): Option<bool>
  {
    match v
    case Bool(b) => Some(b)
    case Int(i) => Some(i != 0)
    case Real(_) => None
  }

  /** int(value) (used for the integer types). */
  function AsInt(v: PlcValue): Option<int>
  {
    match v
    case Bool(b) => Some(if b then 1 else 0)
    case Int(i) => Some(i)
    case Real(_) => None
  }

  /** The value bytes write_variable appends for a type. */
  function EncodeAs(t: VarType, v: PlcValue): (r: Result<seq<byte>>)
    ensures r.Ok? ==> |r.value| == Width(t)
    ensures IsInteger(t) && v.Int? ==> (r.Ok? <==> Fits(v.i, Width(t), IsSigned(t)))
    ensures t == BOOL && !v.Real? ==> r.Ok?
  {
    match t
    case BOOL =>
      (match Truthy(v)
       case None => Err(FloatNotModelled)
       case Some(b) => Ok([if b then 1 else 0]))
    case REAL =>
      if v.Real? && |v.bits| == Width(t) then Ok(v.bits) else Err(FloatNotModelled)
    case LREAL =>
      if v.Real? && |v.bits| == Width(t) then Ok(v.bits) else Err(FloatNotModelled)
    case _ =>
      (match AsInt(v)
       case None => Err(FloatNotModelled)
       case Some(i) =>
         (match ToBytes(i, Width(t), IsSigned(t))
          case None => Err(OutOfRange)
          case Some(bytes) => Ok(bytes)))
  }

  /** The chain of type_data.upper() tests in write_variable. */
  function EncodeValue(typeName: string, v: PlcValue): (r: Result<seq<byte>>)
    ensures TypeOf(typeName).None? ==> r == Err(UnsupportedType(typeName))
    ensures r.Ok? ==> TypeOf(typeName).Some? && |r.value| == Width(TypeOf(typeName).value)
  {
    match TypeOf(typeName)
    case None => Err(UnsupportedType(typeName))
    case Some(t) => EncodeAs(t, v)
  }

  /** _parse_data for a known type: the length must be exactly the type's width. */
  function DecodeAs(t: VarType, raw: seq<byte>): (r: Result<PlcValue>)
    ensures r.Ok? <==> |raw| == Width(t)
    ensures r.Err? ==> r.error == PayloadLength(NameOf(t), Width(t))
  {
    if |raw| != Width(t) then Err(PayloadLength(NameOf(t), Width(t)))
    else
      match t
      case BOOL => Ok(Bool(raw[0] != 0))
      case BYTE => Ok(Int(raw[0]))
      case REAL => Ok(Real(raw))
      case LREAL => Ok(Real(raw))
      case _ => Ok(Int(FromBytes(raw, IsSigned(t))))
  }

  /** _parse_data: an unknown type name is rejected whatever the data. */
  function DecodeValue(raw: seq<byte>, typeName: string): (r: Result<PlcValue>)
    ensures TypeOf(typeName).None? ==> r == Err(UnsupportedType(Upper(typeName)))
    ensures TypeOf(typeName).Some? ==> (r.Ok? <==> |raw| == Width(TypeOf(typeName).value))
  {
    match TypeOf(typeName)
    case None => Err(UnsupportedType(Upper(typeName)))
    case Some(t) => DecodeAs(t, raw)
  }

  /** What decoding gives back for a value encoded as type t: BOOL keeps only the truth
      value, the integer types keep int(value), REAL and LREAL keep the bytes. */
  function Canonical(t: VarType, v: PlcValue): PlcValue
  {
    if t == BOOL then Bool(Truthy(v) == Some(true))
    else if IsInteger(t) then Int(if v.Real? then 0 else AsInt(v).value)
    else v
  }

  /** Decoding what write_variable encodes gives the value back, as Canonical describes. */
  lemma EncodeDecode(t: VarType, v: PlcValue)
    requires EncodeAs(t, v).Ok?
    ensures DecodeAs(t, EncodeAs(t, v).value) == Ok(Canonical(t, v))
  {
    if t == BYTE {
      ByteDecodes(v);
    } else if IsInteger(t) {
      IntegerDecodes(t, v);
    }
  }

  lemma ByteDecodes(v: PlcValue)
    requires EncodeAs(BYTE, v).Ok?
    ensures DecodeAs(BYTE, EncodeAs(BYTE, v).value) == Ok(Canonical(BYTE, v))
  {
    var i := AsInt(v).value;
    ToBytesRoundTrip(i, 1, false);
    var bytes := EncodeAs(BYTE, v).value;
    assert bytes[..0] == [];
    assert UIntValue(bytes) == bytes[0];
  }

  lemma IntegerDecodes(t: VarType, v: PlcValue)
    requires IsInteger(t) && t != BYTE && EncodeAs(t, v).Ok?
    ensures DecodeAs(t, EncodeAs(t, v).value) == Ok(Canonical(t, v))
  {
    ToBytesRoundTrip(AsInt(v).value, Width(t), IsSigned(t));
  }

  /** An integer in the type's range survives the round trip unchanged. */
  lemma IntegerRoundTrip(t: VarType, i: int)
    requires IsInteger(t) && Fits(i, Width(t), IsSigned(t))
    ensures DecodeAs(t, EncodeAs(t, Int(i)).value) == Ok(Int(i))
  {
    EncodeDecode(t, Int(i));
  }

  /** Re-encoding a decoded value gives the received bytes back, except that BOOL
      normalises every non-zero byte to 1. */
  lemma DecodeEncode(t: VarType, raw: seq<byte>)
    requires DecodeAs(t, raw).Ok?
    ensures t != BOOL ==> EncodeAs(t, DecodeAs(t, raw).value) == Ok(raw)
    ensures t == BOOL ==> EncodeAs(t, DecodeAs(t, raw).value) == Ok([if raw[0] != 0 then 1 else 0])
  {
    if t == BYTE {
      ByteEncodes(raw);
    } else if IsInteger(t) {
      IntegerEncodes(t, raw);
    }
  }

  lemma ByteEncodes(raw: seq<byte>)
    requires |raw| == 1
    ensures EncodeAs(BYTE, Int(raw[0])) == Ok(raw)
  {
    FromBytesRoundTrip(raw, false);
    assert raw[..0] == [];
    assert UIntValue(raw) == raw[0];
  }

  lemma IntegerEncodes(t: VarType, raw: seq<byte>)
    requires IsInteger(t) && t != BYTE && |raw| == Width(t)
    ensures EncodeAs(t, Int(FromBytes(raw, IsSigned(t)))) == Ok(raw)
  {
    FromBytesRoundTrip(raw, IsSigned(t));
  }

  /** The smallest and largest int each integer type accepts. */
  function MinOf(t: VarType): int
  {
    match t
    case INT => -0x8000
    case DINT => -0x8000_0000
    case LINT => -0x8000_0000_0000_0000
    case _ => 0
  }

  function MaxOf(t: VarType): int
  {
    match t
    case BYTE => 0xFF
    case WORD => 0xFFFF
    case UINT => 0xFFFF
    case INT => 0x7FFF
    case UDINT => 0xFFFF_FFFF
    case DINT => 0x7FFF_FFFF
    case LINT => 0x7FFF_FFFF_FFFF_FFFF
    case _ => 0
  }

  /** An int can be written as an integer type exactly when it lies in the type's range:
      BYTE 0..255, WORD and UINT 0..65535, INT -32768..32767, UDINT 0..2^32-1,
      DINT -2^31..2^31-1, LINT -2^63..2^63-1. */
  lemma IntegerRange(t: VarType, i: int)
    requires IsInteger(t)
    ensures EncodeAs(t, Int(i)).Ok? <==> MinOf(t) <= i <= MaxOf(t)
  {
    assert Pow256(1) == 0x100;
    assert Pow256(2) == 0x1_0000;
    assert Pow256(3) == 0x100_0000;
    assert Pow256(4) == 0x1_0000_0000;
    assert Pow256(5) == 0x100_0000_0000;
    assert Pow256(6) == 0x1_0000_0000_0000;
    assert Pow256(7) == 0x100_0000_0000_0000;
    assert Pow256(8) == 0x1_0000_0000_0000_0000;
  }
}
