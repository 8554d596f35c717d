/** The deposit descriptor's wire format: a control byte, one to three serial bytes, and the
    subject. */
module Deposit {
  import opened Chain

  const MAX_SERIAL_12_BITS: bv32 := 0xfff
  const MAX_SERIAL_20_BITS: bv32 := 0xf_ffff
  const MAX_SERIAL_28_BITS: bv32 := 0xfff_ffff
  const SUBJ_ID_LEN: nat := 32

  datatype Descriptor = Descriptor(serial: bv32, subject: seq<bv8>)

  datatype DepositError =
    | EmptyDescriptor
    | InsufficientLength(expected: nat, actual: nat)
    | ReservedControlBits(b: bv8)
    | ReservedSerialLengthBits(b: bv8)
    | SubjectTooLong(len: nat)
    | SerialTooLarge(serial: bv32, max: bv32)

  /** What `new` guarantees. */
  predicate Valid(d: Descriptor) {
    d.serial <= MAX_SERIAL_28_BITS && |d.subject| <= SUBJ_ID_LEN
  }

  // ---------------------------------------------------------------- control byte and serial

  /** The number of serial bytes after the control byte. */
  function SerialLen(control: bv8): (n: nat)
    ensures 1 <= n <= 4
  {
    var bits := (control & 0x30) >> 4;
    if bits == 0 then 1 else if bits == 1 then 2 else if bits == 2 then 3 else 4
  }

  function SerialMsb(control: bv8): bv8 {
    control & 0x0f
  }

  function CheckControl(b: bv8): Option<DepositError> {
    if b & 0xc0 != 0 then Some(ReservedControlBits(b))
    else if (b & 0x30) >> 4 == 3 then Some(ReservedSerialLengthBits(b))
    else None
  }

  /** Byte `k` of a big-endian 32-bit word. */
  function BeByte(v: bv32, k: nat): bv8
    requires k < 4
  {
    if k == 0 then ((v >> 24) & 0xff) as bv8
    else if k == 1 then ((v >> 16) & 0xff) as bv8
    else if k == 2 then ((v >> 8) & 0xff) as bv8
    else (v & 0xff) as bv8
  }

  function FromBe(b0: bv8, b1: bv8, b2: bv8, b3: bv8): bv32 {
    ((b0 as bv32) << 24) | ((b1 as bv32) << 16) | ((b2 as bv32) << 8) | (b3 as bv32)
  }

  /** The shortest form: control byte, then the serial's low bytes. */
  function EncodeSerial(v: bv32): (s: seq<bv8>)
    requires v <= MAX_SERIAL_28_BITS
    ensures 2 <= |s| <= 4
  {
    if v <= MAX_SERIAL_12_BITS then [BeByte(v, 2), BeByte(v, 3)]
    else if v <= MAX_SERIAL_20_BITS then [0x10 | BeByte(v, 1), BeByte(v, 2), BeByte(v, 3)]
    else [0x20 | BeByte(v, 0), BeByte(v, 1), BeByte(v, 2), BeByte(v, 3)]
  }

  predicate WellFormedSerial(s: seq<bv8>) {
    s != [] && CheckControl(s[0]).None? && |s| == 1 + SerialLen(s[0])
  }

  function DecodeSerial(s: seq<bv8>): bv32
    requires WellFormedSerial(s)
  {
    var msb := SerialMsb(s[0]);
    if |s| == 2 then FromBe(0, 0, msb, s[1])
    else if |s| == 3 then FromBe(0, msb, s[1], s[2])
    else FromBe(msb, s[1], s[2], s[3])
  }

  lemma {:induction false} SerialRoundTrip(v: bv32)
    requires v <= MAX_SERIAL_28_BITS
    ensures WellFormedSerial(EncodeSerial(v)) && DecodeSerial(EncodeSerial(v)) == v
  {
    if v <= MAX_SERIAL_12_BITS {
      ShortBytes(v);
    } else if v <= MAX_SERIAL_20_BITS {
      MiddleBytes(v);
    } else {
      LongBytes(v);
    }
  }

  lemma {:induction false} ShortBytes(v: bv32)
    requires v <= MAX_SERIAL_12_BITS
    ensures
      var control := BeByte(v, 2);
      CheckControl(control).None? && SerialLen(control) == 1 && FromBe(0, 0, SerialMsb(control), BeByte(v, 3)) == v
  {
  }

  lemma {:induction false} MiddleBytes(v: bv32)
    requires v <= MAX_SERIAL_20_BITS
    ensures
      var control := 0x10 | BeByte(v, 1);
      CheckControl(control).None? && SerialLen(control) == 2
      && FromBe(0, SerialMsb(control), BeByte(v, 2), BeByte(v, 3)) == v
  {
  }

  lemma {:induction false} LongBytes(v: bv32)
    requires v <= MAX_SERIAL_28_BITS
    ensures
      var control := 0x20 | BeByte(v, 0);
      CheckControl(control).None? && SerialLen(control) == 3
      && FromBe(SerialMsb(control), BeByte(v, 1), BeByte(v, 2), BeByte(v, 3)) == v
  {
  }

  /** A decoded serial has at most 28 bits and its own encoding is never longer; it is shorter
      unless it is the same bytes. */
  lemma {:induction false} SerialReencodes(s: seq<bv8>)
    requires WellFormedSerial(s)
    ensures
      var v := DecodeSerial(s);
      v <= MAX_SERIAL_28_BITS && |EncodeSerial(v)| <= |s| && (|EncodeSerial(v)| == |s| ==> EncodeSerial(v) == s)
  {
    var control := s[0];
    if |s| == 2 {
      ShortSerial(control, s[1]);
    } else if |s| == 3 {
      MiddleSerial(control, s[1], s[2]);
    } else {
      LongSerial(control, s[1], s[2], s[3]);
    }
  }

  lemma {:induction false} ShortSerial(control: bv8, b: bv8)
    requires CheckControl(control).None? && SerialLen(control) == 1
    ensures
      var v := FromBe(0, 0, SerialMsb(control), b);
      v <= MAX_SERIAL_12_BITS && BeByte(v, 2) == control && BeByte(v, 3) == b
  {
  }

  lemma {:induction false} MiddleSerial(control: bv8, b: bv8, c: bv8)
    requires CheckControl(control).None? && SerialLen(control) == 2
    ensures
      var v := FromBe(0, SerialMsb(control), b, c);
      v <= MAX_SERIAL_20_BITS && 0x10 | BeByte(v, 1) == control && BeByte(v, 2) == b && BeByte(v, 3) == c
  {
  }

  lemma {:induction false} LongSerial(control: bv8, b: bv8, c: bv8, d: bv8)
    requires CheckControl(control).None? && SerialLen(control) == 3
    ensures
      var v := FromBe(SerialMsb(control), b, c, d);
      v <= MAX_SERIAL_28_BITS && 0x20 | BeByte(v, 0) == control && BeByte(v, 1) == b && BeByte(v, 2) == c
      && BeByte(v, 3) == d
  {
  }

  // ---------------------------------------------------------------- the procedures

  datatype EncodedSerial = EncodedSerial(control: bv8, additional: seq<bv8>)

  method FromAccountSerial(value: bv32) returns (r: Result<EncodedSerial, DepositError>)
    ensures value > MAX_SERIAL_28_BITS ==> r == Err(SerialTooLarge(value, MAX_SERIAL_28_BITS))
    ensures value <= MAX_SERIAL_28_BITS ==> r.Ok? && |r.value.additional| == 3 && SerialLen(r.value.control) <= 3
    ensures value <= MAX_SERIAL_28_BITS
            ==> [r.value.control] + r.value.additional[..SerialLen(r.value.control)] == EncodeSerial(value)
  {
    var byte0, byte1, byte2, byte3 := BeByte(value, 0), BeByte(value, 1), BeByte(value, 2), BeByte(value, 3);
    var control: bv8 := 0;
    var additional: seq<bv8> := [0, 0, 0];
    if value <= MAX_SERIAL_12_BITS {
      ShortWire(value);
      control := control | (0 << 4);
      control := control | byte2;
      additional := additional[0 := byte3];
      assert additional[..1] == [byte3];
    } else if value <= MAX_SERIAL_20_BITS {
      MiddleWire(value);
      control := control | (1 << 4);
      control := control | byte1;
      additional := additional[0 := byte2][1 := byte3];
      assert additional[..2] == [byte2, byte3];
    } else if value <= MAX_SERIAL_28_BITS {
      LongWire(value);
      control := control | (2 << 4);
      control := control | byte0;
      additional := additional[0 := byte1][1 := byte2][2 := byte3];
      assert additional[..3] == [byte1, byte2, byte3];
    } else {
      return Err(SerialTooLarge(value, MAX_SERIAL_28_BITS));
    }
    r := Ok(EncodedSerial(control, additional));
  }

  lemma {:induction false} ShortWire(v: bv32)
    requires v <= MAX_SERIAL_12_BITS
    ensures
      var control := (0 | (0 << 4)) | BeByte(v, 2);
      SerialLen(control) == 1 && [control] + [BeByte(v, 3)] == EncodeSerial(v)
  {
    OrLen(BeByte(v, 2));
    ShortBytes(v);
  }

  lemma {:induction false} MiddleWire(v: bv32)
    requires MAX_SERIAL_12_BITS < v <= MAX_SERIAL_20_BITS
    ensures
      var control := (0 | (1 << 4)) | BeByte(v, 1);
      SerialLen(control) == 2 && [control] + [BeByte(v, 2), BeByte(v, 3)] == EncodeSerial(v)
  {
    OrLen(BeByte(v, 1));
    MiddleBytes(v);
  }

  lemma {:induction false} LongWire(v: bv32)
    requires MAX_SERIAL_20_BITS < v <= MAX_SERIAL_28_BITS
    ensures
      var control := (0 | (2 << 4)) | BeByte(v, 0);
      SerialLen(control) == 3 && [control] + [BeByte(v, 1), BeByte(v, 2), BeByte(v, 3)] == EncodeSerial(v)
  {
    OrLen(BeByte(v, 0));
    LongBytes(v);
  }

  lemma {:induction false} OrLen(b: bv8)
    ensures (0 | (0 << 4)) | b == b
    ensures (0 | (1 << 4)) | b == 0x10 | b
    ensures (0 | (2 << 4)) | b == 0x20 | b
  {
  }

  method ToAccountSerial(e: EncodedSerial) returns (v: bv32)
    requires |e.additional| == 3 && CheckControl(e.control).None?
    ensures SerialLen(e.control) <= 3
    ensures v == DecodeSerial([e.control] + e.additional[..SerialLen(e.control)])
  {
    ControlLen(e.control);
    var len := SerialLen(e.control);
    var bytes := new bv8[4](_ => 0);
    var i := 0;
    while i < len
      invariant 0 <= i <= len
      invariant forall k :: 0 <= k < 4 - len ==> bytes[k] == 0
      invariant forall k :: 0 <= k < i ==> bytes[4 - len + k] == e.additional[k]
    {
      bytes[4 - len + i] := e.additional[i];
      i := i + 1;
    }
    assert forall k :: 0 <= k < len ==> bytes[4 - len + k] == e.additional[k];
    bytes[4 - len - 1] := bytes[4 - len - 1] | SerialMsb(e.control);
    v := FromBe(bytes[0], bytes[1], bytes[2], bytes[3]);
    PlacedBytes(e, bytes[..]);
  }

  /** The word with the additional bytes at its end and the nibble before them. */
  lemma {:induction false} PlacedBytes(e: EncodedSerial, bytes: seq<bv8>)
    requires |e.additional| == 3 && CheckControl(e.control).None? && |bytes| == 4 && SerialLen(e.control) <= 3
    requires
      var len := SerialLen(e.control);
      && bytes[4 - len..] == e.additional[..len]
      && bytes[4 - len - 1] == 0 | SerialMsb(e.control)
      && forall k :: 0 <= k < 4 - len - 1 ==> bytes[k] == 0
    ensures FromBe(bytes[0], bytes[1], bytes[2], bytes[3])
         == DecodeSerial([e.control] + e.additional[..SerialLen(e.control)])
  {
    var len := SerialLen(e.control);
    var s := [e.control] + e.additional[..len];
    OrZero(SerialMsb(e.control));
    assert s[0] == e.control && s[1] == bytes[4 - len] && (len > 1 ==> s[2] == bytes[4 - len + 1])
           && (len > 2 ==> s[3] == bytes[4 - len + 2]);
  }

  lemma {:induction false} OrZero(b: bv8)
    ensures 0 | b == b
  {
  }

  lemma {:induction false} ControlLen(control: bv8)
    requires CheckControl(control).None?
    ensures SerialLen(control) <= 3
  {
  }

  function Encode(d: Descriptor): seq<bv8>
    requires d.serial <= MAX_SERIAL_28_BITS
  {
    EncodeSerial(d.serial) + d.subject
  }

  method EncodeToVec(d: Descriptor) returns (out: seq<bv8>)
    requires d.serial <= MAX_SERIAL_28_BITS
    ensures out == Encode(d)
  {
    var e := FromAccountSerial(d.serial);
    var s := e.value;
    out := [s.control];
    out := out + s.additional[..SerialLen(s.control)];
    out := out + d.subject;
  }

  function Decode(bytes: seq<bv8>): Result<Descriptor, DepositError> {
    if bytes == [] then Err(EmptyDescriptor)
    else if CheckControl(bytes[0]).Some? then Err(CheckControl(bytes[0]).value)
    else
      var n := 1 + SerialLen(bytes[0]);
      if |bytes| < n then Err(InsufficientLength(n, |bytes|))
      else if |bytes| - n > SUBJ_ID_LEN then Err(SubjectTooLong(|bytes| - n))
      else Ok(Descriptor(DecodeSerial(bytes[..n]), bytes[n..]))
  }

  method DecodeFromSlice(bytes: seq<bv8>) returns (r: Result<Descriptor, DepositError>)
    ensures r == Decode(bytes)
  {
    if bytes == [] {
      return Err(EmptyDescriptor);
    }
    var bad := CheckControl(bytes[0]);
    if bad.Some? {
      return Err(bad.value);
    }
    ControlLen(bytes[0]);
    var len := SerialLen(bytes[0]);
    if |bytes| < 1 + len {
      return Err(InsufficientLength(1 + len, |bytes|));
    }
    var additional := new bv8[3](_ => 0);
    var i := 0;
    while i < len
      invariant 0 <= i <= len
      invariant forall k :: 0 <= k < i ==> additional[k] == bytes[1 + k]
    {
      additional[i] := bytes[1 + i];
      i := i + 1;
    }
    var serial := ToAccountSerial(EncodedSerial(bytes[0], additional[..]));
    assert [bytes[0]] + additional[..][..len] == bytes[..1 + len] by {
      forall k | 0 <= k < 1 + len ensures ([bytes[0]] + additional[..][..len])[k] == bytes[k] {
        assert k > 0 ==> additional[k - 1] == bytes[1 + (k - 1)];
      }
    }
    var subject := bytes[1 + len..];
    if |subject| > SUBJ_ID_LEN {
      return Err(SubjectTooLong(|subject|));
    }
    r := Ok(Descriptor(serial, subject));
  }

  // ---------------------------------------------------------------- the format's laws

  /** Decoding inverts encoding. */
  lemma {:induction false} DecodeEncode(d: Descriptor)
    requires Valid(d)
    ensures Decode(Encode(d)) == Ok(d)
  {
    var s := EncodeSerial(d.serial);
    SerialRoundTrip(d.serial);
    assert Encode(d)[..|s|] == s && Encode(d)[|s|..] == d.subject && Encode(d)[0] == s[0];
  }

  /** Whatever decoding accepts is a valid descriptor, although decoding does not go through
      `new`; and its encoding is no longer than the input, of equal length only if it is the
      input. */
  lemma {:induction false} EncodeDecode(bytes: seq<bv8>)
    requires Decode(bytes).Ok?
    ensures
      var d := Decode(bytes).value;
      Valid(d) && |Encode(d)| <= |bytes| && (|Encode(d)| == |bytes| <==> Encode(d) == bytes)
  {
    var n := 1 + SerialLen(bytes[0]);
    SerialReencodes(bytes[..n]);
    assert bytes[..n] + bytes[n..] == bytes;
  }

  /** The number that these bytes spell, most significant first. */
  function Number(b0: bv8, b1: bv8, b2: bv8, b3: bv8): bv32 {
    (b0 as bv32) * 0x100_0000 + (b1 as bv32) * 0x1_0000 + (b2 as bv32) * 0x100 + (b3 as bv32)
  }

  lemma {:induction false} WordIsNumber(b0: bv8, b1: bv8, b2: bv8, b3: bv8)
    ensures FromBe(b0, b1, b2, b3) == Number(b0, b1, b2, b3)
  {
  }

  lemma {:induction false} BytesSpell(v: bv32)
    ensures v == Number(BeByte(v, 0), BeByte(v, 1), BeByte(v, 2), BeByte(v, 3))
  {
  }

  lemma {:induction false} ShortForm(v: bv32)
    requires v < 0x1000
    ensures BeByte(v, 2) < 0x10 && Number(0, 0, BeByte(v, 2), BeByte(v, 3)) == v
  {
  }

  lemma {:induction false} MiddleForm(v: bv32)
    requires v < 0x10_0000
    ensures
      var control := 0x10 | BeByte(v, 1);
      0x10 <= control < 0x20 && Number(0, control - 0x10, BeByte(v, 2), BeByte(v, 3)) == v
  {
  }

  lemma {:induction false} LongForm(v: bv32)
    requires v < 0x1000_0000
    ensures
      var control := 0x20 | BeByte(v, 0);
      0x20 <= control < 0x30 && Number(control - 0x20, BeByte(v, 1), BeByte(v, 2), BeByte(v, 3)) == v
  {
  }

  lemma {:induction false} EncodedBytes(v: bv32)
    requires v < 0x1000_0000
    ensures v <= MAX_SERIAL_28_BITS
    ensures v < 0x1000 ==> EncodeSerial(v) == [BeByte(v, 2), BeByte(v, 3)]
    ensures 0x1000 <= v < 0x10_0000 ==> EncodeSerial(v) == [0x10 | BeByte(v, 1), BeByte(v, 2), BeByte(v, 3)]
    ensures 0x10_0000 <= v ==> EncodeSerial(v) == [0x20 | BeByte(v, 0), BeByte(v, 1), BeByte(v, 2), BeByte(v, 3)]
  {
  }

  lemma {:induction false} ShortWireForm(v: bv32)
    requires v < 0x1000
    ensures var s := EncodeSerial(v); |s| == 2 && s[0] < 0x10 && Number(0, 0, s[0], s[1]) == v
  {
    EncodedBytes(v);
    ShortForm(v);
  }

  lemma {:induction false} MiddleWireForm(v: bv32)
    requires 0x1000 <= v < 0x10_0000
    ensures var s := EncodeSerial(v); |s| == 3 && 0x10 <= s[0] < 0x20 && Number(0, s[0] - 0x10, s[1], s[2]) == v
  {
    EncodedBytes(v);
    MiddleForm(v);
  }

  lemma {:induction false} LongWireForm(v: bv32)
    requires 0x10_0000 <= v < 0x1000_0000
    ensures var s := EncodeSerial(v); |s| == 4 && 0x20 <= s[0] < 0x30 && Number(s[0] - 0x20, s[1], s[2], s[3]) == v
  {
    EncodedBytes(v);
    LongForm(v);
  }

  /** The wire form of a serial, in numbers: two bytes below 2^12, three below 2^20, else four; the
      control byte's upper half counts the bytes, and its lower half with the bytes after it spells
      the serial. */
  lemma {:induction false} WireForm(v: bv32)
    requires v < 0x1000_0000
    ensures
      var s := EncodeSerial(v);
      if v < 0x1000 then |s| == 2 && s[0] < 0x10 && Number(0, 0, s[0], s[1]) == v
      else if v < 0x10_0000 then |s| == 3 && 0x10 <= s[0] < 0x20 && Number(0, s[0] - 0x10, s[1], s[2]) == v
      else |s| == 4 && 0x20 <= s[0] < 0x30 && Number(s[0] - 0x20, s[1], s[2], s[3]) == v
  {
    if v < 0x1000 {
      ShortWireForm(v);
    } else if v < 0x10_0000 {
      MiddleWireForm(v);
    } else {
      LongWireForm(v);
    }
  }

  /** What decoding makes of any input: the control byte's upper half gives the number of serial
      bytes, its lower half and those bytes spell the serial, and the rest is the subject. */
  lemma {:induction false} DecodeMeans(bytes: seq<bv8>)
    ensures
      if bytes == [] then Decode(bytes) == Err(EmptyDescriptor)
      else
        var control := bytes[0];
        var n := if control < 0x10 then 2 else if control < 0x20 then 3 else 4;
        if control >= 0x40 then Decode(bytes) == Err(ReservedControlBits(control))
        else if control >= 0x30 then Decode(bytes) == Err(ReservedSerialLengthBits(control))
        else if |bytes| < n then Decode(bytes) == Err(InsufficientLength(n, |bytes|))
        else if |bytes| > n + 32 then Decode(bytes) == Err(SubjectTooLong(|bytes| - n))
        else
          && Decode(bytes).Ok? && Decode(bytes).value.subject == bytes[n..]
          && Decode(bytes).value.serial ==
             if n == 2 then Number(0, 0, control, bytes[1])
             else if n == 3 then Number(0, control - 0x10, bytes[1], bytes[2])
             else Number(control - 0x20, bytes[1], bytes[2], bytes[3])
  {
    if bytes != [] {
      ControlHalves(bytes[0]);
      if Decode(bytes).Ok? {
        var control, n := SerialMsb(bytes[0]), 1 + SerialLen(bytes[0]);
        if n == 2 {
          WordIsNumber(0, 0, control, bytes[1]);
        } else if n == 3 {
          WordIsNumber(0, control, bytes[1], bytes[2]);
        } else {
          WordIsNumber(control, bytes[1], bytes[2], bytes[3]);
        }
      }
    }
  }

  /** The control byte, split into its halves. */
  lemma {:induction false} ControlHalves(b: bv8)
    ensures b >= 0x40 <==> CheckControl(b) == Some(ReservedControlBits(b))
    ensures 0x30 <= b < 0x40 <==> CheckControl(b) == Some(ReservedSerialLengthBits(b))
    ensures b < 0x30 <==> CheckControl(b).None?
    ensures b < 0x10 ==> SerialLen(b) == 1 && SerialMsb(b) == b
    ensures 0x10 <= b < 0x20 ==> SerialLen(b) == 2 && SerialMsb(b) == b - 0x10
    ensures 0x20 <= b < 0x30 ==> SerialLen(b) == 3 && SerialMsb(b) == b - 0x20
  {
  }

  /** Exactly which inputs are accepted. */
  lemma {:induction false} Accepted(bytes: seq<bv8>)
    ensures Decode(bytes).Ok? <==>
            && bytes != [] && bytes[0] < 0x30
            && var n := if bytes[0] < 0x10 then 2 else if bytes[0] < 0x20 then 3 else 4;
            n <= |bytes| <= n + 32
  {
    DecodeMeans(bytes);
  }
}
