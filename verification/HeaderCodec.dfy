/** The packed four-byte message header and the command table. */
module HeaderCodec {
  import opened Bytes

  /** The fields of a message header before packing. */
  datatype DatumMessageHeader = DatumMessageHeader(
    cmdLen: u32,
    reserved: byte,
    isSigned: bool,
    isEncryptedPubkey: bool,
    isEncryptedChannel: bool,
    protoCmd: byte)

  const LENGTH_LIMIT: nat := 0x40_0000

  function Flag(b: bool): byte {
    if b then 1 else 0
  }

  /** `[cmd_len:22][reserved:2][flags:3][proto_cmd:5]`. */
  const WIDTHS: seq<nat> := [22, 2, 1, 1, 1, 5]

  function Fields(h: DatumMessageHeader): (values: seq<nat>)
    ensures |values| == |WIDTHS|
  {
    [h.cmdLen, h.reserved, Flag(h.isSigned), Flag(h.isEncryptedPubkey), Flag(h.isEncryptedChannel), h.protoCmd]
  }

  /** The packed form: the fields in one number, lowest bits first, as four little-endian bytes. */
  function Pack(h: DatumMessageHeader): Word {
    LittleEndian(PackFields(Fields(h), WIDTHS), 4)
  }

  function Unpack(w: Word): (h: DatumMessageHeader)
    ensures h.cmdLen < LENGTH_LIMIT && h.reserved < 4 && h.protoCmd < 32
  {
    Power2Of32();
    var f := UnpackFields(U32(w), WIDTHS);
    DatumMessageHeader(f[0], f[1], f[2] == 1, f[3] == 1, f[4] == 1, f[5])
  }

  lemma WidthsFillAWord()
    ensures Total(WIDTHS) == 32
  {
    assert WIDTHS[1..][1..][1..] == [1, 1, 5];
    assert Total([1, 1, 5]) == 7;
    assert Total(WIDTHS[1..]) == 10;
  }

  /** The low 22, 2 and 5 bits of the numeric fields. */
  function Masked(h: DatumMessageHeader): DatumMessageHeader {
    h.(cmdLen := h.cmdLen % LENGTH_LIMIT, reserved := h.reserved % 4, protoCmd := h.protoCmd % 32)
  }

  lemma LowFields(h: DatumMessageHeader)
    ensures Low(h.cmdLen, 22) == h.cmdLen % LENGTH_LIMIT
    ensures Low(h.reserved, 2) == h.reserved % 4
    ensures Low(h.protoCmd, 5) == h.protoCmd % 32
    ensures forall b :: Low(Flag(b), 1) == Flag(b)
  {
    Power2Of32();
    LowIsMod(h.cmdLen, 22);
    LowIsMod(h.reserved, 2);
    LowIsMod(h.protoCmd, 5);
    LowIsMod(0, 1);
    LowIsMod(1, 1);
  }

  /** Unpacking a packed header gives exactly the masked fields. */
  lemma UnpackPack(h: DatumMessageHeader)
    ensures Unpack(Pack(h)) == Masked(h)
  {
    WidthsFillAWord();
    Power2Of32();
    PackFieldsBound(Fields(h), WIDTHS);
    U32RoundTrip(PackFields(Fields(h), WIDTHS));
    UnpackPackFields(Fields(h), WIDTHS);
    LowFields(h);
  }

  /** Every four-byte word is the packed form of the header it unpacks to. */
  lemma PackUnpack(w: Word)
    ensures Pack(Unpack(w)) == w
  {
    hide PackFields, UnpackFields, LittleEndian, U32, Low;
    WidthsFillAWord();
    Power2Of32();
    U32Reencodes(w);
    PackUnpackFields(U32(w), WIDTHS);
    assert Fields(Unpack(w)) == UnpackFields(U32(w), WIDTHS);
  }

  /** A header survives the wire exactly when every field fits its bits. */
  lemma SurvivesIffInRange(h: DatumMessageHeader)
    ensures Unpack(Pack(h)) == h <==> h.cmdLen < LENGTH_LIMIT && h.reserved < 4 && h.protoCmd < 32
  {
    hide Pack, Unpack;
    UnpackPack(h);
  }

  // ----- byte by byte, as the source does it

  /** The four bytes of a header, each or-ed together from disjoint bits. */
  function HeaderBytes(h: DatumMessageHeader): Word {
    [h.cmdLen % 0x100,
     h.cmdLen / 0x100 % 0x100,
     h.cmdLen / 0x1_0000 % 0x40 + h.reserved % 4 * 0x40,
     Flag(h.isSigned) + Flag(h.isEncryptedPubkey) * 2 + Flag(h.isEncryptedChannel) * 4 + h.protoCmd * 8 % 0x100]
  }

  lemma FourBytesOf(length: nat, two: nat, eight: nat)
    requires length < LENGTH_LIMIT && two < 4 && eight < 0x100
    ensures LittleEndian(length + 0x40_0000 * (two + 4 * eight), 4)
         == [length % 0x100, length / 0x100 % 0x100, length / 0x1_0000 + two * 0x40, eight]
  {
    hide LittleEndian;
    var n := length + 0x40_0000 * (two + 4 * eight);
    var l, m, t := length % 0x100, length / 0x100 % 0x100, length / 0x1_0000;
    assert length == l + 0x100 * m + 0x1_0000 * t;
    BytesOfNumber(l, m, t + two * 0x40, eight);
  }

  lemma BytesOfNumber(a: byte, b: byte, c: byte, d: byte)
    ensures var w: nat, x: nat, y: nat, z: nat := a, b, c, d;
            LittleEndian(w + 0x100 * x + 0x1_0000 * y + 0x100_0000 * z, 4) == [a, b, c, d]
  {
    var w: nat, x: nat, y: nat, z: nat := a, b, c, d;
    var upper, middle := y + 0x100 * z, x + 0x100 * (y + 0x100 * z);
    assert upper % 0x100 == y && upper / 0x100 == z;
    assert middle % 0x100 == x && middle / 0x100 == upper;
    assert LittleEndian(z, 1) == [d];
    assert LittleEndian(upper, 2) == [c, d];
    assert LittleEndian(middle, 3) == [b, c, d];
    assert (w + 0x100 * middle) % 0x100 == w && (w + 0x100 * middle) / 0x100 == middle;
  }

  lemma FourFields(s: nat, p: nat, c: nat, code: nat)
    ensures PackFields([s, p, c, code], [1, 1, 1, 5]) == s % 2 + 2 * (p % 2 + 2 * (c % 2 + 2 * (code % 32)))
  {
    assert PackFields([], []) == 0;
    Power2Of8();
    hide PackFields, Power2;
    PackOne(code, 5, 32, [], []);
    assert [code] + [] == [code] && [5] + [] == [5];
    PackOne(c, 1, 2, [code], [5]);
    PackOne(p, 1, 2, [c, code], [1, 5]);
    PackOne(s, 1, 2, [p, c, code], [1, 1, 5]);
  }

  lemma CommandAndFlags(h: DatumMessageHeader)
    ensures PackFields(Fields(h)[2..], WIDTHS[2..]) == HeaderBytes(h)[3]
  {
    hide PackFields;
    var s: nat, p: nat, c: nat := Flag(h.isSigned), Flag(h.isEncryptedPubkey), Flag(h.isEncryptedChannel);
    FourFields(s, p, c, h.protoCmd);
    assert Fields(h)[2..] == [s, p, c, h.protoCmd] && WIDTHS[2..] == [1, 1, 1, 5];
    EightTimes(h.protoCmd);
  }

  lemma EightTimes(code: byte)
    ensures code * 8 % 0x100 == code % 32 * 8
  {
  }

  lemma PackOne(value: nat, width: nat, size: nat, values: seq<nat>, widths: seq<nat>)
    requires |values| == |widths| && size == Power2(width)
    ensures size > 0
    ensures PackFields([value] + values, [width] + widths) == value % size + size * PackFields(values, widths)
  {
    JoinSum(value, width, PackFields(values, widths));
  }

  lemma LengthBits(n: nat)
    ensures n % LENGTH_LIMIT % 0x100 == n % 0x100
    ensures n % LENGTH_LIMIT / 0x100 % 0x100 == n / 0x100 % 0x100
    ensures n % LENGTH_LIMIT / 0x1_0000 == n / 0x1_0000 % 0x40
  {
    var q := n / LENGTH_LIMIT;
    assert n == q * LENGTH_LIMIT + n % LENGTH_LIMIT;
    assert n / 0x100 == q * 0x4000 + n % LENGTH_LIMIT / 0x100;
    assert n / 0x1_0000 == q * 0x40 + n % LENGTH_LIMIT / 0x1_0000;
  }

  /** The bytes the source assembles are the packed form. */
  lemma HeaderBytesArePacked(h: DatumMessageHeader)
    ensures HeaderBytes(h) == Pack(h)
  {
    hide PackFields, LittleEndian, Power2, Low;
    Power2Of8();
    Power2Of32();
    CommandAndFlags(h);
    LengthBits(h.cmdLen);
    PackOne(h.reserved, 2, 4, Fields(h)[2..], WIDTHS[2..]);
    assert [h.reserved] + Fields(h)[2..] == Fields(h)[1..] && [2] + WIDTHS[2..] == WIDTHS[1..];
    var eight: nat := HeaderBytes(h)[3];
    var upper := PackFields(Fields(h)[1..], WIDTHS[1..]);
    assert upper == h.reserved % 4 + 4 * eight;
    PackOne(h.cmdLen, 22, LENGTH_LIMIT, Fields(h)[1..], WIDTHS[1..]);
    assert [h.cmdLen] + Fields(h)[1..] == Fields(h) && [22] + WIDTHS[1..] == WIDTHS;
    assert PackFields(Fields(h), WIDTHS) == h.cmdLen % LENGTH_LIMIT + LENGTH_LIMIT * upper;
    FourBytesOf(h.cmdLen % LENGTH_LIMIT, h.reserved % 4, HeaderBytes(h)[3]);
  }

  /** serialize_header_static: the four bytes are written in place. */
  method SerializeHeader(h: DatumMessageHeader) returns (bytes: array<byte>)
    ensures fresh(bytes) && bytes[..] == Pack(h)
  {
    bytes := new byte[4](_ => 0);
    bytes[0] := h.cmdLen % 0x100;
    bytes[1] := h.cmdLen / 0x100 % 0x100;
    bytes[2] := h.cmdLen / 0x1_0000 % 0x40;
    bytes[2] := bytes[2] + h.reserved % 4 * 0x40;
    bytes[3] :=
      Flag(h.isSigned) + Flag(h.isEncryptedPubkey) * 2 + Flag(h.isEncryptedChannel) * 4 + h.protoCmd * 8 % 0x100;
    HeaderBytesArePacked(h);
  }

  /** The header read off four bytes, field by field. */
  function HeaderOfBytes(w: Word): DatumMessageHeader {
    var low: nat, middle: nat, high: nat := w[0], w[1], w[2] % 0x40;
    DatumMessageHeader(low + middle * 0x100 + high * 0x1_0000, w[2] / 0x40 % 4,
                       w[3] % 2 != 0, w[3] / 2 % 2 != 0, w[3] / 4 % 2 != 0, w[3] / 8)
  }

  /** deserialize_header_static rejects fewer than four bytes, ignores what follows, and inverts packing. */
  function DeserializeHeader(s: seq<byte>): (r: Option<DatumMessageHeader>)
    ensures r.None? <==> |s| < 4
    ensures r.Some? ==> r.value == Unpack(s[..4])
  {
    if |s| < 4 then None else
      HeaderOfBytesUnpacks(s[..4]);
      Some(HeaderOfBytes(s[..4]))
  }

  lemma LengthOfBytes(low: nat, middle: nat, high: nat)
    requires low < 0x100 && middle < 0x100 && high < 0x40
    ensures var n := low + middle * 0x100 + high * 0x1_0000;
            n < LENGTH_LIMIT && n % 0x100 == low && n / 0x100 % 0x100 == middle && n / 0x1_0000 == high
  {
    assert (low + middle * 0x100 + high * 0x1_0000) / 0x100 == middle + high * 0x100;
    assert (middle + high * 0x100) / 0x100 == high;
  }

  lemma FlagsOfByte(b: byte)
    ensures Flag(b % 2 != 0) + Flag(b / 2 % 2 != 0) * 2 + Flag(b / 4 % 2 != 0) * 4 + b / 8 * 8 % 0x100 == b
  {
    var half, quarter := b / 2, b / 4;
    assert b / 8 == quarter / 2 && quarter == half / 2;
    assert b == b % 2 + 2 * half && half == half % 2 + 2 * quarter && quarter == quarter % 2 + 2 * (quarter / 2);
  }

  lemma HeaderOfBytesUnpacks(w: Word)
    ensures HeaderOfBytes(w) == Unpack(w)
  {
    hide Pack, Unpack;
    var h := HeaderOfBytes(w);
    LengthOfBytes(w[0], w[1], w[2] % 0x40);
    FlagsOfByte(w[3]);
    assert HeaderBytes(h) == w;
    HeaderBytesArePacked(h);
    UnpackPack(h);
  }

  /** DatumCommand. */
  datatype DatumCommand =
    | Handshake
    | FetchCoinbaser
    | SubmitPow
    | JobUpdate
    | ClientConfig
    | JobValidation
    | ShareResponse
    | BlockNotify

  /** The enum discriminants, as `command as u8`. */
  function Code(c: DatumCommand): byte {
    match c
    case Handshake => 0
    case FetchCoinbaser => 0x11
    case SubmitPow => 2
    case JobUpdate => 3
    case ClientConfig => 0x99
    case JobValidation => 0x50
    case ShareResponse => 0x8F
    case BlockNotify => 0xF9
  }

  /** DatumCommand::from_u8. */
  function FromCode(b: byte): Option<DatumCommand> {
    match b
    case 0 => Some(Handshake)
    case 0x11 => Some(FetchCoinbaser)
    case 2 => Some(SubmitPow)
    case 3 => Some(JobUpdate)
    case 0x99 => Some(ClientConfig)
    case 0x50 => Some(JobValidation)
    case 0x8F => Some(ShareResponse)
    case 0xF9 => Some(BlockNotify)
    case _ => None
  }

  /** The command table: decoding inverts the discriminants, and any other byte is unknown. */
  lemma CommandTable()
    ensures forall b, c :: FromCode(b) == Some(c) <==> Code(c) == b
    ensures [Code(Handshake), Code(FetchCoinbaser), Code(SubmitPow), Code(JobUpdate)] == [0, 0x11, 2, 3]
    ensures [Code(ClientConfig), Code(JobValidation), Code(ShareResponse), Code(BlockNotify)]
         == [0x99, 0x50, 0x8F, 0xF9]
  {
  }

  /** The commands whose code fits the five-bit header field. */
  predicate Fits(c: DatumCommand) {
    Code(c) < 32
  }

  /** No header word names any command but these four, and only their four codes name one. */
  lemma ReachableCommands(w: Word)
    ensures FromCode(Unpack(w).protoCmd).Some? <==> Unpack(w).protoCmd in {0, 2, 3, 0x11}
    ensures FromCode(Unpack(w).protoCmd) in
              {None, Some(Handshake), Some(FetchCoinbaser), Some(SubmitPow), Some(JobUpdate)}
    ensures FromCode(Unpack(w).protoCmd).Some? ==> Fits(FromCode(Unpack(w).protoCmd).value)
  {
    assert Unpack(w).protoCmd < 32;
  }

  /** A command survives the header exactly when its code is below 32; the others all become unknown. */
  lemma CommandSurvives(c: DatumCommand, h: DatumMessageHeader)
    requires h.protoCmd == Code(c)
    ensures FromCode(Unpack(Pack(h)).protoCmd) == (if Fits(c) then Some(c) else None)
  {
    hide Pack, Unpack;
    UnpackPack(h);
  }
}
