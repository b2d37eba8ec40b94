/** The coinbaser response: its parser, the printer of the documented format, and how the two relate. */
module Coinbaser {
  import opened Bytes

  datatype CoinbaseOutput = CoinbaseOutput(script: seq<byte>, value: u64)

  /** Tag and identifier are kept as the raw bytes of the response. */
  datatype CoinbasePayout = CoinbasePayout(outputs: seq<CoinbaseOutput>, primaryTag: seq<byte>, uniqueId: seq<byte>)

  datatype ParseError =
    | ResponseTooShort
    | LengthExceedsBuffer
    | MissingTerminator
    | NoTagLength
    | TagExceedsData
    | NoIdLength
    | IdExceedsData
    | NoOutputCount
    | NoOutputValue
    | NoScriptLength
    | ScriptExceedsData

  /** `OutOfRange` is the panic of an index one past the end of the buffer. */
  datatype Parsed = Accepted(payout: CoinbasePayout) | Rejected(error: ParseError) | OutOfRange

  const TERMINATOR: byte := 0xFE

  // ----- the recursive specification

  datatype Step<+T> = Got(value: T, rest: seq<byte>) | Fail(error: ParseError)

  /** A length byte and that many bytes. */
  function TakeField(s: seq<byte>, missing: ParseError, exceeds: ParseError): Step<seq<byte>> {
    if s == [] then Fail(missing)
    else if |s| - 1 < s[0] then Fail(exceeds)
    else Got(s[1..1 + s[0]], s[1 + s[0]..])
  }

  function TakeOutput(s: seq<byte>): Step<CoinbaseOutput> {
    if |s| < 8 then Fail(NoOutputValue) else
      match TakeField(s[8..], NoScriptLength, ScriptExceedsData)
      case Fail(e) => Fail(e)
      case Got(script, rest) => Got(CoinbaseOutput(script, U64(s[..8])), rest)
  }

  function TakeOutputs(s: seq<byte>, count: nat): Step<seq<CoinbaseOutput>> {
    if count == 0 then Got([], s) else
      match TakeOutput(s)
      case Fail(e) => Fail(e)
      case Got(o, rest) => Prepend([o], TakeOutputs(rest, count - 1))
  }

  function Prepend(done: seq<CoinbaseOutput>, later: Step<seq<CoinbaseOutput>>): Step<seq<CoinbaseOutput>> {
    match later
    case Fail(e) => Fail(e)
    case Got(os, rest) => Got(done + os, rest)
  }

  function TakePayout(s: seq<byte>): Step<CoinbasePayout> {
    match TakeField(s, NoTagLength, TagExceedsData)
    case Fail(e) => Fail(e)
    case Got(tag, afterTag) =>
      match TakeField(afterTag, NoIdLength, IdExceedsData)
      case Fail(e) => Fail(e)
      case Got(id, afterId) =>
        if afterId == [] then Fail(NoOutputCount) else
          match TakeOutputs(afterId[1..], afterId[0])
          case Fail(e) => Fail(e)
          case Got(outputs, rest) => Got(CoinbasePayout(outputs, tag, id), rest)
  }

  function DeclaredLength(data: seq<byte>): u32
    requires |data| >= 12
  {
    U32(data[8..12])
  }

  function Parse(data: seq<byte>): Parsed {
    if |data| < 13 then Rejected(ResponseTooShort) else
      var end := 12 + DeclaredLength(data);
      if end > |data| then Rejected(LengthExceedsBuffer)
      else if end == |data| then OutOfRange
      else if data[end] != TERMINATOR then Rejected(MissingTerminator)
      else
        match TakePayout(data[12..end])
        case Fail(e) => Rejected(e)
        case Got(payout, _) => Accepted(payout)
  }

  // ----- the parser

  /** parse_coinbase_response: one pass with an advancing offset and a counted loop. */
  method ParseCoinbaseResponse(data: seq<byte>) returns (r: Parsed)
    ensures r == Parse(data)
  {
    if |data| < 13 {
      return Rejected(ResponseTooShort);
    }
    var offset := 8;
    var length := U32(data[offset..offset + 4]);
    offset := offset + 4;
    if offset + length > |data| {
      return Rejected(LengthExceedsBuffer);
    }
    if offset + length == |data| {
      return OutOfRange; // data[offset + length] is one past the end
    }
    if data[offset + length] != TERMINATOR {
      return Rejected(MissingTerminator);
    }
    var body := data[offset..offset + length];
    r := ParseBody(body);
  }

  /** The part of parse_coinbase_response that walks the declared body. */
  method ParseBody(body: seq<byte>) returns (r: Parsed)
    ensures r == match TakePayout(body) case Fail(e) => Rejected(e) case Got(payout, _) => Accepted(payout)
  {
    hide TakeOutputs, TakeOutput, U64;
    var offset := 0;
    if offset >= |body| {
      return Rejected(NoTagLength);
    }
    var tagLength := body[offset];
    offset := offset + 1;
    if offset + tagLength > |body| {
      return Rejected(TagExceedsData);
    }
    var tag := body[offset..offset + tagLength];
    offset := offset + tagLength;
    ghost var afterTag := body[offset..];
    assert TakeField(body, NoTagLength, TagExceedsData) == Got(tag, afterTag);

    if offset >= |body| {
      return Rejected(NoIdLength);
    }
    var idLength := body[offset];
    offset := offset + 1;
    if offset + idLength > |body| {
      return Rejected(IdExceedsData);
    }
    var id := body[offset..offset + idLength];
    offset := offset + idLength;
    assert id == afterTag[1..1 + idLength] && body[offset..] == afterTag[1 + idLength..];

    if offset >= |body| {
      return Rejected(NoOutputCount);
    }
    var count := body[offset];
    assert body[offset..][1..] == body[offset + 1..];
    offset := offset + 1;
    var outputs := ParseOutputs(body, offset, count);
    match outputs
    case Fail(e) => return Rejected(e);
    case Got(os, _) => return Accepted(CoinbasePayout(os, tag, id));
  }

  /** The counted loop over the outputs. */
  method ParseOutputs(body: seq<byte>, start: nat, count: nat) returns (r: Step<seq<CoinbaseOutput>>)
    requires start <= |body|
    ensures r == TakeOutputs(body[start..], count)
  {
    var offset := start;
    var outputs: seq<CoinbaseOutput> := [];
    PrependTwice([], [], TakeOutputs(body[start..], count));
    for i := 0 to count
      invariant start <= offset <= |body|
      invariant TakeOutputs(body[start..], count) == Prepend(outputs, TakeOutputs(body[offset..], count - i))
    {
      var output, next := ParseOutput(body, offset);
      if output.Fail? {
        return Fail(output.error);
      }
      PrependTwice(outputs, [output.value], TakeOutputs(body[next..], count - i - 1));
      outputs := outputs + [output.value];
      offset := next;
    }
    assert outputs + [] == outputs;
    return Got(outputs, body[offset..]);
  }

  /** One turn of the loop, from `start` to the offset after the script. */
  method ParseOutput(body: seq<byte>, start: nat) returns (r: Step<CoinbaseOutput>, offset: nat)
    requires start <= |body|
    ensures r == TakeOutput(body[start..])
    ensures r.Got? ==> start <= offset <= |body| && r.rest == body[offset..]
  {
    offset := start;
    ghost var s := body[start..];
    if offset + 8 > |body| {
      return Fail(NoOutputValue), offset;
    }
    var value := U64(body[offset..offset + 8]);
    assert body[offset..offset + 8] == s[..8];
    offset := offset + 8;
    assert s[8..] == body[offset..];
    if offset >= |body| {
      return Fail(NoScriptLength), offset;
    }
    var scriptLength := body[offset];
    offset := offset + 1;
    if offset + scriptLength > |body| {
      return Fail(ScriptExceedsData), offset;
    }
    var script := body[offset..offset + scriptLength];
    offset := offset + scriptLength;
    assert script == s[8..][1..1 + scriptLength] && body[offset..] == s[8..][1 + scriptLength..];
    r := Got(CoinbaseOutput(script, value), body[offset..]);
  }

  lemma PrependTwice(a: seq<CoinbaseOutput>, b: seq<CoinbaseOutput>, later: Step<seq<CoinbaseOutput>>)
    ensures Prepend(a, Prepend(b, later)) == Prepend(a + b, later)
    ensures Prepend([], later) == later
  {
    if later.Got? {
      assert a + (b + later.value) == a + b + later.value && [] + later.value == later.value;
    }
  }

  // ----- the printer

  /** Every length that the format stores in one byte fits one byte. */
  predicate Printable(p: CoinbasePayout) {
    && |p.primaryTag| < 256 && |p.uniqueId| < 256 && |p.outputs| < 256
    && AllPrintable(p.outputs)
  }

  predicate AllPrintable(os: seq<CoinbaseOutput>) {
    forall o <- os :: |o.script| < 256
  }

  function PrintField(f: seq<byte>): seq<byte>
    requires |f| < 256
  {
    var length: byte := |f|;
    [length] + f
  }

  function PrintOutput(o: CoinbaseOutput): seq<byte>
    requires |o.script| < 256
  {
    LittleEndian(o.value, 8) + PrintField(o.script)
  }

  function PrintOutputs(os: seq<CoinbaseOutput>): seq<byte>
    requires AllPrintable(os)
  {
    if os == [] then [] else PrintOutput(os[0]) + PrintOutputs(os[1..])
  }

  function PrintPayout(p: CoinbasePayout): seq<byte>
    requires Printable(p)
  {
    var count: byte := |p.outputs|;
    PrintField(p.primaryTag) + (PrintField(p.uniqueId) + ([count] + PrintOutputs(p.outputs)))
  }

  /** A response in the documented format: value, length, payout and slack, terminator, anything after it. */
  function PrintResponse(value: u64, p: CoinbasePayout, slack: seq<byte>, trailing: seq<byte>): seq<byte>
    requires Printable(p)
  {
    var body := PrintPayout(p) + slack;
    LittleEndian(value, 8) + (LittleEndian(|body|, 4) + (body + [TERMINATOR] + trailing))
  }

  // ----- parsing what was printed, piece by piece

  lemma FieldRoundTrip(f: seq<byte>, rest: seq<byte>, missing: ParseError, exceeds: ParseError)
    requires |f| < 256
    ensures TakeField(PrintField(f) + rest, missing, exceeds) == Got(f, rest)
  {
  }

  lemma OutputRoundTrip(o: CoinbaseOutput, rest: seq<byte>)
    requires |o.script| < 256
    ensures TakeOutput(PrintOutput(o) + rest) == Got(o, rest)
  {
    var s := PrintOutput(o) + rest;
    assert s[..8] == LittleEndian(o.value, 8) && s[8..] == PrintField(o.script) + rest;
    U64RoundTrip(o.value);
    FieldRoundTrip(o.script, rest, NoScriptLength, ScriptExceedsData);
  }

  lemma {:induction false} OutputsRoundTrip(os: seq<CoinbaseOutput>, rest: seq<byte>)
    requires AllPrintable(os)
    ensures TakeOutputs(PrintOutputs(os) + rest, |os|) == Got(os, rest)
  {
    hide TakeOutput, PrintOutput;
    if os == [] {
      assert PrintOutputs(os) + rest == rest;
    } else {
      var later := PrintOutputs(os[1..]) + rest;
      assert PrintOutputs(os) + rest == PrintOutput(os[0]) + later;
      OutputRoundTrip(os[0], later);
      OutputsRoundTrip(os[1..], rest);
      assert [os[0]] + os[1..] == os;
    }
  }

  lemma PayoutRoundTrip(p: CoinbasePayout, slack: seq<byte>)
    requires Printable(p)
    ensures TakePayout(PrintPayout(p) + slack) == Got(p, slack)
  {
    var count: byte := |p.outputs|;
    var counted := [count] + PrintOutputs(p.outputs) + slack;
    var identified := PrintField(p.uniqueId) + counted;
    assert PrintPayout(p) + slack == PrintField(p.primaryTag) + identified;
    FieldRoundTrip(p.primaryTag, identified, NoTagLength, TagExceedsData);
    FieldRoundTrip(p.uniqueId, counted, NoIdLength, IdExceedsData);
    assert counted[1..] == PrintOutputs(p.outputs) + slack;
    OutputsRoundTrip(p.outputs, slack);
  }

  // ----- printing what was parsed, piece by piece

  lemma FieldSound(s: seq<byte>, missing: ParseError, exceeds: ParseError)
    ensures var t := TakeField(s, missing, exceeds);
            t.Got? ==> |t.value| < 256 && s == PrintField(t.value) + t.rest
  {
  }

  lemma OutputSound(s: seq<byte>)
    ensures var t := TakeOutput(s);
            t.Got? ==> |t.value.script| < 256 && s == PrintOutput(t.value) + t.rest
  {
    if |s| >= 8 {
      FieldSound(s[8..], NoScriptLength, ScriptExceedsData);
      U64Reencodes(s[..8]);
      assert s == s[..8] + s[8..];
    }
  }

  lemma {:induction false} OutputsSound(s: seq<byte>, count: nat)
    ensures var t := TakeOutputs(s, count);
            t.Got? ==> |t.value| == count && AllPrintable(t.value) && s == PrintOutputs(t.value) + t.rest
    decreases count
  {
    hide TakeOutput, PrintOutput;
    if count == 0 {
    } else {
      OutputSound(s);
      var first := TakeOutput(s);
      if first.Got? {
        OutputsSound(first.rest, count - 1);
        var later := TakeOutputs(first.rest, count - 1);
        if later.Got? {
          assert ([first.value] + later.value)[1..] == later.value;
        }
      }
    }
  }

  lemma PayoutSound(s: seq<byte>)
    ensures var t := TakePayout(s);
            t.Got? ==> Printable(t.value) && s == PrintPayout(t.value) + t.rest
  {
    hide TakeField, PrintField, TakeOutputs, PrintOutputs;
    FieldSound(s, NoTagLength, TagExceedsData);
    var tag := TakeField(s, NoTagLength, TagExceedsData);
    if tag.Got? {
      FieldSound(tag.rest, NoIdLength, IdExceedsData);
      var id := TakeField(tag.rest, NoIdLength, IdExceedsData);
      if id.Got? && id.rest != [] {
        OutputsSound(id.rest[1..], id.rest[0]);
        assert id.rest == [id.rest[0]] + id.rest[1..];
      }
    }
  }

  // ----- truncated payouts

  lemma PrefixSplit(s: seq<byte>, a: seq<byte>, b: seq<byte>)
    requires s < a + b
    ensures s < a || (s == a + s[|a|..] && s[|a|..] < b)
  {
    if |s| < |a| {
      assert s == (a + b)[..|s|] == a[..|s|];
    } else {
      var rest := s[|a|..];
      assert s == (a + b)[..|s|];
      assert s[..|a|] == a && rest == b[..|rest|];
    }
  }

  /** What is reported of an output that breaks off after `n` bytes. */
  function OutputCut(n: nat): ParseError {
    if n < 8 then NoOutputValue else if n == 8 then NoScriptLength else ScriptExceedsData
  }

  function OutputsCut(os: seq<CoinbaseOutput>, n: nat): (e: ParseError)
    ensures e in {NoOutputValue, NoScriptLength, ScriptExceedsData}
  {
    if os == [] || n < 9 + |os[0].script| then OutputCut(n) else OutputsCut(os[1..], n - 9 - |os[0].script|)
  }

  /** What is reported of a payout that breaks off after `n` bytes: the field that the cut falls into. */
  function PayoutCut(p: CoinbasePayout, n: nat): (e: ParseError)
    ensures e !in {ParseError.ResponseTooShort, LengthExceedsBuffer, MissingTerminator}
  {
    var idAt := 1 + |p.primaryTag|;
    var countAt := idAt + 1 + |p.uniqueId|;
    if n == 0 then NoTagLength
    else if n < idAt then TagExceedsData
    else if n == idAt then NoIdLength
    else if n < countAt then IdExceedsData
    else if n == countAt then NoOutputCount
    else OutputsCut(p.outputs, n - countAt - 1)
  }

  lemma CutField(f: seq<byte>, s: seq<byte>, missing: ParseError, exceeds: ParseError)
    requires |f| < 256 && s < PrintField(f)
    ensures TakeField(s, missing, exceeds) == Fail(if s == [] then missing else exceeds)
  {
  }

  lemma CutOutput(o: CoinbaseOutput, s: seq<byte>)
    requires |o.script| < 256 && s < PrintOutput(o)
    ensures TakeOutput(s) == Fail(OutputCut(|s|))
  {
    PrefixSplit(s, LittleEndian(o.value, 8), PrintField(o.script));
    if |s| >= 8 {
      CutField(o.script, s[8..], NoScriptLength, ScriptExceedsData);
    }
  }

  lemma {:induction false} CutOutputs(os: seq<CoinbaseOutput>, s: seq<byte>)
    requires AllPrintable(os) && s < PrintOutputs(os)
    ensures TakeOutputs(s, |os|) == Fail(OutputsCut(os, |s|))
  {
    hide TakeOutput, PrintOutput;
    var first := PrintOutput(os[0]);
    PrintedOutputSize(os[0]);
    PrefixSplit(s, first, PrintOutputs(os[1..]));
    if s < first {
      CutOutput(os[0], s);
    } else {
      OutputRoundTrip(os[0], s[|first|..]);
      CutOutputs(os[1..], s[|first|..]);
    }
  }

  lemma PrintedOutputSize(o: CoinbaseOutput)
    requires |o.script| < 256
    ensures |PrintOutput(o)| == 9 + |o.script|
  {
  }

  lemma CutPayout(p: CoinbasePayout, s: seq<byte>)
    requires Printable(p) && s < PrintPayout(p)
    ensures TakePayout(s) == Fail(PayoutCut(p, |s|))
  {
    hide TakeField, TakeOutputs, PrintOutputs, OutputsCut;
    var tag, id, count: byte := PrintField(p.primaryTag), PrintField(p.uniqueId), |p.outputs|;
    var counted := [count] + PrintOutputs(p.outputs);
    PrefixSplit(s, tag, id + counted);
    if s < tag {
      CutField(p.primaryTag, s, NoTagLength, TagExceedsData);
    } else {
      var s1 := s[|tag|..];
      FieldRoundTrip(p.primaryTag, s1, NoTagLength, TagExceedsData);
      PrefixSplit(s1, id, counted);
      if s1 < id {
        CutField(p.uniqueId, s1, NoIdLength, IdExceedsData);
      } else {
        var s2 := s1[|id|..];
        FieldRoundTrip(p.uniqueId, s2, NoIdLength, IdExceedsData);
        if s2 != [] {
          PrefixSplit(s2, [count], PrintOutputs(p.outputs));
          CutOutputs(p.outputs, s2[1..]);
        }
      }
    }
  }

  lemma FailedField(s: seq<byte>, missing: ParseError, exceeds: ParseError) returns (f: seq<byte>)
    requires TakeField(s, missing, exceeds).Fail?
    ensures |f| < 256 && s < PrintField(f)
  {
    f := if s == [] then [] else s[1..] + Zeros(s[0] - (|s| - 1));
  }

  lemma FailedOutput(s: seq<byte>) returns (o: CoinbaseOutput)
    requires TakeOutput(s).Fail?
    ensures |o.script| < 256 && s < PrintOutput(o)
  {
    if |s| < 8 {
      var whole := s + Zeros(8 - |s|);
      o := CoinbaseOutput([], U64(whole));
      U64Reencodes(whole);
    } else {
      var script := FailedField(s[8..], NoScriptLength, ScriptExceedsData);
      o := CoinbaseOutput(script, U64(s[..8]));
      U64Reencodes(s[..8]);
      assert s == s[..8] + s[8..];
    }
  }

  lemma {:induction false} FailedOutputs(s: seq<byte>, count: nat) returns (os: seq<CoinbaseOutput>)
    requires TakeOutputs(s, count).Fail?
    ensures |os| == count && AllPrintable(os) && s < PrintOutputs(os)
    decreases count
  {
    hide TakeOutput, PrintOutput;
    var first := TakeOutput(s);
    if first.Fail? {
      var o := FailedOutput(s);
      var more := seq(count - 1, i => CoinbaseOutput([], 0));
      os := [o] + more;
      assert os[1..] == more;
    } else {
      OutputSound(s);
      var later := FailedOutputs(first.rest, count - 1);
      os := [first.value] + later;
      assert os[1..] == later;
    }
  }

  lemma FailedPayout(s: seq<byte>) returns (p: CoinbasePayout)
    requires TakePayout(s).Fail?
    ensures Printable(p) && s < PrintPayout(p)
  {
    hide TakeField, PrintField, TakeOutputs, PrintOutputs;
    var tag := TakeField(s, NoTagLength, TagExceedsData);
    if tag.Fail? {
      var f := FailedField(s, NoTagLength, TagExceedsData);
      p := CoinbasePayout([], f, []);
      return;
    }
    FieldSound(s, NoTagLength, TagExceedsData);
    var id := TakeField(tag.rest, NoIdLength, IdExceedsData);
    if id.Fail? {
      var f := FailedField(tag.rest, NoIdLength, IdExceedsData);
      p := CoinbasePayout([], tag.value, f);
      return;
    }
    FieldSound(tag.rest, NoIdLength, IdExceedsData);
    if id.rest == [] {
      p := CoinbasePayout([], tag.value, id.value);
    } else {
      var os := FailedOutputs(id.rest[1..], id.rest[0]);
      p := CoinbasePayout(os, tag.value, id.value);
      assert id.rest == [id.rest[0]] + id.rest[1..];
    }
  }

  // ----- whole responses

  /** One way of reading a buffer as a response. */
  predicate Decomposes(data: seq<byte>, value: u64, p: CoinbasePayout, slack: seq<byte>, trailing: seq<byte>) {
    && Printable(p)
    && |PrintPayout(p) + slack| < TWO_TO_THE_32
    && data == PrintResponse(value, p, slack, trailing)
  }

  lemma ResponseParts(value: u64, p: CoinbasePayout, slack: seq<byte>, trailing: seq<byte>)
    requires Printable(p) && |PrintPayout(p) + slack| < TWO_TO_THE_32
    ensures var data := PrintResponse(value, p, slack, trailing);
            var body := PrintPayout(p) + slack;
            && |data| == 13 + |body| + |trailing|
            && DeclaredLength(data) == |body|
            && U64(data[..8]) == value
            && data[12..12 + |body|] == body
            && data[12 + |body|] == TERMINATOR
            && data[13 + |body|..] == trailing
  {
    var data := PrintResponse(value, p, slack, trailing);
    var body := PrintPayout(p) + slack;
    assert data[..8] == LittleEndian(value, 8);
    assert data[8..12] == LittleEndian(|body|, 4);
    assert data[12..] == body + [TERMINATOR] + trailing;
    U64RoundTrip(value);
    U32RoundTrip(|body|);
  }

  /** Round trip: whatever the leading value, the slack and the trailing bytes, the payout comes back. */
  lemma RoundTrip(value: u64, p: CoinbasePayout, slack: seq<byte>, trailing: seq<byte>)
    requires Printable(p) && |PrintPayout(p) + slack| < TWO_TO_THE_32
    ensures Parse(PrintResponse(value, p, slack, trailing)) == Accepted(p)
  {
    hide PrintPayout, TakePayout, PrintResponse, DeclaredLength, U64;
    PayoutIsNotEmpty(p);
    ResponseParts(value, p, slack, trailing);
    PayoutRoundTrip(p, slack);
  }

  lemma PayoutIsNotEmpty(p: CoinbasePayout)
    requires Printable(p)
    ensures |PrintPayout(p)| >= 3
  {
  }

  /** Soundness: an accepted buffer is a printed response, and this is what it decomposes into. */
  lemma AcceptedDecomposes(data: seq<byte>) returns (value: u64, slack: seq<byte>, trailing: seq<byte>)
    requires Parse(data).Accepted?
    ensures Decomposes(data, value, Parse(data).payout, slack, trailing)
  {
    hide TakePayout, PrintPayout, LittleEndian, U64, U32;
    var end := 12 + DeclaredLength(data);
    value, slack, trailing := U64(data[..8]), TakePayout(data[12..end]).rest, data[end + 1..];
    var p := Parse(data).payout;
    PayoutSound(data[12..end]);
    U64Reencodes(data[..8]);
    U32Reencodes(data[8..12]);
    assert data == data[..8] + (data[8..12] + (data[12..end] + [data[end]] + data[end + 1..]));
  }

  /** The parser accepts exactly the printed responses. */
  lemma AcceptedIffPrinted(data: seq<byte>, p: CoinbasePayout)
    ensures Parse(data) == Accepted(p) <==> exists value, slack, trailing :: Decomposes(data, value, p, slack, trailing)
  {
    if Parse(data) == Accepted(p) {
      var value, slack, trailing := AcceptedDecomposes(data);
    }
    if exists value, slack, trailing :: Decomposes(data, value, p, slack, trailing) {
      var value, slack, trailing :| Decomposes(data, value, p, slack, trailing);
      RoundTrip(value, p, slack, trailing);
    }
  }

  /** Unambiguity: a buffer decomposes in at most one way. */
  lemma DecompositionIsUnique(data: seq<byte>, v: u64, p: CoinbasePayout, s: seq<byte>, t: seq<byte>,
                              w: u64, q: CoinbasePayout, s': seq<byte>, t': seq<byte>)
    requires Decomposes(data, v, p, s, t) && Decomposes(data, w, q, s', t')
    ensures v == w && p == q && s == s' && t == t'
  {
    hide PrintResponse, Printable, PrintPayout, TakePayout, DeclaredLength, U64;
    ResponseParts(v, p, s, t);
    ResponseParts(w, q, s', t');
    PayoutRoundTrip(p, s);
    PayoutRoundTrip(q, s');
  }

  /** The documented sizes: three length bytes, tag, identifier, and nine bytes and a script per output. */
  function OutputsSize(os: seq<CoinbaseOutput>): nat {
    if os == [] then 0 else 9 + |os[0].script| + OutputsSize(os[1..])
  }

  lemma {:induction false} PrintedOutputsSize(os: seq<CoinbaseOutput>)
    requires AllPrintable(os)
    ensures |PrintOutputs(os)| == OutputsSize(os)
  {
    if os == [] {
    } else {
      PrintedOutputsSize(os[1..]);
    }
  }

  lemma PayoutFitsDeclaredLength(data: seq<byte>)
    requires Parse(data).Accepted?
    ensures var p := Parse(data).payout;
            3 + |p.primaryTag| + |p.uniqueId| + OutputsSize(p.outputs) <= DeclaredLength(data)
  {
    PayoutSound(data[12..12 + DeclaredLength(data)]);
    PrintedOutputsSize(Parse(data).payout.outputs);
  }

  /** The outcome depends on the length field, the body and the terminator alone. */
  lemma OutcomeDependsOnBody(data: seq<byte>, other: seq<byte>)
    requires |data| >= 13 && |other| >= 13
    requires DeclaredLength(data) == DeclaredLength(other)
    requires 12 + DeclaredLength(data) < |data| && 12 + DeclaredLength(other) < |other|
    requires data[12..13 + DeclaredLength(data)] == other[12..13 + DeclaredLength(data)]
    ensures Parse(data) == Parse(other)
  {
    var end := 12 + DeclaredLength(data);
    assert data[12..end] == data[12..end + 1][..end - 12] && data[end] == data[12..end + 1][end - 12];
    assert other[12..end] == other[12..end + 1][..end - 12] && other[end] == other[12..end + 1][end - 12];
  }

  /**
    * A body is rejected exactly if it is a truncated payout, and the error names the field that the cut falls into:
    * there is no other way for a body to be malformed.
    */
  lemma RejectedIffTruncated(data: seq<byte>, e: ParseError)
    requires |data| >= 13 && 12 + U32(data[8..12]) < |data| && data[12 + U32(data[8..12])] == 0xFE
    ensures var body := data[12..12 + U32(data[8..12])];
            Parse(data) == Rejected(e)
            <==> exists p :: Printable(p) && body < PrintPayout(p) && e == PayoutCut(p, |body|)
  {
    hide TakePayout, PrintPayout, PayoutCut, Printable;
    var body := data[12..12 + U32(data[8..12])];
    if TakePayout(body).Fail? {
      var p := FailedPayout(body);
      CutPayout(p, body);
      assert Printable(p) && body < PrintPayout(p);
    }
    forall p | Printable(p) && body < PrintPayout(p)
      ensures TakePayout(body) == Fail(PayoutCut(p, |body|))
    {
      CutPayout(p, body);
    }
  }

  /** An accepted buffer has 0xFE right behind its declared body, and any other byte there is rejected. */
  lemma TerminatorDecides(data: seq<byte>)
    requires |data| >= 13 && 12 + U32(data[8..12]) < |data|
    ensures var end := 12 + U32(data[8..12]);
            && (Parse(data).Accepted? ==> data[end] == 0xFE)
            && (Parse(data) == Rejected(MissingTerminator) <==> data[end] != 0xFE)
  {
    hide TakePayout, PrintPayout, PayoutCut, Printable;
    var body := data[12..12 + U32(data[8..12])];
    if TakePayout(body).Fail? {
      var p := FailedPayout(body);
      CutPayout(p, body);
    }
  }

  /** Of an accepted body only the printed payout matters: any slack may take the place of the old. */
  lemma SlackIsIgnored(data: seq<byte>, other: seq<byte>)
    requires Parse(data).Accepted? && |other| >= 13
    requires 12 + DeclaredLength(other) < |other| && other[12 + DeclaredLength(other)] == TERMINATOR
    requires Printable(Parse(data).payout) && PrintPayout(Parse(data).payout) <= other[12..12 + DeclaredLength(other)]
    ensures Parse(other) == Parse(data)
  {
    var p, body := Parse(data).payout, other[12..12 + DeclaredLength(other)];
    PayoutRoundTrip(p, body[|PrintPayout(p)|..]);
    assert body == PrintPayout(p) + body[|PrintPayout(p)|..];
  }

  /**
    * The index one past the end: a buffer that stops just before its terminator passes the length check and is
    * then read out of range. Those buffers, and no others, are the ones the parser does not answer.
    */
  lemma OutOfRangeIff(data: seq<byte>)
    ensures Parse(data) == OutOfRange <==> |data| >= 13 && 12 + DeclaredLength(data) == |data|
  {
  }

  lemma OutOfRangeExample()
    ensures Parse([0, 0, 0, 0, 0, 0, 0, 0, 1, 0, 0, 0, 0]) == OutOfRange
  {
    var data: seq<byte> := [0, 0, 0, 0, 0, 0, 0, 0, 1, 0, 0, 0, 0];
    assert data[8..12] == [1, 0, 0, 0];
    U32RoundTrip(1);
    assert LittleEndian(1, 4) == [1, 0, 0, 0];
  }
}
