/**
 Decoding an HTTP/1.1 chunked body (section 7.1 of RFC 9112), as the attestation client does it.
 Accepted bodies are characterised exactly, and decoding undoes encoding.
 */
module ChunkedBody {
  import opened Primitives

  type Bytes = seq<byte>

  const CR: byte := 13
  const LF: byte := 10
  const CRLF: Bytes := [CR, LF]
  const SEMICOLON: nat := 59
  const USIZE_MAX: nat := 0xffff_ffff_ffff_ffff

  ghost predicate CrlfAt(b: Bytes, i: nat) {
    i + 1 < |b| && b[i] == CR && b[i + 1] == LF
  }

  ghost predicate CrlfFree(b: Bytes) {
    forall i: nat :: !CrlfAt(b, i)
  }

  function FindCrlf(b: Bytes): (r: Option<nat>)
    ensures r.Some? ==> CrlfAt(b, r.value) && forall i: nat :: i < r.value ==> !CrlfAt(b, i)
    ensures r.None? ==> CrlfFree(b)
  {
    if |b| < 2 then None
    else if b[0] == CR && b[1] == LF then Some(0)
    else
      assert forall i: nat :: CrlfAt(b, i + 1) == CrlfAt(b[1..], i);
      assert !CrlfAt(b, 0);
      match FindCrlf(b[1..])
      case None =>
        assert forall i: nat :: CrlfAt(b, i) ==> i > 0 && CrlfAt(b[1..], i - 1);
        None
      case Some(i) =>
        assert forall j: nat :: CrlfAt(b, j) ==> j > 0 && CrlfAt(b[1..], j - 1);
        Some(i + 1)
  }

  // ---- Text of a size line ----

  predicate Continues(b: Bytes, i: nat, lo: nat, hi: nat) {
    i < |b| && lo <= b[i] <= hi
  }

  /** Length of the UTF-8 sequence at the front, or zero when there is none (section 4 of RFC 3629). */
  function SequenceLength(b: Bytes): (n: nat)
    requires b != []
    ensures n <= |b| && n <= 4
    ensures b[0] < 0x80 ==> n == 1
  {
    var c := b[0];
    if c < 0x80 then 1
    else if 0xC2 <= c <= 0xDF then if Continues(b, 1, 0x80, 0xBF) then 2 else 0
    else if 0xE0 <= c <= 0xEF then
      var lo, hi := if c == 0xE0 then 0xA0 else 0x80, if c == 0xED then 0x9F else 0xBF;
      if Continues(b, 1, lo, hi) && Continues(b, 2, 0x80, 0xBF) then 3 else 0
    else if 0xF0 <= c <= 0xF4 then
      var lo, hi := if c == 0xF0 then 0x90 else 0x80, if c == 0xF4 then 0x8F else 0xBF;
      if Continues(b, 1, lo, hi) && Continues(b, 2, 0x80, 0xBF) && Continues(b, 3, 0x80, 0xBF) then 4 else 0
    else 0
  }

  /** The payload bits of one byte of a sequence. */
  function Bits(b: byte, modulus: nat): nat
    requires modulus > 0
  {
    b % modulus
  }

  function CodePoint(b: Bytes): nat
    requires b != [] && SequenceLength(b) > 0
  {
    var n := SequenceLength(b);
    if n == 1 then b[0]
    else if n == 2 then Bits(b[0], 32) * 64 + Bits(b[1], 64)
    else if n == 3 then Bits(b[0], 16) * 4096 + Bits(b[1], 64) * 64 + Bits(b[2], 64)
    else Bits(b[0], 8) * 262144 + Bits(b[1], 64) * 4096 + Bits(b[2], 64) * 64 + Bits(b[3], 64)
  }

  function Utf8(b: Bytes): Option<seq<nat>> {
    if b == [] then Some([]) else
    var n := SequenceLength(b);
    if n == 0 then None else
    match Utf8(b[n..])
    case None => None
    case Some(rest) => Some([CodePoint(b)] + rest)
  }

  function BeforeSemicolon(text: seq<nat>): seq<nat> {
    if text == [] || text[0] == SEMICOLON then [] else [text[0]] + BeforeSemicolon(text[1..])
  }

  predicate IsSpace(c: nat) {
    || 9 <= c <= 13 || c == 32 || c == 0x85 || c == 0xA0 || c == 0x1680 || 0x2000 <= c <= 0x200A
    || c == 0x2028 || c == 0x2029 || c == 0x202F || c == 0x205F || c == 0x3000
  }

  function TrimStart(text: seq<nat>): seq<nat> {
    if text != [] && IsSpace(text[0]) then TrimStart(text[1..]) else text
  }

  function TrimEnd(text: seq<nat>): seq<nat> {
    if text != [] && IsSpace(text[|text| - 1]) then TrimEnd(text[..|text| - 1]) else text
  }

  function HexDigit(c: nat): Option<nat> {
    if 48 <= c <= 57 then Some(c - 48)
    else if 97 <= c <= 102 then Some(c - 87)
    else if 65 <= c <= 70 then Some(c - 55)
    else None
  }

  /** The sixteen digits in order, in either case, and nothing else. */
  lemma HexDigitIff(c: nat, d: nat)
    ensures HexDigit(c) == Some(d) <==>
      d < 16 && (c == "0123456789abcdef"[d] as nat || c == "0123456789ABCDEF"[d] as nat)
  {
    assert "0123456789abcdef"[..] == ['0', '1', '2', '3', '4', '5', '6', '7', '8', '9', 'a', 'b', 'c', 'd', 'e', 'f'];
    assert "0123456789ABCDEF"[..] == ['0', '1', '2', '3', '4', '5', '6', '7', '8', '9', 'A', 'B', 'C', 'D', 'E', 'F'];
  }

  function HexValue(text: seq<nat>): Option<nat> {
    if text == [] then Some(0) else
    match (HexValue(text[..|text| - 1]), HexDigit(text[|text| - 1]))
    case (Some(v), Some(d)) => Some(16 * v + d)
    case _ => None
  }

  /** Parsing an unsigned machine word in base sixteen: an optional plus sign, then at least one digit. */
  function ParseHex(text: seq<nat>): Option<nat> {
    var digits := if text != [] && text[0] == 43 then text[1..] else text;
    if digits == [] then None else
    match HexValue(digits)
    case None => None
    case Some(v) => if v <= USIZE_MAX then Some(v) else None
  }

  function SizeOfText(text: seq<nat>): Option<nat> {
    ParseHex(TrimEnd(TrimStart(BeforeSemicolon(text))))
  }

  function SizeOfLine(line: Bytes): Option<nat> {
    match Utf8(line)
    case None => None
    case Some(text) => SizeOfText(text)
  }

  // ---- Decoding ----

  /** `Overflows` is the stop at the sum of a size and its line break when a machine word cannot hold it. */
  datatype Decoded = Data(bytes: Bytes) | MissingSizeLine | NotUtf8 | BadSize | Overflows | TruncatedChunk

  function Prefixed(out: Bytes, rest: Decoded): Decoded {
    match rest
    case Data(more) => Data(out + more)
    case _ => rest
  }

  function Decode(body: Bytes): Decoded
    decreases |body|
  {
    match FindCrlf(body)
    case None => MissingSizeLine
    case Some(end) =>
      var line, rest := body[..end], body[end + 2..];
      match SizeOfLine(line)
      case None => if Utf8(line).None? then NotUtf8 else BadSize
      case Some(size) =>
        if size == 0 then Data([])
        else if size + 2 > USIZE_MAX then Overflows
        else if |rest| < size + 2 then TruncatedChunk
        else Prefixed(rest[..size], Decode(rest[size + 2..]))
  }

  method DecodeChunked(input: Bytes) returns (r: Decoded)
    ensures r == Decode(input)
  {
    hide Utf8, SizeOfText, FindCrlf, CrlfFree, SequenceLength, CodePoint;
    NothingPrefixed(Decode(input));
    var body, out: Bytes := input, [];
    while true
      invariant Prefixed(out, Decode(body)) == Decode(input)
      decreases |body|
    {
      var lineEnd := FindCrlf(body);
      if lineEnd == None {
        return MissingSizeLine;
      }
      var text := Utf8(body[..lineEnd.value]);
      if text == None {
        return NotUtf8;
      }
      var size := SizeOfText(text.value);
      if size == None {
        return BadSize;
      }
      ghost var before := body;
      body := body[lineEnd.value + 2..];
      if size.value == 0 {
        return Data(out);
      }
      if size.value + 2 > USIZE_MAX {
        return Overflows;
      }
      if |body| < size.value + 2 {
        return TruncatedChunk;
      }
      PrefixedTwice(out, body[..size.value], Decode(body[size.value + 2..]));
      out := out + body[..size.value];
      body := body[size.value + 2..];
    }
  }

  lemma NothingPrefixed(d: Decoded)
    ensures Prefixed([], d) == d
  {
    if d.Data? {
      assert [] + d.bytes == d.bytes;
    }
  }

  lemma PrefixedTwice(a: Bytes, b: Bytes, d: Decoded)
    ensures Prefixed(a, Prefixed(b, d)) == Prefixed(a + b, d)
  {
    if d.Data? {
      assert a + (b + d.bytes) == (a + b) + d.bytes;
    }
  }

  // ---- Exactly the framed bodies are accepted ----

  /** A size line, that many bytes of data, and two bytes that are skipped whatever they are. */
  datatype Frame = Frame(line: Bytes, data: Bytes, skipped: Bytes)

  ghost predicate GoodFrame(f: Frame) {
    CrlfFree(f.line) && 0 < |f.data| <= USIZE_MAX - 2 && SizeOfLine(f.line) == Some(|f.data|) && |f.skipped| == 2
  }

  ghost predicate GoodFrames(frames: seq<Frame>) {
    forall i :: 0 <= i < |frames| ==> GoodFrame(frames[i])
  }

  function Framed(f: Frame): Bytes {
    f.line + CRLF + f.data + f.skipped
  }

  /** Frames one after another, and what follows them. */
  function Chained(frames: seq<Frame>, rest: Bytes): Bytes {
    if frames == [] then rest else Framed(frames[0]) + Chained(frames[1..], rest)
  }

  function Body(frames: seq<Frame>, last: Bytes, trailer: Bytes): Bytes {
    Chained(frames, last + CRLF + trailer)
  }

  function Payload(frames: seq<Frame>): Bytes {
    if frames == [] then [] else frames[0].data + Payload(frames[1..])
  }

  lemma FirstLine(line: Bytes, rest: Bytes)
    requires CrlfFree(line)
    ensures FindCrlf(line + CRLF + rest) == Some(|line|)
    ensures (line + CRLF + rest)[..|line|] == line && (line + CRLF + rest)[|line| + 2..] == rest
  {
    var b := line + CRLF + rest;
    assert CrlfAt(b, |line|);
    forall i: nat | i < |line| ensures !CrlfAt(b, i) {
      assert CrlfAt(b, i) ==> CrlfAt(line, i);
    }
  }

  /** Good frames contribute their data, and what follows them decides the rest. */
  lemma {:induction false} FramesDecode(frames: seq<Frame>, rest: Bytes)
    requires GoodFrames(frames)
    ensures Decode(Chained(frames, rest)) == Prefixed(Payload(frames), Decode(rest))
    decreases |frames|
  {
    hide SizeOfLine;
    if frames == [] {
      NothingPrefixed(Decode(rest));
    } else {
      var f, more := frames[0], Chained(frames[1..], rest);
      assert GoodFrame(f);
      var after := f.data + f.skipped + more;
      assert Chained(frames, rest) == f.line + CRLF + after;
      FirstLine(f.line, after);
      assert after[..|f.data|] == f.data && after[|f.data| + 2..] == more;
      FramesDecode(frames[1..], rest);
      PrefixedTwice(f.data, Payload(frames[1..]), Decode(rest));
    }
  }

  /** Decoding ends at a zero line or at a fault: what follows the frames before that point. */
  ghost predicate EndsAt(rest: Bytes, d: Decoded) {
    match d
    case MissingSizeLine => CrlfFree(rest)
    case _ => exists line, after :: rest == line + CRLF + after && CrlfFree(line) && LineEndsIt(line, after, d)
  }

  ghost predicate LineEndsIt(line: Bytes, after: Bytes, d: Decoded) {
    match d
    case Data(bytes) => SizeOfLine(line) == Some(0) && bytes == []
    case MissingSizeLine => false
    case NotUtf8 => Utf8(line) == None
    case BadSize => Utf8(line).Some? && SizeOfLine(line) == None
    case Overflows => SizeOfLine(line).Some? && USIZE_MAX < SizeOfLine(line).value + 2
    case TruncatedChunk =>
      SizeOfLine(line).Some? && 0 < SizeOfLine(line).value <= USIZE_MAX - 2 && |after| < SizeOfLine(line).value + 2
  }

  lemma EndDecodes(rest: Bytes, d: Decoded)
    requires EndsAt(rest, d)
    ensures Decode(rest) == d
  {
    hide SizeOfText, Utf8;
    if d != MissingSizeLine {
      var line, after :| rest == line + CRLF + after && CrlfFree(line) && LineEndsIt(line, after, d);
      FirstLine(line, after);
    } else {
      assert FindCrlf(rest) == None;
    }
  }

  function Ending(d: Decoded): Decoded {
    if d.Data? then Data([]) else d
  }

  /** Whether decoding goes on past the first size line. */
  predicate GoesOn(body: Bytes) {
    match FindCrlf(body)
    case None => false
    case Some(end) =>
      match SizeOfLine(body[..end])
      case None => false
      case Some(size) => 0 < size <= USIZE_MAX - 2 && end + 2 + size + 2 <= |body|
  }

  lemma EndsHere(body: Bytes)
    requires !GoesOn(body)
    ensures EndsAt(body, Decode(body)) && Decode(body) == Ending(Decode(body))
  {
    hide SizeOfText, Utf8;
    if FindCrlf(body).Some? {
      var end := FindCrlf(body).value;
      LineBeforeCrlf(body, end);
      assert LineEndsIt(body[..end], body[end + 2..], Decode(body));
    }
  }

  lemma StartsWithFrame(body: Bytes) returns (f: Frame, tail: Bytes)
    requires GoesOn(body)
    ensures GoodFrame(f) && body == f.line + CRLF + (f.data + f.skipped + tail) && |tail| < |body|
    ensures Decode(body) == Prefixed(f.data, Decode(tail))
  {
    hide SizeOfLine, CrlfFree;
    var end := FindCrlf(body).value;
    var line, after := body[..end], body[end + 2..];
    LineBeforeCrlf(body, end);
    var size := SizeOfLine(line).value;
    f, tail := Frame(line, after[..size], after[size..size + 2]), after[size + 2..];
    assert after == f.data + f.skipped + tail;
  }

  lemma {:induction false} DecodedIsChained(body: Bytes) returns (frames: seq<Frame>, rest: Bytes)
    ensures GoodFrames(frames) && body == Chained(frames, rest) && EndsAt(rest, Ending(Decode(body)))
    ensures Decode(body) == Prefixed(Payload(frames), Ending(Decode(body)))
    decreases |body|
  {
    hide Decode, Payload, Chained, GoesOn, EndsAt;
    if GoesOn(body) {
      var f, tail := StartsWithFrame(body);
      var more;
      more, rest := DecodedIsChained(tail);
      frames := [f] + more;
      PrependFrame(f, more, rest, body);
      PrefixedTwice(f.data, Payload(more), Ending(Decode(body)));
    } else {
      frames, rest := [], body;
      EndsHere(body);
      NothingChained(body);
      NothingPrefixed(Decode(body));
    }
  }

  lemma LineBeforeCrlf(body: Bytes, end: nat)
    requires CrlfAt(body, end) && forall i: nat :: i < end ==> !CrlfAt(body, i)
    ensures body == body[..end] + CRLF + body[end + 2..] && CrlfFree(body[..end])
  {
    forall i: nat ensures !CrlfAt(body[..end], i) {
      assert i < end ==> !CrlfAt(body, i);
    }
  }

  lemma NothingChained(rest: Bytes)
    ensures Chained([], rest) == rest && Payload([]) == []
  {}

  lemma PrependFrame(f: Frame, more: seq<Frame>, rest: Bytes, body: Bytes)
    requires GoodFrame(f) && GoodFrames(more)
    requires body == f.line + CRLF + (f.data + f.skipped + Chained(more, rest))
    ensures GoodFrames([f] + more) && body == Chained([f] + more, rest)
    ensures Payload([f] + more) == f.data + Payload(more)
  {
    assert ([f] + more)[1..] == more;
    assert body == Framed(f) + Chained(more, rest);
  }

  /**
   Every answer the decoder can give, error kinds included, is given exactly for the bodies that are framed chunks up
   to the point where decoding ends, and data only for the data those chunks carry.
   */
  lemma DecodedIff(body: Bytes, d: Decoded)
    ensures Decode(body) == d <==>
      exists frames, rest ::
        && GoodFrames(frames) && body == Chained(frames, rest) && EndsAt(rest, Ending(d))
        && (d.Data? ==> d.bytes == Payload(frames))
  {
    hide EndsAt, GoodFrames;
    if Decode(body) == d {
      var frames, rest := DecodedIsChained(body);
      assert Payload(frames) + [] == Payload(frames);
    }
    forall frames, rest | GoodFrames(frames) && body == Chained(frames, rest) && EndsAt(rest, Ending(d))
      ensures Decode(body) == Prefixed(Payload(frames), Ending(d))
    {
      FramesDecode(frames, rest);
      EndDecodes(rest, Ending(d));
    }
    assert forall frames :: Payload(frames) + [] == Payload(frames);
  }

  /**
   A body is accepted with some data if and only if it is framed chunks carrying that data, a zero line and a
   trailer.
   */
  lemma AcceptedIffFramed(body: Bytes, data: Bytes)
    ensures Decode(body) == Data(data) <==>
      exists frames, last, trailer ::
        && GoodFrames(frames) && CrlfFree(last) && SizeOfLine(last) == Some(0)
        && body == Body(frames, last, trailer) && data == Payload(frames)
  {
    hide SizeOfLine, Chained, GoodFrames, CrlfFree, Payload;
    if Decode(body) == Data(data) {
      var frames, rest := DecodedIsChained(body);
      var last, trailer :| rest == last + CRLF + trailer && CrlfFree(last) && LineEndsIt(last, trailer, Data([]));
      assert body == Body(frames, last, trailer) && data == Payload(frames);
    }
    forall frames, last, trailer |
      GoodFrames(frames) && CrlfFree(last) && SizeOfLine(last) == Some(0) && body == Body(frames, last, trailer)
      ensures Decode(body) == Data(Payload(frames))
    {
      BodyDecodes(frames, last, trailer);
    }
  }

  lemma BodyDecodes(frames: seq<Frame>, last: Bytes, trailer: Bytes)
    requires GoodFrames(frames) && CrlfFree(last) && SizeOfLine(last) == Some(0)
    ensures Decode(Body(frames, last, trailer)) == Data(Payload(frames))
  {
    hide SizeOfLine, Chained, GoodFrames, Payload;
    FramesDecode(frames, last + CRLF + trailer);
    FirstLine(last, trailer);
    assert Payload(frames) + [] == Payload(frames);
  }

  // ---- Decoding undoes encoding ----

  function HexChar(d: nat): byte
    requires d < 16
  {
    if d < 10 then 48 + d else 87 + d
  }

  function HexText(n: nat): (t: Bytes)
    ensures t != []
  {
    if n < 16 then [HexChar(n)] else HexText(n / 16) + [HexChar(n % 16)]
  }

  /** Nothing, or a semicolon and any text without a line break. */
  ghost predicate Extension(e: Bytes) {
    CrlfFree(e) && Utf8(e).Some? && (e != [] ==> e[0] == SEMICOLON)
  }

  datatype Chunk = Chunk(data: Bytes, extension: Bytes)

  ghost predicate GoodChunk(c: Chunk) {
    0 < |c.data| <= USIZE_MAX - 2 && Extension(c.extension)
  }

  function FrameOf(c: Chunk): Frame {
    Frame(HexText(|c.data|) + c.extension, c.data, CRLF)
  }

  function FramesOf(chunks: seq<Chunk>): (fs: seq<Frame>)
    ensures |fs| == |chunks|
    ensures forall i :: 0 <= i < |chunks| ==> fs[i] == FrameOf(chunks[i])
  {
    if chunks == [] then [] else [FrameOf(chunks[0])] + FramesOf(chunks[1..])
  }

  function Encode(chunks: seq<Chunk>, lastExtension: Bytes, trailer: Bytes): Bytes {
    Body(FramesOf(chunks), HexText(0) + lastExtension, trailer)
  }

  function Concatenated(chunks: seq<Chunk>): Bytes {
    if chunks == [] then [] else chunks[0].data + Concatenated(chunks[1..])
  }

  ghost predicate IsHexText(t: Bytes) {
    forall i :: 0 <= i < |t| ==> 48 <= t[i] <= 57 || 97 <= t[i] <= 102
  }

  lemma {:induction false} HexTextIsHex(n: nat)
    ensures IsHexText(HexText(n))
  {
    if n >= 16 {
      HexTextIsHex(n / 16);
    }
  }

  function Wide(b: Bytes): (s: seq<nat>)
    ensures |s| == |b| && forall i :: 0 <= i < |b| ==> s[i] == b[i]
  {
    seq(|b|, i requires 0 <= i < |b| => b[i])
  }

  lemma {:induction false} HexRoundTrip(n: nat)
    ensures HexValue(Wide(HexText(n))) == Some(n)
  {
    var t := Wide(HexText(n));
    if n < 16 {
      assert t[..|t| - 1] == [];
    } else {
      HexRoundTrip(n / 16);
      assert t[..|t| - 1] == Wide(HexText(n / 16));
      assert n == 16 * (n / 16) + n % 16;
    }
  }

  lemma OneAscii(b: Bytes)
    requires b != [] && b[0] < 0x80
    ensures Utf8(b) == (match Utf8(b[1..]) case None => None case Some(text) => Some([b[0]] + text))
  {}

  lemma {:induction false} AsciiThenText(ascii: Bytes, rest: Bytes)
    requires forall i :: 0 <= i < |ascii| ==> ascii[i] < 0x80
    requires Utf8(rest).Some?
    ensures Utf8(ascii + rest) == Some(Wide(ascii) + Utf8(rest).value)
  {
    hide SequenceLength, Wide, CodePoint, Utf8;
    if ascii == [] {
      assert ascii + rest == rest && Wide(ascii) + Utf8(rest).value == Utf8(rest).value;
    } else {
      AsciiThenText(ascii[1..], rest);
      assert (ascii + rest)[1..] == ascii[1..] + rest;
      OneAscii(ascii + rest);
      assert Wide(ascii) == [ascii[0]] + Wide(ascii[1..]);
      assert [ascii[0]] + (Wide(ascii[1..]) + Utf8(rest).value) == Wide(ascii) + Utf8(rest).value;
    }
  }

  lemma {:induction false} StopsAtSemicolon(text: seq<nat>, rest: seq<nat>)
    requires forall i :: 0 <= i < |text| ==> text[i] != SEMICOLON
    requires rest != [] ==> rest[0] == SEMICOLON
    ensures BeforeSemicolon(text + rest) == text
  {
    if text == [] {
      assert text + rest == rest;
    } else {
      assert (text + rest)[1..] == text[1..] + rest;
      StopsAtSemicolon(text[1..], rest);
    }
  }

  /** The size line an encoder writes is read back as its size, whatever extension follows it. */
  lemma SizeLineReads(n: nat, extension: Bytes)
    requires n <= USIZE_MAX && Extension(extension)
    ensures SizeOfLine(HexText(n) + extension) == Some(n)
  {
    hide Utf8, HexText, HexValue, Wide;
    var t := HexText(n);
    HexTextIsHex(n);
    AsciiThenText(t, extension);
    var rest := Utf8(extension).value;
    FirstCharacter(extension);
    StopsAtSemicolon(Wide(t), rest);
    assert TrimEnd(TrimStart(Wide(t))) == Wide(t);
    HexRoundTrip(n);
  }

  lemma FirstCharacter(b: Bytes)
    requires Utf8(b).Some?
    ensures b == [] ==> Utf8(b).value == []
    ensures b != [] && b[0] < 0x80 ==> Utf8(b).value != [] && Utf8(b).value[0] == b[0]
  {}

  lemma SizeLineHasNoBreak(n: nat, extension: Bytes)
    requires Extension(extension)
    ensures CrlfFree(HexText(n) + extension)
  {
    hide HexText, Utf8;
    var t := HexText(n);
    HexTextIsHex(n);
    forall i: nat ensures !CrlfAt(t + extension, i) {
      if i >= |t| {
        assert CrlfAt(t + extension, i) <==> CrlfAt(extension, i - |t|);
      }
    }
  }

  // ---- The text of a line is its UTF-8 reading ----

  /** A code point outside the surrogates. */
  predicate Scalar(c: nat) {
    c < 0xD800 || 0xE000 <= c < 0x110000
  }

  /** The bytes of a scalar value (section 3 of RFC 3629). */
  function Utf8Of(c: nat): (b: Bytes)
    requires Scalar(c)
    ensures b != []
  {
    if c < 0x80 then [c]
    else if c < 0x800 then [0xC0 + c / 64, 0x80 + c % 64]
    else if c < 0x10000 then [0xE0 + c / 4096, 0x80 + c / 64 % 64, 0x80 + c % 64]
    else [0xF0 + c / 262144, 0x80 + c / 4096 % 64, 0x80 + c / 64 % 64, 0x80 + c % 64]
  }

  predicate Scalars(text: seq<nat>) {
    forall i :: 0 <= i < |text| ==> Scalar(text[i])
  }

  function Utf8Text(text: seq<nat>): Bytes
    requires Scalars(text)
  {
    if text == [] then [] else Utf8Of(text[0]) + Utf8Text(text[1..])
  }

  lemma PayloadBits(b: byte)
    ensures 0x80 <= b <= 0xBF ==> Bits(b, 64) == b - 0x80
    ensures 0xC0 <= b <= 0xDF ==> Bits(b, 32) == b - 0xC0
    ensures 0xE0 <= b <= 0xEF ==> Bits(b, 16) == b - 0xE0
    ensures 0xF0 <= b <= 0xF4 ==> Bits(b, 8) == b - 0xF0
  {}

  lemma SplitOnce(c: nat, high: nat, low: nat)
    requires low < 64
    ensures c == 64 * high + low <==> c / 64 == high && c % 64 == low
  {}

  /** Dividing a scalar value into groups of six bits, and putting it together again. */
  lemma SixBits(c: nat)
    ensures c / 4096 == c / 64 / 64 && c / 262144 == c / 64 / 64 / 64
    ensures c / 4096 % 64 == c / 64 / 64 % 64
  {}

  lemma TwoBytes(c: nat, h: nat, l: nat, rest: Bytes)
    requires h < 32 && l < 64 && c == 64 * h + l && c >= 0x80
    ensures Utf8Of(c) == [0xC0 + h, 0x80 + l]
    ensures SequenceLength([0xC0 + h, 0x80 + l] + rest) == 2 && CodePoint([0xC0 + h, 0x80 + l] + rest) == c
  {
    hide Bits;
    SplitOnce(c, h, l);
    PayloadBits(0xC0 + h);
    PayloadBits(0x80 + l);
  }

  lemma ThreeBytes(c: nat, h: nat, m: nat, l: nat, rest: Bytes)
    requires h < 16 && m < 64 && l < 64 && c == 64 * (64 * h + m) + l && c >= 0x800 && Scalar(c)
    ensures Utf8Of(c) == [0xE0 + h, 0x80 + m, 0x80 + l]
    ensures SequenceLength([0xE0 + h, 0x80 + m, 0x80 + l] + rest) == 3
    ensures CodePoint([0xE0 + h, 0x80 + m, 0x80 + l] + rest) == c
  {
    hide Bits;
    SplitOnce(c, 64 * h + m, l);
    SplitOnce(64 * h + m, h, m);
    SixBits(c);
    PayloadBits(0xE0 + h);
    PayloadBits(0x80 + m);
    PayloadBits(0x80 + l);
  }

  lemma FourBytes(c: nat, g: nat, h: nat, m: nat, l: nat, rest: Bytes)
    requires g < 5 && h < 64 && m < 64 && l < 64 && c == 64 * (64 * (64 * g + h) + m) + l && 0x10000 <= c < 0x110000
    ensures Utf8Of(c) == [0xF0 + g, 0x80 + h, 0x80 + m, 0x80 + l]
    ensures SequenceLength([0xF0 + g, 0x80 + h, 0x80 + m, 0x80 + l] + rest) == 4
    ensures CodePoint([0xF0 + g, 0x80 + h, 0x80 + m, 0x80 + l] + rest) == c
  {
    hide Bits;
    SplitOnce(c, 64 * (64 * g + h) + m, l);
    SplitOnce(64 * (64 * g + h) + m, 64 * g + h, m);
    SplitOnce(64 * g + h, g, h);
    SixBits(c);
    PayloadBits(0xF0 + g);
    PayloadBits(0x80 + h);
    PayloadBits(0x80 + m);
    PayloadBits(0x80 + l);
  }

  lemma Utf8OfReads(c: nat, rest: Bytes)
    requires Scalar(c)
    ensures SequenceLength(Utf8Of(c) + rest) == |Utf8Of(c)| && CodePoint(Utf8Of(c) + rest) == c
  {
    if 0x80 <= c {
      hide Utf8Of, SequenceLength, CodePoint;
      var l, c1 := c % 64, c / 64;
      var m, c2 := c1 % 64, c1 / 64;
      if c < 0x800 {
        TwoBytes(c, c1, l, rest);
      } else if c < 0x10000 {
        ThreeBytes(c, c2, m, l, rest);
      } else {
        FourBytes(c, c2 / 64, c2 % 64, m, l, rest);
      }
    }
  }

  /** The bytes behind the lead byte of a sequence are continuation bytes, in the range its lead byte allows. */
  lemma SequenceShape(b: Bytes)
    requires b != [] && SequenceLength(b) > 1
    ensures var n := SequenceLength(b);
      && (forall i :: 1 <= i < n ==> 0x80 <= b[i] <= 0xBF)
      && (n == 2 ==> 0xC2 <= b[0] <= 0xDF)
      && (n == 3 ==> 0xE0 <= b[0] <= 0xEF && (b[0] == 0xE0 ==> b[1] >= 0xA0) && (b[0] == 0xED ==> b[1] <= 0x9F))
      && (n == 4 ==> 0xF0 <= b[0] <= 0xF4 && (b[0] == 0xF0 ==> b[1] >= 0x90) && (b[0] == 0xF4 ==> b[1] <= 0x8F))
  {}

  lemma SequenceIsUtf8(b: Bytes)
    requires b != [] && SequenceLength(b) > 0
    ensures Scalar(CodePoint(b)) && Utf8Of(CodePoint(b)) == b[..SequenceLength(b)]
  {
    var n := SequenceLength(b);
    assert b == b[..n] + b[n..];
    if n == 1 {
      assert b[0] < 0x80;
    } else {
      SequenceShape(b);
      hide SequenceLength, CodePoint, Utf8Of;
      var rest := b[n..];
      if n == 2 {
        var h: nat, l: nat := b[0] - 0xC0, b[1] - 0x80;
        assert b[..n] == [0xC0 + h, 0x80 + l];
        TwoBytes(64 * h + l, h, l, rest);
      } else if n == 3 {
        var h: nat, m: nat, l: nat := b[0] - 0xE0, b[1] - 0x80, b[2] - 0x80;
        assert b[..n] == [0xE0 + h, 0x80 + m, 0x80 + l];
        ThreeBytes(64 * (64 * h + m) + l, h, m, l, rest);
      } else {
        var g: nat, h: nat, m: nat, l: nat := b[0] - 0xF0, b[1] - 0x80, b[2] - 0x80, b[3] - 0x80;
        assert b[..n] == [0xF0 + g, 0x80 + h, 0x80 + m, 0x80 + l];
        FourBytes(64 * (64 * (64 * g + h) + m) + l, g, h, m, l, rest);
      }
    }
  }

  lemma {:induction false} TextReads(text: seq<nat>)
    requires Scalars(text)
    ensures Utf8(Utf8Text(text)) == Some(text)
  {
    hide SequenceLength, CodePoint, Utf8Of, Scalar;
    if text != [] {
      var b, rest := Utf8Of(text[0]), Utf8Text(text[1..]);
      Utf8OfReads(text[0], rest);
      assert (b + rest)[|b|..] == rest;
      TextReads(text[1..]);
      assert text == [text[0]] + text[1..];
    }
  }

  lemma {:induction false} ReadIsText(b: Bytes)
    requires Utf8(b).Some?
    ensures Scalars(Utf8(b).value) && Utf8Text(Utf8(b).value) == b
  {
    hide SequenceLength, CodePoint, Utf8Of, Scalar;
    if b != [] {
      var n := SequenceLength(b);
      ReadIsText(b[n..]);
      SequenceIsUtf8(b);
      assert Utf8(b).value[1..] == Utf8(b[n..]).value;
      assert b[..n] + b[n..] == b;
    }
  }

  /** Bytes are read as a text exactly when they are that text's encoding: no overlong form, no surrogate. */
  lemma ReadIffEncoded(b: Bytes, text: seq<nat>)
    ensures Utf8(b) == Some(text) <==> Scalars(text) && Utf8Text(text) == b
  {
    hide Utf8, Utf8Text;
    if Utf8(b) == Some(text) {
      ReadIsText(b);
    }
    if Scalars(text) {
      TextReads(text);
    }
  }

  // ---- Every text a size may be written in ----

  lemma {:induction false} HexTextOrNone(text: seq<nat>)
    ensures HexValue(text).None? <==> exists i :: 0 <= i < |text| && HexDigit(text[i]).None?
  {
    hide HexDigit;
    if text != [] {
      var n := |text| - 1;
      HexTextOrNone(text[..n]);
      if HexValue(text[..n]).None? {
        var i :| 0 <= i < n && HexDigit(text[..n][i]).None?;
        assert HexDigit(text[i]).None?;
      }
    }
  }

  /** Only the digits matter, whichever case they are written in. */
  lemma {:induction false} HexValueByDigits(a: seq<nat>, b: seq<nat>)
    requires |a| == |b| && forall i :: 0 <= i < |a| ==> HexDigit(a[i]) == HexDigit(b[i])
    ensures HexValue(a) == HexValue(b)
    decreases |a|
  {
    hide HexDigit;
    if a != [] {
      HexValueByDigits(a[..|a| - 1], b[..|b| - 1]);
    }
  }

  function Zeros(n: nat): (z: seq<nat>)
    ensures |z| == n && forall i :: 0 <= i < n ==> z[i] == 48
  {
    seq(n, i => 48)
  }

  lemma {:induction false} LeadingZeros(n: nat, text: seq<nat>)
    ensures HexValue(Zeros(n) + text) == HexValue(text)
    decreases n + |text|
  {
    var t := Zeros(n) + text;
    if text != [] {
      assert t[..|t| - 1] == Zeros(n) + text[..|text| - 1];
      LeadingZeros(n, text[..|text| - 1]);
    } else if n > 0 {
      assert t[..|t| - 1] == Zeros(n - 1) + [];
      LeadingZeros(n - 1, []);
    }
  }

  predicate Spaces(s: seq<nat>) {
    forall i :: 0 <= i < |s| ==> IsSpace(s[i])
  }

  lemma {:induction false} TrimsStart(s: seq<nat>, text: seq<nat>)
    requires Spaces(s) && (text != [] ==> !IsSpace(text[0]))
    ensures TrimStart(s + text) == text
    decreases |s|
  {
    hide IsSpace;
    if s == [] {
      assert s + text == text;
    } else {
      assert (s + text)[1..] == s[1..] + text;
      TrimsStart(s[1..], text);
    }
  }

  lemma {:induction false} TrimsEnd(text: seq<nat>, s: seq<nat>)
    requires Spaces(s) && (text != [] ==> !IsSpace(text[|text| - 1]))
    ensures TrimEnd(text + s) == text
    decreases |s|
  {
    hide IsSpace;
    if s == [] {
      assert text + s == text;
    } else {
      assert (text + s)[..|text + s| - 1] == text + s[..|s| - 1];
      TrimsEnd(text, s[..|s| - 1]);
    }
  }

  /** Digits with any leading zeros, in either case. */
  ghost predicate Writes(digits: seq<nat>, zeros: nat, n: nat) {
    && |digits| == zeros + |HexText(n)|
    && forall i :: 0 <= i < |digits| ==> HexDigit(digits[i]) == HexDigit((Zeros(zeros) + Wide(HexText(n)))[i])
  }

  lemma WrittenDigits(digits: seq<nat>, zeros: nat, n: nat)
    requires Writes(digits, zeros, n)
    ensures digits != [] && HexValue(digits) == Some(n)
    ensures forall i :: 0 <= i < |digits| ==> HexDigit(digits[i]).Some?
  {
    hide HexText, HexDigit, HexValue;
    HexValueByDigits(digits, Zeros(zeros) + Wide(HexText(n)));
    LeadingZeros(zeros, Wide(HexText(n)));
    HexRoundTrip(n);
    HexTextOrNone(digits);
  }

  lemma ParsesDigits(sign: seq<nat>, digits: seq<nat>)
    requires sign in {[], [43]} && digits != [] && (forall i :: 0 <= i < |digits| ==> HexDigit(digits[i]).Some?)
    ensures var v := HexValue(digits); v.Some? && ParseHex(sign + digits) == (if v.value <= USIZE_MAX then v else None)
    ensures (forall i :: 0 <= i < |digits| ==> !IsSpace(digits[i]) && digits[i] != SEMICOLON)
  {
    hide HexValue;
    HexTextOrNone(digits);
    if sign == [43] {
      assert (sign + digits)[1..] == digits;
    } else {
      assert sign + digits == digits;
    }
  }

  /**
   A size is read from its digits in either case, with any leading zeros, an optional plus sign, any white space around
   it and any extension; and refused when a machine word cannot hold it.
   */
  lemma SizeTextReads(before: seq<nat>, sign: seq<nat>, digits: seq<nat>, after: seq<nat>, extension: seq<nat>,
                      zeros: nat, n: nat)
    requires Spaces(before) && Spaces(after) && sign in {[], [43]} && Writes(digits, zeros, n)
    requires extension != [] ==> extension[0] == SEMICOLON
    ensures SizeOfText(before + (sign + digits) + after + extension) == if n <= USIZE_MAX then Some(n) else None
  {
    hide Writes, HexDigit, ParseHex, BeforeSemicolon, TrimStart, TrimEnd, HexValue;
    WrittenDigits(digits, zeros, n);
    ParsesDigits(sign, digits);
    var text := before + (sign + digits) + after;
    StopsAtSemicolon(text, extension);
    assert text == before + ((sign + digits) + after);
    TrimsStart(before, (sign + digits) + after);
    TrimsEnd(sign + digits, after);
  }

  /**
   For any non-empty chunks (line breaks in their data included), extensions and trailing bytes,
   decoding the encoded body returns exactly the concatenated data.
   */
  lemma DecodeUndoesEncode(chunks: seq<Chunk>, lastExtension: Bytes, trailer: Bytes)
    requires forall i :: 0 <= i < |chunks| ==> GoodChunk(chunks[i])
    requires Extension(lastExtension)
    ensures Decode(Encode(chunks, lastExtension, trailer)) == Data(Concatenated(chunks))
  {
    hide SizeOfLine, HexText, Extension;
    forall i | 0 <= i < |chunks| ensures GoodFrame(FramesOf(chunks)[i]) {
      assert GoodChunk(chunks[i]);
      SizeLineReads(|chunks[i].data|, chunks[i].extension);
      SizeLineHasNoBreak(|chunks[i].data|, chunks[i].extension);
    }
    SizeLineReads(0, lastExtension);
    SizeLineHasNoBreak(0, lastExtension);
    BodyDecodes(FramesOf(chunks), HexText(0) + lastExtension, trailer);
    PayloadOfChunks(chunks);
  }

  lemma {:induction false} PayloadOfChunks(chunks: seq<Chunk>)
    ensures Payload(FramesOf(chunks)) == Concatenated(chunks)
  {
    if chunks != [] {
      PayloadOfChunks(chunks[1..]);
      assert FramesOf(chunks)[1..] == FramesOf(chunks[1..]);
    }
  }
}
