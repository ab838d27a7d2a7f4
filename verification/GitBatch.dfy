/** Reading the replies of `git cat-file --batch`: a length-prefixed framing over raw bytes. */
module GitBatch {
  import opened Collections

  type Bytes = seq<byte>

  const NEWLINE: byte := 0x0A
  const SPACE: byte := 0x20

  /** Errors carry the position of the request they concern. */
  datatype BatchError = MissingHeader(index: nat) | UnexpectedHeader(index: nat) | Truncated(index: nat)

  datatype Result = Ok(contents: seq<Bytes>) | Err(error: BatchError)

  // ----- numbers ------------------------------------------------------------------------------

  predicate IsDigit(b: byte) {
    0x30 <= b <= 0x39
  }

  predicate IsHex(b: byte) {
    IsDigit(b) || 0x61 <= b <= 0x66
  }

  predicate AreDigits(s: Bytes) {
    s != [] && forall i | 0 <= i < |s| :: IsDigit(s[i])
  }

  /** `Number(digits)`; sizes beyond the buffer fail the terminator test whatever their rounding. */
  function ToNumber(s: Bytes): nat
    requires forall i | 0 <= i < |s| :: IsDigit(s[i])
  {
    if s == [] then 0
    else
      assert IsDigit(s[|s| - 1]);
      var last: int := s[|s| - 1];
      ToNumber(s[..|s| - 1]) * 10 + (last - 0x30)
  }

  function Decimal(n: nat): (s: Bytes)
    ensures AreDigits(s)
  {
    (if n < 10 then [] else Decimal(n / 10)) + [0x30 + n % 10]
  }

  lemma {:induction false} NumberOfDecimal(n: nat)
    ensures ToNumber(Decimal(n)) == n
  {
    var s := Decimal(n);
    if n >= 10 {
      NumberOfDecimal(n / 10);
      assert s[..|s| - 1] == Decimal(n / 10);
    } else {
      assert s[..|s| - 1] == [];
    }
  }

  // ----- headers ------------------------------------------------------------------------------

  /** The bytes of ` blob `. */
  const BLOB: Bytes := [0x20, 0x62, 0x6C, 0x6F, 0x62, 0x20]

  function HexRun(s: Bytes): (r: nat)
    ensures r <= |s|
    ensures forall i | 0 <= i < r :: IsHex(s[i])
    ensures r < |s| ==> !IsHex(s[r])
  {
    if s == [] || !IsHex(s[0]) then 0 else 1 + HexRun(s[1..])
  }

  /** `/^[0-9a-f]+ blob (\d+)$/`: the size, if the header matches. */
  function ParseHeader(header: Bytes): Option<nat> {
    var h := HexRun(header);
    if h == 0 || |header| < h + |BLOB| || header[h..h + |BLOB|] != BLOB then None
    else
      var digits := header[h + |BLOB|..];
      if AreDigits(digits) then Some(ToNumber(digits)) else None
  }

  function BlobHeader(oid: Bytes, size: nat): Bytes {
    oid + BLOB + Decimal(size)
  }

  predicate IsOid(oid: Bytes) {
    oid != [] && forall i | 0 <= i < |oid| :: IsHex(oid[i])
  }

  lemma {:induction false} ParseOfHeader(oid: Bytes, size: nat)
    requires IsOid(oid)
    ensures ParseHeader(BlobHeader(oid, size)) == Some(size)
    ensures NEWLINE !in BlobHeader(oid, size)
  {
    ParseOfParts(oid, Decimal(size));
    NumberOfDecimal(size);
    HeaderIsOneLine(oid, size);
  }

  lemma {:induction false} ParseOfParts(oid: Bytes, digits: Bytes)
    requires IsOid(oid) && AreDigits(digits)
    ensures ParseHeader(oid + BLOB + digits) == Some(ToNumber(digits))
  {
    var header := oid + BLOB + digits;
    HexRunOfOid(oid, BLOB + digits);
    assert header == oid + (BLOB + digits);
    assert header[|oid|..|oid| + |BLOB|] == BLOB;
    assert header[|oid| + |BLOB|..] == digits;
  }

  lemma {:induction false} HexRunOfOid(oid: Bytes, rest: Bytes)
    requires IsOid(oid) && rest != [] && !IsHex(rest[0])
    ensures HexRun(oid + rest) == |oid|
  {
    var s := oid + rest;
    assert s[|oid|] == rest[0];
    assert forall i | 0 <= i < |oid| :: s[i] == oid[i];
  }

  ghost predicate IsHeaderOf(header: Bytes, oid: Bytes, digits: Bytes) {
    && oid != [] && (forall i | 0 <= i < |oid| :: 0x30 <= oid[i] <= 0x39 || 0x61 <= oid[i] <= 0x66)
    && digits != [] && (forall i | 0 <= i < |digits| :: 0x30 <= digits[i] <= 0x39)
    && header == oid + [0x20, 0x62, 0x6C, 0x6F, 0x62, 0x20] + digits
  }

  lemma {:induction false} ParsedParts(header: Bytes) returns (oid: Bytes, digits: Bytes)
    requires ParseHeader(header).Some?
    ensures IsHeaderOf(header, oid, digits) && ParseHeader(header) == Some(ToNumber(digits))
  {
    var h := HexRun(header);
    oid, digits := header[..h], header[h + |BLOB|..];
    assert header == header[..h] + header[h..h + |BLOB|] + digits;
  }

  /** A header is accepted exactly if it is hexadecimal digits, ` blob ` and a decimal number. */
  lemma {:induction false} ParseIsPattern(header: Bytes, size: nat)
    ensures ParseHeader(header) == Some(size) <==>
            exists oid, digits :: IsHeaderOf(header, oid, digits) && ToNumber(digits) == size
  {
    if ParseHeader(header) == Some(size) {
      var oid, digits := ParsedParts(header);
    }
    if oid, digits :| IsHeaderOf(header, oid, digits) && ToNumber(digits) == size {
      ParseOfParts(oid, digits);
    }
  }

  lemma {:induction false} HeaderIsOneLine(oid: Bytes, size: nat)
    requires IsOid(oid)
    ensures NEWLINE !in BlobHeader(oid, size)
  {
    assert forall b | b in BlobHeader(oid, size) :: b in oid || b in BLOB || b in Decimal(size);
  }

  // ----- the reader ---------------------------------------------------------------------------

  /** One reply at `offset`: its content and the offset after it. */
  datatype Reply = Missing | Unexpected | Cut | Blob(content: Bytes, next: nat)

  function ReadOne(stdout: Bytes, offset: nat): (r: Reply)
    requires offset <= |stdout|
    ensures r.Blob? ==> offset < r.next <= |stdout|
  {
    var headerEnd := FirstIndex(stdout, NEWLINE, offset);
    if headerEnd == |stdout| then Missing
    else
      match ParseHeader(stdout[offset..headerEnd])
      case None => Unexpected
      case Some(size) =>
        var contentEnd := headerEnd + 1 + size;
        if contentEnd >= |stdout| || stdout[contentEnd] != NEWLINE then Cut
        else Blob(stdout[headerEnd + 1..contentEnd], contentEnd + 1)
  }

  /** `contents` in front of whatever the rest of the replies yields. */
  function Prepend(contents: seq<Bytes>, r: Result): Result {
    match r
    case Err(e) => Err(e)
    case Ok(rest) => Ok(contents + rest)
  }

  /** The replies from request `index` on. */
  function ReadFrom(stdout: Bytes, offset: nat, index: nat, count: nat): Result
    requires offset <= |stdout| && index <= count
    decreases count - index
  {
    if index == count then Ok([])
    else
      match ReadOne(stdout, offset)
      case Missing => Err(MissingHeader(index))
      case Unexpected => Err(UnexpectedHeader(index))
      case Cut => Err(Truncated(index))
      case Blob(content, next) => Prepend([content], ReadFrom(stdout, next, index + 1, count))
  }

  lemma {:induction false} PrependTwice(a: seq<Bytes>, b: seq<Bytes>, r: Result)
    ensures Prepend(a, Prepend(b, r)) == Prepend(a + b, r)
  {
    if r.Ok? {
      assert a + (b + r.contents) == a + b + r.contents;
    }
  }

  /** One turn of the loop. */
  method ReadNext(stdout: Bytes, offset: nat) returns (r: Reply)
    requires offset <= |stdout|
    ensures r == ReadOne(stdout, offset)
  {
    var headerEnd := FirstIndex(stdout, NEWLINE, offset);
    if headerEnd == |stdout| {
      return Missing;
    }
    var size := ParseHeader(stdout[offset..headerEnd]);
    if size.None? {
      return Unexpected;
    }
    var contentStart := headerEnd + 1;
    var contentEnd := contentStart + size.value;
    if contentEnd >= |stdout| || stdout[contentEnd] != NEWLINE {
      return Cut;
    }
    return Blob(stdout[contentStart..contentEnd], contentEnd + 1);
  }

  /** The parse loop of `readFilesAtRef`. */
  method ReadFiles(stdout: Bytes, count: nat) returns (r: Result)
    ensures r == ReadFrom(stdout, 0, 0, count)
  {
    var contents: seq<Bytes> := [];
    var offset := 0;
    for index := 0 to count
      invariant offset <= |stdout|
      invariant ReadFrom(stdout, 0, 0, count) == Prepend(contents, ReadFrom(stdout, offset, index, count))
    {
      var reply := ReadNext(stdout, offset);
      match reply
      case Missing => return Err(MissingHeader(index));
      case Unexpected => return Err(UnexpectedHeader(index));
      case Cut => return Err(Truncated(index));
      case Blob(content, next) =>
        PrependTwice(contents, [content], ReadFrom(stdout, next, index + 1, count));
        contents, offset := contents + [content], next;
    }
    r := Ok(contents);
  }

  // ----- printing -----------------------------------------------------------------------------

  /** A reply of git: a blob, or a line that announces something else and its payload. */
  datatype GitReply = Object(oid: Bytes, content: Bytes) | Other(line: Bytes, payload: Bytes)

  ghost predicate IsGitReply(g: GitReply) {
    match g
    case Object(oid, _) => IsOid(oid)
    case Other(line, _) => NEWLINE !in line && ParseHeader(line).None?
  }

  function PrintOne(g: GitReply): Bytes {
    match g
    case Object(oid, content) => BlobHeader(oid, |content|) + [NEWLINE] + content + [NEWLINE]
    case Other(line, payload) => line + [NEWLINE] + payload
  }

  function Print(replies: seq<GitReply>): Bytes {
    if replies == [] then [] else PrintOne(replies[0]) + Print(replies[1..])
  }

  /** What the reader should make of the replies: all contents, or the first that is no blob. */
  function Expected(replies: seq<GitReply>, index: nat): Result {
    if replies == [] then Ok([])
    else match replies[0]
         case Other(_, _) => Err(UnexpectedHeader(index))
         case Object(_, content) =>
           Prepend([content], Expected(replies[1..], index + 1))
  }

  lemma {:induction false} HeaderLineEnds(before: Bytes, line: Bytes, rest: Bytes)
    requires NEWLINE !in line
    ensures var s := before + line + [NEWLINE] + rest;
            FirstIndex(s, NEWLINE, |before|) == |before| + |line| && s[|before|..|before| + |line|] == line
  {
    var s := before + line + [NEWLINE] + rest;
    assert forall i | |before| <= i < |before| + |line| :: s[i] == line[i - |before|];
    assert s[|before| + |line|] == NEWLINE;
  }

  lemma {:induction false} FrameSlices(before: Bytes, header: Bytes, content: Bytes, rest: Bytes)
    ensures var s := before + (header + [NEWLINE] + content + [NEWLINE]) + rest;
            var start := |before| + |header| + 1;
            && s == before + header + [NEWLINE] + (content + [NEWLINE] + rest)
            && start + |content| < |s| && s[start + |content|] == NEWLINE
            && s[start..start + |content|] == content
  {
  }

  lemma {:induction false} ReadFramed(before: Bytes, header: Bytes, content: Bytes, rest: Bytes)
    requires NEWLINE !in header && ParseHeader(header) == Some(|content|)
    ensures var frame := header + [NEWLINE] + content + [NEWLINE];
            ReadOne(before + frame + rest, |before|) == Blob(content, |before| + |frame|)
  {
    FrameSlices(before, header, content, rest);
    HeaderLineEnds(before, header, content + [NEWLINE] + rest);
    ReadBlob(before + (header + [NEWLINE] + content + [NEWLINE]) + rest, |before|, |before| + |header|, |content|);
  }

  lemma {:induction false} ReadBlob(stdout: Bytes, offset: nat, headerEnd: nat, size: nat)
    requires offset <= headerEnd < |stdout| && FirstIndex(stdout, NEWLINE, offset) == headerEnd
    requires ParseHeader(stdout[offset..headerEnd]) == Some(size)
    requires headerEnd + 1 + size < |stdout| && stdout[headerEnd + 1 + size] == NEWLINE
    ensures ReadOne(stdout, offset) == Blob(stdout[headerEnd + 1..headerEnd + 1 + size], headerEnd + 1 + size + 1)
  {
  }

  /** A blob that ends before its announced size, or without its newline, is cut off. */
  lemma {:induction false} ReadCut(before: Bytes, oid: Bytes, size: nat, rest: Bytes)
    requires IsOid(oid) && (|rest| <= size || rest[size] != NEWLINE)
    ensures ReadOne(before + BlobHeader(oid, size) + [NEWLINE] + rest, |before|) == Cut
  {
    ParseOfHeader(oid, size);
    CutAfter(before, BlobHeader(oid, size), size, rest);
  }

  lemma {:induction false} CutAfter(before: Bytes, header: Bytes, size: nat, rest: Bytes)
    requires NEWLINE !in header && ParseHeader(header) == Some(size) && (|rest| <= size || rest[size] != NEWLINE)
    ensures ReadOne(before + header + [NEWLINE] + rest, |before|) == Cut
  {
    var s := before + header + [NEWLINE] + rest;
    HeaderLineEnds(before, header, rest);
    if size < |rest| {
      assert s[|before| + |header| + 1 + size] == rest[size];
    }
  }

  /** Output without another line has no reply. */
  lemma {:induction false} ReadNothing(before: Bytes, rest: Bytes)
    requires NEWLINE !in rest
    ensures ReadOne(before + rest, |before|) == Missing
  {
    var s := before + rest;
    assert forall i | |before| <= i < |s| :: s[i] == rest[i - |before|] && rest[i - |before|] in rest;
  }

  /** Each kind of bad reply has its own error, at the position of the request. */
  lemma {:induction false} ErrorsByReply(stdout: Bytes, offset: nat, index: nat, count: nat)
    requires offset <= |stdout| && index < count
    ensures ReadOne(stdout, offset) == Missing ==> ReadFrom(stdout, offset, index, count) == Err(MissingHeader(index))
    ensures ReadOne(stdout, offset) == Unexpected ==> ReadFrom(stdout, offset, index, count) == Err(UnexpectedHeader(index))
    ensures ReadOne(stdout, offset) == Cut ==> ReadFrom(stdout, offset, index, count) == Err(Truncated(index))
  {
  }

  lemma {:induction false} ReadObject(before: Bytes, oid: Bytes, content: Bytes, rest: Bytes)
    requires IsOid(oid)
    ensures var frame := PrintOne(Object(oid, content));
            ReadOne(before + frame + rest, |before|) == Blob(content, |before| + |frame|)
  {
    ParseOfHeader(oid, |content|);
    ReadFramed(before, BlobHeader(oid, |content|), content, rest);
  }

  lemma {:induction false} ReadOther(before: Bytes, line: Bytes, payload: Bytes, rest: Bytes)
    requires NEWLINE !in line && ParseHeader(line).None?
    ensures ReadOne(before + (line + [NEWLINE] + payload) + rest, |before|) == Unexpected
  {
    HeaderLineEnds(before, line, payload + rest);
    assert before + (line + [NEWLINE] + payload) + rest == before + line + [NEWLINE] + (payload + rest);
  }

  /**
   * Reading what git prints gives back the byte contents in order, for any bytes, or an
   * error at the first reply that is not a blob; text before and after does not matter.
   */
  lemma {:induction false} ReadOfPrint(stdout: Bytes, before: Bytes, replies: seq<GitReply>, after: Bytes,
                                       index: nat, count: nat)
    requires forall i | 0 <= i < |replies| :: IsGitReply(replies[i])
    requires stdout == before + Print(replies) + after && count == index + |replies|
    ensures ReadFrom(stdout, |before|, index, count) == Expected(replies, index)
    decreases replies
  {
    if replies != [] {
      var first, rest := PrintOne(replies[0]), Print(replies[1..]);
      ConcatAssoc(before, first, rest);
      ConcatAssoc(before + first, rest, after);
      var expected := Expected(replies[1..], index + 1);
      if replies[0].Object? {
        ReadOfPrint(stdout, before + first, replies[1..], after, index + 1, count);
      }
      ReadReply(stdout, before, replies[0], rest + after, index, count, expected);
    }
  }

  /** The first reply decides, given what the rest yields. */
  lemma {:induction false} ReadReply(stdout: Bytes, before: Bytes, g: GitReply, rest: Bytes, index: nat, count: nat,
                                     expected: Result)
    requires IsGitReply(g) && index < count && stdout == before + PrintOne(g) + rest
    requires g.Object? ==> ReadFrom(stdout, |before + PrintOne(g)|, index + 1, count) == expected
    ensures ReadFrom(stdout, |before|, index, count)
            == if g.Object? then Prepend([g.content], expected) else Err(UnexpectedHeader(index))
  {
    ReadFirst(before, g, rest, |before + PrintOne(g)|);
    if g.Object? {
      ReadStep(stdout, |before|, index, count, expected);
    } else {
      ReadStops(stdout, |before|, index, count);
    }
  }

  lemma {:induction false} ReadStep(stdout: Bytes, offset: nat, index: nat, count: nat, rest: Result)
    requires offset <= |stdout| && index < count && ReadOne(stdout, offset).Blob?
    requires ReadFrom(stdout, ReadOne(stdout, offset).next, index + 1, count) == rest
    ensures ReadFrom(stdout, offset, index, count) == Prepend([ReadOne(stdout, offset).content], rest)
  {
  }

  lemma {:induction false} ReadStops(stdout: Bytes, offset: nat, index: nat, count: nat)
    requires offset <= |stdout| && index < count && ReadOne(stdout, offset) == Unexpected
    ensures ReadFrom(stdout, offset, index, count) == Err(UnexpectedHeader(index))
  {
  }

  lemma {:induction false} ReadFirst(before: Bytes, g: GitReply, rest: Bytes, next: nat)
    requires IsGitReply(g) && next == |before| + |PrintOne(g)|
    ensures ReadOne(before + PrintOne(g) + rest, |before|) == if g.Other? then Unexpected else Blob(g.content, next)
  {
    if g.Other? {
      ReadOther(before, g.line, g.payload, rest);
    } else {
      ReadObject(before, g.oid, g.content, rest);
    }
  }

  function Contents(replies: seq<GitReply>): (r: seq<Bytes>)
    requires forall i | 0 <= i < |replies| :: replies[i].Object?
    ensures |r| == |replies| && forall i | 0 <= i < |r| :: r[i] == replies[i].content
  {
    seq(|replies|, i requires 0 <= i < |replies| => replies[i].content)
  }

  lemma {:induction false} ExpectedOfObjects(replies: seq<GitReply>, index: nat)
    requires forall i | 0 <= i < |replies| :: replies[i].Object?
    ensures Expected(replies, index) == Ok(Contents(replies))
  {
    if replies != [] {
      ExpectedOfObjects(replies[1..], index + 1);
      assert Contents(replies) == [replies[0].content] + Contents(replies[1..]);
    }
  }

  /** Blobs of any bytes, newlines and header look-alikes included, come back unchanged and in order. */
  lemma {:induction false} BlobsRoundTrip(replies: seq<GitReply>, after: Bytes)
    requires forall i | 0 <= i < |replies| :: replies[i].Object? && IsOid(replies[i].oid)
    ensures ReadFrom(Print(replies) + after, 0, 0, |replies|) == Ok(Contents(replies))
  {
    assert [] + Print(replies) + after == Print(replies) + after;
    ReadOfPrint(Print(replies) + after, [], replies, after, 0, |replies|);
    ExpectedOfObjects(replies, 0);
  }

  /** Blobs behind their headers, one after the other. */
  function Frames(headers: seq<Bytes>, contents: seq<Bytes>): Bytes
    requires |headers| == |contents|
  {
    if headers == [] then []
    else headers[0] + [NEWLINE] + contents[0] + [NEWLINE] + Frames(headers[1..], contents[1..])
  }

  /** A successful read is a framing: valid headers with the exact sizes, and nothing skipped. */
  lemma {:induction false} ReadIsFraming(stdout: Bytes, offset: nat, index: nat, count: nat) returns (headers: seq<Bytes>)
    requires offset <= |stdout| && index <= count
    requires ReadFrom(stdout, offset, index, count).Ok?
    ensures var contents := ReadFrom(stdout, offset, index, count).contents;
            && |headers| == |contents| == count - index
            && Frames(headers, contents) <= stdout[offset..]
            && forall i | 0 <= i < |headers| :: ParseHeader(headers[i]) == Some(|contents[i]|)
    decreases count - index
  {
    if index == count {
      headers := [];
    } else {
      var reply := ReadOne(stdout, offset);
      var rest := ReadIsFraming(stdout, reply.next, index + 1, count);
      var header := FrameOf(stdout, offset);
      headers := [header] + rest;
      var tail := ReadFrom(stdout, reply.next, index + 1, count).contents;
      FramesCons(header, rest, reply.content, tail);
    }
  }

  lemma {:induction false} FrameOf(stdout: Bytes, offset: nat) returns (header: Bytes)
    requires offset <= |stdout| && ReadOne(stdout, offset).Blob?
    ensures var reply := ReadOne(stdout, offset);
            && ParseHeader(header) == Some(|reply.content|)
            && stdout[offset..] == header + [NEWLINE] + reply.content + [NEWLINE] + stdout[reply.next..]
  {
    header := stdout[offset..FirstIndex(stdout, NEWLINE, offset)];
  }

  lemma {:induction false} FramesCons(header: Bytes, headers: seq<Bytes>, content: Bytes, contents: seq<Bytes>)
    requires |headers| == |contents|
    ensures Frames([header] + headers, [content] + contents)
            == header + [NEWLINE] + content + [NEWLINE] + Frames(headers, contents)
  {
    assert ([header] + headers)[1..] == headers && ([content] + contents)[1..] == contents;
  }
}
