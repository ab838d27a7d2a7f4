/**
 * Truncating SQL identifiers to 63 bytes on a UTF-8 boundary.  A string is a sequence
 * of Unicode scalar values; the encoding is that of section 3 of RFC 3629.
 */
module Utf8Identifier {
  import opened Collections

  const MAX_IDENTIFIER_BYTES := 63

  /** `(b & 0b1100_0000) === 0b1000_0000`. */
  predicate IsContinuation(b: byte) {
    0x80 <= b < 0xC0
  }

  function EncodeChar(c: char): (r: seq<byte>)
    ensures 1 <= |r| <= 4
    ensures !IsContinuation(r[0])
    ensures forall i | 1 <= i < |r| :: IsContinuation(r[i])
  {
    var v := c as int;
    if v < 0x80 then [v]
    else if v < 0x800 then [0xC0 + v / 0x40, 0x80 + v % 0x40]
    else if v < 0x1_0000 then [0xE0 + v / 0x1000, 0x80 + v / 0x40 % 0x40, 0x80 + v % 0x40]
    else [0xF0 + v / 0x4_0000, 0x80 + v / 0x1000 % 0x40, 0x80 + v / 0x40 % 0x40, 0x80 + v % 0x40]
  }

  /** `Buffer.from(s, 'utf8')`. */
  function Encode(s: string): seq<byte> {
    if s == "" then [] else EncodeChar(s[0]) + Encode(s[1..])
  }

  /** Number of bytes of the character that starts with `b`. */
  function Width(b: byte): (r: nat)
    ensures 1 <= r <= 4
  {
    if b < 0xC0 then 1 else if b < 0xE0 then 2 else if b < 0xF0 then 3 else 4
  }

  function Payload(b: byte): int {
    b % 0x40
  }

  /** The scalar value encoded at the start, if the bytes are the encoding of one. */
  function DecodeChar(bytes: seq<byte>): (r: Option<char>)
    requires bytes != []
    ensures r.Some? ==> EncodeChar(r.value) == bytes
  {
    var v :=
      match |bytes|
      case 1 => bytes[0]
      case 2 => (bytes[0] - 0xC0) * 0x40 + Payload(bytes[1])
      case 3 => (bytes[0] - 0xE0) * 0x1000 + Payload(bytes[1]) * 0x40 + Payload(bytes[2])
      case 4 => (bytes[0] - 0xF0) * 0x4_0000 + Payload(bytes[1]) * 0x1000 + Payload(bytes[2]) * 0x40 + Payload(bytes[3])
      case _ => -1;
    if (0 <= v < 0xD800 || 0xE000 <= v < 0x11_0000) && EncodeChar(v as char) == bytes then Some(v as char) else None
  }

  lemma {:induction false} DivDiv(v: int)
    requires 0 <= v
    ensures v / 0x40 / 0x40 == v / 0x1000
    ensures v / 0x1000 / 0x40 == v / 0x4_0000
  {
  }

  lemma {:induction false} Recompose(v: int)
    requires 0 <= v
    ensures v / 0x1000 * 0x1000 + v / 0x40 % 0x40 * 0x40 + v % 0x40 == v
    ensures v / 0x4_0000 * 0x4_0000 + v / 0x1000 % 0x40 * 0x1000 + v / 0x40 % 0x40 * 0x40 + v % 0x40 == v
  {
    DivDiv(v);
    var q := v / 0x40;
    assert v == q * 0x40 + v % 0x40;
    assert q == q / 0x40 * 0x40 + q % 0x40;
    var t := v / 0x1000;
    assert t == t / 0x40 * 0x40 + t % 0x40;
  }

  lemma {:induction false} PayloadOf(d: int)
    requires 0 <= d < 0x40
    ensures Payload(0x80 + d) == d
  {
  }

  lemma {:induction false} DecodeShort(c: char)
    requires (c as int) < 0x800
    ensures DecodeChar(EncodeChar(c)) == Some(c) && Width(EncodeChar(c)[0]) == |EncodeChar(c)|
  {
    var v := c as int;
    PayloadOf(v % 0x40);
    assert v == v / 0x40 * 0x40 + v % 0x40;
  }

  lemma {:induction false} DecodeThree(c: char)
    requires 0x800 <= (c as int) < 0x1_0000
    ensures DecodeChar(EncodeChar(c)) == Some(c) && Width(EncodeChar(c)[0]) == |EncodeChar(c)|
  {
    var v := c as int;
    Recompose(v);
    PayloadOf(v % 0x40);
    PayloadOf(v / 0x40 % 0x40);
  }

  lemma {:induction false} DecodeFour(c: char)
    requires 0x1_0000 <= c as int
    ensures DecodeChar(EncodeChar(c)) == Some(c) && Width(EncodeChar(c)[0]) == |EncodeChar(c)|
  {
    var v := c as int;
    Recompose(v);
    PayloadOf(v % 0x40);
    PayloadOf(v / 0x40 % 0x40);
    PayloadOf(v / 0x1000 % 0x40);
  }

  lemma {:induction false} DecodeOfEncodeChar(c: char)
    ensures DecodeChar(EncodeChar(c)) == Some(c)
    ensures Width(EncodeChar(c)[0]) == |EncodeChar(c)|
  {
    if c as int < 0x800 {
      DecodeShort(c);
    } else if c as int < 0x1_0000 {
      DecodeThree(c);
    } else {
      DecodeFour(c);
    }
  }

  /** `bytes.toString('utf8')` on well-formed bytes; `None` for anything else. */
  function Decode(bytes: seq<byte>): (r: Option<string>)
    ensures r.Some? ==> Encode(r.value) == bytes
  {
    if bytes == [] then Some("")
    else
      var w := Width(bytes[0]);
      if |bytes| < w then None
      else
        match DecodeChar(bytes[..w])
        case None => None
        case Some(c) =>
          match Decode(bytes[w..])
          case None => None
          case Some(rest) => Some([c] + rest)
  }

  lemma {:induction false} DecodeOfEncode(s: string)
    ensures Decode(Encode(s)) == Some(s)
  {
    if s != "" {
      var head := EncodeChar(s[0]);
      DecodeOfEncodeChar(s[0]);
      DecodeOfEncode(s[1..]);
      assert Encode(s)[..|head|] == head && Encode(s)[|head|..] == Encode(s[1..]);
      assert [s[0]] + s[1..] == s;
    }
  }

  lemma {:induction false} EncodeAppend(a: string, b: string)
    ensures Encode(a + b) == Encode(a) + Encode(b)
  {
    if a == "" {
      assert a + b == b;
    } else {
      assert (a + b)[1..] == a[1..] + b;
      EncodeAppend(a[1..], b);
    }
  }

  lemma {:induction false} EncodeSplit(s: string, k: nat)
    requires k <= |s|
    ensures Encode(s) == Encode(s[..k]) + Encode(s[k..])
    ensures |Encode(s[..k])| <= |Encode(s)|
  {
    assert s == s[..k] + s[k..];
    EncodeAppend(s[..k], s[k..]);
  }

  /** A byte starts a character exactly when it is not a continuation byte. */
  lemma {:induction false} StartsAreBoundaries(s: string, p: nat) returns (k: nat)
    requires p < |Encode(s)|
    ensures !IsContinuation(Encode(s)[p]) ==> k < |s| && |Encode(s[..k])| == p
  {
    var head := EncodeChar(s[0]);
    k := 0;
    if p >= |head| {
      k := StartsAreBoundaries(s[1..], p - |head|);
      if !IsContinuation(Encode(s)[p]) {
        assert s[..k + 1][1..] == s[1..][..k];
      }
      k := k + 1;
    }
  }

  lemma {:induction false} BoundaryStarts(s: string, k: nat)
    requires k < |s|
    ensures |Encode(s[..k])| < |Encode(s)|
    ensures !IsContinuation(Encode(s)[|Encode(s[..k])|])
  {
    EncodeSplit(s, k);
    assert Encode(s[k..])[0] == EncodeChar(s[k])[0];
  }

  lemma {:induction false} LongerPrefixIsLonger(s: string, j: nat, k: nat)
    requires j < k <= |s|
    ensures |Encode(s[..j])| < |Encode(s[..k])|
  {
    BoundaryStarts(s[..k], j);
    assert s[..k][..j] == s[..j];
  }

  // ----- truncation ------------------------------------------------------------------------

  /** Drop characters from the end until the rest fits. */
  function Truncate(s: string): (r: string)
    ensures r <= s && |Encode(r)| <= 63
  {
    if |Encode(s)| <= MAX_IDENTIFIER_BYTES then s else Truncate(s[..|s| - 1])
  }

  /** No longer whole-character prefix fits. */
  lemma {:induction false} TruncateIsLongest(s: string, k: nat)
    requires |Truncate(s)| < k <= |s|
    ensures |Encode(s[..k])| > 63
  {
    if k == |s| {
      assert s[..k] == s;
    } else {
      TruncateIsLongest(s[..|s| - 1], k);
      assert s[..|s| - 1][..k] == s[..k];
    }
  }

  lemma {:induction false} TruncateIsIdempotent(s: string)
    ensures Truncate(Truncate(s)) == Truncate(s)
    ensures |Encode(s)| <= MAX_IDENTIFIER_BYTES ==> Truncate(s) == s
  {
  }

  lemma {:induction false} TruncateIsUnique(s: string, k: nat)
    requires k <= |s| && |Encode(s[..k])| <= MAX_IDENTIFIER_BYTES
    requires k < |s| ==> |Encode(s[..k + 1])| > MAX_IDENTIFIER_BYTES
    ensures Truncate(s) == s[..k]
  {
    var t := |Truncate(s)|;
    assert Truncate(s) == s[..t];
    if t < k {
      TruncateIsLongest(s, k);
    } else if k < t {
      if k + 1 < t {
        LongerPrefixIsLonger(s, k + 1, t);
      }
    }
  }

  /** The last position up to byte 63 that does not continue a code point. */
  method WalkBack(bytes: seq<byte>) returns (end: nat)
    requires |bytes| > MAX_IDENTIFIER_BYTES
    ensures end <= MAX_IDENTIFIER_BYTES && (end == 0 || !IsContinuation(bytes[end]))
    ensures forall p | end < p <= MAX_IDENTIFIER_BYTES :: IsContinuation(bytes[p])
  {
    end := MAX_IDENTIFIER_BYTES;
    while end > 0 && IsContinuation(bytes[end])
      invariant 0 <= end <= MAX_IDENTIFIER_BYTES
      invariant forall p | end < p <= MAX_IDENTIFIER_BYTES :: IsContinuation(bytes[p])
    {
      end := end - 1;
    }
  }

  /**
   * `normalizeSqlIdentifier`: cut at 63 bytes, then walk back off continuation bytes.
   * The cut bytes are well-formed UTF-8 and the result is the longest prefix that fits.
   */
  method NormalizeSqlIdentifier(name: string) returns (r: string)
    ensures r == Truncate(name)
    ensures Decode(Encode(r)) == Some(r) && Encode(r) <= Encode(name)
  {
    TruncationIsEncoded(name);
    var bytes := Encode(name);
    if |bytes| <= MAX_IDENTIFIER_BYTES {
      TruncateIsIdempotent(name);
      return name;
    }
    var end := WalkBack(bytes);
    CutDecodes(name, end);
    var text := Decode(bytes[..end]);
    r := text.value;
  }

  lemma {:induction false} TruncationIsEncoded(name: string)
    ensures Decode(Encode(Truncate(name))) == Some(Truncate(name)) && Encode(Truncate(name)) <= Encode(name)
  {
    DecodeOfEncode(Truncate(name));
    EncodeSplit(name, |Truncate(name)|);
    assert name[..|Truncate(name)|] == Truncate(name);
  }

  /** Where the walk back from byte 63 may stop. */
  ghost predicate IsCut(name: string, end: nat) {
    var bytes := Encode(name);
    && end <= MAX_IDENTIFIER_BYTES < |bytes|
    && (end == 0 || !IsContinuation(bytes[end]))
    && forall p | end < p <= MAX_IDENTIFIER_BYTES :: IsContinuation(bytes[p])
  }

  lemma {:induction false} CutIsStart(name: string, end: nat)
    requires IsCut(name, end)
    ensures !IsContinuation(Encode(name)[end])
  {
    if end == 0 {
      BoundaryStarts(name, 0);
    }
  }

  /** One more code point would not fit. */
  lemma {:induction false} NextDoesNotFit(name: string, end: nat, k: nat)
    requires IsCut(name, end) && k < |name| && |Encode(name[..k])| == end
    ensures |Encode(name[..k + 1])| > MAX_IDENTIFIER_BYTES
  {
    LongerPrefixIsLonger(name, k, k + 1);
    if k + 1 < |name| {
      BoundaryStarts(name, k + 1);
    } else {
      assert name[..k + 1] == name;
    }
  }

  /** The bytes up to the cut are the encoding of the truncation. */
  lemma {:induction false} CutDecodes(name: string, end: nat)
    requires IsCut(name, end)
    ensures Decode(Encode(name)[..end]) == Some(Truncate(name))
  {
    CutIsStart(name, end);
    var k := StartsAreBoundaries(name, end);
    NextDoesNotFit(name, end, k);
    TruncateIsUnique(name, k);
    EncodeSplit(name, k);
    DecodeOfEncode(name[..k]);
    assert Encode(name)[..end] == Encode(name[..k]);
  }
}
