/** Binding responses of RFC 5389: `parseStunResponse` and the two address parsers of stun-client.js,
    against an encoder for attribute lists (section 15 of RFC 5389). */
module Stun {
  import opened ByteString
  import opened JsObject
  import opened Powers
  import opened Sequences

  const MAGIC_COOKIE: Bytes := [0x21, 0x12, 0xa4, 0x42]
  const BINDING_RESPONSE: nat := 0x0101
  const XOR_MAPPED_ADDRESS: nat := 0x0020
  const MAPPED_ADDRESS: nat := 0x0004

  // ---- exclusive or -----------------------------------------------------------------

  function Bit(n: nat): nat { n % 2 }

  function Xor(a: nat, b: nat): nat {
    if a == 0 && b == 0 then 0 else 2 * Xor(a / 2, b / 2) + if Bit(a) != Bit(b) then 1 else 0
  }

  lemma {:induction false} XorParts(a: nat, b: nat)
    ensures Xor(a, b) / 2 == Xor(a / 2, b / 2)
    ensures Bit(Xor(a, b)) == if Bit(a) != Bit(b) then 1 else 0
  {
  }

  lemma {:induction false} XorCancels(a: nat, b: nat)
    ensures Xor(Xor(a, b), b) == a
    decreases a + b
  {
    if a != 0 || b != 0 {
      XorParts(a, b);
      XorCancels(a / 2, b / 2);
      if Xor(a, b) == 0 && b == 0 {
        XorParts(Xor(a, b), b);
      } else {
        assert a == 2 * (a / 2) + Bit(a);
      }
    }
  }

  lemma {:induction false} XorBound(a: nat, b: nat, n: nat)
    requires a < Pow2(n) && b < Pow2(n)
    ensures Xor(a, b) < Pow2(n)
  {
    if n > 0 {
      XorBound(a / 2, b / 2, n - 1);
    }
  }

  function XorByte(a: byte, b: byte): byte {
    assert Xor(a as nat, b as nat) < 256 by {
      assert Pow2(8) == 256;
      XorBound(a as nat, b as nat, 8);
    }
    Xor(a as nat, b as nat) as byte
  }

  lemma XorByteCancels(a: byte, b: byte)
    ensures XorByte(XorByte(a, b), b) == a
  {
    XorCancels(a as nat, b as nat);
  }

  // ---- fields -----------------------------------------------------------------------

  function U16(m: Bytes, at: nat): nat
    requires at + 2 <= |m|
  {
    m[at] as nat * 256 + m[at + 1] as nat
  }

  function Put16(n: nat): (b: Bytes)
    requires n < 65536
    ensures |b| == 2
  {
    [(n / 256) as byte, (n % 256) as byte]
  }

  /** An IPv4 address, four bytes, and a port. */
  datatype Endpoint = Endpoint(ip: Bytes, port: nat)

  predicate Proper(e: Endpoint) {
    |e.ip| == 4 && e.port < 65536
  }

  /** Four address bytes with the magic cookie taken out, or put in. */
  function XorBytes(b: Bytes): (r: Bytes)
    requires |b| == 4
    ensures |r| == 4
  {
    [XorByte(b[0], MAGIC_COOKIE[0]), XorByte(b[1], MAGIC_COOKIE[1]),
     XorByte(b[2], MAGIC_COOKIE[2]), XorByte(b[3], MAGIC_COOKIE[3])]
  }

  lemma XorBytesCancel(b: Bytes)
    requires |b| == 4
    ensures XorBytes(XorBytes(b)) == b
  {
    XorByteCancels(b[0], MAGIC_COOKIE[0]);
    XorByteCancels(b[1], MAGIC_COOKIE[1]);
    XorByteCancels(b[2], MAGIC_COOKIE[2]);
    XorByteCancels(b[3], MAGIC_COOKIE[3]);
  }

  /** Reading outside the buffer throws. */
  datatype Reading = Address(value: Option<Endpoint>) | OutOfBuffer

  function ReadAddress(m: Bytes, offset: nat, xored: bool): Reading {
    if offset + 1 >= |m| then OutOfBuffer
    else if m[offset + 1] != 1 then Address(None)
    else if offset + 8 > |m| then OutOfBuffer
    else if xored then Address(Some(Endpoint(XorBytes(m[offset + 4..offset + 8]), Xor(U16(m, offset + 2), 0x2112))))
    else Address(Some(Endpoint(m[offset + 4..offset + 8], U16(m, offset + 2))))
  }

  datatype Found = Found(xorMapped: Option<Endpoint>, mapped: Option<Endpoint>) | Thrown

  /** What one attribute at `offset`, with `length` bytes of value, adds to what was found. */
  function Take(m: Bytes, offset: nat, attrType: nat, length: nat,
                xorMapped: Option<Endpoint>, mapped: Option<Endpoint>): Found {
    if attrType == XOR_MAPPED_ADDRESS && length >= 8 then
      match ReadAddress(m, offset, true)
      case Address(a) => Found(a, mapped)
      case OutOfBuffer => Thrown
    else if attrType == MAPPED_ADDRESS && length >= 8 then
      match ReadAddress(m, offset, false)
      case Address(a) => Found(xorMapped, a)
      case OutOfBuffer => Thrown
    else Found(xorMapped, mapped)
  }

  function Padded(length: nat): nat {
    if length % 4 == 0 then length else length + 4 - length % 4
  }

  /** The attribute loop. */
  function Scan(m: Bytes, offset: nat, end: nat, xorMapped: Option<Endpoint>, mapped: Option<Endpoint>): Found
    decreases end - offset
  {
    if offset + 4 > end then Found(xorMapped, mapped)
    else if offset + 4 > |m| then Thrown
    else
      var attrType, length := U16(m, offset), U16(m, offset + 2);
      if offset + 4 + length > end then Found(xorMapped, mapped)
      else
        match Take(m, offset + 4, attrType, length, xorMapped, mapped)
        case Thrown => Thrown
        case Found(x, a) => Scan(m, offset + 4 + Padded(length), end, x, a)
  }

  datatype Outcome =
    | Parsed(xorMapped: Option<Endpoint>, mapped: Option<Endpoint>, transactionId: Bytes)
    | NotAResponse
    | RangeError

  predicate IsResponseHeader(m: Bytes) {
    |m| >= 20 && m[4..8] == MAGIC_COOKIE && U16(m, 0) == BINDING_RESPONSE
  }

  function Parse(m: Bytes): Outcome {
    if !IsResponseHeader(m) then NotAResponse
    else
      match Scan(m, 20, 20 + U16(m, 2), None, None)
      case Thrown => RangeError
      case Found(x, a) => Parsed(if x.Some? then x else a, a, m[8..20])
  }

  /** The loop over `offset`, with the variables it overwrites. */
  method ParseStunResponse(msg: Bytes) returns (outcome: Outcome)
    ensures outcome == Parse(msg)
  {
    if !IsResponseHeader(msg) {
      return NotAResponse;
    }
    var offset, end := 20, 20 + U16(msg, 2);
    var mappedAddress, xorMappedAddress: Option<Endpoint> := None, None;
    while offset + 4 <= end
      invariant Scan(msg, offset, end, xorMappedAddress, mappedAddress) == Scan(msg, 20, end, None, None)
      decreases end - offset
    {
      if offset + 4 > |msg| {
        return RangeError;
      }
      var attrType, attrLength := U16(msg, offset), U16(msg, offset + 2);
      offset := offset + 4;
      if offset + attrLength > end {
        break;
      }
      match Take(msg, offset, attrType, attrLength, xorMappedAddress, mappedAddress) {
        case Thrown =>
          return RangeError;
        case Found(x, a) =>
          xorMappedAddress, mappedAddress := x, a;
      }
      offset := offset + attrLength;
      if attrLength % 4 != 0 {
        offset := offset + 4 - attrLength % 4;
      }
    }
    return Parsed(if xorMappedAddress.Some? then xorMappedAddress else mappedAddress, mappedAddress, msg[8..20]);
  }

  // ---- reads in bounds --------------------------------------------------------------

  lemma {:induction false} ScanInBounds(m: Bytes, offset: nat, end: nat,
                                        xorMapped: Option<Endpoint>, mapped: Option<Endpoint>)
    requires end <= |m|
    ensures Scan(m, offset, end, xorMapped, mapped).Found?
    decreases end - offset
  {
    if offset + 4 <= end {
      var attrType, length := U16(m, offset), U16(m, offset + 2);
      if offset + 4 + length <= end {
        var f := Take(m, offset + 4, attrType, length, xorMapped, mapped);
        ScanInBounds(m, offset + 4 + Padded(length), end, f.xorMapped, f.mapped);
      }
    }
  }

  /** A message that is as long as it declares is never read past its end. */
  lemma DeclaredLengthSuffices(m: Bytes)
    requires |m| >= 20 && 20 + U16(m, 2) <= |m|
    ensures !Parse(m).RangeError?
  {
    ScanInBounds(m, 20, 20 + U16(m, 2), None, None);
  }

  lemma {:induction false} ScanExtended(m: Bytes, more: Bytes, offset: nat, end: nat,
                                        xorMapped: Option<Endpoint>, mapped: Option<Endpoint>)
    requires Scan(m, offset, end, xorMapped, mapped).Found?
    ensures Scan(m + more, offset, end, xorMapped, mapped) == Scan(m, offset, end, xorMapped, mapped)
    decreases end - offset
  {
    if offset + 4 <= end {
      HeaderExtended(m, more, offset);
      var attrType, length := U16(m, offset), U16(m, offset + 2);
      if offset + 4 + length <= end {
        TakeExtended(m, more, offset + 4, attrType, length, xorMapped, mapped);
        var f := Take(m, offset + 4, attrType, length, xorMapped, mapped);
        ScanExtended(m, more, offset + 4 + Padded(length), end, f.xorMapped, f.mapped);
      }
    }
  }

  lemma HeaderExtended(m: Bytes, more: Bytes, offset: nat)
    requires offset + 4 <= |m|
    ensures U16(m + more, offset) == U16(m, offset) && U16(m + more, offset + 2) == U16(m, offset + 2)
  {
  }

  lemma TakeExtended(m: Bytes, more: Bytes, offset: nat, attrType: nat, length: nat,
                     xorMapped: Option<Endpoint>, mapped: Option<Endpoint>)
    requires Take(m, offset, attrType, length, xorMapped, mapped).Found?
    ensures Take(m + more, offset, attrType, length, xorMapped, mapped) ==
            Take(m, offset, attrType, length, xorMapped, mapped)
  {
    if offset + 8 <= |m| {
      assert (m + more)[offset + 4..offset + 8] == m[offset + 4..offset + 8];
    }
  }

  /** A response is cut short exactly where it matters: reading it runs past its end if and only if
      more bytes could make a difference to what is parsed. */
  lemma RangeErrorIff(m: Bytes)
    requires IsResponseHeader(m)
    ensures Parse(m).RangeError? <==> exists more: Bytes :: Parse(m + more) != Parse(m)
  {
    if Parse(m).RangeError? {
      var more: Bytes := seq(U16(m, 2), _ => 0);
      HeaderKept(m, more);
      DeclaredLengthSuffices(m + more);
      assert Parse(m + more) != Parse(m);
    } else {
      forall more: Bytes ensures Parse(m + more) == Parse(m) {
        HeaderKept(m, more);
        ScanExtended(m, more, 20, 20 + U16(m, 2), None, None);
      }
    }
  }

  lemma HeaderKept(m: Bytes, more: Bytes)
    requires IsResponseHeader(m)
    ensures IsResponseHeader(m + more) && U16(m + more, 2) == U16(m, 2) && (m + more)[8..20] == m[8..20]
  {
    assert (m + more)[4..8] == m[4..8];
  }

  // ---- the encoder ------------------------------------------------------------------

  /** An attribute with the bytes that pad it to a multiple of four. */
  datatype Attribute = Attribute(attrType: nat, value: Bytes, padding: Bytes)

  predicate ProperAttribute(a: Attribute) {
    && a.attrType < 65536 && |a.value| < 65536
    && |a.padding| < 4 && (|a.value| + |a.padding|) % 4 == 0
  }

  function Size(a: Attribute): nat {
    4 + |a.value| + |a.padding|
  }

  lemma PaddingFills(a: Attribute)
    requires ProperAttribute(a)
    ensures Size(a) == 4 + Padded(|a.value|)
  {
    FillsToFour(|a.value|, |a.padding|);
  }

  lemma FillsToFour(n: nat, k: nat)
    requires k < 4 && (n + k) % 4 == 0
    ensures Padded(n) == n + k
  {
    assert n == 4 * (n / 4) + n % 4 && n + k == 4 * ((n + k) / 4);
  }

  function EncodeAttribute(a: Attribute): (b: Bytes)
    requires ProperAttribute(a)
    ensures |b| == 4 + |a.value| + |a.padding|
  {
    Put16(a.attrType) + Put16(|a.value|) + a.value + a.padding
  }

  function EncodeAttributes(attributes: seq<Attribute>): Bytes
    requires forall a :: a in attributes ==> ProperAttribute(a)
  {
    if attributes == [] then [] else EncodeAttribute(attributes[0]) + EncodeAttributes(attributes[1..])
  }

  function Encode(transactionId: Bytes, attributes: seq<Attribute>): Bytes
    requires forall a :: a in attributes ==> ProperAttribute(a)
    requires |EncodeAttributes(attributes)| < 65536
  {
    Message(transactionId, EncodeAttributes(attributes))
  }

  /** A binding response with the magic cookie (section 6 of RFC 5389) around any body. */
  function Message(transactionId: Bytes, body: Bytes): Bytes
    requires |body| < 65536
  {
    [0x01, 0x01] + Put16(|body|) + [0x21, 0x12, 0xa4, 0x42] + transactionId + body
  }

  /** What one attribute means, whatever surrounds it. */
  function Meaning(a: Attribute, found: Found): Found {
    if found.Thrown? then Thrown
    else Take(a.value, 0, a.attrType, |a.value|, found.xorMapped, found.mapped)
  }

  /** Later attributes replace earlier ones. */
  function MeaningOf(attributes: seq<Attribute>, found: Found): Found {
    if attributes == [] then found else MeaningOf(attributes[1..], Meaning(attributes[0], found))
  }

  lemma TakeInContext(m: Bytes, offset: nat, a: Attribute, xorMapped: Option<Endpoint>, mapped: Option<Endpoint>)
    requires offset + |a.value| <= |m| && m[offset..offset + |a.value|] == a.value
    ensures Take(m, offset, a.attrType, |a.value|, xorMapped, mapped) == Meaning(a, Found(xorMapped, mapped))
    ensures Meaning(a, Found(xorMapped, mapped)).Found?
  {
    if |a.value| >= 8 {
      assert forall i :: 0 <= i < |a.value| ==> m[offset + i] == a.value[i];
      assert m[offset + 4..offset + 8] == a.value[4..8];
    }
  }

  lemma AttributeHeader(m: Bytes, offset: nat, a: Attribute, rest: Bytes)
    requires ProperAttribute(a) && offset <= |m| && m[offset..] == EncodeAttribute(a) + rest
    ensures offset + Size(a) <= |m|
    ensures U16(m, offset) == a.attrType && U16(m, offset + 2) == |a.value|
    ensures m[offset + 4..offset + 4 + |a.value|] == a.value
    ensures m[offset + Size(a)..] == rest
  {
    var tail := m[offset..];
    assert forall i :: 0 <= i < |tail| ==> tail[i] == m[offset + i];
    assert tail[0..2] == Put16(a.attrType) && tail[2..4] == Put16(|a.value|);
    assert tail[4..4 + |a.value|] == a.value;
    assert tail[Size(a)..] == rest;
  }

  lemma ScanOne(m: Bytes, offset: nat, end: nat, a: Attribute, after: Bytes,
                xorMapped: Option<Endpoint>, mapped: Option<Endpoint>)
    requires ProperAttribute(a) && offset <= |m| && m[offset..] == EncodeAttribute(a) + after
    requires offset + Size(a) <= end
    ensures var f := Meaning(a, Found(xorMapped, mapped));
            f.Found? && Scan(m, offset, end, xorMapped, mapped) ==
                        Scan(m, offset + Size(a), end, f.xorMapped, f.mapped)
  {
    AttributeHeader(m, offset, a, after);
    PaddingFills(a);
    TakeInContext(m, offset + 4, a, xorMapped, mapped);
  }

  lemma EncodeSplit(attributes: seq<Attribute>, rest: Bytes)
    requires attributes != [] && forall a :: a in attributes ==> ProperAttribute(a)
    ensures EncodeAttributes(attributes) + rest ==
            EncodeAttribute(attributes[0]) + (EncodeAttributes(attributes[1..]) + rest)
    ensures |EncodeAttributes(attributes)| == Size(attributes[0]) + |EncodeAttributes(attributes[1..])|
  {
    var head, others := EncodeAttribute(attributes[0]), EncodeAttributes(attributes[1..]);
    assert EncodeAttributes(attributes) == head + others;
    Associate(head, others, rest);
  }

  /** Bytes that do not hold a whole attribute: no header, or one that claims more than there is. */
  predicate NoAttribute(junk: Bytes) {
    |junk| < 4 || |junk| < 4 + junk[2] as nat * 256 + junk[3] as nat
  }

  lemma JunkEnds(m: Bytes, offset: nat, junk: Bytes, rest: Bytes, xorMapped: Option<Endpoint>, mapped: Option<Endpoint>)
    requires NoAttribute(junk) && offset <= |m| && m[offset..] == junk + rest
    ensures Scan(m, offset, offset + |junk|, xorMapped, mapped) == Found(xorMapped, mapped)
  {
    if |junk| >= 4 {
      assert forall i :: 0 <= i < |junk| ==> m[offset + i] == m[offset..][i] == junk[i];
    }
  }

  lemma {:induction false} ScanMeansList(m: Bytes, offset: nat, end: nat, attributes: seq<Attribute>, junk: Bytes,
                                         rest: Bytes, xorMapped: Option<Endpoint>, mapped: Option<Endpoint>)
    requires (forall a :: a in attributes ==> ProperAttribute(a)) && NoAttribute(junk)
    requires offset <= |m| && m[offset..] == EncodeAttributes(attributes) + (junk + rest)
    requires end == offset + |EncodeAttributes(attributes)| + |junk|
    ensures Scan(m, offset, end, xorMapped, mapped) == MeaningOf(attributes, Found(xorMapped, mapped))
    ensures MeaningOf(attributes, Found(xorMapped, mapped)).Found?
    decreases attributes
  {
    if attributes == [] {
      assert EncodeAttributes(attributes) + (junk + rest) == junk + rest;
      JunkEnds(m, offset, junk, rest, xorMapped, mapped);
    } else {
      var a, others := attributes[0], attributes[1..];
      var after, next := EncodeAttributes(others) + (junk + rest), offset + Size(a);
      var f := Meaning(a, Found(xorMapped, mapped));
      assert m[next..] == after && f.Found? &&
             Scan(m, offset, end, xorMapped, mapped) == Scan(m, next, end, f.xorMapped, f.mapped) by {
        EncodeSplit(attributes, junk + rest);
        AttributeHeader(m, offset, a, after);
        ScanOne(m, offset, end, a, after, xorMapped, mapped);
      }
      assert end == next + |EncodeAttributes(others)| + |junk| by { EncodeSplit(attributes, junk + rest); }
      ScanMeansList(m, next, end, others, junk, rest, f.xorMapped, f.mapped);
    }
  }

  lemma HeaderParses(transactionId: Bytes, body: Bytes, rest: Bytes)
    requires |transactionId| == 12 && |body| < 65536
    ensures var m := Message(transactionId, body) + rest;
            && IsResponseHeader(m) && U16(m, 2) == |body| && m[8..20] == transactionId && m[20..] == body + rest
  {
    var m := Message(transactionId, body) + rest;
    assert m[0..2] == [0x01, 0x01] && m[2..4] == Put16(|body|) && m[4..8] == MAGIC_COOKIE;
  }

  /** Parsing an encoded response gives what its attributes mean, one after the other, whatever follows
      them that is no attribute, and whatever follows the message. */
  lemma ParseEncoded(transactionId: Bytes, attributes: seq<Attribute>, junk: Bytes, rest: Bytes)
    requires |transactionId| == 12 && NoAttribute(junk)
    requires forall a :: a in attributes ==> ProperAttribute(a)
    requires |EncodeAttributes(attributes) + junk| < 65536
    ensures var f := MeaningOf(attributes, Found(None, None));
            f.Found? && Parse(Message(transactionId, EncodeAttributes(attributes) + junk) + rest) ==
                        Parsed(if f.xorMapped.Some? then f.xorMapped else f.mapped, f.mapped, transactionId)
  {
    var body := EncodeAttributes(attributes) + junk;
    HeaderParses(transactionId, body, rest);
    Associate(EncodeAttributes(attributes), junk, rest);
    ScanMeansList(Message(transactionId, body) + rest, 20, 20 + |body|, attributes, junk, rest, None, None);
  }

  // ---- messages cut short -----------------------------------------------------------

  /** How many bytes of an encoded attribute the parser reads. */
  function BytesRead(a: Attribute): nat {
    if (a.attrType != 0x0020 && a.attrType != 0x0004) || |a.value| < 8 then 4
    else if a.value[1] != 1 then 6
    else 12
  }

  /** What is read of each attribute lies within the first `room` bytes of the list. */
  predicate ReadWithin(attributes: seq<Attribute>, room: int) {
    attributes == [] ||
    (BytesRead(attributes[0]) <= room && ReadWithin(attributes[1..], room - Size(attributes[0])))
  }

  /** One attribute of a message `m` of which only `c` is there. */
  lemma TakeCut(c: Bytes, m: Bytes, offset: nat, a: Attribute, rest: Bytes,
                xorMapped: Option<Endpoint>, mapped: Option<Endpoint>)
    requires c <= m && offset + 4 <= |c|
    requires ProperAttribute(a) && m[offset..] == EncodeAttribute(a) + rest
    ensures U16(c, offset) == a.attrType && U16(c, offset + 2) == |a.value|
    ensures Take(c, offset + 4, a.attrType, |a.value|, xorMapped, mapped).Thrown? <==> |c| < offset + BytesRead(a)
  {
    AttributeHeader(m, offset, a, rest);
    if |a.value| >= 8 {
      assert m[offset + 5] == m[offset + 4..offset + 4 + |a.value|][1];
    }
  }

  /** Reading it throws, or the loop goes on behind it. */
  lemma ScanOneCut(c: Bytes, m: Bytes, offset: nat, a: Attribute, rest: Bytes,
                   xorMapped: Option<Endpoint>, mapped: Option<Endpoint>) returns (next: nat, f: Found)
    requires c <= m && offset <= |m| && ProperAttribute(a) && m[offset..] == EncodeAttribute(a) + rest
    ensures next == offset + Size(a) <= |m| && m[next..] == rest
    ensures |c| < offset + BytesRead(a) ==> Scan(c, offset, |m|, xorMapped, mapped).Thrown?
    ensures |c| >= offset + BytesRead(a) ==>
              f.Found? && Scan(c, offset, |m|, xorMapped, mapped) == Scan(c, next, |m|, f.xorMapped, f.mapped)
  {
    AttributeHeader(m, offset, a, rest);
    PaddingFills(a);
    next, f := offset + Size(a), Thrown;
    if offset + 4 <= |c| {
      TakeCut(c, m, offset, a, rest, xorMapped, mapped);
      f := Take(c, offset + 4, a.attrType, |a.value|, xorMapped, mapped);
    }
  }

  /** The loop throws exactly if something of these attributes that is read is missing. */
  ghost predicate ThrowsIffCut(c: Bytes, end: nat, offset: nat, attributes: seq<Attribute>, f: Found)
    requires f.Found?
  {
    Scan(c, offset, end, f.xorMapped, f.mapped).Thrown? <==> !ReadWithin(attributes, |c| - offset)
  }

  lemma ReadWithinNext(attributes: seq<Attribute>, size: nat, offset: nat)
    requires attributes != []
    ensures ReadWithin(attributes, size - offset) <==>
            offset + BytesRead(attributes[0]) <= size &&
            ReadWithin(attributes[1..], size - (offset + Size(attributes[0])))
  {
  }

  lemma ScanCutNext(c: Bytes, end: nat, offset: nat, next: nat, attributes: seq<Attribute>, found: Found, f: Found)
    requires attributes != [] && next == offset + Size(attributes[0]) && found.Found? && f.Found?
    requires |c| >= offset + BytesRead(attributes[0]) && ThrowsIffCut(c, end, next, attributes[1..], f)
    requires Scan(c, offset, end, found.xorMapped, found.mapped) == Scan(c, next, end, f.xorMapped, f.mapped)
    ensures ThrowsIffCut(c, end, offset, attributes, found)
  {
    ReadWithinNext(attributes, |c|, offset);
  }

  lemma {:induction false} ScanCut(c: Bytes, m: Bytes, offset: nat, attributes: seq<Attribute>, found: Found)
    requires c <= m && offset <= |m| && found.Found?
    requires (forall a :: a in attributes ==> ProperAttribute(a)) && m[offset..] == EncodeAttributes(attributes)
    ensures ThrowsIffCut(c, |m|, offset, attributes, found)
    decreases attributes
  {
    if attributes != [] {
      var a, others := attributes[0], attributes[1..];
      var next, f := ScanOneCut(c, m, offset, a, EncodeAttributes(others), found.xorMapped, found.mapped);
      if |c| < offset + BytesRead(a) {
        ReadWithinNext(attributes, |c|, offset);
      } else {
        ScanCut(c, m, next, others, f);
        ScanCutNext(c, |m|, offset, next, attributes, found, f);
      }
    }
  }

  /** An encoded response cut off after `n` bytes makes the parser run past its end exactly when the cut
      takes something that is read: a header, or the family or value of an address. */
  lemma CutIff(transactionId: Bytes, attributes: seq<Attribute>, n: nat)
    requires |transactionId| == 12 && forall a :: a in attributes ==> ProperAttribute(a)
    requires |EncodeAttributes(attributes)| < 65536 && 20 <= n <= 20 + |EncodeAttributes(attributes)|
    ensures |Encode(transactionId, attributes)| == 20 + |EncodeAttributes(attributes)|
    ensures Parse(Encode(transactionId, attributes)[..n]).RangeError? <==> !ReadWithin(attributes, n - 20)
  {
    var m, body := Encode(transactionId, attributes), EncodeAttributes(attributes);
    HeaderParses(transactionId, body, []);
    NothingMore(m, []);
    NothingMore(body, []);
    assert m[..n][4..8] == m[4..8] && U16(m[..n], 2) == U16(m, 2) && U16(m[..n], 0) == U16(m, 0);
    ScanCut(m[..n], m, 20, attributes, Found(None, None));
  }

  // ---- the address comes back -------------------------------------------------------

  /** The value of an XOR-MAPPED-ADDRESS for IPv4 (section 15.2 of RFC 5389). */
  function XorValue(e: Endpoint): (v: Bytes)
    requires Proper(e)
    ensures |v| == 8
  {
    XorBelow(e.port, 0x2112);
    [0, 1] + Put16(Xor(e.port, 0x2112)) +
    [XorByte(e.ip[0], 0x21), XorByte(e.ip[1], 0x12), XorByte(e.ip[2], 0xa4), XorByte(e.ip[3], 0x42)]
  }

  lemma XorBelow(a: nat, b: nat)
    requires a < 65536 && b < 65536
    ensures Xor(a, b) < 65536
  {
    assert Pow2(8) == 256 && Pow2(16) == 65536;
    XorBound(a, b, 16);
  }

  /** The value of a MAPPED-ADDRESS for IPv4 (section 15.1 of RFC 5389). */
  function PlainValue(e: Endpoint): (v: Bytes)
    requires Proper(e)
    ensures |v| == 8
  {
    [0, 1] + Put16(e.port) + e.ip
  }

  /** The last of the attributes of a type that are long enough for an address. */
  function LastValue(attributes: seq<Attribute>, attrType: nat): Option<Bytes> {
    if attributes == [] then None
    else
      var later := LastValue(attributes[1..], attrType);
      if later.Some? then later
      else if attributes[0].attrType == attrType && |attributes[0].value| >= 8 then Some(attributes[0].value)
      else None
  }

  /** What an address value says: an endpoint for family 1, nothing otherwise. */
  ghost predicate SaysPlain(v: Bytes, e: Option<Endpoint>)
    requires |v| >= 8
  {
    if v[1] != 1 then e == None else e.Some? && Proper(e.value) && PlainValue(e.value)[2..8] == v[2..8]
  }

  ghost predicate SaysXored(v: Bytes, e: Option<Endpoint>)
    requires |v| >= 8
  {
    if v[1] != 1 then e == None else e.Some? && Proper(e.value) && XorValue(e.value)[2..8] == v[2..8]
  }

  lemma LastValueLong(attributes: seq<Attribute>, attrType: nat)
    ensures LastValue(attributes, attrType).Some? ==> |LastValue(attributes, attrType).value| >= 8
  {
  }

  lemma ReadPlain(v: Bytes)
    requires |v| >= 8
    ensures ReadAddress(v, 0, false).Address? && SaysPlain(v, ReadAddress(v, 0, false).value)
  {
    if v[1] == 1 {
      var e := ReadAddress(v, 0, false).value.value;
      assert PlainValue(e)[2..4] == v[2..4] && PlainValue(e)[4..8] == v[4..8];
      assert PlainValue(e)[2..8] == PlainValue(e)[2..4] + PlainValue(e)[4..8] && v[2..8] == v[2..4] + v[4..8];
    }
  }

  lemma XoredPort(v: Bytes)
    requires |v| >= 8
    ensures Xor(U16(v, 2), 0x2112) < 65536 && Xor(Xor(U16(v, 2), 0x2112), 0x2112) == U16(v, 2)
    ensures Put16(U16(v, 2)) == v[2..4]
  {
    XorBelow(U16(v, 2), 0x2112);
    XorCancels(U16(v, 2), 0x2112);
  }

  lemma XoredParts(e: Endpoint)
    requires Proper(e)
    ensures Xor(e.port, 0x2112) < 65536
    ensures XorValue(e)[2..4] == Put16(Xor(e.port, 0x2112)) && XorValue(e)[4..8] == XorBytes(e.ip)
  {
    XorBelow(e.port, 0x2112);
  }

  lemma TwoParts(v: Bytes, w: Bytes)
    requires |v| >= 8 && |w| >= 8 && v[2..4] == w[2..4] && v[4..8] == w[4..8]
    ensures v[2..8] == w[2..8]
  {
    assert v[2..8] == v[2..4] + v[4..8] && w[2..8] == w[2..4] + w[4..8];
  }

  lemma ReadXored(v: Bytes)
    requires |v| >= 8
    ensures ReadAddress(v, 0, true).Address? && SaysXored(v, ReadAddress(v, 0, true).value)
  {
    if v[1] == 1 {
      var e := ReadAddress(v, 0, true).value.value;
      XoredPort(v);
      XorBytesCancel(v[4..8]);
      XoredParts(e);
      TwoParts(XorValue(e), v);
    }
  }

  /** Two endpoints with the same coded bytes are the same. */
  lemma PlainOnce(v: Bytes, d: Endpoint, e: Endpoint)
    requires |v| >= 8 && Proper(d) && Proper(e) && v[1] == 1 && SaysPlain(v, Some(d)) && SaysPlain(v, Some(e))
    ensures d == e
  {
    SameBytes(PlainValue(d), PlainValue(e));
    assert d.ip == PlainValue(d)[4..8] && e.ip == PlainValue(e)[4..8];
  }

  lemma XoredOnce(v: Bytes, d: Endpoint, e: Endpoint)
    requires |v| >= 8 && Proper(d) && Proper(e) && v[1] == 1 && SaysXored(v, Some(d)) && SaysXored(v, Some(e))
    ensures d == e
  {
    SameBytes(XorValue(d), XorValue(e));
    XoredParts(d);
    XoredParts(e);
    assert U16(XorValue(d), 2) == Xor(d.port, 0x2112) && U16(XorValue(e), 2) == Xor(e.port, 0x2112);
    XorCancels(d.port, 0x2112);
    XorCancels(e.port, 0x2112);
    XorBytesCancel(d.ip);
    XorBytesCancel(e.ip);
  }

  lemma SameBytes(v: Bytes, w: Bytes)
    requires |v| == |w| == 8 && v[2..8] == w[2..8]
    ensures U16(v, 2) == U16(w, 2) && v[4..8] == w[4..8]
  {
    assert forall i :: 2 <= i < 8 ==> v[i] == v[2..8][i - 2] == w[i];
  }

  /** What is found is said by the last address of either kind, or was there before. */
  ghost predicate FoundInLast(attributes: seq<Attribute>, before: Found, after: Found) {
    && before.Found? && after.Found?
    && (match LastValue(attributes, 0x0020)
        case None => after.xorMapped == before.xorMapped
        case Some(v) => |v| >= 8 && SaysXored(v, after.xorMapped))
    && (match LastValue(attributes, 0x0004)
        case None => after.mapped == before.mapped
        case Some(v) => |v| >= 8 && SaysPlain(v, after.mapped))
  }

  lemma OneMeans(a: Attribute, found: Found)
    requires found.Found?
    ensures Meaning(a, found).Found?
    ensures var f := Meaning(a, found);
            && (if a.attrType == 0x0020 && |a.value| >= 8 then SaysXored(a.value, f.xorMapped)
                else f.xorMapped == found.xorMapped)
            && (if a.attrType == 0x0004 && |a.value| >= 8 then SaysPlain(a.value, f.mapped)
                else f.mapped == found.mapped)
  {
    if |a.value| >= 8 {
      ReadPlain(a.value);
      ReadXored(a.value);
    }
  }

  lemma {:induction false} MeansLast(attributes: seq<Attribute>, found: Found)
    requires found.Found?
    ensures FoundInLast(attributes, found, MeaningOf(attributes, found))
    decreases attributes
  {
    if attributes != [] {
      OneMeans(attributes[0], found);
      MeansLast(attributes[1..], Meaning(attributes[0], found));
    }
  }

  /** What is parsed of any response: the last address of each kind, whatever else there is; the plain
      one, if there is no other, takes the place of the other. */
  lemma WhatIsParsed(transactionId: Bytes, attributes: seq<Attribute>, junk: Bytes, rest: Bytes)
    requires |transactionId| == 12 && NoAttribute(junk)
    requires forall a :: a in attributes ==> ProperAttribute(a)
    requires |EncodeAttributes(attributes) + junk| < 65536
    ensures var outcome := Parse(Message(transactionId, EncodeAttributes(attributes) + junk) + rest);
            && outcome.Parsed? && outcome.transactionId == transactionId
            && exists x: Option<Endpoint> ::
                 && FoundInLast(attributes, Found(None, None), Found(x, outcome.mapped))
                 && outcome.xorMapped == if x.Some? then x else outcome.mapped
  {
    ParseEncoded(transactionId, attributes, junk, rest);
    MeansLast(attributes, Found(None, None));
    var f := MeaningOf(attributes, Found(None, None));
    assert FoundInLast(attributes, Found(None, None), Found(f.xorMapped, f.mapped));
  }

  lemma {:induction false} LastAppended(attributes: seq<Attribute>, last: Attribute)
    requires |last.value| >= 8
    ensures LastValue(attributes + [last], last.attrType) == Some(last.value)
    decreases attributes
  {
    var all := attributes + [last];
    if attributes == [] {
      assert all[1..] == [] && all[0] == last;
    } else {
      assert all[1..] == attributes[1..] + [last];
      LastAppended(attributes[1..], last);
    }
  }

  /** A later attribute wins, and one that is not IPv4 wins with nothing: the parser then falls back
      on the address in plain. */
  lemma LastXorWins(attributes: seq<Attribute>, last: Attribute, found: Found)
    requires found.Found? && last.attrType == 0x0020 && |last.value| >= 8
    ensures var f := MeaningOf(attributes + [last], found);
            f.Found? && SaysXored(last.value, f.xorMapped)
  {
    LastAppended(attributes, last);
    MeansLast(attributes + [last], found);
  }

  /** A value of the type that stands alone among the others is the last one. */
  lemma {:induction false} LastAmong(before: seq<Attribute>, a: Attribute, after: seq<Attribute>)
    requires |a.value| >= 8 && forall b :: b in before + after ==> b.attrType != a.attrType
    ensures LastValue(before + [a] + after, a.attrType) == Some(a.value)
    decreases before
  {
    var all := before + [a] + after;
    if before == [] {
      assert all[1..] == after && all[0] == a;
      LastNone(after, a.attrType);
    } else {
      assert all[1..] == before[1..] + [a] + after && all[0] == before[0];
      assert forall b :: b in before[1..] + after ==> b in before + after;
      LastAmong(before[1..], a, after);
    }
  }

  lemma {:induction false} LastNone(attributes: seq<Attribute>, attrType: nat)
    requires forall b :: b in attributes ==> b.attrType != attrType || |b.value| < 8
    ensures LastValue(attributes, attrType) == None
    decreases attributes
  {
    if attributes != [] {
      LastNone(attributes[1..], attrType);
    }
  }

  function XorAttribute(e: Endpoint): Attribute
    requires Proper(e)
  {
    Attribute(0x0020, XorValue(e), [])
  }

  /** With exactly one XOR-MAPPED-ADDRESS, wherever it stands, the parser returns its address and
      port, whatever the other attributes, the padding and the bytes after the message. */
  lemma AddressComesBack(transactionId: Bytes, before: seq<Attribute>, e: Endpoint, after: seq<Attribute>, rest: Bytes)
    requires |transactionId| == 12 && Proper(e)
    requires forall a :: a in before + after ==> ProperAttribute(a) && a.attrType != 0x0020
    requires ProperAttribute(XorAttribute(e)) && |EncodeAttributes(before + [XorAttribute(e)] + after)| < 65536
    ensures var outcome := Parse(Encode(transactionId, before + [XorAttribute(e)] + after) + rest);
            outcome.Parsed? && outcome.xorMapped == Some(e) && outcome.transactionId == transactionId
  {
    var all := before + [XorAttribute(e)] + after;
    assert forall a :: a in before ==> a in before + after;
    assert forall a :: a in after ==> a in before + after;
    NothingMore(EncodeAttributes(all), []);
    WhatIsParsed(transactionId, all, [], rest);
    LastAmong(before, XorAttribute(e), after);
    var outcome := Parse(Encode(transactionId, all) + rest);
    var x :| FoundInLast(all, Found(None, None), Found(x, outcome.mapped)) &&
             outcome.xorMapped == if x.Some? then x else outcome.mapped;
    XoredOnce(XorValue(e), x.value, e);
  }

  function PlainAttribute(e: Endpoint): Attribute
    requires Proper(e)
  {
    Attribute(0x0004, PlainValue(e), [])
  }

  /** An address in plain, of the type the program takes for MAPPED-ADDRESS, is returned if there is no
      other. */
  lemma PlainAddressComesBack(transactionId: Bytes, before: seq<Attribute>, e: Endpoint, after: seq<Attribute>,
                              rest: Bytes)
    requires |transactionId| == 12 && Proper(e)
    requires forall a :: a in before + after ==>
               ProperAttribute(a) && a.attrType != 0x0020 && a.attrType != 0x0004
    requires ProperAttribute(PlainAttribute(e)) && |EncodeAttributes(before + [PlainAttribute(e)] + after)| < 65536
    ensures Parse(Encode(transactionId, before + [PlainAttribute(e)] + after) + rest) ==
            Parsed(Some(e), Some(e), transactionId)
  {
    var all := before + [PlainAttribute(e)] + after;
    assert forall a :: a in before ==> a in before + after;
    assert forall a :: a in after ==> a in before + after;
    NothingMore(EncodeAttributes(all), []);
    WhatIsParsed(transactionId, all, [], rest);
    LastAmong(before, PlainAttribute(e), after);
    LastNone(all, 0x0020);
    var outcome := Parse(Encode(transactionId, all) + rest);
    PlainOnce(PlainValue(e), outcome.mapped.value, e);
  }

  /** That type is 0x0004. A MAPPED-ADDRESS as the standard numbers it, 0x0001 (section 18.2 of
      RFC 5389), is not found, and neither is any other attribute. */
  lemma OthersNotFound(transactionId: Bytes, attributes: seq<Attribute>, rest: Bytes)
    requires |transactionId| == 12
    requires forall a :: a in attributes ==> ProperAttribute(a) && a.attrType != 0x0020 && a.attrType != 0x0004
    requires |EncodeAttributes(attributes)| < 65536
    ensures Parse(Encode(transactionId, attributes) + rest) == Parsed(None, None, transactionId)
  {
    NothingMore(EncodeAttributes(attributes), []);
    WhatIsParsed(transactionId, attributes, [], rest);
    LastNone(attributes, 0x0020);
    LastNone(attributes, 0x0004);
  }

  /** What is no binding response with the magic cookie is not parsed. */
  lemma NotAResponseIff(m: Bytes)
    ensures Parse(m).NotAResponse? <==> |m| < 20 || m[0..2] != [0x01, 0x01] || m[4..8] != [0x21, 0x12, 0xa4, 0x42]
  {
    if |m| >= 20 {
      assert m[0..2] == [m[0], m[1]];
    }
  }

  // ---- a message --------------------------------------------------------------------

  /** Next to one attribute of another type, before or behind it. */
  lemma AmongTwo(id: Bytes, a: Attribute, e: Endpoint)
    requires |id| == 12 && ProperAttribute(a) && Proper(e) && a.attrType != 0x0020 && a.attrType != 0x0004
    requires |a.value| < 1000 && ProperAttribute(XorAttribute(e))
    ensures |EncodeAttribute(a) + EncodeAttribute(XorAttribute(e))| < 65536
    ensures Parse(Message(id, EncodeAttribute(a) + EncodeAttribute(XorAttribute(e)))) == Parsed(Some(e), None, id)
    ensures Parse(Message(id, EncodeAttribute(XorAttribute(e)) + EncodeAttribute(a))) == Parsed(Some(e), None, id)
  {
    TwoParsed(id, [a], a, e, XorAttribute(e), []);
    TwoParsed(id, [], XorAttribute(e), e, a, [a]);
  }

  lemma TwoParsed(id: Bytes, before: seq<Attribute>, a: Attribute, e: Endpoint, b: Attribute, after: seq<Attribute>)
    requires |id| == 12 && Proper(e) && ProperAttribute(a) && ProperAttribute(b)
    requires |a.value| < 1000 && |b.value| < 1000
    requires before + [XorAttribute(e)] + after == [a, b] && |before + after| == 1
    requires forall c :: c in before + after ==> ProperAttribute(c) && c.attrType != 0x0020 && c.attrType != 0x0004
    ensures |EncodeAttribute(a) + EncodeAttribute(b)| < 65536
    ensures Parse(Message(id, EncodeAttribute(a) + EncodeAttribute(b))) == Parsed(Some(e), None, id)
  {
    TwoEncoded(a, b);
    assert XorAttribute(e) in before + [XorAttribute(e)] + after;
    AddressComesBack(id, before, e, after, []);
    NothingMore(EncodeAttributes([a, b]), []);
    NothingMore(Encode(id, [a, b]), []);
    WhatIsParsed(id, [a, b], [], []);
    forall c | c in [a, b] ensures c.attrType != 0x0004 {
      assert c in before + [XorAttribute(e)] + after;
      assert c != XorAttribute(e) ==> c in before + after;
    }
    LastNone([a, b], 0x0004);
  }

  /** The bytes of an encoded address, from its exclusive ors. */
  lemma XoredBytes(e: Endpoint, high: byte, low: byte, ip: Bytes)
    requires Proper(e) && Xor(e.port, 0x2112) == high as nat * 256 + low as nat && |ip| == 4
    requires ip[0] as nat == Xor(e.ip[0] as nat, 0x21) && ip[1] as nat == Xor(e.ip[1] as nat, 0x12)
    requires ip[2] as nat == Xor(e.ip[2] as nat, 0xa4) && ip[3] as nat == Xor(e.ip[3] as nat, 0x42)
    ensures ProperAttribute(XorAttribute(e))
    ensures EncodeAttribute(XorAttribute(e)) ==
            [0x00, 0x20, 0x00, 0x08, 0x00, 0x01, high, low, ip[0], ip[1], ip[2], ip[3]]
  {
  }

  /** The bytes of a SOFTWARE attribute with a text of five bytes, and of 203.0.113.5:7990, xored. */
  const SOFTWARE: Bytes := [0x80, 0x22, 0x00, 0x05, 0x68, 0x65, 0x6c, 0x6c, 0x6f, 0x00, 0x00, 0x00]
  const XORED: Bytes := [0x00, 0x20, 0x00, 0x08, 0x00, 0x01, 0x3e, 0x24, 0xea, 0x12, 0xd5, 0x47]

  /** A response with them is parsed to this address, with the text before or after it. */
  lemma SampleMessage(id: Bytes)
    requires |id| == 12
    ensures Parse([0x01, 0x01, 0x00, 0x18, 0x21, 0x12, 0xa4, 0x42] + id + (SOFTWARE + XORED)) ==
            Parsed(Some(Endpoint([203, 0, 113, 5], 7990)), None, id)
    ensures Parse([0x01, 0x01, 0x00, 0x18, 0x21, 0x12, 0xa4, 0x42] + id + (XORED + SOFTWARE)) ==
            Parsed(Some(Endpoint([203, 0, 113, 5], 7990)), None, id)
  {
    var a, e := Attribute(0x8022, [0x68, 0x65, 0x6c, 0x6c, 0x6f], [0, 0, 0]), Endpoint([203, 0, 113, 5], 7990);
    SampleEncoded(e);
    SoftwareEncoded(a);
    AmongTwo(id, a, e);
    SampleHeader(id, SOFTWARE + XORED);
    SampleHeader(id, XORED + SOFTWARE);
  }

  lemma SoftwareEncoded(a: Attribute)
    requires a == Attribute(0x8022, [0x68, 0x65, 0x6c, 0x6c, 0x6f], [0, 0, 0])
    ensures ProperAttribute(a) && EncodeAttribute(a) == SOFTWARE
  {
    assert Put16(a.attrType) == [0x80, 0x22] && Put16(|a.value|) == [0x00, 0x05];
  }

  lemma SampleHeader(id: Bytes, body: Bytes)
    requires |body| == 24
    ensures Message(id, body) == [0x01, 0x01, 0x00, 0x18, 0x21, 0x12, 0xa4, 0x42] + id + body
  {
    assert Put16(|body|) == [0x00, 0x18];
  }

  lemma SampleEncoded(e: Endpoint)
    requires e == Endpoint([203, 0, 113, 5], 7990)
    ensures ProperAttribute(XorAttribute(e)) && EncodeAttribute(XorAttribute(e)) == XORED
  {
    SamplePort();
    SampleByte1();
    SampleByte2();
    SampleByte3();
    SampleByte4();
    XoredBytes(e, 0x3e, 0x24, [0xea, 0x12, 0xd5, 0x47]);
  }

  /** Exclusive or, one bit further to the right. */
  lemma XorUp(a: nat, b: nat, c: nat)
    requires Xor(a / 2, b / 2) == c / 2 && (c % 2 == 1 <==> a % 2 != b % 2)
    ensures Xor(a, b) == c
  {
  }

  lemma SamplePort()
    ensures Xor(0x1f36, 0x2112) == 0x3e24
  {
    XorUp(0x0, 0x1, 0x1);
    XorUp(0x1, 0x2, 0x3);
    XorUp(0x3, 0x4, 0x7);
    XorUp(0x7, 0x8, 0xf);
    XorUp(0xf, 0x10, 0x1f);
    XorUp(0x1f, 0x21, 0x3e);
    XorUp(0x3e, 0x42, 0x7c);
    XorUp(0x7c, 0x84, 0xf8);
    XorUp(0xf9, 0x108, 0x1f1);
    XorUp(0x1f3, 0x211, 0x3e2);
    XorUp(0x3e6, 0x422, 0x7c4);
    XorUp(0x7cd, 0x844, 0xf89);
    XorUp(0xf9b, 0x1089, 0x1f12);
    XorUp(0x1f36, 0x2112, 0x3e24);
  }

  lemma SampleByte1()
    ensures Xor(0xcb, 0x21) == 0xea
  {
    XorUp(0x1, 0x0, 0x1);
    XorUp(0x3, 0x0, 0x3);
    XorUp(0x6, 0x1, 0x7);
    XorUp(0xc, 0x2, 0xe);
    XorUp(0x19, 0x4, 0x1d);
    XorUp(0x32, 0x8, 0x3a);
    XorUp(0x65, 0x10, 0x75);
    XorUp(0xcb, 0x21, 0xea);
  }

  lemma SampleByte2()
    ensures Xor(0x0, 0x12) == 0x12
  {
    XorUp(0x0, 0x1, 0x1);
    XorUp(0x0, 0x2, 0x2);
    XorUp(0x0, 0x4, 0x4);
    XorUp(0x0, 0x9, 0x9);
    XorUp(0x0, 0x12, 0x12);
  }

  lemma SampleByte3()
    ensures Xor(0x71, 0xa4) == 0xd5
  {
    XorUp(0x0, 0x1, 0x1);
    XorUp(0x1, 0x2, 0x3);
    XorUp(0x3, 0x5, 0x6);
    XorUp(0x7, 0xa, 0xd);
    XorUp(0xe, 0x14, 0x1a);
    XorUp(0x1c, 0x29, 0x35);
    XorUp(0x38, 0x52, 0x6a);
    XorUp(0x71, 0xa4, 0xd5);
  }

  lemma SampleByte4()
    ensures Xor(0x5, 0x42) == 0x47
  {
    XorUp(0x0, 0x1, 0x1);
    XorUp(0x0, 0x2, 0x2);
    XorUp(0x0, 0x4, 0x4);
    XorUp(0x0, 0x8, 0x8);
    XorUp(0x1, 0x10, 0x11);
    XorUp(0x2, 0x21, 0x23);
    XorUp(0x5, 0x42, 0x47);
  }

  lemma TwoEncoded(a: Attribute, b: Attribute)
    requires ProperAttribute(a) && ProperAttribute(b)
    ensures EncodeAttributes([a, b]) == EncodeAttribute(a) + EncodeAttribute(b)
  {
    assert [a, b][1..] == [b] && [b][1..] == [];
    NothingMore(EncodeAttribute(b), []);
    assert EncodeAttributes([b]) == EncodeAttribute(b) + EncodeAttributes([]);
  }
}
