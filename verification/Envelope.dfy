/** The `aead:v1:` / `aead:v2:` text envelopes around a broker handle, a redeem token and a ciphertext. */
module Envelope {
  import opened Text
  import Base64

  const COLON: byte := 58
  const PREFIX_V1: Bytes := Ascii("aead:v1:")
  const PREFIX_V2: Bytes := Ascii("aead:v2:")

  datatype EnvelopeError =
    | MissingPrefix
    | MalformedV1
    | MalformedV2
    | BadHandleEncoding
    | BadTokenEncoding
    | TokenNotUtf8
    | BadCiphertextEncoding
    | HandleNotUtf8

  datatype Parts = Parts(handle: Bytes, token: Option<Bytes>, ciphertext: Bytes)

  predicate IsPayload(s: Bytes) { PREFIX_V1 <= s || PREFIX_V2 <= s }

  predicate IsPayloadV2(s: Bytes) { PREFIX_V2 <= s }

  function EncodePayload(handle: Bytes, token: Bytes, ciphertext: Bytes): Bytes {
    PREFIX_V2 + Base64.Encode(handle) + [COLON] + Base64.Encode(token) + [COLON]
    + Base64.Encode(ciphertext)
  }

  /** The retired form: no redeem token. */
  function EncodePayloadV1(handle: Bytes, ciphertext: Bytes): Bytes {
    PREFIX_V1 + Base64.Encode(handle) + [COLON] + Base64.Encode(ciphertext)
  }

  function SplitTwice(s: Bytes): Option<(Bytes, Bytes, Bytes)> {
    match SplitOnce(s, COLON)
    case None => None
    case Some((first, more)) =>
      match SplitOnce(more, COLON)
      case None => None
      case Some((second, third)) => Some((first, second, third))
  }

  lemma SplitTwiceExact(s: Bytes, a: Bytes, b: Bytes, c: Bytes)
    ensures SplitTwice(s) == Some((a, b, c))
        <==> COLON !in a && COLON !in b && s == a + [COLON] + (b + [COLON] + c)
  {
    if COLON !in a && COLON !in b {
      SplitOnceFirst(a, COLON, b + [COLON] + c);
      SplitOnceFirst(b, COLON, c);
    }
  }

  /** The three (v2) or two (v1) Base64 texts of an envelope. */
  function SplitPayload(s: Bytes): Result<Parts, EnvelopeError> {
    if PREFIX_V2 <= s then
      match SplitTwice(s[|PREFIX_V2|..])
      case None => Err(MalformedV2)
      case Some((handle, token, ciphertext)) => Ok(Parts(handle, Some(token), ciphertext))
    else if PREFIX_V1 <= s then
      match SplitOnce(s[|PREFIX_V1|..], COLON)
      case None => Err(MalformedV1)
      case Some((handle, ciphertext)) => Ok(Parts(handle, None, ciphertext))
    else Err(MissingPrefix)
  }

  /** Decoding order is the source's: handle bytes, token and its UTF-8, ciphertext, then the
      handle's UTF-8, so the first fault decides the error. */
  function DecodePayload(s: Bytes): Result<Parts, EnvelopeError> {
    var parts :- SplitPayload(s);
    DecodeParts(parts)
  }

  function DecodeParts(parts: Parts): Result<Parts, EnvelopeError> {
    var handle := Base64.Decode(parts.handle);
    if handle.None? then Err(BadHandleEncoding)
    else
      var token :- DecodeToken(parts.token);
      var ciphertext := Base64.Decode(parts.ciphertext);
      if ciphertext.None? then Err(BadCiphertextEncoding)
      else if !Utf8(handle.value) then Err(HandleNotUtf8)
      else Ok(Parts(handle.value, token, ciphertext.value))
  }

  function DecodeToken(text: Option<Bytes>): Result<Option<Bytes>, EnvelopeError> {
    match text
    case None => Ok(None)
    case Some(t) =>
      var token := Base64.Decode(t);
      if token.None? then Err(BadTokenEncoding)
      else if !Utf8(token.value) then Err(TokenNotUtf8)
      else Ok(Some(token.value))
  }

  lemma ColonFree(b: Bytes)
    ensures COLON !in Base64.Encode(b)
  {
    Base64.EncodeAlphabet(b);
  }

  lemma PrefixesDiffer(s: Bytes)
    ensures !(PREFIX_V1 <= s && PREFIX_V2 <= s)
    ensures |PREFIX_V1| == |PREFIX_V2| == 8
  {
    assert PREFIX_V1[6] != PREFIX_V2[6];
  }

  function JoinV2(h: Bytes, t: Bytes, c: Bytes): Bytes {
    PREFIX_V2 + (h + [COLON] + (t + [COLON] + c))
  }

  lemma PayloadJoins(h: Bytes, t: Bytes, c: Bytes)
    ensures EncodePayload(h, t, c) == JoinV2(Base64.Encode(h), Base64.Encode(t), Base64.Encode(c))
  {
  }

  /** A text splits into three exactly when it joins them and the first two hold no separator. */
  lemma SplitJoinedV2(s: Bytes, h: Bytes, t: Bytes, c: Bytes)
    ensures SplitPayload(s) == Ok(Parts(h, Some(t), c)) <==> COLON !in h && COLON !in t && s == JoinV2(h, t, c)
  {
    var rest := h + [COLON] + (t + [COLON] + c);
    if PREFIX_V2 <= s {
      SplitTwiceExact(s[|PREFIX_V2|..], h, t, c);
      assert s == PREFIX_V2 + s[|PREFIX_V2|..];
      assert (PREFIX_V2 + rest)[|PREFIX_V2|..] == rest;
    }
  }

  lemma SplitEncodedV1(h: Bytes, c: Bytes)
    ensures SplitPayload(EncodePayloadV1(h, c))
         == Ok(Parts(Base64.Encode(h), None, Base64.Encode(c)))
  {
    ColonFree(h);
    PrefixesDiffer(EncodePayloadV1(h, c));
    assert EncodePayloadV1(h, c)[|PREFIX_V1|..] == Base64.Encode(h) + [COLON] + Base64.Encode(c);
    SplitOnceFirst(Base64.Encode(h), COLON, Base64.Encode(c));
  }

  /** The texts that were decoded are the encodings of what came out. */
  lemma DecodedParts(s: Bytes)
    requires DecodePayload(s).Ok?
    ensures var (texts, p) := (SplitPayload(s).value, DecodePayload(s).value);
            && Utf8(p.handle) && texts.handle == Base64.Encode(p.handle)
            && texts.ciphertext == Base64.Encode(p.ciphertext)
            && match p.token
               case None => texts.token.None?
               case Some(t) => Utf8(t) && texts.token == Some(Base64.Encode(t))
  {
    var texts := SplitPayload(s).value;
    Base64.EncodeDecode(texts.handle);
    Base64.EncodeDecode(texts.ciphertext);
    if texts.token.Some? {
      Base64.EncodeDecode(texts.token.value);
    }
  }

  lemma SplitShapeV1(s: Bytes, h: Bytes, c: Bytes)
    requires SplitPayload(s) == Ok(Parts(h, None, c))
    ensures s == PREFIX_V1 + h + [COLON] + c
  {
    assert s == PREFIX_V1 + s[|PREFIX_V1|..];
  }

  /** What a successful decoding says about the text. */
  lemma DecodedShape(s: Bytes)
    requires DecodePayload(s).Ok?
    ensures var p := DecodePayload(s).value;
            Utf8(p.handle)
            && match p.token
               case None => s == EncodePayloadV1(p.handle, p.ciphertext)
               case Some(t) => Utf8(t) && s == EncodePayload(p.handle, t, p.ciphertext)
  {
    DecodedParts(s);
    var texts, p := SplitPayload(s).value, DecodePayload(s).value;
    match p.token {
      case None => SplitShapeV1(s, texts.handle, texts.ciphertext);
      case Some(t) =>
        SplitJoinedV2(s, texts.handle, texts.token.value, texts.ciphertext);
        PayloadJoins(p.handle, t, p.ciphertext);
    }
  }

  /** The v2 codec is a bijection: a text decodes to a triple with a token exactly when the handle
      and token are UTF-8 and the text is the encoding of that triple. */
  lemma V2Bijection(s: Bytes, h: Bytes, t: Bytes, c: Bytes)
    ensures DecodePayload(s) == Ok(Parts(h, Some(t), c))
       <==> Utf8(h) && Utf8(t) && s == EncodePayload(h, t, c)
  {
    Base64.DecodeEncode(h);
    Base64.DecodeEncode(t);
    Base64.DecodeEncode(c);
    ColonFree(h);
    ColonFree(t);
    PayloadJoins(h, t, c);
    SplitJoinedV2(EncodePayload(h, t, c), Base64.Encode(h), Base64.Encode(t), Base64.Encode(c));
    if DecodePayload(s) == Ok(Parts(h, Some(t), c)) {
      DecodedShape(s);
    }
  }

  /** A text decodes without a token exactly when it is a v1 encoding. */
  lemma V1Bijection(s: Bytes, h: Bytes, c: Bytes)
    ensures DecodePayload(s) == Ok(Parts(h, None, c)) <==> Utf8(h) && s == EncodePayloadV1(h, c)
  {
    Base64.DecodeEncode(h);
    Base64.DecodeEncode(c);
    SplitEncodedV1(h, c);
    if DecodePayload(s) == Ok(Parts(h, None, c)) {
      DecodedShape(s);
    }
  }

  /** An envelope is ASCII text, hence a well-formed string. */
  lemma PayloadIsText(h: Bytes, t: Bytes, c: Bytes)
    ensures Utf8(EncodePayload(h, t, c)) && IsPayloadV2(EncodePayload(h, t, c))
  {
    Base64.EncodeAlphabet(h);
    Base64.EncodeAlphabet(t);
    Base64.EncodeAlphabet(c);
    AsciiIsUtf8(EncodePayload(h, t, c));
  }
}
