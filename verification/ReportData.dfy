/** Report data of a quote request: 64 bytes written in hexadecimal or in Base64. */
module ReportData {
  import opened Text
  import Hex
  import Base64

  function DecodeReportData(raw: Bytes): Option<Bytes> {
    var hex := Hex.Decode(raw);
    if hex.Some? && |hex.value| == 64 then hex
    else
      var base64 := Base64.Decode(raw);
      if base64.Some? && |base64.value| == 64 then base64 else None
  }

  /** Reading inverts both printings of 64 bytes and accepts nothing else. No text is both, whatever
      the bytes: the order of the two attempts cannot matter. */
  lemma ReadsBothForms(raw: Bytes, b: Bytes, c: Bytes)
    ensures DecodeReportData(raw) == Some(b)
        <==> |b| == 64 && (Hex.Lower(raw) == Hex.Encode(b) || raw == Base64.Encode(b))
    ensures |b| == 64 && |c| == 64 ==> !(Hex.Lower(raw) == Hex.Encode(b) && raw == Base64.Encode(c))
  {
    Hex.DecodeExact(raw, b);
    Base64.DecodeExact(raw, b);
    Base64.EncodeAlphabet(b);
    Base64.EncodeAlphabet(c);
    if Hex.Decode(raw).Some? {
      Hex.DecodeExact(raw, Hex.Decode(raw).value);
    }
    if Base64.Decode(raw).Some? {
      Base64.DecodeExact(raw, Base64.Decode(raw).value);
      Base64.EncodeAlphabet(Base64.Decode(raw).value);
    }
  }
}
