/** The 64 bytes a quote commits to, and what equal ones have in common. */
module ReportData {
  import opened Field
  import opened Bytes

  type Hash = ByteString -> ByteString

  const NONCE_LENGTH := 32
  const HASH_LENGTH := 32
  const LENGTH_BOUND := 0x1_0000_0000

  /** The UTF-8 bytes of longjing-report-v1. */
  const LABEL: ByteString := [108, 111, 110, 103, 106, 105, 110, 103, 45, 114, 101, 112, 111, 114, 116, 45, 118, 49]

  datatype Inputs = Inputs(
    mlkemPublicKey: ByteString,
    identityPublicKey: Option<ByteString>,
    refundSignerPublicKey: Option<ByteString>,
    tlsCertificateDer: Option<ByteString>)

  datatype Report = Report(data: ByteString) | NonceLength | TermTooLong

  // ---- length prefixes ----

  /** writeUInt32BE. */
  function BigEndian32(n: nat): ByteString
    requires n < LENGTH_BOUND
  {
    [n / 0x100_0000, n / 0x1_0000 % 256, n / 256 % 256, n % 256]
  }

  function Length32(b: ByteString): nat
    requires |b| >= 4
  {
    b[0] as int * 0x100_0000 + b[1] as int * 0x1_0000 + b[2] as int * 256 + b[3] as int
  }

  predicate Fits(term: ByteString) {
    |term| < LENGTH_BOUND
  }

  function LengthPrefixed(term: ByteString): ByteString
    requires Fits(term)
  {
    BigEndian32(|term|) + term
  }

  predicate AllFit(terms: seq<ByteString>) {
    forall i :: 0 <= i < |terms| ==> Fits(terms[i])
  }

  function Encode(terms: seq<ByteString>): ByteString
    requires AllFit(terms)
  {
    if terms == [] then [] else LengthPrefixed(terms[0]) + Encode(terms[1..])
  }

  /** A reader of the encoding: the first count terms of b, and what follows them. */
  function Decode(count: nat, b: ByteString): Option<(seq<ByteString>, ByteString)> {
    if count == 0 then Some(([], b))
    else if |b| < 4 || |b| < 4 + Length32(b) then None
    else match Decode(count - 1, b[4 + Length32(b)..])
         case None => None
         case Some((terms, rest)) => Some(([b[4..4 + Length32(b)]] + terms, rest))
  }

  lemma LengthRoundTrip(n: nat, rest: ByteString)
    requires n < LENGTH_BOUND
    ensures Length32(BigEndian32(n) + rest) == n
  {
    assert n == n / 256 * 256 + n % 256;
    assert n / 256 == n / 256 / 256 * 256 + n / 256 % 256;
    assert n / 256 / 256 == n / 256 / 256 / 256 * 256 + n / 256 / 256 % 256;
  }

  lemma FirstTerm(head: ByteString, more: ByteString)
    requires Fits(head)
    ensures var b := LengthPrefixed(head) + more;
            |b| >= 4 + |head| && Length32(b) == |head| && b[4..4 + |head|] == head && b[4 + |head|..] == more
  {
    assert LengthPrefixed(head) + more == BigEndian32(|head|) + (head + more);
    LengthRoundTrip(|head|, head + more);
  }

  /** Decoding inverts encoding, whatever follows. */
  lemma {:induction false} EncodeRoundTrip(terms: seq<ByteString>, rest: ByteString)
    requires AllFit(terms)
    ensures Decode(|terms|, Encode(terms) + rest) == Some((terms, rest))
    decreases |terms|
  {
    if terms == [] {
      assert Encode(terms) + rest == rest;
    } else {
      var head, tail := terms[0], terms[1..];
      EncodeRoundTrip(tail, rest);
      FirstTerm(head, Encode(tail) + rest);
      assert Encode(terms) + rest == LengthPrefixed(head) + (Encode(tail) + rest);
      assert [head] + tail == terms;
    }
  }

  lemma EncodeFaithful(a: seq<ByteString>, b: seq<ByteString>)
    requires AllFit(a) && AllFit(b) && |a| == |b|
    ensures Encode(a) == Encode(b) <==> a == b
  {
    EncodeRoundTrip(a, []);
    EncodeRoundTrip(b, []);
  }

  // ---- the report data ----

  function OrEmpty(term: Option<ByteString>): ByteString {
    match term
    case Some(bytes) => bytes
    case None => []
  }

  function CertificateHash(h: Hash, certificate: Option<ByteString>): ByteString {
    match certificate
    case Some(der) => h(der)
    case None => []
  }

  function Terms(h: Hash, inputs: Inputs): (terms: seq<ByteString>)
    ensures |terms| == 5
  {
    [LABEL, inputs.mlkemPublicKey, OrEmpty(inputs.identityPublicKey), OrEmpty(inputs.refundSignerPublicKey),
     CertificateHash(h, inputs.tlsCertificateDer)]
  }

  function NonceHalf(nonce: Option<ByteString>): ByteString {
    match nonce
    case Some(bytes) => bytes
    case None => Zeros(NONCE_LENGTH)
  }

  function BuildReportData(h: Hash, inputs: Inputs, nonce: Option<ByteString>): Report {
    if nonce.Some? && |nonce.value| != NONCE_LENGTH then NonceLength
    else if !AllFit(Terms(h, inputs)) then TermTooLong
    else Report(h(Encode(Terms(h, inputs))) + NonceHalf(nonce))
  }

  ghost predicate HashLength(h: Hash) {
    forall b :: |h(b)| == HASH_LENGTH
  }

  /** The hash does not collide on the two strings. */
  ghost predicate Apart(h: Hash, a: ByteString, b: ByteString) {
    h(a) == h(b) ==> a == b
  }

  ghost predicate CertificatesApart(h: Hash, a: Option<ByteString>, b: Option<ByteString>) {
    a.Some? && b.Some? ==> Apart(h, a.value, b.value)
  }

  /** Equal up to what the encoding leaves out: an absent key is an empty one, an absent nonce is zeros. */
  predicate SameInputs(a: Inputs, b: Inputs) {
    && a.mlkemPublicKey == b.mlkemPublicKey
    && OrEmpty(a.identityPublicKey) == OrEmpty(b.identityPublicKey)
    && OrEmpty(a.refundSignerPublicKey) == OrEmpty(b.refundSignerPublicKey)
    && a.tlsCertificateDer == b.tlsCertificateDer
  }

  lemma TermsFaithful(h: Hash, a: Inputs, b: Inputs)
    requires HashLength(h) && CertificatesApart(h, a.tlsCertificateDer, b.tlsCertificateDer)
    ensures Terms(h, a) == Terms(h, b) <==> SameInputs(a, b)
  {
    var s, t := Terms(h, a), Terms(h, b);
    assert s == t ==> s[1] == t[1] && s[2] == t[2] && s[3] == t[3] && s[4] == t[4];
  }

  lemma HalvesSplit(a: ByteString, b: ByteString, c: ByteString, d: ByteString)
    requires |a| == |c| && a + b == c + d
    ensures a == c && b == d
  {
    assert a == (a + b)[..|a|] && c == (c + d)[..|c|];
    assert b == (a + b)[|a|..] && d == (c + d)[|c|..];
  }

  /**
   * Two reports are equal exactly when their keys, certificates and nonces
   * are, an absent key counting as an empty one and an absent nonce as zeros.
   */
  lemma ReportPinsInputs(h: Hash, a: Inputs, nonceA: Option<ByteString>, b: Inputs, nonceB: Option<ByteString>)
    requires HashLength(h) && CertificatesApart(h, a.tlsCertificateDer, b.tlsCertificateDer)
    requires BuildReportData(h, a, nonceA).Report? && BuildReportData(h, b, nonceB).Report?
    requires Apart(h, Encode(Terms(h, a)), Encode(Terms(h, b)))
    ensures |BuildReportData(h, a, nonceA).data| == 64
    ensures BuildReportData(h, a, nonceA) == BuildReportData(h, b, nonceB) <==>
            SameInputs(a, b) && NonceHalf(nonceA) == NonceHalf(nonceB)
  {
    TermsFaithful(h, a, b);
    EncodeFaithful(Terms(h, a), Terms(h, b));
    var s, t := Encode(Terms(h, a)), Encode(Terms(h, b));
    if h(s) + NonceHalf(nonceA) == h(t) + NonceHalf(nonceB) {
      HalvesSplit(h(s), NonceHalf(nonceA), h(t), NonceHalf(nonceB));
    }
  }

  // ---- the layout ----

  /** The prefix is the length as a four-byte big-endian number. */
  lemma PrefixIsBigEndian(term: ByteString)
    requires Fits(term)
    ensures |LengthPrefixed(term)| == 4 + |term|
    ensures BigEndian(LengthPrefixed(term)[..4]) == |term| && LengthPrefixed(term)[4..] == term
  {
    var b, n := BigEndian32(|term|), |term|;
    assert LengthPrefixed(term)[..4] == b;
    assert b[..3][..2] == b[..2] && b[..2][..1] == b[..1] && b[..1][..0] == [];
    assert BigEndian(b[..1]) == b[0];
    assert BigEndian(b[..2]) == 256 * b[0] as int + b[1] as int;
    assert BigEndian(b[..3]) == 256 * (256 * b[0] as int + b[1] as int) + b[2] as int;
    LengthRoundTrip(n, []);
    assert b + [] == b;
  }

  lemma LabelText()
    ensures |LABEL| == |"longjing-report-v1"| && forall i :: 0 <= i < |LABEL| ==> LABEL[i] as int == "longjing-report-v1"[i] as int
  {}

  /**
   * The first 32 bytes hash the label, the encapsulation key, the identity
   * key, the refund signer's key and the hash of the certificate, each behind
   * its length and in that order; the last 32 are the nonce, or zeros.
   */
  lemma ReportLayout(h: Hash, inputs: Inputs, nonce: Option<ByteString>)
    requires HashLength(h) && BuildReportData(h, inputs, nonce).Report?
    ensures var data := BuildReportData(h, inputs, nonce).data;
            && |data| == 64
            && (exists hashed :: h(hashed) == data[..32]
                 && Decode(5, hashed) == Some((
                      [LABEL, inputs.mlkemPublicKey,
                       if inputs.identityPublicKey.Some? then inputs.identityPublicKey.value else [],
                       if inputs.refundSignerPublicKey.Some? then inputs.refundSignerPublicKey.value else [],
                       if inputs.tlsCertificateDer.Some? then h(inputs.tlsCertificateDer.value) else []],
                      [])))
            && (if nonce.Some? then data[32..] == nonce.value else forall i :: 32 <= i < 64 ==> data[i] == 0)
  {
    var hashed := Encode(Terms(h, inputs));
    EncodeRoundTrip(Terms(h, inputs), []);
    assert hashed + [] == hashed;
    var data := BuildReportData(h, inputs, nonce).data;
    assert data == h(hashed) + NonceHalf(nonce);
    assert data[..32] == h(hashed) && data[32..] == NonceHalf(nonce);
  }

  /** A nonce of the wrong length is refused first, then a key of 2^32 bytes or more; nothing else is. */
  lemma ReportRefusals(h: Hash, inputs: Inputs, nonce: Option<ByteString>)
    requires HashLength(h)
    ensures BuildReportData(h, inputs, nonce).NonceLength? <==> nonce.Some? && |nonce.value| != 32
    ensures BuildReportData(h, inputs, nonce).Report? <==>
              (nonce.None? || |nonce.value| == 32)
              && |inputs.mlkemPublicKey| < 0x1_0000_0000
              && (inputs.identityPublicKey.Some? ==> |inputs.identityPublicKey.value| < 0x1_0000_0000)
              && (inputs.refundSignerPublicKey.Some? ==> |inputs.refundSignerPublicKey.value| < 0x1_0000_0000)
  {
    var terms := Terms(h, inputs);
    assert terms[1] == inputs.mlkemPublicKey && terms[2] == OrEmpty(inputs.identityPublicKey);
    assert terms[3] == OrEmpty(inputs.refundSignerPublicKey) && |terms[4]| <= 32 && |terms[0]| == 18;
  }

  // ---- text forms ----

  function WithoutPrefix(s: string): string {
    if |s| >= 2 && s[0] == '0' && s[1] == 'x' then s[2..] else s
  }

  /** A coordinate as 32 bytes; None where the source throws. */
  function Coordinate(value: string): Option<ByteString> {
    var hex := WithoutPrefix(value);
    if 1 <= |hex| <= 64 && AllHex(hex) then Some(FromHex(LeftZeros(64 - |hex|) + hex)) else None
  }

  function LeftZeros(n: nat): string {
    seq(n, _ => '0')
  }

  function EncodeRefundSignerPublicKey(x: string, y: string): Option<ByteString> {
    match (Coordinate(x), Coordinate(y))
    case (Some(a), Some(b)) => Some(a + b)
    case _ => None
  }

  lemma CoordinateValue(value: string)
    ensures Coordinate(value).Some? ==>
              AllHex(WithoutPrefix(value))
              && |Coordinate(value).value| == 32 && BigEndian(Coordinate(value).value) == HexValue(WithoutPrefix(value))
  {
    var hex := WithoutPrefix(value);
    if Coordinate(value).Some? {
      PaddedValue(LeftZeros(64 - |hex|), hex);
      HexBytesValue(LeftZeros(64 - |hex|) + hex);
    }
  }

  /** Two keys encode alike exactly when both coordinates write the same numbers. */
  lemma SignerKeyFaithful(x: string, y: string, x': string, y': string)
    requires EncodeRefundSignerPublicKey(x, y).Some? && EncodeRefundSignerPublicKey(x', y').Some?
    ensures AllHex(WithoutPrefix(x)) && AllHex(WithoutPrefix(y)) && AllHex(WithoutPrefix(x')) && AllHex(WithoutPrefix(y'))
    ensures EncodeRefundSignerPublicKey(x, y) == EncodeRefundSignerPublicKey(x', y') <==>
            HexValue(WithoutPrefix(x)) == HexValue(WithoutPrefix(x')) && HexValue(WithoutPrefix(y)) == HexValue(WithoutPrefix(y'))
  {
    CoordinateValue(x);
    CoordinateValue(y);
    CoordinateValue(x');
    CoordinateValue(y');
    var a, b, c, d := Coordinate(x).value, Coordinate(y).value, Coordinate(x').value, Coordinate(y').value;
    if a + b == c + d { HalvesSplit(a, b, c, d); }
    if BigEndian(a) == BigEndian(c) && BigEndian(b) == BigEndian(d) {
      BigEndianFaithful(a, c);
      BigEndianFaithful(b, d);
    }
  }

  /** x in the first 32 bytes and y in the last, each big-endian; refused unless both are 1 to 64 hex digits after an optional 0x. */
  lemma SignerKeyLayout(x: string, y: string)
    ensures EncodeRefundSignerPublicKey(x, y).Some? <==>
              AllHex(WithoutPrefix(x)) && 1 <= |WithoutPrefix(x)| <= 64 && AllHex(WithoutPrefix(y)) && 1 <= |WithoutPrefix(y)| <= 64
    ensures EncodeRefundSignerPublicKey(x, y).Some? ==>
              var key := EncodeRefundSignerPublicKey(x, y).value;
              && |key| == 64
              && BigEndian(key[..32]) == HexValue(WithoutPrefix(x)) && BigEndian(key[32..]) == HexValue(WithoutPrefix(y))
  {
    CoordinateValue(x);
    CoordinateValue(y);
    if EncodeRefundSignerPublicKey(x, y).Some? {
      var a, b := Coordinate(x).value, Coordinate(y).value;
      assert (a + b)[..32] == a && (a + b)[32..] == b;
    }
  }

  datatype Nonce = Unsent | Nonce(bytes: ByteString) | BadNonce

  /** BadNonce where the source throws; an empty text counts as none. */
  function ParseNonce(value: Option<string>): Nonce {
    if value.None? || value.value == "" then Unsent
    else
      var hex := WithoutPrefix(value.value);
      if |hex| == 64 && AllHex(hex) then Nonce(FromHex(hex)) else BadNonce
  }

  function NonceOf(nonce: Nonce): Option<ByteString>
    requires !nonce.BadNonce?
  {
    match nonce
    case Unsent => None
    case Nonce(bytes) => Some(bytes)
  }

  /** Unsent exactly when absent or empty, refused exactly when not 64 hex digits after an optional 0x. */
  lemma NonceCases(value: Option<string>)
    ensures ParseNonce(value).Unsent? <==> value.None? || value.value == ""
    ensures ParseNonce(value).Nonce? <==>
              value.Some? && |WithoutPrefix(value.value)| == 64 && AllHex(WithoutPrefix(value.value))
  {}

  /** A parsed nonce never has the wrong length, and its bytes write the number that was sent. */
  lemma ParsedNonceAccepted(h: Hash, inputs: Inputs, value: Option<string>)
    requires !ParseNonce(value).BadNonce?
    ensures !BuildReportData(h, inputs, NonceOf(ParseNonce(value))).NonceLength?
    ensures value.Some? && value.value != "" ==>
            AllHex(WithoutPrefix(value.value))
            && ParseNonce(value) == Nonce(FromHex(WithoutPrefix(value.value)))
            && BigEndian(ParseNonce(value).bytes) == HexValue(WithoutPrefix(value.value))
  {
    if value.Some? && value.value != "" { HexBytesValue(WithoutPrefix(value.value)); }
  }
}
