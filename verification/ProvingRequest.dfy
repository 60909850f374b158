/**
 A proving request on its way to the prover: its binary layout, the sealed box, and the two paths it can take.
 snarkVM's authorization codec and the NaCl box are parameters; what is assumed of them is stated as predicates.
 */
module ProvingRequest {
  import opened Common
  import opened Base64
  import Envelope
  import Json

  type Bytes = seq<byte>

  // ---- binary layout

  /** How an authorization is written as bytes and read back from the front of a byte string. */
  datatype Codec<!A> = Codec(write: A -> Bytes, read: Bytes -> Option<(A, Bytes)>)

  /** Reading stops exactly where writing stopped, whatever follows. */
  ghost predicate SelfDelimiting<A(!new)>(c: Codec<A>) {
    forall a, rest :: c.read(c.write(a) + rest) == Some((a, rest))
  }

  datatype Request<A> = Request(auth: A, fee: Option<A>, broadcast: bool)

  function Flag(b: bool): Bytes {
    if b then [1] else [0]
  }

  function Layout<A>(c: Codec<A>, r: Request<A>): Bytes {
    c.write(r.auth) + (match r.fee case Some(f) => Flag(true) + c.write(f) case None => Flag(false)) + Flag(r.broadcast)
  }

  function ReadFlag(b: Bytes): Option<(bool, Bytes)> {
    if b == [] || b[0] > 1 then None else Some((b[0] == 1, b[1..]))
  }

  /** Reads a whole byte string as one request. */
  function ReadRequest<A>(c: Codec<A>, b: Bytes): Option<Request<A>> {
    match c.read(b)
    case None => None
    case Some((auth, b1)) =>
      match ReadFlag(b1)
      case None => None
      case Some((hasFee, b2)) =>
        var fee := if hasFee then c.read(b2) else None;
        if hasFee && fee.None? then None
        else
          match ReadFlag(if hasFee then fee.value.1 else b2)
          case None => None
          case Some((broadcast, rest)) =>
            if rest != [] then None else Some(Request(auth, if hasFee then Some(fee.value.0) else None, broadcast))
  }

  /** Every request is read back from its layout. */
  lemma LayoutRead<A(!new)>(c: Codec<A>, r: Request<A>)
    requires SelfDelimiting(c)
    ensures ReadRequest(c, Layout(c, r)) == Some(r)
  {
    var last := Flag(r.broadcast);
    match r.fee {
      case Some(f) =>
        var b2 := c.write(f) + last;
        assert Layout(c, r) == c.write(r.auth) + (Flag(true) + b2);
        assert (Flag(true) + b2)[1..] == b2;
      case None =>
        assert Layout(c, r) == c.write(r.auth) + (Flag(false) + last);
        assert (Flag(false) + last)[1..] == last;
    }
  }

  /** Writes the layout field by field; with a self-delimiting codec the request can be read back from it. */
  method WriteRequest<A(!new)>(c: Codec<A>, r: Request<A>) returns (bytes: Bytes)
    ensures bytes == Layout(c, r)
    ensures bytes == c.write(r.auth) + (if r.fee.Some? then [1] + c.write(r.fee.value) else [0])
                     + [if r.broadcast then 1 else 0]
    ensures SelfDelimiting(c) ==> ReadRequest(c, bytes) == Some(r)
  {
    bytes := [];
    bytes := bytes + c.write(r.auth);
    match r.fee {
      case Some(f) =>
        bytes := bytes + [1];
        bytes := bytes + c.write(f);
        assert bytes == c.write(r.auth) + (Flag(true) + c.write(f));
      case None =>
        bytes := bytes + [0];
    }
    bytes := bytes + [if r.broadcast then 1 else 0];
    if SelfDelimiting(c) {
      LayoutRead(c, r);
    }
  }

  /** No two requests share a layout. */
  lemma LayoutUnique<A(!new)>(c: Codec<A>, r: Request<A>, q: Request<A>)
    requires SelfDelimiting(c) && Layout(c, r) == Layout(c, q)
    ensures r == q
  {
    LayoutRead(c, r);
    LayoutRead(c, q);
  }

  /** A codec that is merely injective is not enough: with the identity codec two different requests collide. */
  lemma InjectiveCodecIsNotEnough(c: Codec<Bytes>)
    requires forall a :: c.write(a) == a
    ensures exists r, q :: r != q && Layout(c, r) == Layout(c, q)
  {
    var r := Request([], Some([0]), false);
    var q := Request([1], None, false);
    assert Layout(c, r) == [1, 0, 0] == Layout(c, q);
  }

  // ---- sealed box

  const KEY_SIZE := 32
  const OVERHEAD := 16

  /** The NaCl box: public keys, the nonce hash, sealing with the sender's secret key, opening with the recipient's. */
  datatype Box = Box(public: Bytes -> Bytes, hash: Bytes -> Bytes, seal: (Bytes, Bytes, Bytes, Bytes) -> Bytes,
                     open: (Bytes, Bytes, Bytes, Bytes) -> Option<Bytes>)

  /** Opening undoes sealing under the same nonce and the matching keys. */
  ghost predicate Lawful(box: Box) {
    && (forall sk :: |box.public(sk)| == 32)
    && (forall m, n, sk, esk :: |box.seal(m, n, box.public(sk), esk)| == |m| + 16)
    && (forall m, n, sk, esk :: box.open(box.seal(m, n, box.public(sk), esk), n, box.public(esk), sk) == Some(m))
  }

  function Sealed(box: Box, pk: Bytes, message: Bytes, esk: Bytes): Bytes {
    box.public(esk) + box.seal(message, box.hash(box.public(esk) + pk), pk, esk)
  }

  function Opened(box: Box, pk: Bytes, sk: Bytes, ciphertext: Bytes): Option<Bytes> {
    if |ciphertext| < KEY_SIZE + OVERHEAD then None
    else
      var epk := ciphertext[..KEY_SIZE];
      box.open(ciphertext[KEY_SIZE..], box.hash(epk + pk), epk, sk)
  }

  /** Fills the output frame with the ephemeral public key and the sealed message. */
  method SealedBoxEncrypt(box: Box, pk: Bytes, message: Bytes, esk: Bytes) returns (result: array<byte>)
    requires Lawful(box)
    ensures fresh(result) && result[..] == Sealed(box, pk, message, esk)
    ensures result.Length >= 32 && result[..32] == box.public(esk)
    ensures result[32..] == box.seal(message, box.hash(box.public(esk) + pk), pk, esk)
  {
    var epk := box.public(esk);
    var hashed: Bytes := [];
    hashed := hashed + epk;
    hashed := hashed + pk;
    assert hashed == epk + pk;
    var encrypted := box.seal(message, box.hash(hashed), pk, esk);
    result := new byte[KEY_SIZE + |encrypted|];
    forall i | 0 <= i < KEY_SIZE {
      result[i] := epk[i];
    }
    forall i | 0 <= i < |encrypted| {
      result[KEY_SIZE + i] := encrypted[i];
    }
    assert result[..KEY_SIZE] == epk && result[KEY_SIZE..] == encrypted;
  }

  method SealedBoxDecrypt(box: Box, pk: Bytes, sk: Bytes, ciphertext: Bytes) returns (plaintext: Option<Bytes>)
    ensures plaintext == Opened(box, pk, sk, ciphertext)
    ensures plaintext == if |ciphertext| < 48 then None
                         else box.open(ciphertext[32..], box.hash(ciphertext[..32] + pk), ciphertext[..32], sk)
  {
    if |ciphertext| < KEY_SIZE + OVERHEAD {
      return None;
    }
    var epk := new byte[KEY_SIZE];
    forall i | 0 <= i < KEY_SIZE {
      epk[i] := ciphertext[i];
    }
    assert epk[..] == ciphertext[..KEY_SIZE];
    var hashed: Bytes := [];
    hashed := hashed + epk[..];
    hashed := hashed + pk;
    assert hashed == epk[..] + pk;
    plaintext := box.open(ciphertext[KEY_SIZE..], box.hash(hashed), epk[..], sk);
  }

  /** What is sealed for a key is opened by its owner, and is 48 bytes longer than the message. */
  lemma SealedOpens(box: Box, sk: Bytes, message: Bytes, esk: Bytes)
    requires Lawful(box)
    ensures
      var sealed := Sealed(box, box.public(sk), message, esk);
      |sealed| == 48 + |message| && Opened(box, box.public(sk), sk, sealed) == Some(message)
  {
    var epk := box.public(esk);
    var sealed := Sealed(box, box.public(sk), message, esk);
    assert sealed[..KEY_SIZE] == epk;
    assert sealed[KEY_SIZE..] == box.seal(message, box.hash(epk + box.public(sk)), box.public(sk), esk);
  }

  /** encryptProvingRequest; None is the error result. */
  function Encrypt(box: Box, publicKeyHex: string, data: Bytes, esk: Bytes): Option<string> {
    match HexDecode(publicKeyHex)
    case None => None
    case Some(pk) => if |pk| != KEY_SIZE then None else Some(Encode(Sealed(box, pk, data, esk)))
  }

  /** There is no text for a key that is not 32 bytes of hexadecimal; any other opens with the key's secret key. */
  lemma EncryptedOpens(box: Box, publicKeyHex: string, data: Bytes, esk: Bytes)
    requires Lawful(box)
    ensures
      var r := Encrypt(box, publicKeyHex, data, esk);
      var pk := HexDecode(publicKeyHex);
      && (r.None? <==> pk.None? || |pk.value| != 32)
      && (r.Some? ==>
            && Decode(r.value).Some?
            && forall sk :: box.public(sk) == pk.value ==>
                 Opened(box, pk.value, sk, Decode(r.value).value) == Some(data))
  {
    var pk := HexDecode(publicKeyHex);
    if pk.Some? && |pk.value| == KEY_SIZE {
      DecodeInverts(Sealed(box, pk.value, data, esk));
      forall sk | box.public(sk) == pk.value
        ensures Opened(box, pk.value, sk, Sealed(box, pk.value, data, esk)) == Some(data)
      {
        SealedOpens(box, sk, data, esk);
      }
    }
  }

  method EncryptProvingRequest(box: Box, publicKeyHex: string, data: Bytes, esk: Bytes) returns (r: Option<string>)
    requires Lawful(box)
    ensures r == Encrypt(box, publicKeyHex, data, esk)
    ensures
      var pk := HexDecode(publicKeyHex);
      && (r.None? <==> pk.None? || |pk.value| != 32)
      && (r.Some? ==>
            && Decode(r.value).Some?
            && forall sk :: box.public(sk) == pk.value ==>
                 Opened(box, pk.value, sk, Decode(r.value).value) == Some(data))
  {
    EncryptedOpens(box, publicKeyHex, data, esk);
    var pkBytes := HexDecode(publicKeyHex);
    if pkBytes.None? || |pkBytes.value| != KEY_SIZE {
      return None;
    }
    var sealed := SealedBoxEncrypt(box, pkBytes.value, data, esk);
    r := Some(Encode(sealed[..]));
  }

  // ---- the two paths

  /** The caller's request: raw JSON texts, where None is the nil RawMessage. */
  datatype Raw = Raw(auth: string, fee: Option<string>, broadcast: bool)

  /** The JSON text `null`, blanks around it allowed. */
  predicate IsNull(t: string) {
    var u := Json.SkipBlank(t);
    "null" <= u && Json.SkipBlank(u[4..]) == ""
  }

  /** No authorization is printed as the empty text or as `null`. */
  ghost predicate RejectsNull<A>(parse: string -> Option<A>) {
    forall t :: t == "" || IsNull(t) ==> parse(t) == None
  }

  /** What the prover reads from the plain JSON body; None if the body cannot be built or read. */
  function PlainDelivery<A>(parse: string -> Option<A>, raw: Raw): Option<Request<A>> {
    match parse(raw.auth)
    case None => None
    case Some(auth) =>
      match raw.fee
      case None => Some(Request(auth, None, raw.broadcast))
      case Some(t) =>
        if IsNull(t) then Some(Request(auth, None, raw.broadcast))
        else match parse(t)
          case None => None
          case Some(fee) => Some(Request(auth, Some(fee), raw.broadcast))
  }

  /** The body of the bridge function that serializes a request; the fee text is empty for no fee. */
  function RequestToBytes<A>(parse: string -> Option<A>, c: Codec<A>, auth: string, fee: string, broadcast: bool)
    : Envelope.Body
  {
    match parse(Json.CString(auth))
    case None => Envelope.Failed("parse authorization")
    case Some(a) =>
      if Json.CString(fee) == "" then Envelope.Returned(Encode(Layout(c, Request(a, None, broadcast))))
      else match parse(Json.CString(fee))
        case None => Envelope.Failed("parse fee authorization")
        case Some(f) => Envelope.Returned(Encode(Layout(c, Request(a, Some(f), broadcast))))
  }

  const PANIC := "panic during proving request serialization"

  /** The ciphertext that the client submits; None is an error before submission. */
  function Ciphertext<A>(d: Envelope.Decoder, parse: string -> Option<A>, c: Codec<A>, box: Box, publicKeyHex: string,
                         esk: Bytes, raw: Raw): Option<string>
  {
    var body := RequestToBytes(parse, c, raw.auth, FeeText(raw), raw.broadcast);
    match Envelope.ResultOrError(d, Envelope.FfiCatch(body, PANIC))
    case Error(_) => None
    case Value(bytesB64) =>
      match Decode(bytesB64)
      case None => None
      case Some(data) => Encrypt(box, publicKeyHex, data, esk)
  }

  /** What the prover, owner of `sk`, reads from the encrypted body. */
  function EncryptedDelivery<A>(d: Envelope.Decoder, parse: string -> Option<A>, c: Codec<A>, box: Box, sk: Bytes,
                                esk: Bytes, raw: Raw): Option<Request<A>>
  {
    match Ciphertext(d, parse, c, box, HexEncode(box.public(sk)), esk, raw)
    case None => None
    case Some(text) =>
      match Decode(text)
      case None => None
      case Some(sealed) =>
        match Opened(box, box.public(sk), sk, sealed)
        case None => None
        case Some(data) => ReadRequest(c, data)
  }

  /** Base64 text comes through the bridge as it is. */
  lemma EncodedDelivered(d: Envelope.Decoder, b: Bytes)
    ensures Envelope.ResultOrError(d, Envelope.FfiCatch(Envelope.Returned(Encode(b)), PANIC))
         == Envelope.Value(Encode(b))
  {
    EncodedIsPlain(b);
    if Encode(b) != "" {
      assert Encode(b)[0] in Encode(b);
    }
    Envelope.OrdinaryValueDelivered(d, Encode(b), PANIC);
  }

  /** Serialized, encoded, sealed and encoded again, a request reaches the prover as it was. */
  lemma SerializedArrives<A(!new)>(c: Codec<A>, box: Box, sk: Bytes, esk: Bytes, r: Request<A>)
    requires SelfDelimiting(c) && Lawful(box)
    ensures
      var text := Encrypt(box, HexEncode(box.public(sk)), Layout(c, r), esk);
      && text.Some? && Decode(text.value).Some?
      && var plain := Opened(box, box.public(sk), sk, Decode(text.value).value);
         plain.Some? && ReadRequest(c, plain.value) == Some(r)
  {
    HexDecodeInverts(box.public(sk));
    SealedOpens(box, sk, Layout(c, r), esk);
    DecodeInverts(Sealed(box, box.public(sk), Layout(c, r), esk));
    LayoutRead(c, r);
  }

  /** The request that the serialized texts denote; no fee is the empty text. */
  function Denoted<A>(parse: string -> Option<A>, auth: string, fee: string, broadcast: bool): Option<Request<A>> {
    match parse(auth)
    case None => None
    case Some(a) =>
      if fee == "" then Some(Request(a, None, broadcast))
      else match parse(fee)
        case None => None
        case Some(f) => Some(Request(a, Some(f), broadcast))
  }

  function FeeText(raw: Raw): string {
    if raw.fee.Some? then raw.fee.value else ""
  }

  lemma BytesAreLayout<A>(parse: string -> Option<A>, c: Codec<A>, auth: string, fee: string, broadcast: bool)
    ensures
      var body := RequestToBytes(parse, c, auth, fee, broadcast);
      match Denoted(parse, Json.CString(auth), Json.CString(fee), broadcast)
      case None => body.Failed? && body.error != ""
      case Some(r) => body == Envelope.Returned(Encode(Layout(c, r)))
  {
  }

  lemma CiphertextIs<A>(d: Envelope.Decoder, parse: string -> Option<A>, c: Codec<A>, box: Box, publicKeyHex: string,
                        esk: Bytes, raw: Raw)
    requires Envelope.ReadsErrors(d)
    ensures Ciphertext(d, parse, c, box, publicKeyHex, esk, raw) ==
      match Denoted(parse, Json.CString(raw.auth), Json.CString(FeeText(raw)), raw.broadcast)
      case None => None
      case Some(r) => Encrypt(box, publicKeyHex, Layout(c, r), esk)
  {
    BytesAreLayout(parse, c, raw.auth, FeeText(raw), raw.broadcast);
    match Denoted(parse, Json.CString(raw.auth), Json.CString(FeeText(raw)), raw.broadcast) {
      case None =>
        Envelope.ErrorDelivered(d, RequestToBytes(parse, c, raw.auth, FeeText(raw), raw.broadcast).error, PANIC);
      case Some(r) =>
        EncodedDelivered(d, Layout(c, r));
        DecodeInverts(Layout(c, r));
    }
  }

  /** The prover reads from the encrypted body exactly the request that the texts denote, or the client fails. */
  lemma EncryptedDeliveryIs<A(!new)>(d: Envelope.Decoder, parse: string -> Option<A>, c: Codec<A>, box: Box, sk: Bytes,
                                   esk: Bytes, raw: Raw)
    requires Envelope.ReadsErrors(d) && SelfDelimiting(c) && Lawful(box)
    ensures EncryptedDelivery(d, parse, c, box, sk, esk, raw)
         == Denoted(parse, Json.CString(raw.auth), Json.CString(FeeText(raw)), raw.broadcast)
  {
    CiphertextIs(d, parse, c, box, HexEncode(box.public(sk)), esk, raw);
    var denoted := Denoted(parse, Json.CString(raw.auth), Json.CString(FeeText(raw)), raw.broadcast);
    if denoted.Some? {
      SerializedArrives(c, box, sk, esk, denoted.value);
    }
  }

  /**
   For JSON texts, the encrypted and the plain path deliver the same request, or both none, exactly when the
   authorization is unreadable or the fee is neither an empty non-nil text nor a literal null.
   */
  lemma PathsAgreeIff<A(!new)>(d: Envelope.Decoder, parse: string -> Option<A>, c: Codec<A>, box: Box, sk: Bytes,
                             esk: Bytes, raw: Raw)
    requires Envelope.ReadsErrors(d) && SelfDelimiting(c) && Lawful(box) && RejectsNull(parse)
    requires '\0' !in raw.auth && (raw.fee.Some? ==> '\0' !in raw.fee.value)
    ensures EncryptedDelivery(d, parse, c, box, sk, esk, raw) == PlainDelivery(parse, raw)
       <==> (parse(raw.auth).Some? && raw.fee.Some? ==> raw.fee.value != "" && !IsNull(raw.fee.value))
  {
    Json.CStringIntact(raw.auth);
    Json.CStringIntact(FeeText(raw));
    EncryptedDeliveryIs(d, parse, c, box, sk, esk, raw);
  }

  /** A fee that is a literal null is no fee on the plain path and an error on the encrypted one. */
  lemma NullFee<A(!new)>(d: Envelope.Decoder, parse: string -> Option<A>, c: Codec<A>, box: Box, sk: Bytes, esk: Bytes,
                         auth: string, broadcast: bool)
    requires Envelope.ReadsErrors(d) && SelfDelimiting(c) && Lawful(box) && RejectsNull(parse)
    requires '\0' !in auth && parse(auth).Some?
    ensures var raw := Raw(auth, Some("null"), broadcast);
      && PlainDelivery(parse, raw) == Some(Request(parse(auth).value, None, broadcast))
      && EncryptedDelivery(d, parse, c, box, sk, esk, raw) == None
  {
    var raw := Raw(auth, Some("null"), broadcast);
    NullText();
    Json.CStringIntact(auth);
    Json.CStringIntact("null");
    EncryptedDeliveryIs(d, parse, c, box, sk, esk, raw);
  }

  lemma NullText()
    ensures IsNull("null") && '\0' !in "null"
  {
    assert Json.SkipBlank("null") == "null" && "null"[4..] == "";
  }

  /** A fee that is empty without being nil is an error on the plain path and no fee on the encrypted one. */
  lemma EmptyFee<A(!new)>(d: Envelope.Decoder, parse: string -> Option<A>, c: Codec<A>, box: Box, sk: Bytes, esk: Bytes,
                          auth: string, broadcast: bool)
    requires Envelope.ReadsErrors(d) && SelfDelimiting(c) && Lawful(box) && RejectsNull(parse)
    requires '\0' !in auth && parse(auth).Some?
    ensures var raw := Raw(auth, Some(""), broadcast);
      && PlainDelivery(parse, raw) == None
      && EncryptedDelivery(d, parse, c, box, sk, esk, raw) == Some(Request(parse(auth).value, None, broadcast))
  {
    Json.CStringIntact(auth);
    EncryptedDeliveryIs(d, parse, c, box, sk, esk, Raw(auth, Some(""), broadcast));
  }
}
