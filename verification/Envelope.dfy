/**
 The result convention of the foreign-function boundary. The Rust side prints a success as the text itself and a
 failure as a JSON object with the member "error"; the Go side tells them apart.
 */
module Envelope {
  import opened Common
  import opened Json

  /** How the body of a bridge function ends. */
  datatype Body = Returned(text: string) | Failed(error: string) | Panicked

  /** What the Go caller gets. */
  datatype Delivered = Value(text: string) | Error(error: string)

  const PREFIX := "{\"error\":\""

  /** CString::new, with the empty string for a text that contains NUL. */
  function ToCString(s: string): string {
    if '\0' in s then "" else s
  }

  function Envelope(msg: string): string {
    "{\"error\":" + Quote(Serde, msg) + "}"
  }

  /** The text that a bridge function hands over. */
  function FfiCatch(body: Body, panicMsg: string): string {
    match body
    case Returned(text) => ToCString(text)
    case Failed(error) => ToCString(Envelope(error))
    case Panicked => ToCString(Envelope(panicMsg))
  }

  /**
   Go's json.Unmarshal into a struct whose only field is the string member "error": None for a text it refuses, the
   empty text for an object without that member.
   */
  type Decoder = string -> Option<string>

  /** The member "error" of an object that has no other member and starts with the error prefix. */
  function ErrorMember(s: string): Option<string> {
    if !(PREFIX <= s) then None
    else match Unquote(s[|PREFIX|..])
      case None => None
      case Some((text, rest)) =>
        var t := SkipBlank(rest);
        if t != [] && t[0] == '}' && SkipBlank(t[1..]) == [] then Some(text) else None
  }

  /** The decoder reads an object with the one member "error" as RFC 8259 says; other texts it may read as it likes. */
  ghost predicate ReadsErrors(d: Decoder) {
    forall s :: ErrorMember(s).Some? ==> d(s) == ErrorMember(s)
  }

  /** A text that the Go side takes for an error. */
  predicate LooksLikeError(d: Decoder, s: string) {
    |s| > |PREFIX| && s[..|PREFIX|] == PREFIX && d(s).Some? && d(s).value != ""
  }

  /** How the Go side reads the text it is handed. */
  function ResultOrError(d: Decoder, cstr: string): Delivered {
    var s := CString(cstr);
    if LooksLikeError(d, s) then Error(d(s).value) else Value(s)
  }

  lemma {:induction false} NoNul(s: string)
    requires forall c :: c in s ==> c as int >= 32
    ensures '\0' !in s && ToCString(s) == s && CString(s) == s
  {
    CStringIntact(s);
  }

  lemma EnvelopeSplits(msg: string)
    ensures Envelope(msg) == PREFIX + (Escape(Serde, msg) + "\"" + "}")
  {
    hide Escape;
    assert "{\"error\":" + "\"" == PREFIX;
  }

  lemma EndOfObject(s: string, msg: string)
    requires PREFIX <= s && Unquote(s[|PREFIX|..]) == Some((msg, "}"))
    ensures ErrorMember(s) == Some(msg)
  {
    hide Unquote;
    assert SkipBlank("}") == "}" && "}"[1..] == "";
  }

  lemma EnvelopePrintable(msg: string)
    ensures forall c :: c in Envelope(msg) ==> c as int >= 32
  {
    hide Escape;
    EnvelopeSplits(msg);
    EscapedIsPrintable(Serde, msg);
    assert forall c :: c in PREFIX ==> c as int >= 32;
  }

  /** A printed envelope is read back as its message, whatever characters the message holds. */
  lemma EnvelopeRead(msg: string)
    ensures forall c :: c in Envelope(msg) ==> c as int >= 32
    ensures PREFIX <= Envelope(msg) && |Envelope(msg)| > |PREFIX| && ErrorMember(Envelope(msg)) == Some(msg)
  {
    hide Envelope, Escape, Unquote, ErrorMember;
    var tail := Escape(Serde, msg) + "\"" + "}";
    EnvelopeSplits(msg);
    EnvelopePrintable(msg);
    UnquoteInverts(Serde, msg, "}");
    assert (PREFIX + tail)[|PREFIX|..] == tail;
    EndOfObject(Envelope(msg), msg);
  }

  /** The envelope of a plain message. */
  lemma EnvelopeText(msg: string)
    requires forall c :: c in msg ==> c as int >= 32 && c != '"' && c != '\\'
    ensures Envelope(msg) == "{\"error\":\"" + msg + "\"}"
  {
    PlainEscape(msg);
  }

  lemma {:induction false} PlainEscape(msg: string)
    requires forall c :: c in msg ==> c as int >= 32 && c != '"' && c != '\\'
    ensures Escape(Serde, msg) == msg
  {
    if msg != [] {
      assert msg[0] in msg && forall c :: c in msg[1..] ==> c in msg;
      PlainEscape(msg[1..]);
      PrintedPlainIff(Serde, msg[0]);
      assert msg == [msg[0]] + msg[1..];
    }
  }

  /** What the Go side makes of an envelope, whoever printed it. */
  lemma EnvelopeDelivered(d: Decoder, msg: string)
    requires ReadsErrors(d)
    ensures ToCString(Envelope(msg)) == Envelope(msg)
    ensures ResultOrError(d, Envelope(msg)) == if msg == "" then Value(Envelope("")) else Error(msg)
  {
    EnvelopeRead(msg);
    NoNul(Envelope(msg));
  }

  /** An error crosses the boundary as that error exactly when its text is not empty; an empty one becomes a success. */
  lemma ErrorDelivered(d: Decoder, error: string, panicMsg: string)
    requires ReadsErrors(d)
    ensures
      var r := ResultOrError(d, FfiCatch(Failed(error), panicMsg));
      && (r == Error(error) <==> error != "")
      && (error == "" ==> r == Value(Envelope("")))
  {
    EnvelopeDelivered(d, error);
  }

  lemma PanicDelivered(d: Decoder, panicMsg: string)
    requires ReadsErrors(d) && panicMsg != ""
    ensures ResultOrError(d, FfiCatch(Panicked, panicMsg)) == Error(panicMsg)
  {
    EnvelopeDelivered(d, panicMsg);
  }

  /** A success crosses unchanged exactly when it holds no NUL and is not taken for an error. */
  lemma ValueDelivered(d: Decoder, text: string, panicMsg: string)
    ensures
      var r := ResultOrError(d, FfiCatch(Returned(text), panicMsg));
      && (r == Value(text) <==> '\0' !in text && !LooksLikeError(d, text))
      && ('\0' in text ==> r == Value(""))
  {
    CStringIntact(text);
  }

  /** In particular, every NUL-free text that does not start with the error prefix, and that prefix itself. */
  lemma OrdinaryValueDelivered(d: Decoder, text: string, panicMsg: string)
    requires '\0' !in text && (!("{\"error\":\"" <= text) || text == "{\"error\":\"")
    ensures ResultOrError(d, FfiCatch(Returned(text), panicMsg)) == Value(text)
  {
    ValueDelivered(d, text, panicMsg);
  }

  /** The two sides cannot tell a success that is itself an envelope from a failure. */
  lemma EnvelopeAsValue(d: Decoder, msg: string, panicMsg: string)
    requires ReadsErrors(d)
    ensures FfiCatch(Returned(Envelope(msg)), panicMsg) == FfiCatch(Failed(msg), panicMsg)
    ensures msg != "" ==> ResultOrError(d, FfiCatch(Returned(Envelope(msg)), panicMsg)) == Error(msg)
  {
    EnvelopeDelivered(d, msg);
  }
}
