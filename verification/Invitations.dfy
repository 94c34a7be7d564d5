/** The invitation text an operator hands out, and the request frame that carries its secret. */
module Invitations {
  import opened Common
  import opened ReceiverStore

  const SCHEME := "kepos1:"

  /** "Kepos enrollment v1 ": one frame with this prefix asks for enrollment. */
  const ENROLLMENT_PREFIX := "Kepos enrollment v1 "

  const KEY_LENGTH := 64

  datatype Invite = Invite(receiverKey: string, secret: string)

  /** `parseInvitation`; None where it throws. */
  function ParseInvitation(value: string): Option<Invite> {
    if |value| != |SCHEME| + 2 * KEY_LENGTH + 1 then None
    else
      var middle := |SCHEME| + KEY_LENGTH;
      if value[..|SCHEME|] == SCHEME && IsKey(value[|SCHEME|..middle]) && value[middle] == ':'
        && IsKey(value[middle + 1..])
      then Some(Invite(value[|SCHEME|..middle], value[middle + 1..]))
      else None
  }

  function InvitationText(v: Invite): string {
    SCHEME + v.receiverKey + ":" + v.secret
  }

  /** `formatInvitation`; None where it throws. */
  function FormatInvitation(v: Invite): Option<string> {
    var text := InvitationText(v);
    if ParseInvitation(text).Some? then Some(text) else None
  }

  /** The colon ends the key: no other key and secret give the same accepted text. */
  lemma ColonPosition(v: Invite)
    requires ParseInvitation(InvitationText(v)).Some?
    ensures |v.receiverKey| == KEY_LENGTH
  {
    var text, at := InvitationText(v), |SCHEME| + |v.receiverKey|;
    assert text[at] == ':';
  }

  /** Formatting and parsing are inverse, in both directions and on every input: what one accepts is what the other
      gives. */
  lemma FormatInvertsParse(v: Invite, text: string)
    ensures FormatInvitation(v) == Some(text) <==> ParseInvitation(text) == Some(v)
  {
    if FormatInvitation(v) == Some(text) {
      ColonPosition(v);
      assert text[|SCHEME|..|SCHEME| + KEY_LENGTH] == v.receiverKey;
      assert text[|SCHEME| + KEY_LENGTH + 1..] == v.secret;
    }
    if ParseInvitation(text) == Some(v) {
      var middle := |SCHEME| + KEY_LENGTH;
      assert text == text[..|SCHEME|] + text[|SCHEME|..middle] + [text[middle]] + text[middle + 1..];
      assert InvitationText(v) == text;
    }
  }

  /** Exactly the invitations made of two keys have a text; so the one `createInvitation` makes always has. */
  lemma KeysHaveText(v: Invite)
    ensures FormatInvitation(v).Some? <==> IsKey(v.receiverKey) && IsKey(v.secret)
  {
    var text := InvitationText(v);
    if FormatInvitation(v).Some? {
      FormatInvertsParse(v, text);
    }
    if IsKey(v.receiverKey) && IsKey(v.secret) {
      var middle := |SCHEME| + KEY_LENGTH;
      assert text[..|SCHEME|] == SCHEME && text[|SCHEME|..middle] == v.receiverKey && text[middle + 1..] == v.secret;
    }
  }

  /** What an invitation looks like: the scheme, the receiver's key, a colon, the secret, and nothing else. */
  lemma InvitationExactly(v: Invite, text: string)
    ensures ParseInvitation(text) == Some(v) <==>
              IsKey(v.receiverKey) && IsKey(v.secret) && text == "kepos1:" + v.receiverKey + ":" + v.secret
  {
    FormatInvertsParse(v, text);
    KeysHaveText(v);
  }

  /** `Buffer.toString("ascii")`, which drops the high bit of every byte. */
  function Ascii(b: seq<byte>): (s: string)
    ensures |s| == |b|
  {
    seq(|b|, i requires 0 <= i < |b| => ((b[i] as int) % 128) as char)
  }

  /** `Buffer.from(s, "ascii")`, for characters below 128. */
  function FromAscii(s: string): (b: seq<byte>)
    requires forall i | 0 <= i < |s| :: s[i] < 128 as char
    ensures |b| == |s| && Ascii(b) == s
  {
    seq(|s|, i requires 0 <= i < |s| => s[i] as byte)
  }

  predicate HasEnrollmentPrefix(frame: seq<byte>) {
    ENROLLMENT_PREFIX <= Ascii(frame)
  }

  /** `enrollmentRequest` */
  function EnrollmentRequest(secret: string): seq<byte>
    requires IsKey(secret)
  {
    FromAscii(ENROLLMENT_PREFIX + secret)
  }

  /** What `enrollmentSecret` makes of a frame: undefined, an error, or the secret. */
  datatype Asked = NotARequest | Malformed | Secret(secret: string)

  function EnrollmentSecret(frame: seq<byte>): Asked {
    if !HasEnrollmentPrefix(frame) then NotARequest
    else
      var secret := Ascii(frame)[|ENROLLMENT_PREFIX|..];
      if |frame| == |ENROLLMENT_PREFIX| + KEY_LENGTH && IsKey(secret) then Secret(secret) else Malformed
  }

  /** A frame asks with a secret exactly when, up to the high bits that decoding drops, it is the request for that
      secret. */
  lemma SecretOfRequest(frame: seq<byte>, secret: string)
    ensures EnrollmentSecret(frame) == Secret(secret)
            <==> IsKey(secret) && Ascii(frame) == Ascii(EnrollmentRequest(secret))
    ensures IsKey(secret) ==> EnrollmentSecret(EnrollmentRequest(secret)) == Secret(secret)
  {
    var p := ENROLLMENT_PREFIX;
    if EnrollmentSecret(frame) == Secret(secret) {
      assert Ascii(frame) == Ascii(frame)[..|p|] + Ascii(frame)[|p|..];
    }
    if IsKey(secret) {
      assert (p + secret)[|p|..] == secret;
    }
  }

  /** What a request looks like: the words and the secret, up to the high bits that decoding drops. */
  lemma RequestExactly(frame: seq<byte>, secret: string)
    ensures EnrollmentSecret(frame) == Secret(secret) <==>
              IsKey(secret) && Ascii(frame) == "Kepos enrollment v1 " + secret
    ensures EnrollmentSecret(frame) == NotARequest <==> !("Kepos enrollment v1 " <= Ascii(frame))
  {
    SecretOfRequest(frame, secret);
  }
}
