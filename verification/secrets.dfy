/**
 * The placeholder "encryption" of configuration secrets: `Encrypt` is the
 * standard base64 encoding of the plaintext bytes and `Decrypt` its decoding.
 * Go strings that carry arbitrary bytes are `seq<byte>` here; encoded text is
 * a `string`.
 */
module Secrets {
  import opened Wrappers
  import opened Bytes
  import opened Base64

  /** The error `Decrypt` wraps around the decoder's. */
  datatype SecretError = Base64DecodeFailed(cause: DecodeError)

  /**
   * `Decrypt`: the decoded bytes with no error, or the empty string and an
   * error when the text is not padded base64 (CR and LF are skipped).
   */
  function Decrypt(encryptedText: string): (r: (seq<byte>, Option<SecretError>))
    ensures r.1.None? <==> WellFormed(StripNewlines(encryptedText))
    ensures r.1.Some? ==> r.0 == []
  {
    DecodeSucceedsIff(encryptedText);
    match Decode(encryptedText)
    case Success(data) => (data, None)
    case Failure(e) => ([], Some(Base64DecodeFailed(e)))
  }

  /** `Encrypt` never fails; its text is 4 * ceil(n / 3) long, alphabet symbols then `=` padding. */
  function Encrypt(plaintext: seq<byte>): (r: (string, Option<SecretError>))
    ensures r.1.None?
    ensures |r.0| == 4 * ((|plaintext| + 2) / 3)
    ensures forall i :: 0 <= i < |r.0| ==> (IsSymbol(r.0[i]) <==> i < |r.0| - PadCount(|plaintext|))
    ensures forall i :: 0 <= i < |r.0| ==> (r.0[i] == PAD <==> i >= |r.0| - PadCount(|plaintext|))
  {
    EncodeShape(plaintext);
    (Encode(plaintext), None)
  }

  /** Round trip: every plaintext comes back from its encryption, with no error. */
  lemma DecryptEncrypt(plaintext: seq<byte>)
    ensures Decrypt(Encrypt(plaintext).0) == (plaintext, None)
  {
    DecodeEncode(plaintext);
  }

  /** On canonical text (no CR/LF, zero padding bits) encryption inverts decryption. */
  lemma EncryptDecrypt(encryptedText: string)
    requires Canonical(encryptedText)
    ensures Decrypt(encryptedText).1.None?
    ensures Encrypt(Decrypt(encryptedText).0).0 == encryptedText
  {
    EncodeDecode(encryptedText);
  }

  /** The test vectors of section 10 of RFC 4648. */
  lemma TestVectors()
    ensures Encrypt([]).0 == "" && Decrypt("") == ([], None)
    ensures Encrypt([102]).0 == "Zg=="
    ensures Encrypt([102, 111]).0 == "Zm8="
    ensures Encrypt([102, 111, 111]).0 == "Zm9v"
    ensures Encrypt([102, 111, 111, 98]).0 == "Zm9vYg=="
    ensures Encrypt([102, 111, 111, 98, 97]).0 == "Zm9vYmE="
    ensures Encrypt([102, 111, 111, 98, 97, 114]).0 == "Zm9vYmFy"
  {
    assert [102, 111, 111, 98][3..] == [98];
    assert [102, 111, 111, 98, 97][3..] == [98, 97];
    assert [102, 111, 111, 98, 97, 114][3..] == [98, 97, 114];
  }
}
