/** SRP credentials as one line of text (auth.go). */
module Credentials {
  import opened Wrappers
  import opened Base64
  import opened Text

  const HEADER := "#1#"

  datatype CredentialError = InvalidSRPHeader | CorruptBase64

  type Credential = (seq<Byte>, seq<Byte>)

  function EncodeVerifierAndSalt(salt: seq<Byte>, verifier: seq<Byte>): string {
    HEADER + Encode(salt) + "#" + Encode(verifier)
  }

  /** The third and fourth part are indexed without a length check: the fourth one may be missing. */
  function DecodeVerifierAndSalt(text: string): Outcome<Credential, CredentialError> {
    if !(HEADER <= text) then Err(InvalidSRPHeader)
    else
      var parts := Split(text, '#');
      if |parts| <= 2 then Panic
      else
        var salt := Decode(parts[2]);
        if salt.None? then Err(CorruptBase64)
        else if |parts| <= 3 then Panic
        else
          var verifier := Decode(parts[3]);
          if verifier.None? then Err(CorruptBase64) else Ok((salt.value, verifier.value))
  }

  /** Behind the header, the parts that matter are those of the remainder. */
  lemma SplitHeader(text: string)
    requires HEADER <= text
    ensures Split(text, '#') == ["", "1"] + Split(text[3..], '#')
  {
    hide Split, Before;
    var rest := text[3..];
    SplitJoined("", '#', "1" + "#" + rest);
    SplitJoined("1", '#', rest);
    assert text == "" + "#" + ("1" + "#" + rest);
  }

  lemma EncodingsAreFree(bytes: seq<Byte>)
    ensures Free(Encode(bytes), '#')
  {
    var text := Encode(bytes);
    forall k | 0 <= k < |text| ensures text[k] != '#' {
      assert text[k] in text;
    }
  }

  /** The stored line: the header, the salt and then the verifier, which is what its readers expect. */
  lemma LineSpelled(salt: seq<Byte>, verifier: seq<Byte>)
    ensures var parts := Split(EncodeVerifierAndSalt(salt, verifier), '#');
      && |parts| == 4 && parts[0] == "" && parts[1] == "1"
      && Decode(parts[2]) == Some(salt) && Decode(parts[3]) == Some(verifier)
    ensures EncodeVerifierAndSalt(salt, verifier) == "#1#" + Encode(salt) + "#" + Encode(verifier)
  {
    var text := EncodeVerifierAndSalt(salt, verifier);
    SplitHeader(text);
    EncodingsAreFree(salt);
    EncodingsAreFree(verifier);
    hide Split, Encode, Decode;
    assert text[3..] == Encode(salt) + "#" + Encode(verifier);
    SplitJoined(Encode(salt), '#', Encode(verifier));
    SplitJoined(Encode(verifier), '#', "");
    Base64.RoundTrip(salt);
    Base64.RoundTrip(verifier);
  }

  /** Decoding gives back the salt and the verifier, for all byte strings. */
  lemma RoundTrip(salt: seq<Byte>, verifier: seq<Byte>)
    ensures DecodeVerifierAndSalt(EncodeVerifierAndSalt(salt, verifier)) == Ok((salt, verifier))
  {
    hide Split, Encode, Decode;
    LineSpelled(salt, verifier);
    assert HEADER <= EncodeVerifierAndSalt(salt, verifier);
  }

  /** A text that does not start like a stored line is refused. */
  lemma HeaderRequired(text: string)
    ensures DecodeVerifierAndSalt(text) == Err(InvalidSRPHeader) <==> !("#1#" <= text)
  {
  }

  /** Exactly the texts with a readable salt and nothing behind it make the decoder panic. */
  lemma PanicsExactly(text: string)
    ensures DecodeVerifierAndSalt(text).Panic? <==>
            HEADER <= text && Free(text[3..], '#') && Decode(text[3..]).Some?
  {
    if HEADER <= text {
      SplitHeader(text);
      var rest := text[3..];
      if Free(rest, '#') {
        SplitJoined(rest, '#', "");
      } else {
        assert Before(rest, '#') < |rest|;
      }
    }
  }
}
