/** The `gpub1...` form of a validator's ed25519 key (pkg/gpub/gpub.go): a fixed protobuf envelope
around the key, in Bech32. */
module Gpub {
  import opened Wrappers
  import opened Bits
  import opened Bech32

  const TYPE_URL := "/tm.PubKeyEd25519"
  const HRP := "gpub"

  datatype KeyError = BadBase64 | WrongLength(got: nat)

  function TypeUrlBytes(): (bytes: seq<byte>)
    ensures |bytes| == 17
  {
    seq(17, i requires 0 <= i < 17 => Ascii(TYPE_URL[i]))
  }

  function Ascii(c: char): byte {
    c as int % 256
  }

  function Wrapped(pk: seq<byte>): (wrapped: seq<byte>)
    ensures |wrapped| == 23 + |pk| && wrapped[23..] == pk
  {
    [0x0a, 17] + TypeUrlBytes() + [0x12, 0x22, 0x0a, 0x20] + pk
  }

  function KeyString(pk: seq<byte>): string {
    Encoded(HRP, Wrapped(pk))
  }

  method EncodeEd25519(pk: seq<byte>, wordBits: nat) returns (s: string)
    requires wordBits == 32 || wordBits == 64
    ensures s == KeyString(pk)
  {
    var wrapped: seq<byte> := [];
    wrapped := wrapped + [0x0a, |TYPE_URL|];
    wrapped := wrapped + TypeUrlBytes();
    wrapped := wrapped + [0x12, 0x22, 0x0a, 0x20];
    wrapped := wrapped + pk;
    assert wrapped == Wrapped(pk);
    s := Encode(HRP, wrapped, wordBits);
  }

  /** `raw` is what the base64 decoder answered. */
  method EncodeEd25519FromBase64(raw: Option<seq<byte>>, wordBits: nat) returns (r: Result<string, KeyError>)
    requires wordBits == 32 || wordBits == 64
    ensures r == match raw
                 case None => Err(BadBase64)
                 case Some(pk) => if |pk| == 32 then Ok(KeyString(pk)) else Err(WrongLength(|pk|))
    ensures r.Ok? ==> |r.value| == 99 && r.value[..5] == "gpub1"
    ensures r.Ok? ==> Decoded(HRP, r.value) == Some(Wrapped(raw.value))
  {
    match raw
    case None =>
      r := Err(BadBase64);
    case Some(pk) =>
      if |pk| != 32 {
        return Err(WrongLength(|pk|));
      }
      var s := EncodeEd25519(pk, wordBits);
      KeyStringShape(pk);
      DecodeEncode(HRP, Wrapped(pk));
      r := Ok(s);
  }

  lemma KeyStringShape(pk: seq<byte>)
    requires |pk| == 32
    ensures |KeyString(pk)| == 99 && KeyString(pk)[..5] == "gpub1"
  {
    hide Bech32.Checksum;
    var data := Wrapped(pk);
    BytesAreDigits(data);
    ConvertBits.RegroupValue(data, 8, 5);
    assert |DataSymbols(data)| == 88;
    assert HRP + "1" == "gpub1";
  }

  /** And is therefore longer than BIP-173 lets strings be: a decoder that keeps to its limit refuses it. */
  lemma KeyStringTooLong(pk: seq<byte>)
    requires |pk| == 32
    ensures StandardDecoded(HRP, KeyString(pk)) == None && Decoded(HRP, KeyString(pk)) == Some(Wrapped(pk))
  {
    hide Encoded, Decoded;
    KeyStringShape(pk);
    DecodeEncode(HRP, Wrapped(pk));
  }

  /** A key string with one, two or three characters after "gpub1" changed, anywhere, is never
      accepted. */
  lemma KeyStringThreeErrors(pk: seq<byte>, t: string, p: nat, q: nat, r: nat)
    requires |pk| == 32 && |t| == 99 && 5 <= p < q < r < 99
    ensures var s := KeyString(pk);
            |s| == 99 && (t != s && (forall i :: 0 <= i < 99 && i != p && i != q && i != r ==> t[i] == s[i]) ==> Decoded(HRP, t) == None)
  {
    hide Encoded, Decoded;
    KeyStringShape(pk);
    DecodeEncode(HRP, Wrapped(pk));
    var s := KeyString(pk);
    if t != s && forall i :: 0 <= i < 99 && i != p && i != q && i != r ==> t[i] == s[i] {
      ThreeErrorsRejected(HRP, s, t, p, q, r);
    }
  }

  /** Two keys with the same string are the same key: the decoder gets back the wrapped key, whose
      tail is the key itself. */
  lemma KeyStringInjective(a: seq<byte>, b: seq<byte>)
    requires KeyString(a) == KeyString(b)
    ensures a == b
  {
    hide Encoded, Wrapped;
    EncodedInjective(HRP, Wrapped(a), Wrapped(b));
    assert a == Wrapped(a)[23..] == Wrapped(b)[23..] == b;
  }
}
