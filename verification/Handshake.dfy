/** The peer handshake: the AuthSigMessage, the shortcut that sizes it for schemes
    without a key type, and the three profiles. */
module Handshake {
  import opened Varint
  import opened Wire
  import opened Measure

  const ED25519_KEY_BYTES: nat := 32
  const ENCAPSULATION_KEY_BYTES: nat := 1184
  const CIPHERTEXT_BYTES: nat := 1088
  const X25519_KEY_BYTES: nat := 32

  /** A key oneof that is set is emitted even when the key is empty. */
  function PublicKeyProto(key: seq<Byte>): Message {
    Blob(1, key, End)
  }

  function AuthSigProto(key: seq<Byte>, sig: seq<Byte>): Message {
    Sub(1, PublicKeyProto(key), Bytes(2, sig, End))
  }

  lemma AuthSigSize(key: seq<Byte>, sig: seq<Byte>)
    ensures |Marshal(AuthSigProto(key, sig))| == SubmessageSize(SubmessageSize(|key|)) + BytesFieldSize(|sig|)
  {
    MarshalledSize(AuthSigProto(key, sig));
    FieldSize(2, sig, End);
  }

  function VarintGrowth(from: nat, to: nat): int {
    Len(to) - Len(from)
  }

  /** `ed25519Key` is the freshly generated key. Every scheme but Ed25519 is sized
      from a message around that key, corrected for the key bytes and for the
      prefix of the key field. */
  function AuthSigMessageBytes(scheme: Scheme, ed25519Key: seq<Byte>): int {
    var base := |Marshal(AuthSigProto(ed25519Key, Repeat(0xA5, scheme.sigBytes)))|;
    if scheme.name == "ed25519" then base
    else base + (scheme.pubKeyBytes - ED25519_KEY_BYTES) + VarintGrowth(ED25519_KEY_BYTES, scheme.pubKeyBytes)
  }

  /** The shortcut forgets one prefix: that of the submessage around the key. It
      is short by exactly the growth of that prefix. */
  lemma ShortcutShortfall(scheme: Scheme, ed25519Key: seq<Byte>, key: seq<Byte>, sig: seq<Byte>)
    requires |ed25519Key| == ED25519_KEY_BYTES && scheme.name != "ed25519"
    requires |key| == scheme.pubKeyBytes && |sig| == scheme.sigBytes
    ensures AuthSigMessageBytes(scheme, ed25519Key)
         == |Marshal(AuthSigProto(key, sig))| - VarintGrowth(SubmessageSize(ED25519_KEY_BYTES), SubmessageSize(|key|))
    ensures |key| <= 125 <==> VarintGrowth(SubmessageSize(ED25519_KEY_BYTES), SubmessageSize(|key|)) == 0
    ensures 126 <= |key| <= 16_380 ==> VarintGrowth(SubmessageSize(ED25519_KEY_BYTES), SubmessageSize(|key|)) == 1
  {
    AuthSigSize(ed25519Key, Repeat(0xA5, scheme.sigBytes));
    AuthSigSize(key, sig);
    LenOf(|key|);
    LenOf(SubmessageSize(|key|));
  }

  /** The reported size is the size of the message with the scheme's own key
      exactly when the key is at most 125 bytes, or the scheme is named Ed25519
      and really has a 32-byte key. */
  lemma ShortcutExactIff(scheme: Scheme, ed25519Key: seq<Byte>, key: seq<Byte>, sig: seq<Byte>)
    requires |ed25519Key| == ED25519_KEY_BYTES
    requires |key| == scheme.pubKeyBytes && |sig| == scheme.sigBytes
    ensures AuthSigMessageBytes(scheme, ed25519Key) == |Marshal(AuthSigProto(key, sig))|
       <==> if scheme.name == "ed25519" then |key| == ED25519_KEY_BYTES else |key| <= 125
  {
    if scheme.name == "ed25519" {
      AuthSigSize(ed25519Key, Repeat(0xA5, scheme.sigBytes));
      AuthSigSize(key, sig);
      KeyFixesSubmessage(ED25519_KEY_BYTES, |key|);
    } else {
      ShortcutShortfall(scheme, ed25519Key, key, sig);
    }
  }

  lemma KeyFixesSubmessage(a: nat, b: nat)
    ensures SubmessageSize(SubmessageSize(a)) == SubmessageSize(SubmessageSize(b)) <==> a == b
  {
    if a < b {
      FieldGrows(a, b);
      FieldGrows(SubmessageSize(a), SubmessageSize(b));
    } else if b < a {
      FieldGrows(b, a);
      FieldGrows(SubmessageSize(b), SubmessageSize(a));
    }
  }

  /** The published ML-DSA-65 message is one byte short. */
  lemma MlDsa65IsOneByteShort(ed25519Key: seq<Byte>, key: seq<Byte>, sig: seq<Byte>)
    requires |ed25519Key| == ED25519_KEY_BYTES && |key| == 1952 && |sig| == 3309
    ensures AuthSigMessageBytes(Scheme("ml-dsa-65", 3309, 1952), ed25519Key) == 5269
    ensures |Marshal(AuthSigProto(key, sig))| == 5270
  {
    AuthSigSize(key, sig);
    LenOf(3309);
    LenOf(1952);
    LenOf(1955);
    ShortcutShortfall(Scheme("ml-dsa-65", 3309, 1952), ed25519Key, key, sig);
  }

  // ---------- profiles ----------

  datatype Leg = Leg(bytes: int, measured: bool)

  datatype Profile = Profile(legs: seq<Leg>)

  function Sum(legs: seq<Leg>): int {
    if legs == [] then 0 else Sum(legs[..|legs| - 1]) + legs[|legs| - 1].bytes
  }

  method Total(h: Profile) returns (n: int)
    ensures n == Sum(h.legs)
  {
    n := 0;
    for i := 0 to |h.legs|
      invariant n == Sum(h.legs[..i])
    {
      assert h.legs[..i + 1][..i] == h.legs[..i];
      n := n + h.legs[i].bytes;
    }
    assert h.legs[..|h.legs|] == h.legs;
  }

  function Upstream(ed25519Key: seq<Byte>): Profile {
    PQAuthOnly(Scheme("ed25519", 64, 32), ed25519Key)
  }

  function PQAuthOnly(scheme: Scheme, ed25519Key: seq<Byte>): Profile {
    Profile([Leg(X25519_KEY_BYTES, false), Leg(AuthSigMessageBytes(scheme, ed25519Key), true)])
  }

  function HybridKEM(scheme: Scheme, ed25519Key: seq<Byte>): Profile {
    Profile([Leg(X25519_KEY_BYTES, false), Leg(ENCAPSULATION_KEY_BYTES, false), Leg(CIPHERTEXT_BYTES, false),
             Leg(AuthSigMessageBytes(scheme, ed25519Key), true)])
  }

  lemma SumTwo(a: Leg, b: Leg)
    ensures Sum([a, b]) == a.bytes + b.bytes
  {
    assert [a][..0] == [];
    assert Sum([a]) == a.bytes;
    assert [a, b][..1] == [a];
  }

  lemma SumFour(a: Leg, b: Leg, c: Leg, d: Leg)
    ensures Sum([a, b, c, d]) == a.bytes + b.bytes + c.bytes + d.bytes
  {
    SumTwo(a, b);
    assert [a, b, c][..2] == [a, b];
    assert Sum([a, b, c]) == a.bytes + b.bytes + c.bytes;
    assert [a, b, c, d][..3] == [a, b, c];
  }

  /** Published constants come first, then one measured message. */
  predicate OnlyLastMeasured(legs: seq<Leg>, published: seq<int>) {
    && |legs| == |published| + 1 && legs[|published|].measured
    && forall i :: 0 <= i < |published| ==> legs[i] == Leg(published[i], false)
  }

  /** Whatever the scheme, the key agreement adds 2272 bytes; the identity key
      adds its reported growth over a 134-byte upstream handshake. */
  lemma ProfileTotals(scheme: Scheme, ed25519Key: seq<Byte>)
    requires |ed25519Key| == ED25519_KEY_BYTES
    ensures Sum(Upstream(ed25519Key).legs) == 134
    ensures Sum(HybridKEM(scheme, ed25519Key).legs) - Sum(PQAuthOnly(scheme, ed25519Key).legs) == 2272
    ensures scheme.name != "ed25519" ==>
              (Sum(PQAuthOnly(scheme, ed25519Key).legs) - Sum(Upstream(ed25519Key).legs)
               == SubmessageSize(scheme.pubKeyBytes) + BytesFieldSize(scheme.sigBytes) - 100)
    ensures OnlyLastMeasured(Upstream(ed25519Key).legs, [32])
    ensures OnlyLastMeasured(PQAuthOnly(scheme, ed25519Key).legs, [32])
    ensures OnlyLastMeasured(HybridKEM(scheme, ed25519Key).legs, [32, 1184, 1088])
  {
    var auth := Leg(AuthSigMessageBytes(scheme, ed25519Key), true);
    var upstream := Leg(AuthSigMessageBytes(Scheme("ed25519", 64, 32), ed25519Key), true);
    var x := Leg(X25519_KEY_BYTES, false);
    SumTwo(x, auth);
    SumTwo(x, upstream);
    SumFour(x, Leg(ENCAPSULATION_KEY_BYTES, false), Leg(CIPHERTEXT_BYTES, false), auth);
    AuthSigSize(ed25519Key, Repeat(0xA5, 64));
    AuthSigSize(ed25519Key, Repeat(0xA5, scheme.sigBytes));
  }
}
