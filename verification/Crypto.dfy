/** The XOR cipher that file contents are stored under. */
module Crypto {
  import opened Text

  const KEY_MAX: nat := 32
  const FALLBACK: Byte := 0x42

  type Key = k: Str | k != [] witness [FALLBACK]

  function KeyOf(key: Str): (k: Key)
    ensures |k| <= KEY_MAX
  {
    if key == [] then [FALLBACK] else if |key| <= KEY_MAX then key else key[..KEY_MAX]
  }

  function Cipher(key: Key, data: Str): (r: Str)
    ensures |r| == |data|
  {
    seq(|data|, i requires 0 <= i < |data| => data[i] ^ key[i % |key|])
  }

  /** A key of 1 to 32 bytes is used whole, a longer one up to its 32nd byte, an empty one is the byte
      0x42. */
  lemma KeyOfIs(key: Str)
    ensures 1 <= |key| <= 32 ==> KeyOf(key) == key
    ensures |key| > 32 ==> |KeyOf(key)| == 32 && forall i :: 0 <= i < 32 ==> KeyOf(key)[i] == key[i]
    ensures key == [] ==> KeyOf(key) == [0x42]
  {
  }

  /** The cipher of zeros is the key, over and over. */
  lemma CipherOfZeros(key: Key, zeros: Str, i: nat)
    requires i < |zeros| && forall j :: 0 <= j < |zeros| ==> zeros[j] == 0
    ensures Cipher(key, zeros)[i] == key[i % |key|]
  {
    XorZero(key[i % |key|]);
  }

  /** Texts of one length differ after encryption exactly as before. */
  lemma CipherDiffers(key: Key, a: Str, b: Str, i: nat)
    requires |a| == |b| && i < |a|
    ensures Cipher(key, a)[i] ^ Cipher(key, b)[i] == a[i] ^ b[i]
  {
    XorCancels(a[i], b[i], key[i % |key|]);
  }

  /** A byte is stored as it is exactly where the key byte is 0. */
  lemma CipherHidesIff(key: Key, data: Str, i: nat)
    requires i < |data|
    ensures Cipher(key, data)[i] == data[i] <==> key[i % |key|] == 0
  {
    XorKeepsIff(data[i], key[i % |key|]);
  }

  lemma XorZero(k: Byte)
    ensures 0 ^ k == k
  {
  }

  lemma XorCancels(a: Byte, b: Byte, k: Byte)
    ensures (a ^ k) ^ (b ^ k) == a ^ b
  {
  }

  lemma XorKeepsIff(a: Byte, k: Byte)
    ensures a ^ k == a <==> k == 0
  {
  }

  /** Encryption and decryption are the same map and undo each other. */
  lemma CipherTwice(key: Key, data: Str)
    ensures Cipher(key, Cipher(key, data)) == data
  {
    var c := Cipher(key, data);
    forall i | 0 <= i < |data| ensures Cipher(key, c)[i] == data[i] {
      XorTwice(data[i], key[i % |key|]);
    }
  }

  lemma XorTwice(a: Byte, k: Byte)
    ensures (a ^ k) ^ k == a
  {
  }

  class Engine {
    const keyBytes: array<Byte>
    var keyLen: nat

    ghost predicate Valid()
      reads this, keyBytes
    {
      keyBytes.Length == KEY_MAX && 1 <= keyLen <= KEY_MAX
    }

    ghost function Current(): Key
      requires Valid()
      reads this, keyBytes
    {
      keyBytes[..keyLen]
    }

    constructor (key: Str)
      ensures Valid() && fresh(keyBytes) && Current() == KeyOf(key)
    {
      keyBytes := new Byte[KEY_MAX];
      keyLen := 0;
      new;
      SetKey(key);
    }

    /** crypto_set_key */
    method SetKey(key: Str)
      requires keyBytes.Length == KEY_MAX
      modifies this, keyBytes
      ensures Valid() && Current() == KeyOf(key)
    {
      keyLen := 0;
      while keyLen < |key| && keyLen < KEY_MAX
        invariant keyLen <= |key| && keyLen <= KEY_MAX
        invariant keyBytes[..keyLen] == key[..keyLen]
      {
        keyBytes[keyLen] := key[keyLen];
        keyLen := keyLen + 1;
      }
      if keyLen == 0 {
        keyBytes[0] := FALLBACK;
        keyLen := 1;
      }
      assert Current() == KeyOf(key);
    }

    /** crypto_apply, which both crypto_encrypt and crypto_decrypt call. */
    method Apply(input: Str, out: array<Byte>)
      requires Valid() && |input| <= out.Length && out != keyBytes
      modifies out
      ensures out[..|input|] == Cipher(Current(), input)
      ensures out[|input|..] == old(out[|input|..])
    {
      ghost var key := Current();
      var i := 0;
      while i < |input|
        invariant 0 <= i <= |input| && Valid() && Current() == key
        invariant forall k :: 0 <= k < i ==> out[k] == Cipher(key, input)[k]
        invariant out[|input|..] == old(out[|input|..])
      {
        out[i] := input[i] ^ keyBytes[i % keyLen];
        i := i + 1;
      }
    }
  }
}
