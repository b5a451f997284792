/**
 * The running-key credential cipher shared by the password tool
 * (password_encryption.py, `encrypt`) and the report job
 * (auto_voucher_report_generation.py, `decrypt`).
 *
 * Both files run under Python 2, where a `str` is a string of bytes, so a
 * character is modelled by its code, an integer in 0..255. Character `i` of
 * the input is combined with key character `i % len(key)`, by addition when
 * encrypting and by subtraction when decrypting, and the result is reduced
 * modulo 127. Python's `%` with the positive divisor 127 never yields a
 * negative value, which is exactly Dafny's `%` on `int`.
 */
module Cipher {

  /** A character of a Python 2 byte string. */
  type Byte = b: int | 0 <= b < 256

  /** The modulus both directions reduce by. */
  const Modulus: int := 127

  /** The fixed key both programs use: "password encryption". */
  const Passphrase: seq<Byte> :=
    [112, 97, 115, 115, 119, 111, 114, 100, 32,
     101, 110, 99, 114, 121, 112, 116, 105, 111, 110]

  /** Every code is a single 7-bit character below 127, the range both directions produce. */
  predicate BelowModulus(s: seq<Byte>) {
    forall i :: 0 <= i < |s| ==> s[i] < Modulus
  }

  /** The key character that position `i` is combined with. */
  function KeyAt(key: seq<Byte>, i: nat): Byte
    requires |key| > 0
  {
    key[i % |key|]
  }

  /**
   * The ciphertext of `msg`: character `i` is the message code plus the code
   * of key character `i % |key|`, reduced modulo 127. A non-empty message
   * with an empty key divides by zero in the source, so that combination is
   * excluded; the empty message needs no key at all.
   */
  function Encrypted(key: seq<Byte>, msg: seq<Byte>): (c: seq<Byte>)
    requires |msg| > 0 ==> |key| > 0
    ensures |c| == |msg|
    ensures BelowModulus(c)
  {
    seq(|msg|, i requires 0 <= i < |msg| => (msg[i] + KeyAt(key, i)) % Modulus)
  }

  /** The plaintext recovered from `enc`: each code minus its key code, reduced modulo 127. */
  function Decrypted(key: seq<Byte>, enc: seq<Byte>): (m: seq<Byte>)
    requires |enc| > 0 ==> |key| > 0
    ensures |m| == |enc|
    ensures BelowModulus(m)
  {
    seq(|enc|, i requires 0 <= i < |enc| => (enc[i] - KeyAt(key, i)) % Modulus)
  }

  /** The `encrypt` loop of password_encryption.py. */
  method Encrypt(key: seq<Byte>, msg: seq<Byte>) returns (encrypted: seq<Byte>)
    requires |msg| > 0 ==> |key| > 0
    ensures encrypted == Encrypted(key, msg)
  {
    encrypted := [];
    var i := 0;
    while i < |msg|
      invariant 0 <= i <= |msg|
      invariant encrypted == Encrypted(key, msg[..i])
    {
      var keyC := key[i % |key|];
      var msgC := msg[i];
      encrypted := encrypted + [(msgC + keyC) % Modulus];
      assert msg[..i + 1][..i] == msg[..i];
      i := i + 1;
    }
    assert msg[..i] == msg;
  }

  /** The `decrypt` loop of auto_voucher_report_generation.py. */
  method Decrypt(key: seq<Byte>, encrypted: seq<Byte>) returns (msg: seq<Byte>)
    requires |encrypted| > 0 ==> |key| > 0
    ensures msg == Decrypted(key, encrypted)
  {
    msg := [];
    var i := 0;
    while i < |encrypted|
      invariant 0 <= i <= |encrypted|
      invariant msg == Decrypted(key, encrypted[..i])
    {
      var keyC := key[i % |key|];
      var encC := encrypted[i];
      msg := msg + [(encC - keyC) % Modulus];
      assert encrypted[..i + 1][..i] == encrypted[..i];
      i := i + 1;
    }
    assert encrypted[..i] == encrypted;
  }

  /** Encrypting a longer message begins with the encryption of its prefix. */
  lemma EncryptedPrefix(key: seq<Byte>, m1: seq<Byte>, m2: seq<Byte>)
    requires |m1 + m2| > 0 ==> |key| > 0
    ensures Encrypted(key, m1 + m2)[..|m1|] == Encrypted(key, m1)
  {
  }

  /**
   * The round trip the report job relies on: decrypting what the password
   * tool produced gives back the password exactly when every character code
   * is below 127.
   */
  lemma RoundTrip(key: seq<Byte>, msg: seq<Byte>)
    requires |msg| > 0 ==> |key| > 0
    ensures Decrypted(key, Encrypted(key, msg)) == msg <==> BelowModulus(msg)
  {
  }

  /** The reverse round trip: encrypting a decrypted text restores it exactly when every code is below 127. */
  lemma ReverseRoundTrip(key: seq<Byte>, enc: seq<Byte>)
    requires |enc| > 0 ==> |key| > 0
    ensures Encrypted(key, Decrypted(key, enc)) == enc <==> BelowModulus(enc)
  {
  }

  /**
   * A byte of 127 or more does not survive the round trip: byte 200 comes
   * back as 73 whatever the key, and bytes 0 and 127 encrypt alike.
   */
  lemma HighByteLost(key: seq<Byte>)
    requires |key| > 0
    ensures Decrypted(key, Encrypted(key, [200])) == [73]
    ensures Encrypted(key, [0]) == Encrypted(key, [127])
  {
  }
}
