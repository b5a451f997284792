/**
 * The command-line tool of password_encryption.py: it reads the database
 * password, refuses an empty one, and otherwise prints its encryption under
 * the shared passphrase, to be stored in config.ini.
 */
module PasswordTool {
  import opened Wrappers
  import opened Cipher

  /**
   * `main` after the password has been read: `None` is the early exit with
   * the "Please provide a valid password" message, `Some(c)` the ciphertext
   * that is printed. Decrypting `c` under the same passphrase gives the
   * password back exactly when every character of the password is below 127.
   */
  method EncryptPassword(password: seq<Byte>) returns (printed: Option<seq<Byte>>)
    ensures printed.None? <==> password == []
    ensures printed.Some? ==> printed.value == Encrypted(Passphrase, password)
    ensures printed.Some? ==>
              (Decrypted(Passphrase, printed.value) == password <==> BelowModulus(password))
  {
    if password == [] {
      return None;
    }
    var encrypted := Encrypt(Passphrase, password);
    RoundTrip(Passphrase, password);
    printed := Some(encrypted);
  }
}
