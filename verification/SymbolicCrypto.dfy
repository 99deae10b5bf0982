/**
 The encryption helpers, with ciphertext bytes kept symbolic: a byte remembers which
 operation produced it and its position, so a block opens only under the key it was made
 with (RSA-OAEP, section 7.1 of RFC 8017; ChaCha20-Poly1305, section 2.8 of RFC 8439).
 Keys, data-encryption keys (DEKs) and nonces are numbers drawn from one counter.
 */
module SymbolicCrypto {
  import opened Common

  datatype CryptoError = WrongPassphrase | DecryptionFailed | InvalidTag

  datatype Byte =
    | Rsa(pub: nat, dek: nat, index: nat)
    | Aead(key: nat, nonce: nat, text: string, index: nat)

  /** A private key in PEM form, encrypted under its owner's passphrase. */
  datatype Pem = Pem(pub: nat, passphrase: string)

  const RSA_BLOCK := 512
  const TAG := 16

  function LoadPrivateKey(pem: Pem, passphrase: string): Result<nat, CryptoError> {
    if pem.passphrase == passphrase then Ok(pem.pub) else Err(WrongPassphrase)
  }

  function RsaEncrypt(pub: nat, dek: nat): seq<Byte> {
    seq(RSA_BLOCK, i requires 0 <= i => Rsa(pub, dek, i))
  }

  function RsaDecrypt(priv: nat, c: seq<Byte>): Result<nat, CryptoError> {
    if |c| == RSA_BLOCK && c[0].Rsa? && c == RsaEncrypt(priv, c[0].dek)
    then Ok(c[0].dek)
    else Err(DecryptionFailed)
  }

  function Seal(key: nat, nonce: nat, text: string): seq<Byte> {
    seq(|text| + TAG, i requires 0 <= i => Aead(key, nonce, text, i))
  }

  function Open(key: nat, nonce: nat, c: seq<Byte>): Result<string, CryptoError> {
    if |c| > 0 && c[0].Aead? && c == Seal(key, nonce, c[0].text)
    then Ok(c[0].text)
    else Err(InvalidTag)
  }

  /** `_decrypt_symmetric_key_with_private_key`. */
  function Unwrap(c: seq<Byte>, pem: Pem, passphrase: string): Result<nat, CryptoError> {
    match LoadPrivateKey(pem, passphrase)
    case Err(e) => Err(e)
    case Ok(priv) => RsaDecrypt(priv, c)
  }

  /** The old hybrid format: the wrapped DEK and the sealed text in one string. */
  function EncryptWithPublicKey(text: string, pub: nat, dek: nat, nonce: nat): seq<Byte> {
    RsaEncrypt(pub, dek) + Seal(dek, nonce, text)
  }

  /** Python slicing `s[:n]` and `s[n:]`, which clamp at the end of the string. */
  function Before<T>(s: seq<T>, n: nat): seq<T> { if |s| < n then s else s[..n] }
  function From<T>(s: seq<T>, n: nat): seq<T> { if |s| < n then [] else s[n..] }

  function DecryptWithPrivateKey(data: seq<Byte>, nonce: nat, pem: Pem, passphrase: string)
    : Result<string, CryptoError>
  {
    match Unwrap(Before(data, RSA_BLOCK), pem, passphrase)
    case Err(e) => Err(e)
    case Ok(dek) => Open(dek, nonce, From(data, RSA_BLOCK))
  }

  /** A sealed text opens exactly under its own key and nonce. */
  lemma OpenSeal(key: nat, nonce: nat, text: string, key': nat, nonce': nat)
    ensures Open(key', nonce', Seal(key, nonce, text))
         == if key == key' && nonce == nonce' then Ok(text) else Err(InvalidTag)
  {
    var c := Seal(key, nonce, text);
    assert c[0] == Aead(key, nonce, text, 0);
    assert Seal(key', nonce', text)[0] == Aead(key', nonce', text, 0);
  }

  /** A wrapped DEK unwraps exactly under the matching private key and its passphrase. */
  lemma UnwrapWrap(pub: nat, dek: nat, pem: Pem, passphrase: string)
    ensures Unwrap(RsaEncrypt(pub, dek), pem, passphrase)
         == if pem.passphrase != passphrase then Err(WrongPassphrase)
            else if pem.pub == pub then Ok(dek) else Err(DecryptionFailed)
  {
    assert RsaEncrypt(pub, dek)[0] == Rsa(pub, dek, 0);
    assert RsaEncrypt(pem.pub, dek)[0] == Rsa(pem.pub, dek, 0);
  }

  /** The 512-byte framing is undone by decryption, for the right key, nonce and passphrase only. */
  lemma HybridRoundTrip(text: string, pub: nat, dek: nat, nonce: nat, nonce': nat, pem: Pem, passphrase: string)
    ensures DecryptWithPrivateKey(EncryptWithPublicKey(text, pub, dek, nonce), nonce', pem, passphrase) == Ok(text)
       <==> pem.pub == pub && pem.passphrase == passphrase && nonce == nonce'
  {
    var data := EncryptWithPublicKey(text, pub, dek, nonce);
    assert Before(data, RSA_BLOCK) == RsaEncrypt(pub, dek);
    assert From(data, RSA_BLOCK) == Seal(dek, nonce, text);
    UnwrapWrap(pub, dek, pem, passphrase);
    OpenSeal(dek, nonce, text, dek, nonce');
  }
}
