/** The two cryptographic collaborators of the authentication core, kept
    abstract: the bcrypt password hasher and the JSON Web Token signer
    (RFC 7519, HMAC with SHA-256 as in section 3.2 of RFC 7518). Each is a
    record of functions; what the rest of the model may assume about them is
    stated once, as a ghost predicate that lemmas take as a precondition. */
module Crypto {

  /** `expiresIn: "24h"`, in seconds: `exp = iat + 86400`. */
  const TokenLifetime: nat := 86400

  /** The names jsonwebtoken gives its verification errors. */
  const JsonWebTokenError := "JsonWebTokenError"
  const TokenExpiredError := "TokenExpiredError"

  /** The payload the server signs: exactly these three fields. */
  datatype Claims = Claims(id: string, username: string, email: string)

  /** A decoded token: the payload plus the registered claims `iat` and `exp`
      (seconds since the epoch) that jsonwebtoken adds. */
  datatype Decoded = Decoded(claims: Claims, iat: nat, exp: nat)

  /** What `jwt.verify` does: return the decoded token or throw an error
      whose `name` distinguishes the cause. */
  datatype Verification = Verified(decoded: Decoded) | Threw(name: string)

  /** `jwt.sign` with the process-wide secret, and `jwt.verify` with the same
      secret at a given clock reading (seconds). */
  datatype Signer = Signer(sign: Decoded -> string, verify: (string, nat) -> Verification)

  /** What the model assumes of the signer:
      - a compact serialization is non-empty and has no space in it (it is
        made of base64url text and dots, section 7.1 of RFC 7515);
      - a genuine token verifies to what was signed until its expiry, and from
        the second `exp` on (jsonwebtoken rejects when `now >= exp`) it throws
        `TokenExpiredError`;
      - a token that verifies was produced by `sign` over exactly the decoded
        claims: tampering with any part is detected;
      - a token `sign` never produced (forged, tampered or malformed) throws
        `JsonWebTokenError`, whatever the clock. */
  ghost predicate SignerAxioms(s: Signer)
  {
    && (forall d :: s.sign(d) != [] && ' ' !in s.sign(d))
    && (forall d, now: nat :: s.verify(s.sign(d), now) == if now < d.exp then Verified(d) else Threw(TokenExpiredError))
    && (forall t, now: nat :: s.verify(t, now).Verified? ==> s.sign(s.verify(t, now).decoded) == t)
    && (forall t, now: nat :: (forall d :: s.sign(d) != t) ==> s.verify(t, now) == Threw(JsonWebTokenError))
  }

  /** The UTF-8 encoding of one character (a Unicode scalar value), as
      bytes 0..255. */
  function Utf8(c: char): (b: seq<nat>)
    ensures 1 <= |b| <= 4
  {
    var n := c as int;
    if n < 0x80 then [n]
    else if n < 0x800 then [0xC0 + n / 0x40, 0x80 + n % 0x40]
    else if n < 0x1_0000 then [0xE0 + n / 0x1000, 0x80 + n / 0x40 % 0x40, 0x80 + n % 0x40]
    else [0xF0 + n / 0x4_0000, 0x80 + n / 0x1000 % 0x40, 0x80 + n / 0x40 % 0x40, 0x80 + n % 0x40]
  }

  /** The UTF-8 encoding of a string. */
  function Utf8Bytes(s: string): (b: seq<nat>)
    ensures |b| >= |s|
  {
    if s == [] then [] else Utf8(s[0]) + Utf8Bytes(s[1..])
  }

  lemma {:induction false} Utf8BytesAppend(a: string, b: string)
    ensures Utf8Bytes(a + b) == Utf8Bytes(a) + Utf8Bytes(b)
  {
    if a == [] {
      assert a + b == b;
    } else {
      assert (a + b)[1..] == a[1..] + b;
      Utf8BytesAppend(a[1..], b);
    }
  }

  /** bcrypt's key schedule reads exactly 72 bytes of key: the password's
      UTF-8 bytes followed by a zero byte (versions 2a and 2b), repeated from
      the start as often as needed. Bytes beyond the 72nd never count. */
  const KeyBytes: nat := 72

  function BcryptKey(p: string): (k: seq<nat>)
    ensures |k| == KeyBytes
  {
    var b := Utf8Bytes(p) + [0];
    seq(KeyBytes, i requires 0 <= i < KeyBytes => b[i % |b|])
  }

  /** A password whose encoding already fills the 72 bytes has the same key
      as every extension of it. */
  lemma LongPasswordKey(p: string, extra: string)
    requires |Utf8Bytes(p)| >= KeyBytes
    ensures BcryptKey(p + extra) == BcryptKey(p)
  {
    Utf8BytesAppend(p, extra);
    var b := Utf8Bytes(p) + [0];
    var b' := Utf8Bytes(p + extra) + [0];
    assert b'[..KeyBytes] == b[..KeyBytes];
    forall i | 0 <= i < KeyBytes
      ensures BcryptKey(p + extra)[i] == BcryptKey(p)[i]
    {
      SmallRemainder(i, |b|);
      SmallRemainder(i, |b'|);
      assert b[i] == b[..KeyBytes][i];
      assert b'[i] == b'[..KeyBytes][i];
    }
  }

  lemma SmallRemainder(i: int, n: int)
    requires 0 <= i < n
    ensures i % n == i
  {
  }

  /** `bcrypt.hash(plain, 10)` with its random salt made a parameter, and
      `bcrypt.compare(plain, hashed)`. */
  datatype Hasher = Hasher(hash: (string, nat) -> string, compare: (string, string) -> bool)

  /** What the model assumes of the hasher: a hash is never the plaintext,
      and comparing a password with a hash succeeds exactly when its bcrypt
      key is the key the hash was made from, whatever the salt (different
      keys are taken never to give the same 184-bit hash). */
  ghost predicate HasherAxioms(h: Hasher)
  {
    && (forall p, salt :: h.hash(p, salt) != p)
    && (forall p, q, salt :: h.compare(q, h.hash(p, salt)) <==> BcryptKey(q) == BcryptKey(p))
  }
}
