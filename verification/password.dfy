/**
 * The password cypher: a stored password is a 16-byte salt and the 32-byte
 * Argon2 digest of the UTF-8 text under that salt.
 *
 * The Argon2 primitive (`Argon2::hash_password_into`) is a foreign library and
 * is modelled as an arbitrary deterministic function that may fail; it is
 * passed to every operation that calls it.  The operating system's random
 * source is modelled by the `entropy` bytes handed to `Encode`.
 */
module Passwords {
  import opened AppErrors
  import opened Bytes

  const SaltLength := 16
  const HashLength := 32

  type Salt = s: seq<byte> | |s| == SaltLength witness seq(SaltLength, _ => 0)
  type Hash = s: seq<byte> | |s| == HashLength witness seq(HashLength, _ => 0)

  /**
   * Argon2 configuration, with the fields of the argon2 crate's `Argon2` and
   * `Params`: algorithm, version, costs, key id, associated data, requested
   * output length and the optional secret key.
   */
  datatype Algorithm = Argon2d | Argon2i | Argon2id
  datatype Version = V0x10 | V0x13
  datatype Params = Params(
    memoryCost: nat, timeCost: nat, parallelism: nat,
    keyId: seq<byte>, associatedData: seq<byte>, outputLength: Option<nat>)
  datatype Argon2 = Argon2(algorithm: Algorithm, version: Version, params: Params, secret: Option<seq<byte>>)

  /**
   * `Argon2::default()` in the argon2 0.5 series: Argon2id, version 0x13,
   * 19 MiB, 2 passes, 1 lane, no key id, no associated data, no fixed output
   * length and no secret.
   */
  const DefaultArgon2 := Argon2(Argon2id, V0x13, Params(19 * 1024, 2, 1, [], [], None), None)

  /** What one call of the primitive with a 32-byte output buffer produces. */
  datatype HashOutcome = Hashed(digest: Hash) | HashFailed(message: string)

  /** The primitive: configuration, password bytes and salt to a digest or an error text. */
  type HashPrimitive = (Argon2, seq<byte>, seq<byte>) -> HashOutcome

  /** A primitive that never gives two passwords the same digest under one salt. */
  ghost predicate Injective(primitive: HashPrimitive) {
    forall a, p, q, s :: primitive(a, p, s).Hashed? && primitive(a, p, s) == primitive(a, q, s) ==> p == q
  }

  /** A stored password.  Neither field is ever shown (see `DebugText`). */
  datatype Password = Password(salt: Salt, hash: Hash)

  /** The cypher owns one Argon2 configuration. */
  datatype PasswordCypher = PasswordCypher(argon: Argon2)

  /** `PasswordCypher::default()`. */
  const DefaultCypher := PasswordCypher(DefaultArgon2)

  /** `OsRng::fill`: overwrite `buf` with bytes drawn from the random source. */
  method Fill(buf: array<byte>, entropy: seq<byte>)
    requires |entropy| == buf.Length
    modifies buf
    ensures buf[..] == entropy
  {
    forall i | 0 <= i < buf.Length {
      buf[i] := entropy[i];
    }
  }

  datatype Status = Done | Failed(message: string)

  /** `hash_password_into(pwd, salt, out)`: on success the digest is written into `out`. */
  method HashPasswordInto(primitive: HashPrimitive, argon: Argon2, pwd: seq<byte>, salt: seq<byte>, out: array<byte>)
    returns (status: Status)
    requires out.Length == HashLength
    modifies out
    ensures status.Done? <==> primitive(argon, pwd, salt).Hashed?
    ensures status.Done? ==> out[..] == primitive(argon, pwd, salt).digest
    ensures status.Failed? ==> status.message == primitive(argon, pwd, salt).message
  {
    match primitive(argon, pwd, salt)
    case Hashed(digest) =>
      forall i | 0 <= i < HashLength {
        out[i] := digest[i];
      }
      status := Done;
    case HashFailed(message) =>
      status := Failed(message);
  }

  /** What `encode` returns for the salt `salt`. */
  function Encoded(cypher: PasswordCypher, primitive: HashPrimitive, salt: Salt, rawText: string): (r: Result<Password>)
    ensures r.Ok? <==> primitive(cypher.argon, AsBytes(rawText), salt).Hashed?
    ensures r.Ok? ==> r.value.salt == salt && r.value.hash == primitive(cypher.argon, AsBytes(rawText), salt).digest
    ensures r.Err? ==> r.error == PasswordHash(primitive(cypher.argon, AsBytes(rawText), salt).message)
  {
    match primitive(cypher.argon, AsBytes(rawText), salt)
    case Hashed(digest) => Ok(Password(salt, digest))
    case HashFailed(message) => Err(PasswordHash(message))
  }

  /**
   * What `try_password` returns.  It hashes with `Argon2::default()`, not with
   * the cypher's configuration, so it takes no cypher at all.
   */
  function Matches(primitive: HashPrimitive, password: Password, rawText: string): (r: Result<bool>)
    ensures r.Err? <==> primitive(DefaultArgon2, AsBytes(rawText), password.salt).HashFailed?
    ensures r.Err? ==> r.error == PasswordHash(primitive(DefaultArgon2, AsBytes(rawText), password.salt).message)
    ensures r == Ok(true) <==> primitive(DefaultArgon2, AsBytes(rawText), password.salt) == Hashed(password.hash)
  {
    match primitive(DefaultArgon2, AsBytes(rawText), password.salt)
    case Hashed(digest) => Ok(password.hash == digest)
    case HashFailed(message) => Err(PasswordHash(message))
  }

  /** `PasswordCypher::encode`: draw a salt, hash the text with the cypher's own configuration. */
  method Encode(cypher: PasswordCypher, primitive: HashPrimitive, entropy: Salt, rawText: string)
    returns (r: Result<Password>)
    ensures r == Encoded(cypher, primitive, entropy, rawText)
  {
    var salt := new byte[SaltLength](_ => 0);
    var hash := new byte[HashLength](_ => 0);
    Fill(salt, entropy);
    var status := HashPasswordInto(primitive, cypher.argon, AsBytes(rawText), salt[..], hash);
    if status.Failed? {
      return Err(PasswordHash(status.message));
    }
    r := Ok(Password(salt[..], hash[..]));
  }

  /** `PasswordCypher::try_password`: rehash under the stored salt and compare byte for byte. */
  method TryPassword(cypher: PasswordCypher, primitive: HashPrimitive, password: Password, rawText: string)
    returns (r: Result<bool>)
    ensures r == Matches(primitive, password, rawText)
  {
    var argon := DefaultArgon2;
    var hash := new byte[HashLength](_ => 0);
    var status := HashPasswordInto(primitive, argon, AsBytes(rawText), password.salt, hash);
    if status.Failed? {
      return Err(PasswordHash(status.message));
    }
    r := Ok(password.hash == hash[..]);
  }

  /** Round trip: with the default configuration, a password encoded from a text accepts that text. */
  lemma EncodeThenMatch(cypher: PasswordCypher, primitive: HashPrimitive, salt: Salt, rawText: string)
    requires cypher.argon == DefaultArgon2
    requires Encoded(cypher, primitive, salt, rawText).Ok?
    ensures Matches(primitive, Encoded(cypher, primitive, salt, rawText).value, rawText) == Ok(true)
  {
  }

  /**
   * For any configuration, the round trip succeeds exactly when the primitive
   * gives the same outcome under the cypher's configuration and the default one.
   */
  lemma RoundTripIffSameOutcome(cypher: PasswordCypher, primitive: HashPrimitive, salt: Salt, rawText: string)
    requires Encoded(cypher, primitive, salt, rawText).Ok?
    ensures Matches(primitive, Encoded(cypher, primitive, salt, rawText).value, rawText) == Ok(true)
        <==> primitive(DefaultArgon2, AsBytes(rawText), salt) == primitive(cypher.argon, AsBytes(rawText), salt)
  {
  }

  /**
   * A cypher with any other configuration can reject the very password it
   * encoded: some primitive hashes successfully and the check says `false`.
   */
  lemma OwnConfigurationIgnored(cypher: PasswordCypher, salt: Salt, rawText: string)
    requires cypher.argon != DefaultArgon2
    ensures exists primitive: HashPrimitive ::
      && Encoded(cypher, primitive, salt, rawText).Ok?
      && Matches(primitive, Encoded(cypher, primitive, salt, rawText).value, rawText) == Ok(false)
  {
    var zeros: Hash := seq(HashLength, _ => 0);
    var ones: Hash := seq(HashLength, _ => 1);
    var primitive: HashPrimitive := (a, p, s) => if a == DefaultArgon2 then Hashed(zeros) else Hashed(ones);
    assert zeros[0] != ones[0];
    assert Encoded(cypher, primitive, salt, rawText).value.hash == ones;
    assert Matches(primitive, Encoded(cypher, primitive, salt, rawText).value, rawText) == Ok(false);
  }

  /**
   * With a collision-free primitive and the default configuration, a password
   * never accepts a text other than the one it was encoded from.
   */
  lemma OtherTextRejected(cypher: PasswordCypher, primitive: HashPrimitive, salt: Salt, rawText: string, other: string)
    requires Injective(primitive)
    requires cypher.argon == DefaultArgon2
    requires Encoded(cypher, primitive, salt, rawText).Ok?
    requires other != rawText
    ensures Matches(primitive, Encoded(cypher, primitive, salt, rawText).value, other) != Ok(true)
  {
    if AsBytes(other) == AsBytes(rawText) {
      AsBytesInjective(other, rawText);
    }
  }

  /**
   * `Formatter::debug_struct(name)` with the given fields, then `finish()`:
   * `Name { a: x, b: y }`, or the bare name when no field is added.
   */
  function DebugStruct(name: string, fields: seq<(string, string)>): string {
    if fields == [] then name else name + " { " + DebugFields(fields) + " }"
  }

  function DebugFields(fields: seq<(string, string)>): string
    requires fields != []
  {
    var field := fields[0].0 + ": " + fields[0].1;
    if |fields| == 1 then field else field + ", " + DebugFields(fields[1..])
  }

  /** `Debug for Password`: a struct named `Password` to which no field is added. */
  function DebugText(password: Password): (r: string)
    ensures r == "Password"
  {
    DebugStruct("Password", [])
  }

  /** The debug text reveals nothing: two passwords always print alike. */
  lemma DebugRevealsNothing(p: Password, q: Password)
    ensures DebugText(p) == DebugText(q)
  {
  }

  /** The `test_password_cypher_try_password` scenario, from the contracts alone. */
  method TryPasswordScenario(primitive: HashPrimitive, entropy: Salt)
    requires Injective(primitive)
  {
    var cypher := DefaultCypher;
    var password := Encode(cypher, primitive, entropy, "123");
    if password.Err? {
      return;
    }
    var accepted := TryPassword(cypher, primitive, password.value, "123");
    assert accepted == Ok(true);
    var again := TryPassword(PasswordCypher(Argon2(Argon2i, V0x10, Params(8, 1, 1, [], [], None), None)), primitive, password.value, "123");
    assert again == accepted;
    var rejected := TryPassword(cypher, primitive, password.value, "1234");
    OtherTextRejected(cypher, primitive, entropy, "123", "1234");
    assert rejected != Ok(true);
  }
}
