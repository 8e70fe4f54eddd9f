# Secure password storage demo, modelled in Dafny

This project models the core of a small Rust program (`src/main.rs`) that stores user passwords safely. Its parts:

- **Password cypher.** `PasswordCypher::encode` draws a 16-byte salt from the operating system's random source. It hashes the UTF-8 bytes of the password text with Argon2 under that salt into a 32-byte digest, and returns the pair as a `Password`. `PasswordCypher::try_password` rehashes a candidate text under the stored salt and compares the digests byte for byte. A mismatch is `Ok(false)`. Only a failure of the primitive is an error, `ApplicationError::PasswordHash`.
- **User record.** A `User` holds an `i64` id, a username, an email, a `Password` and a `Language`. Two users are equal when their ids are equal. `try_password_with` forwards to the cypher.
- **Language table.** Ten languages, each with a two-letter code. `Language::from_str` finds the first variant whose code matches and fails with `LanguageNotFound` otherwise.
- **Redaction.** The hand-written `Debug` for `Password` prints the bare struct name and no field.

The Argon2 primitive is a foreign library. Here it is a parameter `primitive: HashPrimitive`: an arbitrary deterministic function from configuration, password bytes and salt to a 32-byte digest or an error text. The random source is the parameter `entropy` of `Encode`. The local buffers of `encode` and `try_password` are arrays, filled in place by `Fill` (for `OsRng::fill`) and `HashPasswordInto`.

`try_password` hashes with `Argon2::default()`, not with the cypher's own configuration. The model keeps this. So the encode/verify round trip is proved only for a cypher holding the default configuration (`EncodeThenMatch`). `OwnConfigurationIgnored` shows that any other configuration can reject the password it has just encoded.

Files: `errors.dfy` (module `AppErrors`), `bytes.dfy` (`Bytes`: `u8` and `str::as_bytes`), `language.dfy` (`Languages`), `password.dfy` (`Passwords`), `user.dfy` (`Users`).

## Model

| member | source | states |
|---|---|---|
| AppErrors.Message | src/main.rs:37-43 | `LanguageNotFound` displays "Language Not Found"; `PasswordHash(d)` displays "Password Hashing Failed: " followed by exactly `d` |
| Bytes.EncodeScalar | src/main.rs:72 | one character becomes 1 to 4 bytes; the lead byte announces the length and every other byte is a continuation byte |
| Bytes.ScalarRoundTrip | src/main.rs:72 | decoding the bytes of one character gives back its scalar value |
| Bytes.AsBytes | src/main.rs:72 | the bytes of a string are at least one and at most four per character |
| Bytes.AsBytesInjective | src/main.rs:85 | two strings with the same bytes are equal, so distinct candidate texts reach the primitive as distinct inputs |
| Languages.Code | src/main.rs:15-34 | every variant's `lang` property is a code of two lower-case ASCII letters |
| Languages.AllLanguages | src/main.rs:49 | `Language::iter()` yields the ten variants in declaration order: every variant appears, and none appears twice |
| Languages.CodesDistinct | src/main.rs:13-35 | no two variants share a code |
| Languages.Find | src/main.rs:49-50 | the result has the wanted code and is the first such element; nothing is found exactly when no element has the code |
| Languages.FromStr | src/main.rs:48-52 | a parsed language has the given code; the only failure is `LanguageNotFound` |
| Languages.ParseCode | src/main.rs:48-52 | parsing a variant's code returns that variant |
| Languages.ParseUnknown | src/main.rs:48-52 | parsing fails exactly when the string is no variant's code; there is no fallback variant |
| Languages.ParseExamples | src/main.rs:132 | "en" parses to `English` and "xx" fails with `LanguageNotFound` |
| Passwords.Fill | src/main.rs:70 | the salt buffer holds exactly the drawn random bytes |
| Passwords.HashPasswordInto | src/main.rs:71-73 | success exactly when the primitive hashes; then the output buffer holds its digest; a failure carries its message |
| Passwords.Encoded | src/main.rs:67-75 | `encode` succeeds exactly when the primitive hashes under the cypher's own configuration; the password holds the drawn salt and that digest; a failure is `PasswordHash` with the primitive's message and yields no password |
| Passwords.Matches | src/main.rs:77-88 | `try_password` is `Ok(true)` exactly when the default-configuration digest over the stored salt equals the stored hash; an error only when the primitive fails; a mismatch is `Ok(false)`, never an error |
| Passwords.Encode | src/main.rs:67-75 | the method, with its salt and hash buffers filled in place, returns `Encoded` of its inputs |
| Passwords.TryPassword | src/main.rs:77-88 | the method returns `Matches` of the password and the text; its result does not depend on the cypher, and two calls agree |
| Passwords.EncodeThenMatch | src/main.rs:181-187 | round trip: for a cypher with the default configuration, a successfully encoded password accepts its own text |
| Passwords.RoundTripIffSameOutcome | src/main.rs:82-87 | for any configuration, the round trip succeeds exactly when the primitive gives the same outcome under the cypher's configuration and under the default one |
| Passwords.OwnConfigurationIgnored | src/main.rs:82 | for every non-default configuration there is a primitive under which encoding succeeds and the password then rejects its own text |
| Passwords.OtherTextRejected | src/main.rs:185 | with a collision-free primitive and the default configuration, a password never accepts a different text |
| Passwords.DebugText | src/main.rs:91-96 | the debug text is a struct named `Password` with no field added, so it is exactly `Password` |
| Passwords.DebugRevealsNothing | src/main.rs:91-96 | the debug text of a password is the same for every salt and hash |
| Users.Eq | src/main.rs:109-113 | two users are equal exactly when they would be identical once username, email, password and language agreed: only the id is compared |
| Users.EqIsEquivalence | src/main.rs:109-113 | user equality is reflexive, symmetric and transitive |
| Users.EqIgnoresOtherFields | src/main.rs:109-113 | changing username, email, password or language keeps a user equal to itself |
| Users.EqIffSameId | src/main.rs:109-113 | users are equal exactly when their ids are; structurally equal users are equal |
| Users.TryPasswordWith | src/main.rs:116-122 | returns exactly what the cypher's `try_password` returns for the user's stored password |

`Passwords.TryPasswordScenario` and `Users.TryPasswordWithScenario` replay the tests at src/main.rs:181-187 and src/main.rs:190-202 from the contracts alone. They assume a collision-free primitive, and their `assert`s are checked.

## Left out

- The Argon2 algorithm itself (`hash_password_into`): a foreign library, modelled as the deterministic, possibly failing `HashPrimitive` parameter. The text of `argon2::Error` is whatever message the primitive returns.
- The argon2 crate's parameter validation. The configuration `Argon2` carries the crate's fields (algorithm, version, memory and time cost, parallelism, key id, associated data, requested output length, optional secret), but what the primitive does with them is left to the `HashPrimitive` parameter.
- The crate version is not pinned in `src/main.rs`. `DefaultArgon2` takes the defaults of the argon2 0.5 series (Argon2id, version 0x13, 19 MiB, 2 passes, 1 lane, nothing else set); earlier series used other cost numbers. No proof depends on the numbers, only on this being the configuration `try_password` uses.
- `OsRng`: operating-system randomness, modelled as the `entropy` parameter. Nothing says that two calls draw different salts.
- Passwords.HashPasswordInto: the contract says nothing about the output buffer after a failure, since the library may have written part of it; both call sites discard the buffer on failure.
- Passwords.OtherTextRejected: rejecting "1234" (src/main.rs:185) holds only for a collision-free primitive, so the lemma states it under the explicit `Injective` hypothesis.
- The test claims that salt and hash are not all zero and that the hash differs from the text (src/main.rs:174-176) hold only with high probability, so they are not modelled.
- Macro-generated code: `UserBuilder`, the getters, `PasswordCypher::new` (the datatype constructor stands for it), strum's `Display`, the derived `Debug` for `User` and `Language`, and `Clone`. `EnumIter` is modelled only as the list `AllLanguages` in declaration order.
- `main` (src/main.rs:125-164): printing and demo I/O.
