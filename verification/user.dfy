/**
 * The user record: identity fields, a language and a stored password whose
 * bytes have no accessor.  Two records are the same user when their ids agree.
 */
module Users {
  import opened AppErrors
  import opened Languages
  import opened Passwords

  /** Rust's `i64`. */
  type i64 = x: int | -0x8000_0000_0000_0000 <= x < 0x8000_0000_0000_0000

  datatype User = User(id: i64, username: string, email: string, password: Password, language: Language)

  /**
   * `PartialEq for User`: only the ids are compared, so two records are equal
   * exactly when they would be identical once every other field agreed.
   */
  predicate Eq(a: User, b: User): (r: bool)
    ensures r <==> a.(username := b.username, email := b.email, password := b.password, language := b.language) == b
  {
    a.id == b.id
  }

  /** `Eq` is an equivalence relation. */
  lemma EqIsEquivalence(a: User, b: User, c: User)
    ensures Eq(a, a)
    ensures Eq(a, b) ==> Eq(b, a)
    ensures Eq(a, b) && Eq(b, c) ==> Eq(a, c)
  {
  }

  /** Changing anything but the id leaves a record equal to what it was. */
  lemma EqIgnoresOtherFields(u: User, username: string, email: string, password: Password, language: Language)
    ensures Eq(u, u.(username := username, email := email, password := password, language := language))
  {
  }

  /** Records with different ids are never equal; structurally equal records always are. */
  lemma EqIffSameId(a: User, b: User)
    ensures Eq(a, b) <==> a.id == b.id
    ensures a == b ==> Eq(a, b)
  {
  }

  /** `User::try_password_with`: hand the stored password to the cypher. */
  method TryPasswordWith(user: User, cypher: PasswordCypher, primitive: HashPrimitive, rawPassword: string)
    returns (r: Result<bool>)
    ensures r == Matches(primitive, user.password, rawPassword)
  {
    r := TryPassword(cypher, primitive, user.password, rawPassword);
  }

  /** The `test_user_try_password_with` scenario, from the contracts alone. */
  method TryPasswordWithScenario(primitive: HashPrimitive, entropy: Salt)
    requires Injective(primitive)
  {
    var cypher := DefaultCypher;
    var password := Encode(cypher, primitive, entropy, "123");
    if password.Err? {
      return;
    }
    var language := FromStr("en");
    ParseExamples();
    var user := User(1, "someuser100", "someuser100@protomail.com", password.value, language.value);
    var accepted := TryPasswordWith(user, cypher, primitive, "123");
    assert accepted == Ok(true);
    var rejected := TryPasswordWith(user, cypher, primitive, "1234");
    OtherTextRejected(cypher, primitive, entropy, "123", "1234");
    assert rejected != Ok(true);
  }
}
