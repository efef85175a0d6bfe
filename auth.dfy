/**
 * Credentials and sessions: password hashing, the signed session token and
 * the `authenticateToken` middleware that turns a request's cookie into the
 * caller's identity.
 *
 * bcrypt and JWT are idealised. A password hash records its salt and the
 * first 72 bytes of the password's UTF-8 form, the only bytes bcrypt reads;
 * a password verifies when its own first 72 bytes are those. A token records the claims it carries and the
 * key it was signed with; only a token signed with the server's key verifies,
 * which stands for the unforgeability of the signature.
 */
module Auth {
  import opened Wrappers
  import opened Tables

  /** `expiresIn: '24h'`, in seconds. */
  const TokenLifetime: nat := 24 * 60 * 60

  /** The signing key used when `JWT_SECRET` is unset or empty. */
  const DevSecret: string := "dev-secret-key-change-in-prod"

  /** `process.env.JWT_SECRET || 'dev-secret-key-change-in-prod'`. */
  function SigningKey(env: Option<string>): (key: string)
    ensures key != []
    ensures env.Some? && env.value != [] ==> key == env.value
    ensures env.None? || env.value == [] ==> key == DevSecret
  {
    if env.Some? && env.value != [] then env.value else DevSecret
  }

  // ---------------------------------------------------------------- passwords

  /** The UTF-8 bytes of one character. */
  function Utf8Char(c: char): (bytes: seq<Byte>)
    ensures 1 <= |bytes| <= 4
    ensures |bytes| == 1 <==> (c as int) < 0x80
    ensures (c as int) < 0x80 ==> bytes == [c as int]
  {
    var n := c as int;
    if n < 0x80 then [n]
    else if n < 0x800 then [0xC0 + n / 64, 0x80 + n % 64]
    else if n < 0x10000 then [0xE0 + n / 4096, 0x80 + n / 64 % 64, 0x80 + n % 64]
    else [0xF0 + n / 262144, 0x80 + n / 4096 % 64, 0x80 + n / 64 % 64, 0x80 + n % 64]
  }

  /** The UTF-8 encoding of a password, which bcrypt hashes. */
  function Utf8(s: string): (bytes: seq<Byte>)
    ensures |s| <= |bytes| <= 4 * |s|
  {
    if s == [] then [] else Utf8Char(s[0]) + Utf8(s[1..])
  }

  /** Encoding a concatenation encodes each part in turn. */
  lemma {:induction false} Utf8Append(p: string, q: string)
    ensures Utf8(p + q) == Utf8(p) + Utf8(q)
  {
    if p == [] {
      assert p + q == q;
    } else {
      assert (p + q)[1..] == p[1..] + q;
      Utf8Append(p[1..], q);
    }
  }

  /** A password of ASCII characters is encoded one byte per character. */
  lemma {:induction false} AsciiBytes(s: string)
    requires forall i :: 0 <= i < |s| ==> (s[i] as int) < 0x80
    ensures |Utf8(s)| == |s|
    ensures forall i :: 0 <= i < |s| ==> Utf8(s)[i] == s[i] as int
  {
    if s != [] {
      AsciiBytes(s[1..]);
    }
  }

  /** bcrypt uses at most this many bytes of a password. */
  const MaxKeyBytes: nat := 72

  /** The bytes of a password that bcrypt uses: its UTF-8 form, cut at 72 bytes. */
  function KeyBytes(password: string): (key: seq<Byte>)
    ensures |key| == if |Utf8(password)| < MaxKeyBytes then |Utf8(password)| else MaxKeyBytes
    ensures key == Utf8(password)[..|key|]
  {
    var bytes := Utf8(password);
    if |bytes| <= MaxKeyBytes then bytes else bytes[..MaxKeyBytes]
  }

  /** `bcrypt.hash(password, 10)` with the given fresh salt. */
  function Hash(password: string, salt: nat): (h: PasswordHash)
    ensures h.salt == salt
    ensures Verifies(password, h)
  {
    Bcrypt(salt, KeyBytes(password))
  }

  /** `bcrypt.compare(password, hash)`: the password's first 72 bytes are the hash's key. */
  function Verifies(password: string, hash: PasswordHash): (ok: bool)
    ensures ok ==> |hash.key| <= MaxKeyBytes && |hash.key| <= |Utf8(password)| && hash.key == Utf8(password)[..|hash.key|]
    ensures |Utf8(password)| < MaxKeyBytes ==> (ok <==> hash.key == Utf8(password))
  {
    KeyBytes(password) == hash.key
  }

  /**
   * A hash verifies the password it was made from, and exactly the passwords
   * that agree with it on their first 72 bytes; below 72 bytes, only the same bytes.
   */
  lemma {:induction false} HashVerifiesOnlyItsPassword(password: string, other: string, salt: nat)
    ensures Verifies(password, Hash(password, salt))
    ensures Verifies(other, Hash(password, salt)) <==> KeyBytes(other) == KeyBytes(password)
    ensures |Utf8(password)| < MaxKeyBytes && |Utf8(other)| < MaxKeyBytes ==>
              (Verifies(other, Hash(password, salt)) <==> Utf8(other) == Utf8(password))
  {
  }

  /** Two ASCII passwords shorter than 72 characters verify against each other's hash only when equal. */
  lemma {:induction false} ShortAsciiPasswordsMustMatch(password: string, other: string, salt: nat)
    requires |password| < MaxKeyBytes && |other| < MaxKeyBytes
    requires forall i :: 0 <= i < |password| ==> (password[i] as int) < 0x80
    requires forall i :: 0 <= i < |other| ==> (other[i] as int) < 0x80
    ensures Verifies(other, Hash(password, salt)) <==> other == password
  {
    AsciiBytes(password);
    AsciiBytes(other);
    if Verifies(other, Hash(password, salt)) {
      assert |other| == |password|;
      forall i | 0 <= i < |other| ensures other[i] == password[i] {
        assert Utf8(other)[i] == Utf8(password)[i];
      }
    }
  }

  /** Whatever follows the first 72 bytes of a password is ignored: a longer password verifies too. */
  lemma {:induction false} BytesPast72AreIgnored(password: string, more: string, salt: nat)
    requires |Utf8(password)| >= MaxKeyBytes
    ensures Verifies(password + more, Hash(password, salt))
  {
    Utf8Append(password, more);
    assert Utf8(password + more)[..MaxKeyBytes] == Utf8(password)[..MaxKeyBytes];
  }

  // ---------------------------------------------------------------- tokens

  /** The payload of a session token: `{ id, username }` plus the issue and expiry times `jwt.sign` adds. */
  datatype Claims = Claims(id: Id, username: string, iat: nat, exp: nat)

  /** The value of the `token` cookie: a token signed with some key, or any other text. */
  datatype Token = Signed(claims: Claims, key: string) | Text(text: string)

  /** `jwt.sign({ id, username }, key, { expiresIn: '24h' })` at time `now` (seconds). */
  function Sign(key: string, id: Id, username: string, now: nat): (t: Token)
    ensures t.Signed? && t.claims.id == id && t.claims.username == username
    ensures t.claims.exp - t.claims.iat == TokenLifetime
  {
    Signed(Claims(id, username, now, now + TokenLifetime), key)
  }

  /** `jwt.verify(token, key)` at time `now`: the claims, or `None` where it reports an error. */
  function Verify(key: string, t: Token, now: nat): (r: Option<Claims>)
    ensures r.Some? <==> t.Signed? && t.key == key && now < t.claims.exp
    ensures r.Some? ==> r.value == t.claims
  {
    match t
    case Signed(claims, k) => if k == key && now < claims.exp then Some(claims) else None
    case Text(_) => None
  }

  /** A token the server signs verifies, with exactly the claims it was signed with, for 24 hours and no longer. */
  lemma {:induction false} SignedTokenVerifiesFor24Hours(key: string, id: Id, username: string, issued: nat, now: nat)
    requires issued <= now
    ensures Verify(key, Sign(key, id, username, issued), now)
              == if now < issued + TokenLifetime then Some(Claims(id, username, issued, issued + TokenLifetime)) else None
  {
  }

  /** A token verifies only when it was signed with the server's key. */
  lemma {:induction false} OnlyTokensSignedWithTheKeyVerify(key: string, t: Token, now: nat)
    requires Verify(key, t, now).Some?
    ensures t == Signed(Verify(key, t, now).value, key)
  {
  }

  // ---------------------------------------------------------------- middleware

  /** How `authenticateToken` turns a request away. */
  datatype Denial = Denial(status: int, message: string)

  /** `!token`: no cookie, or an empty one. */
  predicate NoToken(cookie: Option<Token>) {
    cookie.None? || cookie.value == Text([])
  }

  /** `authenticateToken`: 401 without a token, 403 when it does not verify, else the caller's claims. */
  function Authenticate(cookie: Option<Token>, key: string, now: nat): (r: Result<Claims, Denial>)
    ensures NoToken(cookie) ==> r == Err(Denial(401, "Unauthorized"))
    ensures !NoToken(cookie) && Verify(key, cookie.value, now).None? ==> r == Err(Denial(403, "Forbidden"))
    ensures r.Ok? <==> !NoToken(cookie) && Verify(key, cookie.value, now).Some?
    ensures r.Ok? ==> cookie == Some(Signed(r.value, key))
  {
    if NoToken(cookie) then Err(Denial(401, "Unauthorized"))
    else
      match Verify(key, cookie.value, now)
      case None => Err(Denial(403, "Forbidden"))
      case Some(claims) => Ok(claims)
  }

  /** The cookie set at signup or login authenticates its holder as that user until it expires. */
  lemma {:induction false} IssuedCookieAuthenticates(key: string, id: Id, username: string, issued: nat, now: nat)
    requires issued <= now < issued + TokenLifetime
    ensures Authenticate(Some(Sign(key, id, username, issued)), key, now).Ok?
    ensures Authenticate(Some(Sign(key, id, username, issued)), key, now).value.id == id
    ensures Authenticate(Some(Sign(key, id, username, issued)), key, now).value.username == username
  {
  }
}
