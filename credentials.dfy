/** The credential codec of Doorbot/DB.py: the stored type tag of a
    password ("plaintext" or "bcrypt_<difficulty>"), its encoding, checking a
    plaintext against a stored (type, encoding) pair, and the test that
    decides whether a stored encoding must be rewritten after a login. */
module Credentials {
  import opened Common
  import opened Text

  const PlaintextType := "plaintext"
  const BcryptType := "bcrypt"
  const BcryptTagPrefix := "bcrypt_"

  /** The `config` dictionary: `config['type']` and `config['bcrypt']['difficulty']`. */
  datatype Config = Config(kind: string, difficulty: nat)

  /** The foreign hashing code, passed in because it cannot be seen:
      `digest(p)` is `base64.b64encode(hashlib.sha256(p.encode('utf-8')).digest())`,
      `hashpw(h, salt)` is `bcrypt.hashpw(h, salt)` with `salt` the (random)
      result of `bcrypt.gensalt(difficulty)`, and `checkpw(h, e)` is `bcrypt.checkpw(h, e)`. */
  datatype Crypto = Crypto(
    digest: string -> string,
    hashpw: (string, string) -> string,
    checkpw: (string, string) -> bool)

  /** The one fact relied on about bcrypt: a hash checks against what was hashed. */
  ghost predicate Sound(c: Crypto) {
    forall h, salt :: c.checkpw(h, c.hashpw(h, salt))
  }

  /** `re.match(r'^bcrypt_(\d+)$', t)`: the prefix, then a run of digits up to `$`. */
  predicate IsBcryptTag(t: string) {
    StartsWith(t, BcryptTagPrefix) && MatchesRunToEnd(t[|BcryptTagPrefix|..], IsDigit)
  }

  /** `_password_name`: the type tag that is stored beside a new encoding;
      None for an unknown configured type. */
  function PasswordName(cfg: Config): (r: Option<string>)
    ensures r.Some? <==> cfg.kind == PlaintextType || cfg.kind == BcryptType
    ensures cfg.kind == PlaintextType ==> r == Some(PlaintextType)
  {
    if cfg.kind == PlaintextType then Some(PlaintextType)
    else if cfg.kind == BcryptType then Some(BcryptTagPrefix + NatToString(cfg.difficulty))
    else None
  }

  /** `_encode_password`: the identity except under bcrypt, whose input is
      the digest of the plaintext so that bcrypt's 72-byte limit is never hit. */
  function EncodePassword(plaintext: string, cfg: Config, c: Crypto, salt: string): (r: string)
    ensures cfg.kind != BcryptType ==> r == plaintext
    ensures cfg.kind == BcryptType ==> r == c.hashpw(c.digest(plaintext), salt)
  {
    if cfg.kind == PlaintextType then plaintext
    else if cfg.kind == BcryptType then c.hashpw(c.digest(plaintext), salt)
    else plaintext
  }

  /** `_match_password`.  The stored type and encoding are nullable columns:
      `re.match` on a None type and `checkpw` on a None encoding raise. */
  function MatchPassword(passwordType: Option<string>, plaintext: string, encoded: Option<string>, c: Crypto): (r: Result<bool>)
    ensures r.Err? <==> passwordType.None? || (passwordType != Some(PlaintextType) && IsBcryptTag(passwordType.value) && encoded.None?)
    ensures r.Err? ==> r.error == TypeError
    // fails closed: a type tag that is neither plaintext nor bcrypt_<digits> never matches
    ensures passwordType.Some? && passwordType.value != PlaintextType && !IsBcryptTag(passwordType.value) ==> r == Ok(false)
    ensures r == Ok(true) ==>
              (passwordType == Some(PlaintextType) && encoded == Some(plaintext)) ||
              (IsBcryptTag(passwordType.value) && encoded.Some? && c.checkpw(c.digest(plaintext), encoded.value))
  {
    match passwordType
    case None => Err(TypeError)
    case Some(t) =>
      if t == PlaintextType then Ok(Some(plaintext) == encoded)
      else if IsBcryptTag(t) then
        (if encoded.None? then Err(TypeError) else Ok(c.checkpw(c.digest(plaintext), encoded.value)))
      else Ok(false)
  }

  /** The configured type name "bcrypt" is not itself a bcrypt_N tag. */
  lemma BcryptNameIsNoTag()
    ensures !IsBcryptTag(BcryptType)
  {
  }

  /** Python's `==` between `m.group(1)`, a str, and the configured
      difficulty, an int: always False. */
  function GroupEqualsDifficulty(group: string, difficulty: nat): bool {
    false
  }

  /** `_is_preferred_auth`, as written.  Its second branch needs the stored
      type to be the literal "bcrypt" and to match `^bcrypt_(\d+)$` at once,
      which BcryptNameIsNoTag rules out, so the function is true exactly when
      the stored type equals `config['type']` (its str-to-int comparison
      would make that branch false as well). */
  function IsPreferredAuth(passwordType: string, cfg: Config): (r: bool)
    ensures r <==> passwordType == cfg.kind
  {
    if passwordType == cfg.kind then true
    else if IsBcryptTag(passwordType) then
      var group := passwordType[|BcryptTagPrefix|..];
      BcryptNameIsNoTag();
      passwordType == BcryptType && GroupEqualsDifficulty(group, cfg.difficulty)
    else false
  }

  /** The type test alone kills the bcrypt_N branch, whatever the comparison after it returns. */
  lemma BcryptBranchDead(t: string)
    requires IsBcryptTag(t)
    ensures t != BcryptType
  {
    BcryptNameIsNoTag();
  }

  lemma BcryptTagOfDigits(d: nat)
    ensures IsBcryptTag(BcryptTagPrefix + NatToString(d))
    ensures (BcryptTagPrefix + NatToString(d))[|BcryptTagPrefix|..] == NatToString(d)
  {
    var t := BcryptTagPrefix + NatToString(d);
    assert t[..|BcryptTagPrefix|] == BcryptTagPrefix;
    assert t[|BcryptTagPrefix|..] == NatToString(d);
    NatToStringIsDigitRun(d);
    DigitRunMatches(NatToString(d));
  }

  lemma {:induction false} DigitRunMatches(s: string)
    requires IsDigitRun(s)
    ensures RunLength(s, IsDigit) == |s|
    ensures MatchesRunToEnd(s, IsDigit)
    decreases |s|
  {
    if |s| > 1 {
      DigitRunMatches(s[1..]);
    }
  }

  /** The stored type tag can be parsed back into the configuration it came from. */
  lemma PasswordNameParsesBack(cfg: Config)
    requires cfg.kind == BcryptType
    ensures PasswordName(cfg).Some? && IsBcryptTag(PasswordName(cfg).value)
    ensures AllDigits(PasswordName(cfg).value[|BcryptTagPrefix|..])
    ensures DigitsValue(PasswordName(cfg).value[|BcryptTagPrefix|..]) == cfg.difficulty
  {
    BcryptTagOfDigits(cfg.difficulty);
    NatToStringRoundTrip(cfg.difficulty);
  }

  /** Round trip: under a plaintext or bcrypt configuration, the stored type
      and the encoding of a plaintext verify that plaintext (with any salt). */
  lemma EncodeThenMatch(plaintext: string, cfg: Config, c: Crypto, salt: string)
    requires cfg.kind == PlaintextType || cfg.kind == BcryptType
    requires Sound(c)
    ensures MatchPassword(PasswordName(cfg), plaintext, Some(EncodePassword(plaintext, cfg, c, salt)), c) == Ok(true)
  {
    if cfg.kind == BcryptType {
      BcryptTagOfDigits(cfg.difficulty);
      assert c.checkpw(c.digest(plaintext), c.hashpw(c.digest(plaintext), salt));
    }
  }

  /** Under a bcrypt configuration no stored bcrypt_N record is ever preferred,
      the one written under this very configuration included: every
      successful login re-encodes. */
  lemma BcryptConfigAlwaysReencodes(t: string, cfg: Config)
    requires cfg.kind == BcryptType && IsBcryptTag(t)
    ensures !IsPreferredAuth(t, cfg)
    ensures PasswordName(cfg).Some? && !IsPreferredAuth(PasswordName(cfg).value, cfg)
  {
    BcryptTagOfDigits(cfg.difficulty);
  }

  /** Under a plaintext configuration a stored bcrypt record is not preferred,
      so a successful login rewrites it as plaintext. */
  lemma PlaintextConfigDowngrades(t: string, cfg: Config)
    requires cfg.kind == PlaintextType && IsBcryptTag(t)
    ensures !IsPreferredAuth(t, cfg)
    ensures PasswordName(cfg) == Some(PlaintextType)
  {
    assert t[..|BcryptTagPrefix|] == BcryptTagPrefix;
  }
}
