/**
 * The decisions `hash` and `verify` take before (respectively instead of)
 * touching memory: which secret they were given, what the digest header
 * decodes to, which hasher they build, and what they hand back.
 */
module Entry {
  import opened Wrappers
  import opened Foreign

  /**
   * A pointer/length argument pair, with the `len` bytes that lie at `ptr`
   * (what `core::slice::from_raw_parts` would read there).
   */
  datatype RawSlice = RawSlice(ptr: u32, len: u32, bytes: seq<byte>) {
    /** What `from_raw_parts(ptr, len)` demands of a pointer it is applied to: `len` readable bytes. */
    predicate Valid() {
      ptr != NULL ==> |bytes| == len as int
    }
  }

  /** The secret is present exactly when its pointer is not null; its length plays no part in that. */
  function SecretOf(s: RawSlice): (r: Option<seq<byte>>)
    requires s.Valid()
    ensures r.Some? <==> s.ptr != NULL
    ensures r.Some? ==> r.value == s.bytes && |r.value| == s.len as int
  {
    if s.ptr != NULL then Some(s.bytes) else None
  }

  /** How the host passes an optional secret: `{0, 0}` when absent, a transferred region otherwise. */
  function MaybeTransfer(secret: Option<seq<byte>>, at: u32): (s: RawSlice)
    requires at != NULL
    requires secret.Some? ==> |secret.value| < 0x1_0000_0000
  {
    match secret
    case None => RawSlice(NULL, 0, [])
    case Some(b) => RawSlice(at, |b| as u32, b)
  }

  /** Whatever address the host transferred it to, the module sees the secret the host meant. */
  lemma SecretRoundTrip(secret: Option<seq<byte>>, at: u32)
    requires at != NULL
    requires secret.Some? ==> |secret.value| < 0x1_0000_0000
    ensures MaybeTransfer(secret, at).Valid() && SecretOf(MaybeTransfer(secret, at)) == secret
    ensures secret.None? ==> MaybeTransfer(secret, at) == RawSlice(NULL, 0, [])
  {
  }

  /** The match on the digest's algorithm identifier. */
  function DecodeAlgorithmName(name: string): (r: Option<Algorithm>)
    ensures r.Some? <==> name == "argon2i" || name == "argon2d" || name == "argon2id"
    ensures r == Some(Argon2i) <==> name == "argon2i"
    ensures r == Some(Argon2d) <==> name == "argon2d"
    ensures r == Some(Argon2id) <==> name == "argon2id"
  {
    match name
    case "argon2i" => Some(Argon2i)
    case "argon2d" => Some(Argon2d)
    case "argon2id" => Some(Argon2id)
    case _ => None
  }

  /** The match on the digest's optional version: absent means the crate's default. */
  function DecodeDigestVersion(version: Option<u32>): (r: Option<Version>)
    ensures version.None? ==> r == Some(DEFAULT_VERSION)
    ensures version.Some? ==> (r.Some? <==> version.value == 0x10 || version.value == 0x13)
    ensures version.Some? && r.Some? ==> r.value.Number() == version.value
  {
    match version
    case None => Some(DEFAULT_VERSION)
    case Some(0x10) => Some(V0x10)
    case Some(0x13) => Some(V0x13)
    case Some(_) => None
  }

  /**
   * The digest text `hash` produces from the register's parameters, or the
   * panic it raises instead. Checks run in the source's order: the salt, the
   * register's costs (re-validated by `Params::new`), the secret, the hashing.
   */
  function HashDigest(lib: Library, params: AllParams, password: seq<byte>, salt: seq<byte>, secret: Option<seq<byte>>): (r: Result<seq<byte>, Error>)
    ensures !lib.saltOk(salt) ==> r == Failure(InvalidSalt)
    ensures lib.saltOk(salt) && lib.build(params.mCost, params.tCost, params.pCost).None? ==> r == Failure(InvalidCosts)
    ensures lib.saltOk(salt) && lib.build(params.mCost, params.tCost, params.pCost).Some? ==>
      && (secret.Some? && !lib.secretOk(secret.value) ==> r == Failure(InvalidSecret))
      && ((secret.None? || lib.secretOk(secret.value)) && r.Failure? ==> r == Failure(HashFailed))
    ensures r.Success? <==>
      && lib.saltOk(salt)
      && lib.build(params.mCost, params.tCost, params.pCost).Some?
      && (secret.None? || lib.secretOk(secret.value))
      && lib.generate(Hasher(params.algorithm, params.version, lib.build(params.mCost, params.tCost, params.pCost).value, secret), password, salt).Some?
    ensures r.Success? ==>
      exists h: Hasher ::
        && h.algorithm == params.algorithm && h.version == params.version && h.secret == secret
        && lib.build(params.mCost, params.tCost, params.pCost) == Some(h.costs)
        && lib.generate(h, password, salt) == Some(r.value)
  {
    if !lib.saltOk(salt) then Failure(InvalidSalt)
    else match lib.build(params.mCost, params.tCost, params.pCost)
      case None => Failure(InvalidCosts)
      case Some(costs) =>
        match MakeHasher(lib, params.algorithm, params.version, costs, secret)
        case Failure(e) => Failure(e)
        case Success(h) =>
          match lib.generate(h, password, salt)
          case None => Failure(HashFailed)
          case Some(text) => Success(text)
  }

  /**
   * The verdict `verify` writes, or the panic it raises instead. The hasher is
   * configured from the digest's own header, never from the register.
   */
  function Verdict(lib: Library, digest: seq<byte>, password: seq<byte>, secret: Option<seq<byte>>): (r: Result<bool, Error>)
    ensures !lib.utf8Ok(digest) ==> r == Failure(InvalidUtf8)
    ensures lib.utf8Ok(digest) && lib.parse(digest).None? ==> r == Failure(InvalidDigestFormat)
    ensures lib.utf8Ok(digest) && lib.parse(digest).Some? ==>
      var ph := lib.parse(digest).value;
      && (lib.paramsOf(ph).None? ==> r == Failure(InvalidDigestParameters))
      && (lib.paramsOf(ph).Some? && DecodeAlgorithmName(ph.algorithm).None? ==> r == Failure(InvalidAlgorithm))
      && (lib.paramsOf(ph).Some? && DecodeAlgorithmName(ph.algorithm).Some? && DecodeDigestVersion(ph.version).None? ==>
            r == Failure(InvalidVersion))
      && (lib.paramsOf(ph).Some? && DecodeAlgorithmName(ph.algorithm).Some? && DecodeDigestVersion(ph.version).Some? && r.Failure? ==>
            r == Failure(InvalidSecret))
    ensures r.Success? <==>
      && lib.utf8Ok(digest)
      && lib.parse(digest).Some?
      && lib.paramsOf(lib.parse(digest).value).Some?
      && DecodeAlgorithmName(lib.parse(digest).value.algorithm).Some?
      && DecodeDigestVersion(lib.parse(digest).value.version).Some?
      && (secret.None? || lib.secretOk(secret.value))
    ensures r.Success? ==>
      exists h: Hasher, ph: PasswordHash ::
        && lib.parse(digest) == Some(ph)
        && Some(h.algorithm) == DecodeAlgorithmName(ph.algorithm)
        && Some(h.version) == DecodeDigestVersion(ph.version)
        && Some(h.costs) == lib.paramsOf(ph)
        && h.secret == secret
        && r.value == lib.verifyPassword(h, password, ph)
  {
    if !lib.utf8Ok(digest) then Failure(InvalidUtf8)
    else match lib.parse(digest)
      case None => Failure(InvalidDigestFormat)
      case Some(ph) =>
        match lib.paramsOf(ph)
        case None => Failure(InvalidDigestParameters)
        case Some(costs) =>
          match DecodeAlgorithmName(ph.algorithm)
          case None => Failure(InvalidAlgorithm)
          case Some(algorithm) =>
            match DecodeDigestVersion(ph.version)
            case None => Failure(InvalidVersion)
            case Some(version) =>
              match MakeHasher(lib, algorithm, version, costs, secret)
              case Failure(e) => Failure(e)
              case Success(h) => Success(lib.verifyPassword(h, password, ph))
  }
}
