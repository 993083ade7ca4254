/**
 * The surface the compiled module sees of the `argon2` crate, and the values
 * that cross the wasm boundary. Everything the crate computes is kept opaque:
 * a `Library` is a bundle of total functions that the entry points consult, so
 * every property proved below holds for every behaviour the crate could have,
 * except where it names `KeepsCosts` or `PrintsNoZero`, the two assumptions about
 * the crate stated in this module.
 */
module Foreign {
  import opened Wrappers

  /** A wasm32 `u32` / `usize`. */
  newtype u32 = x: int | 0 <= x < 0x1_0000_0000

  newtype byte = x: int | 0 <= x < 0x100

  /** The null pointer. */
  const NULL: u32 := 0

  datatype Algorithm = Argon2d | Argon2i | Argon2id

  datatype Version = V0x10 | V0x13 {
    /** The version number as it appears in a digest header (`v=16`, `v=19`). */
    function Number(): u32 {
      match this
      case V0x10 => 0x10
      case V0x13 => 0x13
    }
  }

  /** `argon2::Version::default()` */
  const DEFAULT_VERSION: Version := V0x13

  /** `argon2::Params::DEFAULT_M_COST`, `DEFAULT_T_COST`, `DEFAULT_P_COST` (KiB, passes, lanes). */
  const DEFAULT_M_COST: u32 := 19456
  const DEFAULT_T_COST: u32 := 2
  const DEFAULT_P_COST: u32 := 1

  /** The three costs of an `argon2::Params` the crate has accepted. */
  datatype Costs = Costs(mCost: u32, tCost: u32, pCost: u32)

  /** `AllParams`, the record held by the module's parameter register. */
  datatype AllParams = AllParams(algorithm: Algorithm, version: Version, mCost: u32, tCost: u32, pCost: u32)

  /** The configuration of an `Argon2` hasher, with its optional secret key. */
  datatype Hasher = Hasher(algorithm: Algorithm, version: Version, costs: Costs, secret: Option<seq<byte>>)

  /**
   * A parsed PHC string (`PasswordHash`). Only the algorithm identifier and the
   * optional version are inspected by the module; the rest stays with the crate.
   */
  datatype PasswordHash = PasswordHash(algorithm: string, version: Option<u32>, rest: seq<byte>)

  /** The reasons the module panics. */
  datatype Error =
    | InvalidAlgorithm        // unknown tag or algorithm identifier
    | InvalidVersion          // version other than 0x10 or 0x13
    | InvalidCosts            // the crate refused the m/t/p costs
    | InvalidSalt             // `Salt::from_b64` refused the encoded salt
    | InvalidSecret           // `Argon2::new_with_secret` refused the secret
    | HashFailed              // `PasswordHash::generate` failed
    | InvalidUtf8             // the digest bytes are not UTF-8
    | InvalidDigestFormat     // `PasswordHash::new` refused the digest text
    | InvalidDigestParameters // `Params::try_from` refused the digest's costs

  /** The crate's behaviour, left uninterpreted. */
  datatype Library = Library(
    /** `ParamsBuilder::new().m_cost(m).t_cost(t).p_cost(p).build()`, also `Params::new(m, t, p, None)` */
    build: (u32, u32, u32) -> Option<Costs>,
    /** `Salt::from_b64` applied to the unpadded base64 text of the raw salt */
    saltOk: seq<byte> -> bool,
    /** whether `Argon2::new_with_secret` accepts this secret */
    secretOk: seq<byte> -> bool,
    /** `PasswordHash::generate(hasher, password, salt)` followed by `to_string().into_bytes()` */
    generate: (Hasher, seq<byte>, seq<byte>) -> Option<seq<byte>>,
    /** `core::str::from_utf8(..).is_ok()` */
    utf8Ok: seq<byte> -> bool,
    /** `PasswordHash::new` */
    parse: seq<byte> -> Option<PasswordHash>,
    /** `Params::try_from(&hash)` */
    paramsOf: PasswordHash -> Option<Costs>,
    /** `hasher.verify_password(password, &hash).is_ok()` */
    verifyPassword: (Hasher, seq<byte>, PasswordHash) -> bool
  )

  /**
   * What the host relies on when it scans the output for its terminator: every
   * digest text the crate prints is free of zero bytes (a PHC string is printable ASCII).
   */
  ghost predicate PrintsNoZero(lib: Library) {
    forall h: Hasher, password: seq<byte>, salt: seq<byte> | lib.generate(h, password, salt).Some? ::
      0 !in lib.generate(h, password, salt).value
  }

  /**
   * What `setup_params` relies on when it stores the getters' values and `hash`
   * later re-validates them: costs the crate accepts come back as given
   * (`Params::new` stores its arguments). No numeric bound is implied.
   */
  ghost predicate KeepsCosts(lib: Library) {
    forall m: u32, t: u32, p: u32 | lib.build(m, t, p).Some? :: lib.build(m, t, p).value == Costs(m, t, p)
  }

  /**
   * Builds the hasher `hash` and `verify` use: `Argon2::new_with_secret(..).unwrap()`
   * when a secret is present, `Argon2::new(..)` (which cannot fail) otherwise.
   */
  function MakeHasher(lib: Library, algorithm: Algorithm, version: Version, costs: Costs, secret: Option<seq<byte>>): (r: Result<Hasher, Error>)
    ensures r.Success? <==> (secret.None? || lib.secretOk(secret.value))
    ensures r.Failure? ==> r.error == InvalidSecret
    ensures r.Success? ==> r.value == Hasher(algorithm, version, costs, secret)
  {
    if secret.Some? && !lib.secretOk(secret.value) then Failure(InvalidSecret)
    else Success(Hasher(algorithm, version, costs, secret))
  }

  /** The bytes of an ASCII string. */
  function Ascii(s: string): (r: seq<byte>)
    requires forall i | 0 <= i < |s| :: s[i] < 128 as char
    ensures |r| == |s|
    ensures forall i | 0 <= i < |s| :: r[i] as int == s[i] as int
  {
    seq(|s|, i requires 0 <= i < |s| => s[i] as int as byte)
  }
}
