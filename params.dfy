/**
 * `setup_params`: the decoding half. The 4-byte algorithm tag and the version
 * word are matched against fixed constants, the costs go through the crate's
 * builder, and only a fully accepted triple becomes the register's new value.
 */
module Params {
  import opened Wrappers
  import opened Foreign

  /** `b"i___"`, `b"d___"`, `b"id__"`: the tags the host packs the algorithm into. */
  const TAG_I: seq<byte> := Ascii("i___")
  const TAG_D: seq<byte> := Ascii("d___")
  const TAG_ID: seq<byte> := Ascii("id__")

  /** The register's value before any `setup_params` call. */
  function DefaultParams(): (p: AllParams)
    ensures p.algorithm == Argon2id && p.version == V0x13
    ensures p.mCost == DEFAULT_M_COST && p.tCost == DEFAULT_T_COST && p.pCost == DEFAULT_P_COST
  {
    AllParams(Argon2id, V0x13, DEFAULT_M_COST, DEFAULT_T_COST, DEFAULT_P_COST)
  }

  /** The tag for each algorithm: the inverse of `DecodeTag`. */
  function EncodeTag(a: Algorithm): (tag: seq<byte>)
    ensures |tag| == 4
  {
    match a
    case Argon2i => TAG_I
    case Argon2d => TAG_D
    case Argon2id => TAG_ID
  }

  /** The match on the algorithm tag; `None` is the "Invalid algorithm" panic. */
  function DecodeTag(tag: seq<byte>): (r: Option<Algorithm>)
    requires |tag| == 4
    ensures r.Some? <==> tag == TAG_I || tag == TAG_D || tag == TAG_ID
    ensures r == Some(Argon2i) <==> tag == TAG_I
    ensures r == Some(Argon2d) <==> tag == TAG_D
    ensures r == Some(Argon2id) <==> tag == TAG_ID
  {
    // the three tags differ in their first two bytes
    assert TAG_I[0] != TAG_D[0] && TAG_I[1] != TAG_ID[1] && TAG_D[0] != TAG_ID[0];
    if tag == TAG_I then Some(Argon2i)
    else if tag == TAG_D then Some(Argon2d)
    else if tag == TAG_ID then Some(Argon2id)
    else None
  }

  /** The match on the version word; `None` is the "Invalid version" panic. */
  function DecodeVersion(version: u32): (r: Option<Version>)
    ensures r.Some? <==> version == 0x10 || version == 0x13
    ensures r.Some? ==> r.value.Number() == version
  {
    match version
    case 0x10 => Some(V0x10)
    case 0x13 => Some(V0x13)
    case _ => None
  }

  /**
   * Everything `setup_params` checks, in the order it checks it: the tag, then
   * the version, then the costs. A `Success` carries the register's next value.
   */
  function DecodeParams(lib: Library, tag: seq<byte>, version: u32, mCost: u32, tCost: u32, pCost: u32): (r: Result<AllParams, Error>)
    requires |tag| == 4
    ensures DecodeTag(tag).None? ==> r == Failure(InvalidAlgorithm)
    ensures DecodeTag(tag).Some? && DecodeVersion(version).None? ==> r == Failure(InvalidVersion)
    ensures DecodeTag(tag).Some? && DecodeVersion(version).Some? && lib.build(mCost, tCost, pCost).None? ==> r == Failure(InvalidCosts)
    ensures r.Success? <==> DecodeTag(tag).Some? && DecodeVersion(version).Some? && lib.build(mCost, tCost, pCost).Some?
    ensures r.Success? ==>
      && Some(r.value.algorithm) == DecodeTag(tag)
      && r.value.version.Number() == version
      && lib.build(mCost, tCost, pCost) == Some(Costs(r.value.mCost, r.value.tCost, r.value.pCost))
  {
    match DecodeTag(tag)
    case None => Failure(InvalidAlgorithm)
    case Some(algorithm) =>
      match DecodeVersion(version)
      case None => Failure(InvalidVersion)
      case Some(v) =>
        match lib.build(mCost, tCost, pCost)
        case None => Failure(InvalidCosts)
        case Some(c) => Success(AllParams(algorithm, v, c.mCost, c.tCost, c.pCost))
  }

  /** Tags and algorithms are in one-to-one correspondence. */
  lemma TagRoundTrip(a: Algorithm, tag: seq<byte>)
    requires |tag| == 4
    ensures DecodeTag(EncodeTag(a)) == Some(a)
    ensures DecodeTag(tag) == Some(a) <==> tag == EncodeTag(a)
  {
  }

  /** Versions and their numbers are in one-to-one correspondence. */
  lemma VersionRoundTrip(v: Version, version: u32)
    ensures DecodeVersion(v.Number()) == Some(v)
    ensures DecodeVersion(version) == Some(v) <==> version == v.Number()
  {
  }
}
