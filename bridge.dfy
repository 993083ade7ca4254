/**
 * The compiled module as the host drives it: the global `PARAMS` register,
 * the `alloc`/`dealloc` exports, and the `setup_params`, `hash` and `verify`
 * entry points writing through the pointers they are given.
 */
module Bridge {
  import opened Wrappers
  import opened Foreign
  import opened Params
  import opened Output
  import opened Entry

  /** The 4-byte cell at `output_ptr`, which `hash` points at the digest it allocated. */
  class OutputSlot {
    var target: array?<byte>

    constructor ()
      ensures target == null
    {
      target := null;
    }
  }

  /**
   * When the crate keeps the costs it accepts, the costs `setup_params` stores
   * survive `hash`'s re-validation unchanged: the digest is generated with
   * exactly the costs the host asked for, and `InvalidCosts` cannot follow.
   */
  lemma DecodedCostsReachHash(lib: Library, tag: seq<byte>, version: u32, mCost: u32, tCost: u32, pCost: u32,
                              password: seq<byte>, salt: seq<byte>, secret: Option<seq<byte>>)
    requires |tag| == 4 && KeepsCosts(lib)
    requires DecodeParams(lib, tag, version, mCost, tCost, pCost).Success?
    ensures var p := DecodeParams(lib, tag, version, mCost, tCost, pCost).value;
      && Costs(p.mCost, p.tCost, p.pCost) == Costs(mCost, tCost, pCost)
      && var d := HashDigest(lib, p, password, salt, secret);
      && d != Failure(InvalidCosts)
      && (d.Success? ==> lib.generate(Hasher(p.algorithm, p.version, Costs(mCost, tCost, pCost), secret), password, salt) == Some(d.value))
  {
  }

  class Argon2Module {
    /** The crate the module is linked against. */
    const lib: Library
    /** `PARAMS`, read by `hash`. */
    var params: AllParams
    /** Regions handed out by `alloc` and not yet given back to `dealloc`. */
    var live: set<array<byte>>

    /** A freshly instantiated module: the register holds the crate's defaults. */
    constructor (lib: Library)
      ensures this.lib == lib
      ensures params == DefaultParams() && live == {}
    {
      this.lib := lib;
      params := DefaultParams();
      live := {};
    }

    /** `alloc(size)`: a fresh region of exactly `size` bytes. */
    method Alloc(size: nat) returns (region: array<byte>)
      modifies this`live
      ensures fresh(region) && region.Length == size
      ensures live == old(live) + {region}
    {
      region := new byte[size];
      live := live + {region};
    }

    /** `dealloc(ptr, size)`: only a live region, and only with the size it was allocated with. */
    method Dealloc(region: array<byte>, size: nat)
      requires region in live && region.Length == size
      modifies this`live
      ensures live == old(live) - {region}
    {
      live := live - {region};
    }

    /**
     * `setup_params`: the register changes only when the tag, the version and
     * the costs are all accepted; any rejection panics with the register intact.
     */
    method SetupParams(tag: seq<byte>, version: u32, mCost: u32, tCost: u32, pCost: u32) returns (r: Outcome<Error>)
      requires |tag| == 4
      modifies this`params
      ensures var d := DecodeParams(lib, tag, version, mCost, tCost, pCost);
        && (r.Pass? <==> d.Success?)
        && (d.Failure? ==> r == Fail(d.error) && params == old(params))
        && (d.Success? ==> params == d.value)
    {
      var d := DecodeParams(lib, tag, version, mCost, tCost, pCost);
      if d.Failure? {
        return Fail(d.error);
      }
      params := d.value;
      r := Pass;
    }

    /**
     * `hash`: on success the digest text plus a zero terminator sits in a fresh
     * region of exactly that many bytes, and `*output_ptr` points at it; on a
     * panic no region from `alloc` is handed out and `*output_ptr` is not
     * written. The register is only read.
     */
    method Hash(password: seq<byte>, salt: seq<byte>, secret: RawSlice, output: OutputSlot) returns (r: Outcome<Error>)
      requires secret.Valid()
      modifies this`live, output
      ensures params == old(params)
      ensures var d := HashDigest(lib, params, password, salt, SecretOf(secret));
        && (r.Pass? <==> d.Success?)
        && (d.Failure? ==> r == Fail(d.error) && live == old(live) && output.target == old(output.target))
        && (d.Success? ==>
              && output.target != null && fresh(output.target)
              && output.target[..] == NullTerminated(d.value)
              && live == old(live) + {output.target})
    {
      var d := HashDigest(lib, params, password, salt, SecretOf(secret));
      if d.Failure? {
        return Fail(d.error);
      }
      var bytes := NullTerminated(d.value);
      var region := Alloc(|bytes|);
      for i := 0 to |bytes|
        invariant region[..i] == bytes[..i]
        modifies region
      {
        region[i] := bytes[i];
      }
      assert region[..] == region[..|bytes|];
      output.target := region;
      r := Pass;
    }

    /**
     * `verify`: on success the verdict is stored at `matches` as a little-endian
     * `u32` 0 or 1; on a panic `matches` is untouched. Neither the register nor
     * the allocator is involved.
     */
    method Verify(digest: seq<byte>, password: seq<byte>, secret: RawSlice, matches: array<byte>) returns (r: Outcome<Error>)
      requires secret.Valid() && matches.Length >= 4
      modifies matches
      ensures var v := Verdict(lib, digest, password, SecretOf(secret));
        && (r.Pass? <==> v.Success?)
        && (v.Failure? ==> r == Fail(v.error) && matches[..] == old(matches[..]))
        && (v.Success? ==> matches[..4] == U32ToLE(VerdictWord(v.value)) && matches[4..] == old(matches[4..]))
    {
      var v := Verdict(lib, digest, password, SecretOf(secret));
      if v.Failure? {
        return Fail(v.error);
      }
      var word := U32ToLE(VerdictWord(v.value));
      matches[0], matches[1], matches[2], matches[3] := word[0], word[1], word[2], word[3];
      assert matches[..4] == word;
      r := Pass;
    }

    /**
     * The pairing the register is designed for: a `hash` issued right after a
     * successful `setup_params` hashes with exactly the decoded parameters.
     */
    method SetupThenHash(tag: seq<byte>, version: u32, mCost: u32, tCost: u32, pCost: u32,
                         password: seq<byte>, salt: seq<byte>, secret: RawSlice, output: OutputSlot)
      returns (r: Outcome<Error>)
      requires |tag| == 4 && secret.Valid()
      modifies this`params, this`live, output
      ensures var p := DecodeParams(lib, tag, version, mCost, tCost, pCost);
        && (p.Failure? ==> r == Fail(p.error) && params == old(params) && live == old(live) && output.target == old(output.target))
        && (p.Success? ==>
              && params == p.value
              && var d := HashDigest(lib, p.value, password, salt, SecretOf(secret));
              && (r.Pass? <==> d.Success?)
              && (d.Failure? ==> r == Fail(d.error) && live == old(live) && output.target == old(output.target))
              && (d.Success? ==>
                    && output.target != null && fresh(output.target)
                    && output.target[..] == NullTerminated(d.value)
                    && live == old(live) + {output.target})
              && (KeepsCosts(lib) ==>
                    && d != Failure(InvalidCosts)
                    && (d.Success? ==>
                          lib.generate(Hasher(p.value.algorithm, p.value.version, Costs(mCost, tCost, pCost), SecretOf(secret)), password, salt)
                          == Some(d.value))))
    {
      r := SetupParams(tag, version, mCost, tCost, pCost);
      if r.Fail? {
        return;
      }
      if KeepsCosts(lib) {
        DecodedCostsReachHash(lib, tag, version, mCost, tCost, pCost, password, salt, SecretOf(secret));
      }
      r := Hash(password, salt, secret, output);
    }

    /**
     * The host's side of the output protocol: hash, scan the region for its
     * terminator, copy the text out and free the region with the scanned length
     * plus one. Because the crate prints no zero bytes, the text is the digest
     * and the free names the region's true size, so no region is leaked.
     */
    method HashAndCollect(password: seq<byte>, salt: seq<byte>, secret: RawSlice, output: OutputSlot)
      returns (r: Result<seq<byte>, Error>)
      requires secret.Valid() && PrintsNoZero(lib)
      modifies this`live, output
      ensures params == old(params) && live == old(live)
      ensures var d := HashDigest(lib, params, password, salt, SecretOf(secret));
        && (d.Failure? ==> r == Failure(d.error) && output.target == old(output.target))
        && (d.Success? ==>
              && r == Success(d.value)
              && output.target != null && fresh(output.target)
              && output.target.Length == |d.value| + 1 && output.target !in live)
    {
      var outcome := Hash(password, salt, secret, output);
      ghost var d := HashDigest(lib, params, password, salt, SecretOf(secret));
      if outcome.Fail? {
        return Failure(outcome.error);
      }
      var region := output.target;
      var text := ScanToZero(region[..]);
      OutputRoundTrip(d.value, []);
      assert d.value + [0] + [] == region[..];
      Dealloc(region, |text| + 1);
      r := Success(text);
    }
  }
}
