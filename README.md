# xenon2 compiled module: parameter register, output encoding, verdict

This project models the Rust side of xenon2's Argon2 bridge, `wasm/lib.rs`: the
module that the JavaScript host instantiates and drives through its exports.
The Argon2 computation itself lives in the `argon2` crate and is not modelled.
The model covers the layer `lib.rs` adds around the crate:

- the global `PARAMS` register, with its defaults and the checks `setup_params` runs before writing it;
- the decoding of the 4-byte algorithm tag and of the version word;
- the zero-terminated output buffer `hash` allocates, fills and publishes through `output_ptr`;
- the decoding of a digest's algorithm identifier and optional version in `verify`;
- the verdict `verify` stores through `matches`;
- the rule that a secret is present exactly when its pointer is non-null;
- `alloc`/`dealloc` as a size contract.

The crate's behaviour is a value of type `Foreign.Library`, a bundle of uninterpreted total functions:
- the cost builder;
- salt acceptance;
- secret acceptance;
- hashing and PHC printing;
- UTF-8 validation;
- PHC parsing;
- `Params::try_from`;
- `verify_password`.

Every result below holds for every behaviour the crate could have, with two exceptions. `Foreign.KeepsCosts` and `Foreign.PrintsNoZero` are assumptions about the crate, and the results that name them hold only under them. A panic is a `Fail`/`Failure` value naming its cause.

Files:
- `wrappers.dfy`: Option, Result and Outcome.
- `foreign.dfy`: the crate's surface, the constants, and the hasher construction shared by `hash` and `verify`.
- `params.dfy`: the tag, version and cost decoding of `setup_params`.
- `output.dfy`: the zero-terminated output, the host's scan for the terminator, and little-endian `u32` words.
- `entry.dfy`: the secret rule and the pure decisions of `hash` and `verify`.
- `bridge.dfy`: the module as an object.
  - Its `params` field is `PARAMS` and its `live` field is the set of allocated regions.
  - It has the `Alloc`, `Dealloc`, `SetupParams`, `Hash` and `Verify` methods.
  - Two client methods show how the host combines them.

Every region is its own `array<byte>`. `*output_ptr` is an `OutputSlot` object holding a reference to the region. `*matches` is a region of at least four bytes. The module writes the verdict there little-endian, as a wasm `u32` store does.

## Model

| member | source | states |
|---|---|---|
| Params.DefaultParams | wasm/lib.rs:56-62 | the register's initial value is Argon2id, version 0x13, m = 19456, t = 2, p = 1 (the crate's default costs) |
| Bridge.Argon2Module.constructor | wasm/lib.rs:56-62 | a fresh module's register holds those defaults, and no region is allocated |
| Params.DecodeTag | wasm/lib.rs:72-77 | a tag is accepted iff it is `i___`, `d___` or `id__`; these map to Argon2i, Argon2d and Argon2id respectively, and every other 4-byte tag is rejected |
| Params.TagRoundTrip | wasm/lib.rs:72-77 | tags and algorithms correspond one to one: decoding an algorithm's tag gives it back, and the only tag decoding to an algorithm is that algorithm's tag |
| Params.DecodeVersion | wasm/lib.rs:79-83 | a version word is accepted iff it is 0x10 or 0x13, and the accepted version's number is the word itself |
| Params.VersionRoundTrip | wasm/lib.rs:79-83 | versions and version words correspond one to one |
| Params.DecodeParams | wasm/lib.rs:72-98 | the checks run in order: the tag (InvalidAlgorithm), then the version (InvalidVersion), then the builder (InvalidCosts); success holds exactly when all three pass, and then the new register value is the decoded algorithm and version plus the costs the builder returned |
| Bridge.Argon2Module.SetupParams | wasm/lib.rs:64-99 | on any rejection it fails with that cause and `PARAMS` is unchanged; on success `PARAMS` becomes the decoded value |
| Bridge.Argon2Module.SetupThenHash | wasm/lib.rs:92-126 | a `hash` right after a successful `setup_params` hashes with exactly the decoded algorithm and version, and with the stored costs as re-validated by `Params::new`; when the crate keeps the costs it accepts (`KeepsCosts`), these are exactly the costs the host asked for and no `InvalidCosts` panic can follow; a panic in `hash` is reported with its cause and leaves the live regions and `*output_ptr` unchanged; a successful `hash` adds exactly the fresh output region to the live regions, holding the digest and a zero; after a failed `setup_params` the register, the live regions and `*output_ptr` are unchanged |
| Bridge.DecodedCostsReachHash | wasm/lib.rs:92-126 | when the crate keeps the costs it accepts, the register's stored costs are the requested ones, the re-validation in `hash` cannot fail, and the digest is generated with exactly those costs |
| Entry.SecretOf | wasm/lib.rs:115-119 | the secret is present iff its pointer is non-null, whatever its length; when present it is the `secret_len` bytes at the pointer |
| Entry.SecretRoundTrip | wasm/lib.rs:115-119 | a secret passed the host's way (`{0, 0}` when absent, a non-null region when present) is seen by the module as exactly that optional secret |
| Entry.HashDigest | wasm/lib.rs:114-135 | the panic causes in source order (salt, costs re-validated from the register, secret, hashing); on success the text is what the crate generates for a hasher with the register's algorithm and version, the re-validated costs and the given secret |
| Foreign.MakeHasher | wasm/lib.rs:128-132 | building the hasher fails iff a secret is present and the crate refuses it; otherwise the hasher carries the given algorithm, version, costs and secret |
| Bridge.Argon2Module.Hash | wasm/lib.rs:101-146 | on success `*output_ptr` is a fresh live region of length `len + 1` holding the digest and then a zero; on a panic no region from `alloc` is handed out and `*output_ptr` is not written; `PARAMS` is unchanged |
| Output.NullTerminated | wasm/lib.rs:137-138 | the output bytes are one longer than the digest, begin with the digest, and end with a zero |
| Output.ScanToZero | wasm/lib.rs:137-145 | the host's reading of the output: the longest zero-free prefix, which ends just before the first zero when there is one |
| Output.OutputRoundTrip | wasm/lib.rs:137-145 | for a digest without zero bytes, scanning the output region gives back exactly the digest, whatever follows the region in memory; the scanned length plus one is the region's length |
| Output.OutputTruncatedAtZero | wasm/lib.rs:137-138 | a digest that contains a zero is read back only up to that zero, and the free length then falls short of the region |
| Bridge.Argon2Module.HashAndCollect | wasm/lib.rs:137-145 | the host hashes, scans and frees with the scanned length plus one; the free passes `dealloc`'s size check, the text is the digest, and no region stays allocated; afterwards `*output_ptr` still names the freed region of `len + 1` bytes (it is unchanged on a panic) |
| Bridge.Argon2Module.Alloc | wasm/lib.rs:33-38 | `alloc(size)` returns a fresh region of exactly `size` bytes and records it as live |
| Bridge.Argon2Module.Dealloc | wasm/lib.rs:40-45 | `dealloc` accepts only a live region with the size it was allocated with, and afterwards that region is no longer live |
| Entry.DecodeAlgorithmName | wasm/lib.rs:173-178 | an algorithm identifier is accepted iff it is `argon2i`, `argon2d` or `argon2id`, each mapped to its algorithm |
| Entry.DecodeDigestVersion | wasm/lib.rs:179-184 | a missing version maps to the crate's default (0x13); 0x10 and 0x13 map to themselves; every other version is rejected |
| Entry.Verdict | wasm/lib.rs:161-192 | the panic causes in source order (UTF-8, format, parameters, algorithm, version, secret); on success the verdict is `verify_password` for a hasher configured from the digest's own header and the given secret |
| Bridge.Argon2Module.Verify | wasm/lib.rs:148-195 | on success the four bytes at `matches` hold the verdict as a little-endian `u32`, and later bytes are untouched; on a panic `matches` is untouched |
| Output.VerdictWord | wasm/lib.rs:194 | the stored word is 0 or 1, and it is 1 exactly when the password matched |
| Output.LERoundTrip | wasm/lib.rs:194 | reading back the little-endian bytes of a `u32` store gives the stored value |
| Output.LEDecodeRoundTrip | wasm/lib.rs:194 | every four bytes are the little-endian store of the value they read as |
| Output.VerdictRoundTrip | wasm/lib.rs:192-194 | the host's "nonzero" reading of the stored bytes is exactly the verdict; the bytes are `1 0 0 0` or `0 0 0 0` |

## Left out

- The Argon2 computation, `PasswordHash::generate`/`new`, `Params::try_from` and `verify_password` are uninterpreted fields of `Library`. These are calls into the `argon2` crate, which is not part of this model.
- `ParamsBuilder` validation is `Library.build`, an opaque partial function with no numeric bounds. The same function stands for `Params::new(m, t, p, None)`, which `hash` applies to the register; the crate's builder delegates to it.
- The base64 encoding of the salt and `Salt::from_b64` are folded into `Library.saltOk`. Both are library calls.
- `core::str::from_utf8` is `Library.utf8Ok` and is not modelled.
- Raw-pointer reads are not modelled. `core::slice::from_raw_parts` becomes the byte sequence passed in.
  - A `RawSlice` carries those bytes with its pointer and length.
- `wee_alloc`'s internals, alignment, and allocation failure are not modelled. `alloc_error_handler` is left out with them.
- The model has no shared linear memory. Regions are separate arrays, and a region's address is an object reference, not a `u32` offset.
- `panic_handler`, the host `panic` import and the divergent `loop {}` are left out. A panic is a failure value, and the model's state after it is the state of the register, the `alloc` regions and the output cells at that point.
- Heap allocations made inside the module that are still live at a panic are not modelled. Examples are the base64 salt `String` of `hash` (wasm/lib.rs:122) and the message that `panic_handler` formats. Because the crate is `no_std` and a panic leaves through the host import without unwinding, the source never frees them: a panic on `hash`'s error path leaks module memory.
- Bridge.Argon2Module.SetupThenHash: proves that the costs reach the hasher unchanged only under `Foreign.KeepsCosts`. `Params::new` storing the costs it accepts is crate behaviour, which is outside the model. Without that assumption it promises only that the stored costs are re-validated by `Library.build`.
- The host-side transfer, maybe-transfer, scan and free code are not part of the module. They appear only as specification functions and client methods, so that the output format and the secret rule can be stated as round trips.
  - The functions are `Entry.MaybeTransfer` and `Output.ScanToZero`.
  - The client methods are `SetupThenHash` and `HashAndCollect`.
- `Bridge.Argon2Module.HashAndCollect` assumes that the crate's printed digests contain no zero byte (`Foreign.PrintsNoZero`). PHC strings are printable ASCII, but the printing code lives in the crate.
- `verify` does not read `PARAMS`. The parameters set by `setup_params` therefore have no effect on `verify`, and the model's `Verify` has no access to the register.
