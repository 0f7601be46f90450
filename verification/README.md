# ProgramShaderCache in Dafny

A model of the OpenGL program cache and the constant staging buffer of the
video backend (`OGL::ProgramShaderCache`), with proofs of its properties.

The component does three things:

- **Pair keys.** A linked program is identified by the GL names of its pixel
  shader and its vertex shader. The two names are packed into one 64-bit key,
  with the pixel shader in the high half (`Create_Pair`, `Get_Pair`).
- **Program cache.** `SetBothShaders(PS, VS)` takes one of five paths:
  - it ignores a zero shader name;
  - it does nothing when the pair is already bound;
  - it rebinds a cached program;
  - or it builds, caches and binds a new one;
  - in debug builds only, a failed link deletes the new program and caches
    nothing.

  `Init` resets the bound state. `Shutdown` tells GL to use program 0,
  deletes every cached program and clears the table.
- **Constant staging buffer.** One CPU-side byte buffer holds the
  pixel-shader constants followed by the vertex-shader constants. Each block
  is rounded up to the driver's uniform-buffer offset alignment.
  `SetMultiPSConstant4fv` and `SetMultiVSConstant4fv` copy vectors into their
  block and mark the buffer dirty. `UploadConstants` uploads a dirty buffer
  whole, binds the two blocks to uniform binding points 1 and 2, and marks
  the buffer clean.

Modules, one per file:

- `shader_pair.dfy`, module `ShaderPair`: the packing of pair keys.
- `program_cache.dfy`, module `ProgramCache`: the table, the bound state, the
  transitions of `SetBothShaders` and their frame conditions, and lemmas over
  arbitrary sequences of requests.
- `constant_buffer.dfy`, module `ConstantBuffer`: the block layout, the two
  writes and the upload, and lemmas over arbitrary sequences of writes and
  uploads.
- `session.dfy`, module `Session`: `Init` and `Shutdown` over the whole
  state.

GL is treated as opaque. The inputs that come from GL are parameters:

- the name `glCreateProgram` returns;
- whether the link succeeds;
- whether the build checks the link status (the debug `#if`);
- the offset alignment the driver reports;
- the offset at which the streaming buffer places an upload.

`SetBothShaders` returns the `glUseProgram` and `glDeleteProgram` calls it
makes. `Shutdown` returns its `glUseProgram(0)` call and the set of program
names it deletes. The programs `Init` reads back from the disk cache are a
parameter of `Session.Init`.

The shifts and masks of `Create_Pair` and `Get_Pair` are written as the
arithmetic they perform on unsigned values: multiply or divide by 2^32, add
the low half, and take the remainder modulo 2^32.

Where the code does something other than a natural reading of the component
would suggest, the model follows the code:

- `Init` rounds **both** block sizes up to the alignment. The buffer size is
  the sum of the two rounded sizes, not of the raw sizes.
- `Shutdown` resets neither `CurrentShaderProgram` nor `CurrentProgram`; only
  `Init` does. `Shutdown` does call `glUseProgram(0)`, so between `Shutdown`
  and the next `Init` GL uses no program while `CurrentProgram` still names
  the deleted one, and the bound key names a pair that is no longer cached.
  Asking for that pair again takes the early exit, so still no program is in
  use (`ProgramCache.ShutdownLeavesStaleBinding`).
- A failed link is detected only in debug builds. A release build caches and
  binds the program whatever the link did (`ProgramCache.UncheckedLinkIsCached`).
- `Init` does not clear the table. With the binary cache, the disk restore
  adds the programs read back from disk; so `Shutdown` then `Init` leaves an
  empty table only without the binary cache (`Session.ShutdownThenInitResets`).

## Model

| member | source | states |
|---|---|---|
| `ShaderPair.CreatePair` | Source/Plugins/Plugin_VideoOGL/Src/ProgramShaderCache.cpp:43-46 | Unpacking a packed pair gives back exactly (pixel name, vertex name); the key is 0 exactly when both names are 0 |
| `ShaderPair.GetPair` | Source/Plugins/Plugin_VideoOGL/Src/ProgramShaderCache.cpp:47-51 | The high 32 bits, then the low 32 bits: the first name times 2^32 plus the second is the key |
| `ShaderPair.CreateAfterGet` | Source/Plugins/Plugin_VideoOGL/Src/ProgramShaderCache.cpp:47-51 | Every 64-bit key is the packing of the pair `Get_Pair` extracts from it, so the packing is a bijection |
| `ShaderPair.CreatePairInjective` | Source/Plugins/Plugin_VideoOGL/Src/ProgramShaderCache.cpp:43-51 | Two pairs with the same key are the same pair |
| `ShaderPair.CreatePairOrderSensitive` | Source/Plugins/Plugin_VideoOGL/Src/ProgramShaderCache.cpp:43-46 | Swapping two different names gives a different key |
| `ShaderPair.NonZeroPairKey` | Source/Plugins/Plugin_VideoOGL/Src/ProgramShaderCache.cpp:43-46 | The key of two non-zero names is never 0 |
| `ProgramCache.SetBothShaders` | Source/Plugins/Plugin_VideoOGL/Src/ProgramShaderCache.cpp:151-237 | Which path is taken, as an if-and-only-if on the inputs. Zero-name, already-bound and failed-link calls leave the state as it was. The first two make no GL call; a failed link makes one call, deleting the new program. Hit and build leave the pair bound to its cached program and issue one `glUseProgram`. A build caches `Entry(name, PS, VS)`. No existing entry is changed, and the only key ever added is the new pair's, on a build |
| `ProgramCache.InitCache` | Source/Plugins/Plugin_VideoOGL/Src/ProgramShaderCache.cpp:310-311 | Nothing bound afterwards and the table kept, so a table whose keys match its entries satisfies the cache invariant |
| `ProgramCache.ShutdownCache` | Source/Plugins/Plugin_VideoOGL/Src/ProgramShaderCache.cpp:329-334 | GL is told to use program 0. The table is emptied and the program of every entry is deleted, and nothing else is. The bound key and program name are untouched |
| `ProgramCache.ZeroShaderIsIgnored` | Source/Plugins/Plugin_VideoOGL/Src/ProgramShaderCache.cpp:153-156 | A zero shader name changes no state and makes no GL call |
| `ProgramCache.BoundPairIsNoOp` | Source/Plugins/Plugin_VideoOGL/Src/ProgramShaderCache.cpp:158-161 | Asking for the bound pair changes no state and makes no GL call |
| `ProgramCache.NoEarlyExitAfterInit` | Source/Plugins/Plugin_VideoOGL/Src/ProgramShaderCache.cpp:158-161 | After the reset to 0 no pair of real shaders takes the early exit |
| `ProgramCache.CacheHitRebinds` | Source/Plugins/Plugin_VideoOGL/Src/ProgramShaderCache.cpp:163-171 | A hit leaves the table unchanged, binds the cached program and records the pair as bound |
| `ProgramCache.CacheMissInserts` | Source/Plugins/Plugin_VideoOGL/Src/ProgramShaderCache.cpp:173-236 | A miss that links adds exactly the new key, grows the table by one and binds the new program |
| `ProgramCache.LinkFailureLeavesNoEntry` | Source/Plugins/Plugin_VideoOGL/Src/ProgramShaderCache.cpp:217-227 | A checked failed link deletes the new program and leaves the table and bound state unchanged |
| `ProgramCache.UncheckedLinkIsCached` | Source/Plugins/Plugin_VideoOGL/Src/ProgramShaderCache.cpp:186-236 | Without the debug check, a failed link is still cached and bound |
| `ProgramCache.SecondCallBuildsNothing` | Source/Plugins/Plugin_VideoOGL/Src/ProgramShaderCache.cpp:158-171 | Two calls in a row for one pair build at most once: unless the first link failed, the second call changes nothing |
| `ProgramCache.RetryAfterLinkFailureRebuilds` | Source/Plugins/Plugin_VideoOGL/Src/ProgramShaderCache.cpp:217-236 | After a failed link the pair is absent, and a retry builds a new entry from the new program |
| `ProgramCache.SetBothShadersKeepsInv` | Source/Plugins/Plugin_VideoOGL/Src/ProgramShaderCache.cpp:151-237 | Every entry stays under the key of its own two non-zero shaders, and the bound key stays 0 or names a cached entry holding the bound program |
| `ProgramCache.ShutdownLeavesStaleBinding` | Source/Plugins/Plugin_VideoOGL/Src/ProgramShaderCache.cpp:314-343 | After `Shutdown` GL uses program 0 while `CurrentProgram` still names the deleted program. The previously bound key no longer names a cached program, and asking for that pair again takes the early exit with no GL call |
| `ProgramCache.RunKeepsInv` | Source/Plugins/Plugin_VideoOGL/Src/ProgramShaderCache.cpp:151-237 | The cache invariant holds after any sequence of requests |
| `ProgramCache.RunOnlyGrows` | Source/Plugins/Plugin_VideoOGL/Src/ProgramShaderCache.cpp:163-236 | Over any sequence of requests, no cached entry is removed or replaced |
| `ProgramCache.BuildsCountNewPairs` | Source/Plugins/Plugin_VideoOGL/Src/ProgramShaderCache.cpp:163-236 | The number of builds in any sequence of requests equals the growth of the table, so each pair is built and cached at most once; checked links that fail are not counted, and such a pair is built again on every request |
| `ConstantBuffer.RoundUp` | Source/Plugins/Plugin_VideoOGL/Src/ProgramShaderCache.cpp:282-283 | The result is a multiple of the alignment, at least the input, and less than input plus alignment |
| `ConstantBuffer.ComputeLayout` | Source/Plugins/Plugin_VideoOGL/Src/ProgramShaderCache.cpp:282-285 | The vertex-block offset and the buffer size are multiples of the alignment. Each block holds at least its constants and less than one alignment more. The vertex block starts inside the buffer |
| `ConstantBuffer.InitStaging` | Source/Plugins/Plugin_VideoOGL/Src/ProgramShaderCache.cpp:282-294 | The buffer has the computed size, every byte is zero, and it is dirty |
| `ConstantBuffer.CopyInto` | Source/Plugins/Plugin_VideoOGL/Src/ProgramShaderCache.cpp:242 | The copied range holds the source bytes and every other byte is kept |
| `ConstantBuffer.SetMultiPSConstant4fv` | Source/Plugins/Plugin_VideoOGL/Src/ProgramShaderCache.cpp:239-243 | Dirty afterwards. Bytes `[offset*16, (offset+count)*16)` hold the new vectors and every other byte is unchanged. The layout is kept |
| `ConstantBuffer.SetMultiVSConstant4fv` | Source/Plugins/Plugin_VideoOGL/Src/ProgramShaderCache.cpp:245-249 | As the pixel write, shifted by the vertex-block offset |
| `ConstantBuffer.UploadConstants` | Source/Plugins/Plugin_VideoOGL/Src/ProgramShaderCache.cpp:251-260 | A clean buffer gives no upload and no change. A dirty one uploads all of its bytes at the given offset and binds points 1 and 2 to adjacent ranges covering the buffer: point 1 shows exactly the pixel block, point 2 exactly the vertex block. Clean afterwards, bytes kept |
| `ConstantBuffer.PSWriteKeepsVSBlock` | Source/Plugins/Plugin_VideoOGL/Src/ProgramShaderCache.cpp:239-243 | A pixel write leaves the vertex block unchanged |
| `ConstantBuffer.VSWriteKeepsPSBlock` | Source/Plugins/Plugin_VideoOGL/Src/ProgramShaderCache.cpp:245-249 | A vertex write leaves the pixel block unchanged |
| `ConstantBuffer.PSWriteThenUploadIsVisible` | Source/Plugins/Plugin_VideoOGL/Src/ProgramShaderCache.cpp:239-260 | After a pixel write, the upload shows the written vectors through binding point 1 at their offset. The two ranges have the sizes of the pixel block and of the rest of the buffer |
| `ConstantBuffer.SecondUploadDoesNothing` | Source/Plugins/Plugin_VideoOGL/Src/ProgramShaderCache.cpp:251-260 | A second upload with no write in between changes nothing and uploads nothing |
| `ConstantBuffer.DirtyIffLastWasWrite` | Source/Plugins/Plugin_VideoOGL/Src/ProgramShaderCache.cpp:239-260 | After any sequence of calls the buffer is dirty exactly when the last call was a write |
| `ConstantBuffer.UploadsOnlyAfterWrites` | Source/Plugins/Plugin_VideoOGL/Src/ProgramShaderCache.cpp:251-260 | The number of uploads of any sequence equals a count over the calls alone: each upload call right after a write, or first on a dirty buffer |
| `ConstantBuffer.RepeatedUploadsUploadOnce` | Source/Plugins/Plugin_VideoOGL/Src/ProgramShaderCache.cpp:251-260 | A run of upload calls without writes uploads once if the buffer was dirty and otherwise not at all |
| `ConstantBuffer.BlocksStaySeparate` | Source/Plugins/Plugin_VideoOGL/Src/ProgramShaderCache.cpp:239-249 | Over any sequence without vertex writes the vertex block is unchanged, and over any sequence without pixel writes the pixel block is unchanged |
| `Session.Init` | Source/Plugins/Plugin_VideoOGL/Src/ProgramShaderCache.cpp:272-312 | Nothing bound afterwards. Without the binary cache the table is kept; with it the restored programs are added under their keys and every other entry is kept. With uniform buffers, the vertex offset is the rounded pixel size, the buffer size is the sum of both rounded sizes, the bytes are zero and the buffer is dirty. Without them the staging state is kept |
| `Session.Shutdown` | Source/Plugins/Plugin_VideoOGL/Src/ProgramShaderCache.cpp:314-343 | GL is told to use program 0. The table is emptied and exactly the cached programs are deleted. With uniform buffers the staging buffer is freed. The bound key and program are kept |
| `Session.ShutdownThenInitResets` | Source/Plugins/Plugin_VideoOGL/Src/ProgramShaderCache.cpp:272-343 | `Shutdown` then `Init` leaves nothing bound and a table holding exactly the restored programs: none without the binary cache, where the result is the empty cache. The cache invariant holds again when the restored entries sit under their own keys |
| `Session.BuildTwiceThenShutdown` | Source/Plugins/Plugin_VideoOGL/Src/ProgramShaderCache.cpp:151-343 | For the pair (7, 3), the first request builds and caches one entry. The second request changes nothing. `Shutdown` deletes exactly that program |

## Left out

- Disk cache: `LinearDiskCache` open, read, append, sync and close, the
  inserter that restores programs at `Init`, and the appending of program
  binaries at `Shutdown` are file I/O. Their record format is not part of
  this model, so the binary format tag check is not modelled either.
- `Session.Init`: the programs the disk restore inserts are a parameter. Which
  records are accepted and how their entries are built is not modelled. They
  are taken to be added to the table with `pshaders[key] = entry`, the
  insertion the rest of the file uses.
- `Session.Shutdown`: with the binary cache, the appending of each program's
  binary to disk and the `FreeProgram` of its CPU-side copy are not modelled.
- `ProgramCache.ShutdownCache`: `PCacheEntry::Destroy` is not part of this
  model. It is taken to delete the entry's GL program, so the program names of
  the cached entries are reported as deleted. The order of the deletions
  follows the table's iteration order, which the model does not fix.
- GL wiring before and after the link: attaching shaders, the
  binary-retrievable hint, `SetProgramBindings` (fragment output and
  attribute locations) and `SetProgramVariables` (uniform block bindings,
  uniform locations, sampler units). These are driver calls with fixed name
  tables and no state this component reads back. A cached `Entry` therefore
  holds no uniform-location table.
- Debug dumping of the program info log and shader sources to a file is file
  I/O.
- `StreamBuffer` allocation and upload internals, including its size
  `UBO_LENGTH`: the offset an upload lands at is an arbitrary parameter.
- `GetShaderProgram` uses `std::map::operator[]`, which may insert a default
  entry. It is not modelled as a lookup.
- `GetCurrentProgram` only returns `CurrentProgram`, which the `Cache` record
  exposes directly.
- Float contents of the constants: the model treats them as opaque bytes.
- `ConstantBuffer.ComputeLayout`: the byte sizes are unbounded in the model.
  The code stores the buffer size in the 32-bit `s_ubo_buffer_size`, so the
  model assumes the two rounded block sizes sum to less than 2^32. A larger
  sum would be truncated and the buffer allocated too small. The byte offsets
  `offset * 16` are likewise unbounded. They cannot wrap inside a buffer of
  that size.
- `ROUND_UP`, `C_PENVCONST_END` and `C_VENVCONST_END` come from headers that
  are not part of this model. The two counts and the alignment are
  parameters. `ROUND_UP(x, a)` is taken to be the smallest multiple of `a`
  that is at least `x`, for `a > 0`.
- `PCacheEntry::Create` is not part of this model. A new entry is taken to
  record the two shader names and the program name `glCreateProgram`
  returned.
- `ConstantBuffer.SetMultiPSConstant4fv`, `SetMultiVSConstant4fv`: both
  require the written range to lie inside the writer's own block. This is the
  contract callers keep, not a limit of the code. A pixel-constant write
  that runs past the pixel block but stays inside the buffer is a defined
  `memcpy` that overwrites the start of the vertex block. The model does not
  cover that case. Writes past the end of the buffer are undefined behaviour.
- `Externals/SlippiRustExtensions/game-reporter/src/iso_md5_hasher.rs` is
  file I/O and MD5 hashing outside this component.
