# fuse.rs protocol core, modelled in Dafny

This project models three small pieces of the rust-fuse library, a Rust implementation of the FUSE and CUSE userspace protocols:

- **Error values** (`fuse/src/error.rs`).
  - `Error`, a kind tag that is either a library condition (`Unknown`, `InvalidInput`, `UnexpectedEof`, `ExpectedFuseInit`) or an OS error.
  - `ErrorCode`, a non-zero 16-bit OS error number. It converts without loss into wider integers and compares against Rust's primitive integers, with a guard for signed `i16`/`isize` operands.
  - The per-platform constants `EIO`, `ENOENT`, `ENODEV` and `ENOSYS`.
- **The FUSE_INIT handshake** (specified by `fuse/src/protocol/fuse_init/fuse_init_test.rs`).
  - Decoding the kernel's `fuse_init_in`. A foreign major version, or an old minor, is read as version only.
  - The capability flag set `FuseInitFlags`, updated in place.
  - `FuseInitResponse`, a reply whose fields are set one by one.
  - `for_request`, which answers a kernel's INIT.
  - Encoding the reply in the layout its minor version selects: the 8-byte 7.1 struct, the 24-byte pre-7.23 struct, or the full 64-byte `fuse_init_out`.
- **FSYNCDIR** (specified by `fuse/src/protocol/fsyncdir/fsyncdir_test.rs`).
  - Decoding `fuse_fsync_in` into node, handle and the `datasync` flag.
  - The empty response, a bare reply header.
- **CUSE device-name validation** in `CuseServerBuilder::build` (`fuse/src/os/linux/cuse_server_builder.rs`).
  - An empty name is rejected as empty. Any other invalid name is rejected as containing NUL.
  - Both checks come before `/dev/cuse` is opened.

Wire integers are `int` newtypes (`u8` … `u64`, `i32`) written little-endian. The codecs are pure functions over `seq<u8>`. Each codec has a kernel-side partner: an encoder for requests and a reference decoder for replies. Lemmas relate every codec to its partner for all inputs. The concrete test messages are derived from these lemmas.

Minor versions:
- The tests pin the minor versions at which the INIT request gains its readahead and flags fields, and at which the reply grows, only to within a range. These cutoffs are therefore a parameter (`FuseInit.Cutoffs`).
- `PinnedByTests` states the range the tests allow. Every lemma holds for each admissible choice.
- The Linux header's values (7.6, 7.5 and 7.23) are one instance.

Other modelling choices:
- The mutable flag set and the response builder are classes.
- The open of `/dev/cuse` is a method of a `DeviceFiles` object. The operating system's answer is a field of that object.

Files:
- `wrappers.dfy`: `Option` and `Result`.
- `ints.dfy`: fixed-width integer types and the `as` casts the error comparisons use.
- `little_endian.dfy`: little-endian encoding of unsigned and signed integers, and reading fields at offsets.
- `error.dfy`: the `Errors` module.
- `fuse_kernel.dfy`: kernel ABI constants, `fuse_in_header`/`fuse_out_header`, request framing and reply framing.
- `fuse_init.dfy`: the FUSE_INIT handshake.
- `fsyncdir.dfy`: FSYNCDIR.
- `cuse_server_builder.dfy`: `CuseServerBuilder`.

## Model

| member | source | states |
|---|---|---|
| Errors.NewError | fuse/src/error.rs:31-35 | `Error::new(c)` is an error of the OS kind carrying exactly `c` |
| Errors.NewErrorInjective | fuse/src/error.rs:31-35 | two OS errors are equal exactly when their codes are |
| Errors.FromNonZeroU16 | fuse/src/error.rs:40-50 | every non-zero u16 is an error code with that value |
| Errors.ToU16 | fuse/src/error.rs:52-56 | the u16 of a code is its value and is never 0 |
| Errors.ToNonZeroU16 | fuse/src/error.rs:58-62 | the NonZeroU16 of a code is its value |
| Errors.ToU32 | fuse/src/error.rs:64-68 | widening to u32 keeps the value (1..65535) |
| Errors.ToNonZeroU32 | fuse/src/error.rs:70-74 | widening to NonZeroU32 keeps the value |
| Errors.ToI32 | fuse/src/error.rs:76-80 | widening to i32 keeps the value, which is positive |
| Errors.ToNonZeroI32 | fuse/src/error.rs:82-86 | widening to NonZeroI32 keeps the value |
| Errors.ToU64 | fuse/src/error.rs:88-92 | widening to u64 keeps the value |
| Errors.ToNonZeroU64 | fuse/src/error.rs:94-98 | widening to NonZeroU64 keeps the value |
| Errors.ToI64 | fuse/src/error.rs:100-104 | widening to i64 keeps the value, which is positive |
| Errors.ToNonZeroI64 | fuse/src/error.rs:106-110 | widening to NonZeroI64 keeps the value |
| Errors.NonZeroU16RoundTrip | fuse/src/error.rs:46-62 | NonZeroU16 → ErrorCode → NonZeroU16/u16 gives the number back, and ErrorCode → NonZeroU16 → ErrorCode gives the code back |
| Errors.WideningsAgree | fuse/src/error.rs:52-110 | all widenings give the same number, and the u16 and i64 conversions are injective |
| Errors.CodeEqI32 | fuse/src/error.rs:142-158 | `code == x` for i32 holds exactly when the numbers are equal |
| Errors.I32EqCode | fuse/src/error.rs:142-158 | `x == code` for i32 holds exactly when the numbers are equal |
| Errors.CodeEqI64 | fuse/src/error.rs:142-159 | the same for i64 |
| Errors.I64EqCode | fuse/src/error.rs:142-159 | the same for i64, operands swapped |
| Errors.CodeEqU16 | fuse/src/error.rs:142-160 | the same for u16 |
| Errors.U16EqCode | fuse/src/error.rs:142-160 | the same for u16, operands swapped |
| Errors.CodeEqU32 | fuse/src/error.rs:142-161 | the same for u32 |
| Errors.U32EqCode | fuse/src/error.rs:142-161 | the same for u32, operands swapped |
| Errors.CodeEqU64 | fuse/src/error.rs:142-162 | the same for u64 |
| Errors.U64EqCode | fuse/src/error.rs:142-162 | the same for u64, operands swapped |
| Errors.CodeEqUsize | fuse/src/error.rs:142-163 | the same for usize |
| Errors.UsizeEqCode | fuse/src/error.rs:142-163 | the same for usize, operands swapped |
| Errors.CodeEqI16 | fuse/src/error.rs:165-172 | a non-positive i16 is never equal to a code; otherwise the operands are equal exactly when the numbers are, despite the `as u16` reinterpretation |
| Errors.I16EqCode | fuse/src/error.rs:174-181 | the same with the i16 on the left |
| Errors.CodeEqIsize | fuse/src/error.rs:183-190 | a non-positive isize is never equal to a code; otherwise the operands are equal exactly when the numbers are, despite the `as usize` reinterpretation |
| Errors.IsizeEqCode | fuse/src/error.rs:192-199 | the same with the isize on the left |
| Errors.EqualitySymmetric | fuse/src/error.rs:142-199 | every cross-type equality gives the same answer with the operands swapped |
| Errors.SignedGuardAgreesWithWidening | fuse/src/error.rs:165-199 | the i16/isize comparisons agree with comparing in i32/i64 |
| Errors.TargetConstants | fuse/src/error.rs:201-238 | EIO=5, ENOENT=2 and ENODEV=19 on every target; ENOSYS is 78 on FreeBSD and 38 on Linux x86/x86_64; the four are pairwise distinct |
| Ints.I16AsU16 | fuse/src/error.rs:170 | `x as u16` is `x` modulo 2^16, and `x` itself when non-negative |
| Ints.IsizeAsUsize | fuse/src/error.rs:188 | `x as usize` is `x` modulo 2^64, and `x` itself when non-negative |
| FuseKernel.EncodeInHeader | fuse/src/protocol/fsyncdir/fsyncdir_test.rs:24-28 | `fuse_in_header` is 40 bytes |
| FuseKernel.EncodeOutHeader | fuse/src/protocol/fuse_init/fuse_init_test.rs:85-90 | `fuse_out_header` is 16 bytes |
| FuseKernel.InHeaderRoundTrip | fuse/src/protocol/fsyncdir/fsyncdir_test.rs:24-28 | decoding an encoded request header, whatever follows it, gives the header back |
| FuseKernel.OutHeaderRoundTrip | fuse/src/protocol/fuse_init/fuse_init_test.rs:85-90 | decoding an encoded reply header gives the header back |
| FuseKernel.OutHeaderBytesRoundTrip | fuse/src/protocol/fuse_init/fuse_init_test.rs:85-90 | re-encoding a decoded reply header reproduces its 16 bytes |
| FuseKernel.SplitFrame | fuse/src/protocol/fsyncdir/fsyncdir_test.rs:36-38 | a frame is refused with UnexpectedEof exactly when shorter than a header or when its `len` is outside [40, frame length]; otherwise the result is the header and the body of `len - 40` bytes after it |
| FuseKernel.BuildFrame | fuse/src/protocol/fsyncdir/fsyncdir_test.rs:24-34 | the kernel's frame is header plus body, with `len` set to its length |
| FuseKernel.SplitBuiltFrame | fuse/src/protocol/fsyncdir/fsyncdir_test.rs:24-38 | splitting a built frame, whatever padding follows, gives back the header (with its `len`) and exactly the body |
| FuseKernel.EncodeReply | fuse/src/protocol/fsyncdir/fsyncdir_test.rs:72-81 | a success reply is 16 header bytes plus the payload |
| FuseKernel.ReplyFraming | fuse/src/protocol/fuse_init/fuse_init_test.rs:82-93 | a success reply's header reads back as its own length, error 0 and the request's `unique`, and the payload follows unchanged |
| FuseInit.SetFlag | fuse/src/protocol/fuse_init/fuse_init_test.rs:237-240 | setting a flag on or off decides exactly the flag's bit and leaves every other bit as it was |
| FuseInit.SetThenClear | fuse/src/protocol/fuse_init/fuse_init_test.rs:237-240 | clearing a flag just set equals clearing it alone, and restores a set that lacked it |
| FuseInit.SetLeavesOthers | fuse/src/protocol/fuse_init/fuse_init_test.rs:237-241 | after `set(flag, on)` the set contains `flag` iff `on`, and every other flag is unchanged |
| FuseInit.DistinctFlagsDisjoint | fuse/src/protocol/fuse_init/fuse_init_test.rs:232-233 | two different single-bit flags share no bit |
| FuseInit.InitFlagsSequence | fuse/src/protocol/fuse_init/fuse_init_test.rs:236-241 | ASYNC_READ is bit 0 and POSIX_LOCKS bit 1; the tested set/set/clear sequence on an empty set leaves exactly POSIX_LOCKS |
| FuseInit.ExerciseFlags | fuse/src/protocol/fuse_init/fuse_init_test.rs:236-241 | driving a fresh `FuseInitFlags` through set/set/clear leaves exactly POSIX_LOCKS: POSIX_LOCKS in, ASYNC_READ out |
| FuseInit.FuseInitFlags.constructor | fuse/src/protocol/fuse_init/fuse_init_test.rs:237 | a new flag set is empty |
| FuseInit.FuseInitFlags.FromBits | fuse/src/protocol/fuse_init/fuse_init_test.rs:127 | `FuseInitFlags(bits)` holds exactly `bits` |
| FuseInit.FuseInitFlags.Set | fuse/src/protocol/fuse_init/fuse_init_test.rs:237-240 | `set` updates the set in place to `SetFlag` of the old bits |
| FuseInit.LinuxCutoffsPinned | fuse/src/protocol/fuse_init/fuse_init_test.rs:22-152 | the Linux header's cutoffs (7.6, 7.5, 7.23) are consistent with every tested version |
| FuseInit.DecodeInitBody | fuse/src/protocol/fuse_init/fuse_init_test.rs:22-75 | decoding fails exactly when the body is under 8 bytes, or is a current major-7 body at or past the flags cutoff and under 16 bytes, and then with UnexpectedEof; the version is always the first two words; a foreign major or an old minor gives readahead 0 and no flags; a current kernel's readahead and flags are the words at offsets 8 and 12 |
| FuseInit.DecodeInitRequest | fuse/src/protocol/fuse_init/fuse_init_test.rs:22-75 | a frame error is passed on; otherwise the body is decoded |
| FuseInit.EncodeInitInV7p1 | fuse/src/protocol/fuse_init/fuse_init_test.rs:26 | the 7.1 `fuse_init_in` is 8 bytes |
| FuseInit.EncodeInitIn | fuse/src/protocol/fuse_init/fuse_init_test.rs:41-46 | `fuse_init_in` is 16 bytes |
| FuseInit.InitInExtendsV7p1 | fuse/src/protocol/fuse_init/fuse_init_test.rs:26-46 | `fuse_init_in` begins with the 7.1 struct, so an old-layout reader sees the same version |
| FuseInit.InitInReadBack | fuse/src/protocol/fuse_init/fuse_init_test.rs:41-46 | version, readahead and flags of `fuse_init_in` read back from their offsets, whatever follows |
| FuseInit.DecodeShortRequest | fuse/src/protocol/fuse_init/fuse_init_test.rs:57-75 | for a foreign major or an old minor, decoding gives that version with readahead 0 and flags 0, whatever bytes follow |
| FuseInit.DecodeFullRequest | fuse/src/protocol/fuse_init/fuse_init_test.rs:37-55 | for major 7 at or past the flags cutoff, decoding gives version, readahead and flags exactly as sent |
| FuseInit.DecodeTruncatedRequest | fuse/src/protocol/fuse_init/fuse_init_test.rs:37-55 | such a request that stops anywhere from the end of the version to before the end of `fuse_init_in` (8 to 15 body bytes) is UnexpectedEof |
| FuseInit.RequestTestVectors | fuse/src/protocol/fuse_init/fuse_init_test.rs:22-75 | the three request tests: 7.1 gives (7,1,0,0); 7.6 gives (7,6,9,0xFFFFFFFF); 0xFF.0xFF gives (0xFF,0xFF,0,0) |
| FuseInit.TestedLayouts | fuse/src/protocol/fuse_init/fuse_init_test.rs:77-152 | minor 1 gets the 8-byte layout, 5 the 24-byte one, and 23 and the library's own minor the full one |
| FuseInit.LayoutMonotone | fuse/src/protocol/fuse_init/fuse_init_test.rs:77-152 | a newer minor never gets a shorter reply |
| FuseInit.EncodeInitOutV7p1 | fuse/src/protocol/fuse_init/fuse_init_test.rs:91 | `fuse_init_out_v7p1` (major, minor) is 8 bytes |
| FuseInit.EncodeV7p5Part | fuse/src/protocol/fuse_init/fuse_init_test.rs:110-118 | the fields 7.5 adds take 16 bytes |
| FuseInit.EncodeV7p23Part | fuse/src/protocol/fuse_init/fuse_init_test.rs:139-149 | time granularity and the nine unused words take 40 bytes |
| FuseInit.EncodeInitOutFull | fuse/src/protocol/fuse_init/fuse_init_test.rs:139-149 | `fuse_init_out` is 64 bytes |
| FuseInit.EncodeInitOut | fuse/src/protocol/fuse_init/fuse_init_test.rs:77-152 | the payload has the size of the layout its minor selects |
| FuseInit.EncodeInitResponse | fuse/src/protocol/fuse_init/fuse_init_test.rs:77-152 | the reply is 16 bytes plus the layout's size |
| FuseInit.FullChunks | fuse/src/protocol/fuse_init/fuse_init_test.rs:139-149 | the 64-byte struct holds the 7.1 struct at offset 0, the 7.5 fields at 8 and the 7.23 fields at 24 |
| FuseInit.FullFieldsReadBack | fuse/src/protocol/fuse_init/fuse_init_test.rs:139-149 | every field of `fuse_init_out` reads back from its offset |
| FuseInit.PayloadReadBack | fuse/src/protocol/fuse_init/fuse_init_test.rs:77-152 | from the prefix a layout sends, the kernel reads back exactly the fields that layout carries |
| FuseInit.InitReplyRoundTrip | fuse/src/protocol/fuse_init/fuse_init_test.rs:77-152 | the kernel's decoding of any reply gives a header with the reply's length, error 0 and the request's `unique`, and exactly the fields the layout carries |
| FuseInit.UnsetFieldsEncodeZero | fuse/src/protocol/fuse_init/fuse_init_test.rs:96-121 | a new response sends zero bytes for everything after major and minor, in every layout |
| FuseInit.EncodeInitOutV7p5 | fuse/src/protocol/fuse_init/fuse_init_test.rs:110-118 | `fuse_init_out_v7p5` is 24 bytes |
| FuseInit.InitOutV7p5Parts | fuse/src/protocol/fuse_init/fuse_init_test.rs:110-118 | `fuse_init_out_v7p5` is the 7.1 struct followed by the 7.5 fields, field for field |
| FuseInit.UnusedZero | fuse/src/protocol/fuse_init/fuse_init_test.rs:139-149 | whatever the fields hold, bytes 28 to 63 of `fuse_init_out` (the nine `unused` words) are zero, as every full-layout test expects |
| FuseInit.ResponseTestVectors | fuse/src/protocol/fuse_init/fuse_init_test.rs:77-152 | the three encoding tests byte for byte: new 7.1 (header + major/minor), new 7.5 (header + 24-byte struct) and 7.23 with readahead 4096 and all flags (header + 64-byte struct) |
| FuseInit.ForRequest | fuse/src/protocol/fuse_init/fuse_init_test.rs:154-223 | on a major mismatch, the library's version with nothing else set; otherwise major 7, the lower of the two minors, and readahead and flags echoed |
| FuseInit.MinorMismatchReply | fuse/src/protocol/fuse_init/fuse_init_test.rs:154-189 | a kernel newer than the library gets the library's 7.31 in the full layout, with readahead and flags echoed |
| FuseInit.MajorMismatchReply | fuse/src/protocol/fuse_init/fuse_init_test.rs:191-223 | a kernel of another major version gets 7.31 in the full layout, with every other field zero |
| FuseInit.FuseInitResponse.constructor | fuse/src/protocol/fuse_init/fuse_init_test.rs:79 | a new response holds the version and nothing else |
| FuseInit.FuseInitResponse.SetMaxReadahead | fuse/src/protocol/fuse_init/fuse_init_test.rs:126 | changes `max_readahead` only |
| FuseInit.FuseInitResponse.SetFlags | fuse/src/protocol/fuse_init/fuse_init_test.rs:127 | changes `flags` only, copying the given set |
| FuseInit.FuseInitResponse.SetMaxBackground | fuse/src/protocol/fuse_init/fuse_init_test.rs:286 | changes `max_background` only |
| FuseInit.FuseInitResponse.SetCongestionThreshold | fuse/src/protocol/fuse_init/fuse_init_test.rs:287 | changes `congestion_threshold` only |
| FuseInit.FuseInitResponse.SetMaxWrite | fuse/src/protocol/fuse_init/fuse_init_test.rs:285 | changes `max_write` only |
| FuseInit.FuseInitResponse.SetTimeGranularity | fuse/src/protocol/fuse_init/fuse_init_test.rs:288 | changes `time_gran` only |
| FuseInit.BuildV7p23Reply | fuse/src/protocol/fuse_init/fuse_init_test.rs:123-152 | the 7.23 response built with the setters decodes to 7.23, readahead 4096, all flags and everything else zero, in the full layout |
| FuseInit.BuildV7p1Response | fuse/src/protocol/fuse_init/fuse_init_test.rs:280-310 | after every setter, a 7.1 response holds exactly the values set, and its encoding still carries major and minor only |
| Fsyncdir.FlagsFromBits | fuse/src/protocol/fsyncdir/fsyncdir_test.rs:50 | `datasync` is set exactly when bit 0x1 is |
| Fsyncdir.FlagsToBits | fuse/src/protocol/fsyncdir/fsyncdir_test.rs:50 | the model's own inverse of `from_bits` (the source has no such function): a flag record stands for no bit other than 0x1 |
| Fsyncdir.FlagsRoundTrip | fuse/src/protocol/fsyncdir/fsyncdir_test.rs:50 | from_bits inverts to_bits, and to_bits of from_bits keeps exactly bit 0x1 |
| Fsyncdir.FlagsWitnesses | fuse/src/protocol/fsyncdir/fsyncdir_interop_test.rs:105-111 | from_bits(0x1) asks for datasync; flags 0 (plain fsync) do not |
| Fsyncdir.DecodeFsyncdirBody | fuse/src/protocol/fsyncdir/fsyncdir_test.rs:22-42 | a truncated body is UnexpectedEof; otherwise node from the header, handle = `fh`, datasync iff bit 0x1 of `fsync_flags` |
| Fsyncdir.DecodeFsyncdirRequest | fuse/src/protocol/fsyncdir/fsyncdir_test.rs:22-42 | a frame error is passed on; otherwise the body is decoded |
| Fsyncdir.EncodeFsyncIn | fuse/src/protocol/fsyncdir/fsyncdir_test.rs:29-33 | `fuse_fsync_in` is 16 bytes |
| Fsyncdir.FsyncInReadBack | fuse/src/protocol/fsyncdir/fsyncdir_test.rs:29-33 | `fh` and `fsync_flags` read back from their offsets, whatever follows the struct |
| Fsyncdir.DecodeFsyncdirRoundTrip | fuse/src/protocol/fsyncdir/fsyncdir_test.rs:22-42 | any kernel request decodes to the header's node, `fh` as handle, and datasync iff bit 0x1, whatever follows the struct |
| Fsyncdir.DecodeTruncatedFsyncdir | fuse/src/protocol/fsyncdir/fsyncdir_test.rs:22-42 | a body shorter than `fuse_fsync_in` is refused as UnexpectedEof |
| Fsyncdir.RequestTestVectors | fuse/src/protocol/fsyncdir/fsyncdir_test.rs:22-42 | node 123, fh 3, flags 0x1 decodes to handle 3 with datasync; node 2, fh 12345, flags 0 (the plain fsync expected at `fsyncdir_interop_test.rs` lines 105-111) to handle 12345 without |
| Fsyncdir.EncodeFsyncdirResponse | fuse/src/protocol/fsyncdir/fsyncdir_test.rs:67-82 | the empty response is 16 bytes |
| Fsyncdir.EmptyResponseIsHeaderOnly | fuse/src/protocol/fsyncdir/fsyncdir_test.rs:67-82 | the empty response is one `fuse_out_header` with `len` 16, error 0 and the request's `unique`, and nothing else |
| CuseServerBuilder.DeviceNameFromBytes | fuse/src/os/linux/cuse_server_builder.rs:48 | a name is accepted exactly when it is non-empty and has no NUL byte, and then keeps its bytes |
| CuseServerBuilder.NewBuilder | fuse/src/os/linux/cuse_server_builder.rs:35-44 | `new` binds `/dev/cuse` and stores the name and handlers unchanged |
| CuseServerBuilder.ValidateDeviceName | fuse/src/os/linux/cuse_server_builder.rs:47-66 | valid names pass with their bytes; an empty one fails as empty, and any other invalid one fails as containing NUL (and does contain one); both are InvalidInput and name the offending name |
| CuseServerBuilder.OneDefectPerName | fuse/src/os/linux/cuse_server_builder.rs:50-65 | each invalid name gets exactly one diagnosis, and the empty name is reported as empty |
| CuseServerBuilder.BuildOutcomeCases | fuse/src/os/linux/cuse_server_builder.rs:46-74 | an invalid name fails the same way whatever the device and the server would answer; with a valid name, a failed open is passed on whatever the server would answer; after a successful open, a failed server start is passed on, and a successful one gives a server holding the validated name, the device at the builder's path and the builder's handlers |
| CuseServerBuilder.NewThenBuild | fuse/src/os/linux/cuse_server_builder.rs:35-74 | a builder from `new` with a valid name opens `/dev/cuse` and hands name and handlers over as given |
| CuseServerBuilder.DeviceFiles.constructor | fuse/src/os/linux/cuse_server_builder.rs:68-71 | nothing has been opened yet |
| CuseServerBuilder.DeviceFiles.Open | fuse/src/os/linux/cuse_server_builder.rs:68-71 | records the opened path and returns the file or the OS error |
| CuseServerBuilder.Build | fuse/src/os/linux/cuse_server_builder.rs:46-74 | returns `BuildOutcome` of the device's and the server start's answers; an invalid name opens nothing, a valid one opens exactly the builder's path, once |

## Left out

- Debug, Display, binary and hex formatting of error codes, flags, requests and responses, and the error messages' text: string rendering, not protocol behaviour. An invalid name's error records the name and which check failed instead of the formatted message.
- The kernel interop tests: they need a mounted filesystem and system calls; only their flag witness (plain fsync has `datasync = false`) is stated.
- The server loop, channel reads and writes, request dispatch and INTERRUPT handling: their Rust code is not among the files read, and they are not modelled.
- The implementation files of the codecs (`fuse_init.rs`, `fsyncdir.rs`, the header and I/O modules): their Rust code is not among the files read. The codecs are modelled from the behaviour their tests fix.
- The opcode in a request header is not checked by the typed decoders here, and `nodeid` is passed through unvalidated: the Rust code that does so is not among the files read.
- Request framing (`FuseKernel.SplitFrame`): the Rust framing code is not among the files read. `SplitFrame` is modelled on the kernel ABI and the library's design instead: a 40-byte header whose `len` delimits the body. Its refusal conditions (a frame shorter than the header, `len` under 40 or past the frame's end) and their `UnexpectedEof` kind come from that ABI and design, not from the library's code.
- `FUSE_KERNEL_MINOR_VERSION` is taken as 31, because the Rust kernel ABI module is not among the files read. The tests refer to it only by name.
- FuseInit.Cutoffs: the exact minor versions at which the INIT layouts change are a parameter constrained by the tested versions, not fixed constants, because the tests do not pin them further.
- FuseInit.ForRequest: readahead and flags are echoed verbatim, as the tests fix. No capability intersection with the library's own flags is modelled.
- FuseInit.DecodeTruncatedRequest: the tests do not show the error for a current kernel's INIT body cut short (8 to 15 bytes). It is modelled as UnexpectedEof, like every other short message.
- CuseServerBuilder.DeviceNameFromBytes: the Rust code of `CuseDeviceName::from_bytes` is not among the files read. It is taken to accept exactly the non-empty names without NUL bytes, the two defects `build` reports.
- `CuseServer::new`: its Rust code is not among the files read. Its outcome is an abstract answer: a failure code, passed on by `build` as its error, or success with a server that holds its three arguments. What the server does at start-up (the CUSE handshake) is not modelled.
- The open of `/dev/cuse` is an abstract answer (a descriptor or an OS error number). Read/write mode and the file's further use are not modelled.
- Byte order: the kernel ABI uses the host's byte order, and the library's targets include big-endian hosts (FreeBSD is selected by operating system alone). Fixing little-endian is a modelling choice that matches the x86 and x86_64 hosts; big-endian hosts are not modelled.
- Width of `usize` and `isize`: both are taken 64 bits wide, although the library also has 32-bit targets. No property of this model depends on the width: a positive `isize` keeps its value under `as usize`, and `usize::from(u16)` is lossless, whatever the width.
