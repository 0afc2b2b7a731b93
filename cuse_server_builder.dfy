/**
  `CuseServerBuilder`: a CUSE device name and handler set, checked and
  turned into a server bound to an open `/dev/cuse`. The name is validated
  before the device is opened; the open itself is the operating system's
  answer, held by a `DeviceFiles` object.
 */
module CuseServerBuilder {
  import opened Ints
  import opened Wrappers

  /** The path `new` binds a builder to. */
  const DEV_CUSE: string := "/dev/cuse"

  /** A name the kernel accepts for a CUSE device: non-empty and without NUL bytes. */
  datatype CuseDeviceName = CuseDeviceName(bytes: seq<u8>)

  predicate ValidDeviceName(bytes: seq<u8>)
  {
    |bytes| > 0 && 0 !in bytes
  }

  /** `CuseDeviceName::from_bytes`: the name, when it is one. */
  function DeviceNameFromBytes(bytes: seq<u8>): (r: Option<CuseDeviceName>)
    ensures r.Some? <==> ValidDeviceName(bytes)
    ensures r.Some? ==> r.value.bytes == bytes
  {
    if |bytes| == 0 || 0 in bytes then None else Some(CuseDeviceName(bytes))
  }

  /** Which check an invalid name failed. */
  datatype NameDefect = Empty | ContainsNul

  datatype IoErrorKind = InvalidInput | OsError

  /**
    The `io::Error`s of `build`: a rejected name, the open's own failure with
    its OS error number, or the failure `CuseServer::new` reports, identified
    by a code of its own.
   */
  datatype IoError =
    | InvalidDeviceName(name: seq<u8>, defect: NameDefect)
    | OpenFailed(errno: nat)
    | ServerStartFailed(code: nat)

  function Kind(e: IoError): (k: IoErrorKind)
  {
    match e
    case InvalidDeviceName(_, _) => InvalidInput
    case OpenFailed(_) => OsError
    case ServerStartFailed(_) => OsError
  }

  datatype CuseServerBuilder<H> = CuseServerBuilder(devCuse: string, deviceName: seq<u8>, handlers: H)

  /** `CuseServerBuilder::new`. */
  function NewBuilder<H>(deviceName: seq<u8>, handlers: H): (b: CuseServerBuilder<H>)
    ensures b.devCuse == DEV_CUSE && b.deviceName == deviceName && b.handlers == handlers
  {
    CuseServerBuilder(DEV_CUSE, deviceName, handlers)
  }

  /**
    The name check of `build`: a valid name becomes a `CuseDeviceName`; an
    empty name is reported as empty before anything else, and any other
    rejected name as containing NUL. Both are `InvalidInput` errors naming
    the offending name.
   */
  function ValidateDeviceName(name: seq<u8>): (r: Result<CuseDeviceName, IoError>)
    ensures r.Ok? <==> ValidDeviceName(name)
    ensures r.Ok? ==> r.value.bytes == name
    ensures r.Err? ==> Kind(r.error) == InvalidInput && r.error.name == name
    ensures r.Err? && |name| == 0 ==> r.error.defect == Empty
    ensures r.Err? && |name| > 0 ==> r.error.defect == ContainsNul && 0 in name
  {
    match DeviceNameFromBytes(name)
    case Some(x) => Ok(x)
    case None =>
      if |name| == 0 then Err(InvalidDeviceName(name, Empty))
      else Err(InvalidDeviceName(name, ContainsNul))
  }

  /** Each invalid name gets exactly one diagnosis, and the empty name is never said to contain NUL. */
  lemma OneDefectPerName(name: seq<u8>)
    requires !ValidDeviceName(name)
    ensures ValidateDeviceName(name) == Err(InvalidDeviceName(name, if |name| == 0 then Empty else ContainsNul))
    ensures ValidateDeviceName([]) == Err(InvalidDeviceName([], Empty))
  {
  }

  /** An open `/dev/cuse`: the path it was opened at and its descriptor. */
  datatype File = File(path: string, fd: nat)

  datatype DevCuseChannel = DevCuseChannel(file: File)

  datatype CuseServer<H> = CuseServer(deviceName: CuseDeviceName, channel: DevCuseChannel, handlers: H)

  /**
    The result `build` returns, given what opening the device would answer
    (a descriptor, or an OS error number) and what `CuseServer::new` would
    answer on the opened channel (success, or a failure code).
   */
  function BuildOutcome<H>(b: CuseServerBuilder<H>, openAnswer: Result<nat, nat>, startAnswer: Result<(), nat>)
    : (r: Result<CuseServer<H>, IoError>)
  {
    match ValidateDeviceName(b.deviceName)
    case Err(e) => Err(e)
    case Ok(name) =>
      match openAnswer
      case Err(errno) => Err(OpenFailed(errno))
      case Ok(fd) =>
        match startAnswer
        case Err(code) => Err(ServerStartFailed(code))
        case Ok(_) => Ok(CuseServer(name, DevCuseChannel(File(b.devCuse, fd)), b.handlers))
  }

  /**
    What `build` returns, case by case: a rejected name wins whatever the
    device and the server would answer; with a valid name, a failed open is
    passed on whatever the server would answer; after a successful open, a
    failed server start is passed on, and a successful one gives a server
    holding exactly the validated name, the device opened at the builder's
    path, and the builder's handlers.
   */
  lemma BuildOutcomeCases<H>(b: CuseServerBuilder<H>, openAnswer: Result<nat, nat>, startAnswer: Result<(), nat>,
                             otherOpen: Result<nat, nat>, otherStart: Result<(), nat>)
    ensures !ValidDeviceName(b.deviceName) ==>
              && BuildOutcome(b, openAnswer, startAnswer)
                 == Err(InvalidDeviceName(b.deviceName, if |b.deviceName| == 0 then Empty else ContainsNul))
              && BuildOutcome(b, openAnswer, startAnswer) == BuildOutcome(b, otherOpen, otherStart)
    ensures ValidDeviceName(b.deviceName) && openAnswer.Err? ==>
              && BuildOutcome(b, openAnswer, startAnswer) == Err(OpenFailed(openAnswer.error))
              && BuildOutcome(b, openAnswer, startAnswer) == BuildOutcome(b, openAnswer, otherStart)
    ensures ValidDeviceName(b.deviceName) && openAnswer.Ok? && startAnswer.Err? ==>
              BuildOutcome(b, openAnswer, startAnswer) == Err(ServerStartFailed(startAnswer.error))
    ensures ValidDeviceName(b.deviceName) && openAnswer.Ok? && startAnswer.Ok? ==>
              BuildOutcome(b, openAnswer, startAnswer)
              == Ok(CuseServer(CuseDeviceName(b.deviceName), DevCuseChannel(File(b.devCuse, openAnswer.value)), b.handlers))
  {
  }

  /** A builder made by `new` opens `/dev/cuse` and hands its name and handlers to the server unchanged. */
  lemma NewThenBuild<H>(name: seq<u8>, handlers: H, fd: nat)
    requires ValidDeviceName(name)
    ensures BuildOutcome(NewBuilder(name, handlers), Ok(fd), Ok(()))
         == Ok(CuseServer(CuseDeviceName(name), DevCuseChannel(File(DEV_CUSE, fd)), handlers))
  {
  }

  /**
    The files the process opens. `answer` is what the operating system
    gives the next open (a descriptor or an error number); `openedPaths` lists
    the paths opened so far.
   */
  class DeviceFiles {
    var openedPaths: seq<string>
    var answer: Result<nat, nat>

    constructor (answer: Result<nat, nat>)
      ensures this.answer == answer && openedPaths == []
    {
      this.answer := answer;
      openedPaths := [];
    }

    /** Opens `path` for reading and writing. */
    method Open(path: string) returns (r: Result<File, IoError>)
      modifies this
      ensures openedPaths == old(openedPaths) + [path] && answer == old(answer)
      ensures answer.Ok? ==> r == Ok(File(path, answer.value))
      ensures answer.Err? ==> r == Err(OpenFailed(answer.error))
    {
      openedPaths := openedPaths + [path];
      match answer
      case Ok(fd) => r := Ok(File(path, fd));
      case Err(errno) => r := Err(OpenFailed(errno));
    }
  }

  /**
    `build`: validates the name, then opens the device, then starts the
    server on it; `startAnswer` is what `CuseServer::new` answers. The
    result is `BuildOutcome` of the two answers; an invalid name opens
    nothing, a valid one opens exactly the builder's path, once.
   */
  method Build<H>(b: CuseServerBuilder<H>, files: DeviceFiles, startAnswer: Result<(), nat>)
    returns (r: Result<CuseServer<H>, IoError>)
    modifies files
    ensures r == BuildOutcome(b, old(files.answer), startAnswer)
    ensures files.answer == old(files.answer)
    ensures !ValidDeviceName(b.deviceName) ==> files.openedPaths == old(files.openedPaths)
    ensures ValidDeviceName(b.deviceName) ==> files.openedPaths == old(files.openedPaths) + [b.devCuse]
  {
    var name := ValidateDeviceName(b.deviceName);
    if name.Err? {
      return Err(name.error);
    }
    var file := files.Open(b.devCuse);
    if file.Err? {
      return Err(file.error);
    }
    if startAnswer.Err? {
      return Err(ServerStartFailed(startAnswer.error));
    }
    r := Ok(CuseServer(name.value, DevCuseChannel(file.value), b.handlers));
  }
}
