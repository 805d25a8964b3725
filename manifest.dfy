/**
 * The version manifest (`<root>/versions/<id>/<id>.json`) as the launcher decodes
 * it, and the per-launch options.
 */
module Manifest {
  import opened Wrappers

  /** Rust's `u32`. */
  type U32 = x: int | 0 <= x < 0x1_0000_0000

  /** A decoded JSON value, kept only so that object-shaped arguments have contents. */
  datatype JsonValue =
    | JsonNull
    | JsonBool(b: bool)
    | JsonNumber(literal: string)
    | JsonString(s: string)
    | JsonArray(items: seq<JsonValue>)
    | JsonObject(fields: map<string, JsonValue>)

  /** One entry of `arguments.game`: a plain string, or a conditional object. */
  datatype GameArgument =
    | Plain(text: string)
    | Conditional(fields: map<string, JsonValue>)

  datatype Arguments = Arguments(game: seq<GameArgument>)

  /** The `os` constraint of a rule. */
  datatype Os = Os(name: Option<string>, arch: Option<string>)

  /** A platform rule; `action` is normally "allow" or "disallow". */
  datatype Rule = Rule(action: string, os: Option<Os>)

  /** A library entry: a `group:artifact:version` coordinate, rules and native classifiers. */
  datatype Library = Library(
    name: string,
    rules: Option<seq<Rule>>,
    natives: Option<map<string, string>>)

  datatype VersionJson = VersionJson(
    id: string,
    mainClass: string,
    minecraftArguments: Option<string>,
    arguments: Option<Arguments>,
    libraries: seq<Library>,
    assets: Option<string>,
    versionType: Option<string>)

  datatype LaunchOptions = LaunchOptions(
    javaPath: string,
    memory: Option<U32>,
    useSystemMemory: bool)

  /**
   * The architecture the launcher was compiled for. The source asks only whether
   * it is x86_64; every other target is treated as 32-bit x86.
   */
  datatype TargetArch = X86_64 | OtherArch

  /** The arch name a rule's `os.arch` is compared with. */
  function ArchName(arch: TargetArch): string
  {
    if arch == X86_64 then "x86_64" else "x86"
  }

  /** The value substituted for `${arch}` in a native classifier. */
  function ArchBits(arch: TargetArch): string
  {
    if arch == X86_64 then "64" else "32"
  }

  /** The two ways reading the manifest fails; both carry the manifest's path. */
  datatype LoadError =
    | NotFound(path: string)
    | InvalidData(path: string)

  /**
   * `read_version_json` with the file read and the JSON decoder as inputs:
   * `content` is what reading `path` gave (None when it failed) and `decoded`
   * what the decoder made of that content (None when it rejected it).
   */
  function ReadVersionJson(path: string, content: Option<string>, decoded: Option<VersionJson>)
    : (r: Result<VersionJson, LoadError>)
    ensures content.None? ==> r == Failure(NotFound(path))
    ensures content.Some? && decoded.None? ==> r == Failure(InvalidData(path))
    ensures r.Success? <==> content.Some? && decoded.Some?
    ensures r.Success? ==> r.value == decoded.value
  {
    if content.None? then Failure(NotFound(path))
    else if decoded.None? then Failure(InvalidData(path))
    else Success(decoded.value)
  }
}
