/**
 * `get_library_path`: where a library's jar lives under `<root>\libraries`, and
 * which of its candidate jars is used. A file "exists" when it is in `existing`.
 */
module Libraries {
  import opened Wrappers
  import opened Text
  import opened Manifest
  import opened Paths

  /** The key of the `natives` map that is looked up. */
  const NativesKey := "windows"

  datatype Coordinate = Coordinate(group: string, artifact: string, version: string)

  /** `group:artifact:version`, the first three fields of a coordinate string. */
  function CoordinateText(c: Coordinate): string
  {
    c.group + ":" + c.artifact + ":" + c.version
  }

  lemma JoinFirstThree(parts: seq<string>, sep: string)
    requires |parts| >= 3
    ensures Join(parts, sep) ==
      parts[0] + sep + parts[1] + sep + parts[2]
      + (if |parts| == 3 then "" else sep + Join(parts[3..], sep))
  {
    var tail := if |parts| == 3 then "" else sep + Join(parts[3..], sep);
    JoinCons(parts, sep);
    DropDrop(parts, 1);
    JoinCons(parts[1..], sep);
    DropDrop(parts, 2);
    if |parts| == 3 {
      assert parts[2..] == [parts[2]];
      AppendEmptyRight(parts[2]);
    } else {
      JoinCons(parts[2..], sep);
    }
    assert Join(parts[2..], sep) == parts[2] + tail;
    Reassociate(parts[0], sep, parts[1], sep, parts[2], tail);
  }

  /**
   * Splits a coordinate on ':' and keeps the first three fields; fewer than
   * three fields means the coordinate is unusable.
   */
  function ParseCoordinate(name: string): (r: Option<Coordinate>)
    ensures r.None? <==> Count(name, ':') < 2
    ensures r.Some? ==> ':' !in r.value.group && ':' !in r.value.artifact && ':' !in r.value.version
    ensures r.Some? ==>
      var prefix := CoordinateText(r.value);
      prefix <= name && (|name| == |prefix| || name[|prefix|] == ':')
  {
    var parts := Split(name, ':');
    if |parts| < 3 then None
    else
      JoinSplit(name, ':');
      JoinFirstThree(parts, ":");
      Some(Coordinate(parts[0], parts[1], parts[2]))
  }

  /** A field, the separator, and the rest, written right-nested. */
  lemma SplitFieldNested(x: string, rest: string, c: char)
    requires c !in x
    ensures Split(x + ([c] + rest), c) == [x] + Split(rest, c)
  {
    AppendAssoc(x, [c], rest);
    SplitField(x, rest, c);
  }

  /** The fields of `g:a:v` followed by nothing or by ':' and more fields. */
  lemma SplitCoordinate(g: string, a: string, v: string, rest: string)
    requires ':' !in g && ':' !in a && ':' !in v
    requires rest == [] || rest[0] == ':'
    ensures var parts := Split(g + ":" + a + ":" + v + rest, ':');
      |parts| >= 3 && parts[0] == g && parts[1] == a && parts[2] == v
  {
    Reassociate(g, [':'], a, [':'], v, rest);
    var tail: seq<string>;
    if rest == [] {
      AppendEmptyRight(v);
      SplitWithoutSeparator(v, ':');
      tail := [];
    } else {
      assert rest == [':'] + rest[1..];
      SplitFieldNested(v, rest[1..], ':');
      tail := Split(rest[1..], ':');
    }
    assert Split(v + rest, ':') == [v] + tail;
    SplitFieldNested(a, v + rest, ':');
    SplitFieldNested(g, a + ([':'] + (v + rest)), ':');
  }

  /** Whatever follows the third field (more fields, or nothing) is ignored. */
  lemma ParseCoordinateIgnoresRest(c: Coordinate, rest: string)
    requires ':' !in c.group && ':' !in c.artifact && ':' !in c.version
    requires rest == [] || rest[0] == ':'
    ensures ParseCoordinate(CoordinateText(c) + rest) == Some(c)
  {
    SplitCoordinate(c.group, c.artifact, c.version, rest);
  }

  /** The group with every '.' turned into the path separator. */
  function GroupPath(group: string): (r: string)
    ensures |r| == |group| && '.' !in r
    ensures forall i :: 0 <= i < |group| ==> r[i] == (if group[i] == '.' then Separator else group[i])
  {
    ReplaceCharPointwise(group, '.', Separator);
    ReplaceAll(group, ".", [Separator])
  }

  /** `<root>\libraries\<group path>\<artifact>\<version>`. */
  function LibraryDir(mcPath: string, c: Coordinate): string
  {
    PathJoin(PathJoin(PathJoin(PathJoin(mcPath, "libraries"), GroupPath(c.group)), c.artifact), c.version)
  }

  /** `<artifact>-<version>`. */
  function BaseFile(c: Coordinate): string
  {
    c.artifact + "-" + c.version
  }

  /** The native classifier for this platform, `${arch}` replaced by the target's bit width. */
  function NativeClassifier(lib: Library, arch: TargetArch): (r: Option<string>)
    ensures r.Some? <==> lib.natives.Some? && NativesKey in lib.natives.value
    ensures r.Some? && '$' !in lib.natives.value[NativesKey] ==> r.value == lib.natives.value[NativesKey]
  {
    if lib.natives.Some? && NativesKey in lib.natives.value then
      Some(ReplaceAll(lib.natives.value[NativesKey], "${arch}", ArchBits(arch)))
    else None
  }

  /** A classifier naming `${arch}` once, with no other '$', gets the target's bit width in its place. */
  lemma NativeClassifierArch(lib: Library, arch: TargetArch, before: string, after: string)
    requires lib.natives.Some? && NativesKey in lib.natives.value
    requires lib.natives.value[NativesKey] == before + "${arch}" + after
    requires '$' !in before && '$' !in after
    ensures NativeClassifier(lib, arch) == Some(before + ArchBits(arch) + after)
  {
    var pat, bits := "${arch}", ArchBits(arch);
    assert before + pat + after == before + (pat + after);
    ReplaceAllSkips(before, pat + after, pat, bits);
    ReplaceAllHit(pat, after, bits);
    assert ReplaceAll(before + (pat + after), pat, bits) == before + (bits + after);
    assert before + (bits + after) == before + bits + after;
  }

  function NativeJar(mcPath: string, c: Coordinate, classifier: string): string
  {
    PathJoin(LibraryDir(mcPath, c), BaseFile(c) + "-" + classifier + ".jar")
  }

  function PlainJar(mcPath: string, c: Coordinate): string
  {
    PathJoin(LibraryDir(mcPath, c), BaseFile(c) + ".jar")
  }

  /** The library declares a native for this platform and that jar exists. */
  predicate NativeFound(mcPath: string, lib: Library, c: Coordinate, arch: TargetArch, existing: set<string>)
  {
    NativeClassifier(lib, arch).Some? && NativeJar(mcPath, c, NativeClassifier(lib, arch).value) in existing
  }

  /** `get_library_path`: the existing native jar, else the existing plain jar, else nothing. */
  function GetLibraryPath(mcPath: string, lib: Library, arch: TargetArch, existing: set<string>): (r: Option<string>)
    ensures ParseCoordinate(lib.name).None? ==> r.None?
    ensures ParseCoordinate(lib.name).Some? ==>
      var c := ParseCoordinate(lib.name).value;
      && (NativeFound(mcPath, lib, c, arch, existing) ==>
            r == Some(NativeJar(mcPath, c, NativeClassifier(lib, arch).value)))
      && (!NativeFound(mcPath, lib, c, arch, existing) && PlainJar(mcPath, c) in existing ==>
            r == Some(PlainJar(mcPath, c)))
      && (!NativeFound(mcPath, lib, c, arch, existing) && PlainJar(mcPath, c) !in existing ==>
            r.None?)
    ensures r.Some? ==> r.value in existing
    ensures r.Some? ==>
      ParseCoordinate(lib.name).Some? &&
      LibraryDir(mcPath, ParseCoordinate(lib.name).value) + [Separator] <= r.value
  {
    match ParseCoordinate(lib.name)
    case None => None
    case Some(c) =>
      var nativePath :=
        if NativeClassifier(lib, arch).Some? then Some(NativeJar(mcPath, c, NativeClassifier(lib, arch).value))
        else None;
      if nativePath.Some? && nativePath.value in existing then nativePath
      else if PlainJar(mcPath, c) in existing then Some(PlainJar(mcPath, c))
      else None
  }
}
