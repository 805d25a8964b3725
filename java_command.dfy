/**
 * `build_java_command`: the Java executable, the heap flags, a fixed list of
 * JVM flags, the classpath, the main class and the game arguments, formatted
 * as one space-separated command line.
 */
module JavaCommand {
  import opened Wrappers
  import opened Text
  import opened Manifest
  import opened Paths
  import opened Classpath

  /** `-Xmx<n>M -Xms<n>M ` (with its trailing space) when a size is given and the system default is not asked for. */
  function MemorySettings(o: LaunchOptions): (m: string)
    ensures m == "" <==> (o.useSystemMemory || o.memory.None?)
    ensures m != "" ==> m[|m| - 1] == ' '
  {
    if !o.useSystemMemory && o.memory.Some? then
      var d := DecimalString(o.memory.value);
      "-Xmx" + d + "M -Xms" + d + "M "
    else ""
  }

  /** The two heap flags as the command line's tokens, or none. */
  function MemoryTokens(o: LaunchOptions): seq<string>
  {
    if !o.useSystemMemory && o.memory.Some? then
      var d := DecimalString(o.memory.value);
      ["-Xmx" + d + "M", "-Xms" + d + "M"]
    else []
  }

  /** `<root>\versions\<version>`. */
  function VersionDir(mcPath: string, versionName: string): string
  {
    PathJoin(PathJoin(mcPath, "versions"), versionName)
  }

  /** The natives directory; its name is fixed to the 64-bit Windows one whatever the target. */
  function NativesDir(mcPath: string, versionName: string): string
  {
    PathJoin(VersionDir(mcPath, versionName), "natives-windows-x86_64")
  }

  // The fixed flags, in source order. The few longer than 32 characters are
  // written as two or three literal pieces; the text is the same.

  /** Character encodings of the JVM and its standard streams. */
  const EncodingFlags: seq<string> := [
    "-Dfile.encoding=GB18030",
    "-Dsun.stdout.encoding=GB18030",
    "-Dsun.stderr.encoding=GB18030"]

  /** Remote-code and log4j lookup hardening. */
  const HardeningFlags: seq<string> := [
    "-Djava.rmi.server" + ".useCodebaseOnly=true",
    "-Dcom.sun.jndi.rmi.object" + ".trustURLCodebase=false",
    "-Dcom.sun.jndi.cosnaming.object" + ".trustURLCodebase=false",
    "-Dlog4j2.formatMsgNoLookups=true"]

  /** G1 garbage-collector tuning. */
  const GcFlags: seq<string> := [
    "-XX:+UnlockExperimentalVMOptions",
    "-XX:+UseG1GC",
    "-XX:G1NewSizePercent=20",
    "-XX:G1ReservePercent=20",
    "-XX:MaxGCPauseMillis=50",
    "-XX:G1HeapRegionSize=32m",
    "-XX:-UseAdaptiveSizePolicy",
    "-XX:-OmitStackTraceInFastThrow",
    "-XX:-DontCompileHugeMethods"]

  /** Forge compatibility and the heap dump file name. */
  const ForgeFlags: seq<string> := [
    "-Dfml.ignoreInvalidMinecraft" + "Certificates=true",
    "-Dfml.ignorePatchDiscrepancies=true",
    "-XX:HeapDumpPath=MojangTricks" + "IntelDriversForPerformance_" + "javaw.exe_minecraft.exe" + ".heapdump"]

  /** The launcher's brand and version. */
  const BrandFlags: seq<string> := [
    "-Dminecraft.launcher.brand=WMML",
    "-Dminecraft.launcher.version=0.1.26"]

  /** The log configuration file and the client jar. */
  function VersionFileFlags(mcPath: string, versionName: string): seq<string>
  {
    [ "-Dlog4j.configurationFile=" + PathJoin(VersionDir(mcPath, versionName), "log4j2.xml"),
      "-Dminecraft.client.jar=" + VersionJar(mcPath, versionName) ]
  }

  /** The four native-library search paths, all pointing at the natives directory. */
  function NativesFlags(mcPath: string, versionName: string): seq<string>
  {
    var dir := NativesDir(mcPath, versionName);
    [ "-Djava.library.path=" + dir,
      "-Djna.tmpdir=" + dir,
      "-Dorg.lwjgl.system" + ".SharedLibraryExtractPath=" + dir,
      "-Dio.netty.native.workdir=" + dir ]
  }

  /** The 27 common JVM flags, in source order. */
  function CommonArgs(mcPath: string, versionName: string): (r: seq<string>)
    ensures |r| == 27
    ensures r[..7] == EncodingFlags + HardeningFlags
    ensures r[7..9] == VersionFileFlags(mcPath, versionName)
    ensures r[9..21] == GcFlags + ForgeFlags
    ensures r[21..25] == NativesFlags(mcPath, versionName)
    ensures r[25..] == BrandFlags
  {
    EncodingFlags + HardeningFlags + VersionFileFlags(mcPath, versionName) + GcFlags + ForgeFlags
    + NativesFlags(mcPath, versionName) + BrandFlags
  }

  /**
   * `build_java_command`: the format string `"{} {} {} -cp {} {} {}"` puts a
   * single space between seven fields, the fourth being the literal `-cp`.
   */
  function BuildJavaCommand(mcPath: string, versionName: string, mainClass: string, libraries: string,
                            gameArgs: string, o: LaunchOptions): (r: string)
    ensures r == o.javaPath + " " + MemorySettings(o) + " " + Join(CommonArgs(mcPath, versionName), " ")
                 + " -cp " + libraries + " " + mainClass + " " + gameArgs
  {
    var common := Join(CommonArgs(mcPath, versionName), " ");
    var front := o.javaPath + " " + MemorySettings(o) + " " + common;
    JoinSevenFields(o.javaPath, MemorySettings(o), common, "-cp", libraries, mainClass, gameArgs, " ");
    AppendAssoc(front + " ", "-cp", " ");
    AppendAssoc(front, " ", "-cp" + " ");
    assert " " + ("-cp" + " ") == " -cp ";
    Join([o.javaPath, MemorySettings(o), Join(CommonArgs(mcPath, versionName), " "), "-cp",
          libraries, mainClass, gameArgs], " ")
  }

  // ---------------------------------------------------------------------------
  // properties

  /** Seven fields joined by `sep`: each field once, `sep` between neighbours, nothing dropped. */
  lemma JoinSevenFields(a: string, b: string, c: string, d: string, e: string, f: string, g: string, sep: string)
    ensures Join([a, b, c, d, e, f, g], sep) == a + sep + b + sep + c + sep + d + sep + e + sep + f + sep + g
  {
    assert [a] + [b] == [a, b];
    JoinSnoc([a], b, sep);
    assert [a, b] + [c] == [a, b, c];
    JoinSnoc([a, b], c, sep);
    assert [a, b, c] + [d] == [a, b, c, d];
    JoinSnoc([a, b, c], d, sep);
    assert [a, b, c, d] + [e] == [a, b, c, d, e];
    JoinSnoc([a, b, c, d], e, sep);
    assert [a, b, c, d, e] + [f] == [a, b, c, d, e, f];
    JoinSnoc([a, b, c, d, e], f, sep);
    assert [a, b, c, d, e, f] + [g] == [a, b, c, d, e, f, g];
    JoinSnoc([a, b, c, d, e, f], g, sep);
  }

  lemma MemorySettingsRoundTrip(o: LaunchOptions)
    requires !o.useSystemMemory && o.memory.Some?
    ensures var d := DecimalString(o.memory.value);
      Split(MemorySettings(o), ' ') == MemoryTokens(o) + [""]
      && ParseDecimal(d) == o.memory.value
  {
    var d := DecimalString(o.memory.value);
    var xmx, xms := "-Xmx" + d + "M", "-Xms" + d + "M";
    assert ' ' !in d by {
      forall i | 0 <= i < |d| ensures d[i] != ' ' {
        assert IsDigit(d[i]);
      }
    }
    assert ' ' !in xmx && ' ' !in xms;
    assert MemorySettings(o) == xmx + [' '] + (xms + [' '] + "");
    SplitField(xmx, xms + [' '] + "", ' ');
    SplitField(xms, "", ' ');
    DecimalRoundTrip(o.memory.value);
  }

  /** Without memory settings the heap field is empty. */
  lemma MemorySettingsTokens(o: LaunchOptions)
    ensures Split(MemorySettings(o), ' ') == MemoryTokens(o) + [""]
  {
    if !o.useSystemMemory && o.memory.Some? {
      MemorySettingsRoundTrip(o);
    }
  }

  predicate SpaceFree(flags: seq<string>)
  {
    forall i :: 0 <= i < |flags| ==> ' ' !in flags[i]
  }

  lemma SpaceFreeAppend(a: seq<string>, b: seq<string>)
    requires SpaceFree(a) && SpaceFree(b)
    ensures SpaceFree(a + b)
  {
    forall i | 0 <= i < |a + b| ensures ' ' !in (a + b)[i] {
      if i >= |a| {
        assert (a + b)[i] == b[i - |a|];
      }
    }
  }

  lemma HardeningTexts()
    ensures ' ' !in "-Djava.rmi.server" && ' ' !in ".useCodebaseOnly=true"
  {
  }

  lemma JndiTexts()
    ensures ' ' !in "-Dcom.sun.jndi.rmi.object" && ' ' !in ".trustURLCodebase=false"
  {
  }

  lemma HardeningFlagsSpaceFree()
    ensures SpaceFree(HardeningFlags)
  {
    HardeningTexts();
    JndiTexts();
    assert ' ' !in "-Dcom.sun.jndi.cosnaming.object";
    assert ' ' !in "-Dlog4j2.formatMsgNoLookups=true";
  }

  lemma GcTexts()
    ensures ' ' !in "-XX:+UnlockExperimentalVMOptions" && ' ' !in "-XX:+UseG1GC"
  {
  }

  lemma GcSizeTexts()
    ensures ' ' !in "-XX:G1NewSizePercent=20" && ' ' !in "-XX:G1ReservePercent=20"
  {
  }

  lemma GcPolicyTexts()
    ensures ' ' !in "-XX:MaxGCPauseMillis=50" && ' ' !in "-XX:G1HeapRegionSize=32m"
  {
  }

  lemma GcCompileTexts()
    ensures ' ' !in "-XX:-OmitStackTraceInFastThrow" && ' ' !in "-XX:-DontCompileHugeMethods"
  {
  }

  lemma GcFlagsSpaceFree()
    ensures SpaceFree(GcFlags)
  {
    GcTexts();
    GcSizeTexts();
    GcPolicyTexts();
    GcCompileTexts();
    assert ' ' !in "-XX:-UseAdaptiveSizePolicy";
  }

  lemma ForgeTexts()
    ensures ' ' !in "-Dfml.ignoreInvalidMinecraft" && ' ' !in "Certificates=true"
  {
  }

  lemma ForgeFlagsSpaceFree()
    ensures SpaceFree(ForgeFlags)
  {
    ForgeTexts();
    PatchTexts();
    HeapDumpTexts();
    HeapDumpNameTexts();
  }

  lemma PatchTexts()
    ensures ' ' !in "-Dfml.ignorePatchDiscrepancies=true"
  {
  }

  lemma HeapDumpTexts()
    ensures ' ' !in "-XX:HeapDumpPath=MojangTricks" && ' ' !in ".heapdump"
  {
  }

  lemma HeapDumpNameTexts()
    ensures ' ' !in "IntelDriversForPerformance_" && ' ' !in "javaw.exe_minecraft.exe"
  {
  }

  lemma EncodingTexts()
    ensures ' ' !in "-Dfile.encoding=GB18030" && ' ' !in "-Dsun.stdout.encoding=GB18030"
  {
  }

  lemma EncodingFlagsSpaceFree()
    ensures SpaceFree(EncodingFlags)
  {
    EncodingTexts();
    assert ' ' !in "-Dsun.stderr.encoding=GB18030";
  }

  lemma BrandFlagsSpaceFree()
    ensures SpaceFree(BrandFlags)
  {
    assert ' ' !in "-Dminecraft.launcher.brand=WMML";
    assert ' ' !in "-Dminecraft.launcher.version=0.1.26";
  }

  /** None of the fixed flags holds a space. */
  lemma FixedFlagsSpaceFree()
    ensures SpaceFree(EncodingFlags) && SpaceFree(HardeningFlags) && SpaceFree(GcFlags)
    ensures SpaceFree(ForgeFlags) && SpaceFree(BrandFlags)
  {
    EncodingFlagsSpaceFree();
    HardeningFlagsSpaceFree();
    GcFlagsSpaceFree();
    ForgeFlagsSpaceFree();
    BrandFlagsSpaceFree();
  }

  lemma VersionDirSpaceFree(mcPath: string, versionName: string)
    requires ' ' !in mcPath && ' ' !in versionName
    ensures ' ' !in VersionDir(mcPath, versionName) && ' ' !in NativesDir(mcPath, versionName)
    ensures ' ' !in VersionJar(mcPath, versionName)
  {
    assert ' ' !in "natives-windows-x86_64";
  }

  /** The flags that name paths hold no space when the root and the version name hold none. */
  lemma PathFlagsSpaceFree(mcPath: string, versionName: string)
    requires ' ' !in mcPath && ' ' !in versionName
    ensures SpaceFree(VersionFileFlags(mcPath, versionName)) && SpaceFree(NativesFlags(mcPath, versionName))
  {
    VersionDirSpaceFree(mcPath, versionName);
    VersionFileTexts();
    assert ' ' !in "-Dminecraft.client.jar=";
    NativesTexts();
    LwjglTexts();
    assert ' ' !in "-Dio.netty.native.workdir=";
  }

  lemma VersionFileTexts()
    ensures ' ' !in "-Dlog4j.configurationFile=" && ' ' !in "log4j2.xml"
  {
  }

  lemma NativesTexts()
    ensures ' ' !in "-Djava.library.path=" && ' ' !in "-Djna.tmpdir="
  {
  }

  lemma LwjglTexts()
    ensures ' ' !in "-Dorg.lwjgl.system" && ' ' !in ".SharedLibraryExtractPath="
  {
  }

  /** The joined flags split back into the 27 flags when the root and the version name hold no space. */
  lemma CommonArgsRoundTrip(mcPath: string, versionName: string)
    requires ' ' !in mcPath && ' ' !in versionName
    ensures |CommonArgs(mcPath, versionName)| == 27
    ensures Split(Join(CommonArgs(mcPath, versionName), " "), ' ') == CommonArgs(mcPath, versionName)
  {
    FixedFlagsSpaceFree();
    PathFlagsSpaceFree(mcPath, versionName);
    var a1 := EncodingFlags + HardeningFlags;
    SpaceFreeAppend(EncodingFlags, HardeningFlags);
    var a2 := a1 + VersionFileFlags(mcPath, versionName);
    SpaceFreeAppend(a1, VersionFileFlags(mcPath, versionName));
    var a3 := a2 + GcFlags;
    SpaceFreeAppend(a2, GcFlags);
    var a4 := a3 + ForgeFlags;
    SpaceFreeAppend(a3, ForgeFlags);
    var a5 := a4 + NativesFlags(mcPath, versionName);
    SpaceFreeAppend(a4, NativesFlags(mcPath, versionName));
    SpaceFreeAppend(a5, BrandFlags);
    SplitJoin(CommonArgs(mcPath, versionName), ' ');
  }

  /** The client jar flag names the jar the classpath starts with, when the version name is the manifest's id. */
  lemma ClientJarOnClasspath(mcPath: string, v: VersionJson, arch: TargetArch, existing: set<string>)
    ensures "-Dminecraft.client.jar=" + ClasspathEntries(mcPath, v, arch, existing)[0] in CommonArgs(mcPath, v.id)
  {
    assert CommonArgs(mcPath, v.id)[8] == VersionFileFlags(mcPath, v.id)[1];
  }

  /** The last four fields, split at spaces: three space-free fields, then the game arguments' tokens. */
  lemma TailTokens(cp: string, libraries: string, mainClass: string, gameArgs: string)
    requires ' ' !in cp && ' ' !in libraries && ' ' !in mainClass
    ensures SplitEach([cp] + ([libraries] + ([mainClass] + [gameArgs])), ' ')
         == [cp, libraries, mainClass] + Split(gameArgs, ' ')
  {
    SplitWithoutSeparator(cp, ' ');
    SplitWithoutSeparator(libraries, ' ');
    SplitWithoutSeparator(mainClass, ' ');
    var g := Split(gameArgs, ' ');
    SplitEachCons(gameArgs, [], ' ');
    AppendEmptyRight([gameArgs]);
    AppendEmptyRight(g);
    SplitEachCons(mainClass, [gameArgs], ' ');
    SplitEachCons(libraries, [mainClass] + [gameArgs], ' ');
    SplitEachCons(cp, [libraries] + ([mainClass] + [gameArgs]), ' ');
    ConsThree(cp, libraries, mainClass, g);
  }

  /** The seven fields of the format string, split at spaces, in terms of each field's own tokens. */
  lemma FieldTokens(java: string, m: string, mTokens: seq<string>, c: string, cTokens: seq<string>,
                    cp: string, libraries: string, mainClass: string, gameArgs: string)
    requires ' ' !in java && ' ' !in cp && ' ' !in libraries && ' ' !in mainClass
    requires Split(m, ' ') == mTokens + [""] && Split(c, ' ') == cTokens
    ensures Split(Join([java, m, c, cp, libraries, mainClass, gameArgs], " "), ' ')
         == [java] + ((mTokens + [""]) + (cTokens + ([cp, libraries, mainClass] + Split(gameArgs, ' '))))
  {
    var r3 := [cp] + ([libraries] + ([mainClass] + [gameArgs]));
    var r2 := [c] + r3;
    var r1 := [m] + r2;
    var fields := [java] + r1;
    SevenFields(java, m, c, cp, libraries, mainClass, gameArgs);
    SplitJoinEach(fields, ' ');
    SplitWithoutSeparator(java, ' ');
    TailTokens(cp, libraries, mainClass, gameArgs);
    SplitEachCons(c, r3, ' ');
    SplitEachCons(m, r2, ' ');
    SplitEachCons(java, r1, ' ');
  }

  /**
   * The command line, split at spaces: the Java path, the heap flags, an empty
   * token (the heap field is followed by a second space, or is empty), the 27
   * flags, `-cp`, the classpath, the main class and the game arguments' own
   * tokens.
   */
  lemma CommandTokens(mcPath: string, versionName: string, mainClass: string, libraries: string,
                      gameArgs: string, o: LaunchOptions)
    requires ' ' !in o.javaPath && ' ' !in mcPath && ' ' !in versionName
    requires ' ' !in libraries && ' ' !in mainClass
    ensures Split(BuildJavaCommand(mcPath, versionName, mainClass, libraries, gameArgs, o), ' ')
         == [o.javaPath] + ((MemoryTokens(o) + [""])
            + (CommonArgs(mcPath, versionName) + (["-cp", libraries, mainClass] + Split(gameArgs, ' '))))
  {
    MemorySettingsTokens(o);
    CommonArgsRoundTrip(mcPath, versionName);
    assert ' ' !in "-cp";
    FieldTokens(o.javaPath, MemorySettings(o), MemoryTokens(o), Join(CommonArgs(mcPath, versionName), " "),
                CommonArgs(mcPath, versionName), "-cp", libraries, mainClass, gameArgs);
  }
}
