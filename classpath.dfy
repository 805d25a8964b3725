/**
 * `build_libraries_path`: the classpath, the version jar followed by every
 * included and resolvable library in manifest order, joined with ';'.
 */
module Classpath {
  import opened Wrappers
  import opened Text
  import opened Manifest
  import opened Paths
  import opened Rules
  import opened Libraries

  /** The path-list delimiter on Windows. */
  const PathListSeparator: char := ';'

  /** `<root>\versions\<id>\<id>.jar`, put on the classpath without an existence check. */
  function VersionJar(mcPath: string, id: string): string
  {
    PathJoin(PathJoin(PathJoin(mcPath, "versions"), id), id + ".jar")
  }

  /** The path a library contributes: its jar when its rules include it and the jar is found. */
  function Resolve(mcPath: string, lib: Library, arch: TargetArch, existing: set<string>): Option<string>
  {
    if EvalRules(lib.rules, arch) then GetLibraryPath(mcPath, lib, arch, existing) else None
  }

  /** The libraries' contributions, in manifest order. */
  function LibraryEntries(mcPath: string, libs: seq<Library>, arch: TargetArch, existing: set<string>): seq<string>
  {
    if libs == [] then []
    else
      var last := Resolve(mcPath, libs[|libs| - 1], arch, existing);
      LibraryEntries(mcPath, libs[..|libs| - 1], arch, existing) + (if last.Some? then [last.value] else [])
  }

  /** Every classpath entry: the version jar first, then the libraries. */
  function ClasspathEntries(mcPath: string, v: VersionJson, arch: TargetArch, existing: set<string>): seq<string>
  {
    [VersionJar(mcPath, v.id)] + LibraryEntries(mcPath, v.libraries, arch, existing)
  }

  /** The classpath string `build_libraries_path` returns. */
  function ClasspathString(mcPath: string, v: VersionJson, arch: TargetArch, existing: set<string>): string
  {
    Join(ClasspathEntries(mcPath, v, arch, existing), [PathListSeparator])
  }

  /** One more library of the manifest adds its contribution, if any, at the end. */
  lemma LibraryEntriesStep(mcPath: string, libs: seq<Library>, i: nat, arch: TargetArch, existing: set<string>)
    requires i < |libs|
    ensures var r := Resolve(mcPath, libs[i], arch, existing);
      LibraryEntries(mcPath, libs[..i + 1], arch, existing)
      == LibraryEntries(mcPath, libs[..i], arch, existing) + (if r.Some? then [r.value] else [])
  {
    PrefixStep(libs, i);
  }

  /** `build_libraries_path`; it never fails. */
  method BuildLibrariesPath(mcPath: string, v: VersionJson, arch: TargetArch, existing: set<string>)
    returns (classpath: string)
    ensures classpath == ClasspathString(mcPath, v, arch, existing)
  {
    var libraries := [VersionJar(mcPath, v.id)];
    for i := 0 to |v.libraries|
      invariant libraries == [VersionJar(mcPath, v.id)] + LibraryEntries(mcPath, v.libraries[..i], arch, existing)
    {
      LibraryEntriesStep(mcPath, v.libraries, i, arch, existing);
      var lib := v.libraries[i];
      var included := CheckLibraryRules(lib, arch);
      if !included {
        AppendEmptyRight(LibraryEntries(mcPath, v.libraries[..i], arch, existing));
        continue;
      }
      var libPath := GetLibraryPath(mcPath, lib, arch, existing);
      if libPath.Some? {
        AppendAssoc([VersionJar(mcPath, v.id)], LibraryEntries(mcPath, v.libraries[..i], arch, existing), [libPath.value]);
        libraries := libraries + [libPath.value];
      } else {
        AppendEmptyRight(LibraryEntries(mcPath, v.libraries[..i], arch, existing));
      }
    }
    PrefixAll(v.libraries);
    classpath := Join(libraries, [PathListSeparator]);
  }

  // ---------------------------------------------------------------------------
  // properties

  /** The entries of two manifest segments come out in segment order. */
  lemma {:induction false} LibraryEntriesAppend(mcPath: string, a: seq<Library>, b: seq<Library>, arch: TargetArch, existing: set<string>)
    ensures LibraryEntries(mcPath, a + b, arch, existing)
         == LibraryEntries(mcPath, a, arch, existing) + LibraryEntries(mcPath, b, arch, existing)
  {
    if b == [] {
      assert a + b == a;
    } else {
      assert (a + b)[..|a + b| - 1] == a + b[..|b| - 1];
      LibraryEntriesAppend(mcPath, a, b[..|b| - 1], arch, existing);
    }
  }

  /** Every entry comes from some library of the manifest. */
  lemma {:induction false} LibraryEntryOrigin(mcPath: string, libs: seq<Library>, arch: TargetArch, existing: set<string>, p: string)
    requires p in LibraryEntries(mcPath, libs, arch, existing)
    ensures exists i :: 0 <= i < |libs| && Resolve(mcPath, libs[i], arch, existing) == Some(p)
  {
    var n := |libs| - 1;
    var init := libs[..n];
    var last := Resolve(mcPath, libs[n], arch, existing);
    if p in LibraryEntries(mcPath, init, arch, existing) {
      LibraryEntryOrigin(mcPath, init, arch, existing, p);
      var i :| 0 <= i < |init| && Resolve(mcPath, init[i], arch, existing) == Some(p);
      assert libs[i] == init[i];
    } else {
      assert last == Some(p);
    }
  }

  /** Every library that resolves contributes its path. */
  lemma {:induction false} LibraryEntryPresent(mcPath: string, libs: seq<Library>, arch: TargetArch, existing: set<string>, p: string, i: nat)
    requires i < |libs| && Resolve(mcPath, libs[i], arch, existing) == Some(p)
    ensures p in LibraryEntries(mcPath, libs, arch, existing)
  {
    var n := |libs| - 1;
    var init := libs[..n];
    if i < n {
      assert init[i] == libs[i];
      LibraryEntryPresent(mcPath, init, arch, existing, p, i);
    }
  }

  /** An entry is on the classpath exactly when some library resolves to it. */
  lemma LibraryEntriesMembers(mcPath: string, libs: seq<Library>, arch: TargetArch, existing: set<string>, p: string)
    ensures p in LibraryEntries(mcPath, libs, arch, existing)
        <==> exists i :: 0 <= i < |libs| && Resolve(mcPath, libs[i], arch, existing) == Some(p)
  {
    if p in LibraryEntries(mcPath, libs, arch, existing) {
      LibraryEntryOrigin(mcPath, libs, arch, existing, p);
    }
    if exists i :: 0 <= i < |libs| && Resolve(mcPath, libs[i], arch, existing) == Some(p) {
      var i :| 0 <= i < |libs| && Resolve(mcPath, libs[i], arch, existing) == Some(p);
      LibraryEntryPresent(mcPath, libs, arch, existing, p, i);
    }
  }

  /** At most one entry per library. */
  lemma {:induction false} LibraryEntriesBound(mcPath: string, libs: seq<Library>, arch: TargetArch, existing: set<string>)
    ensures |LibraryEntries(mcPath, libs, arch, existing)| <= |libs|
  {
    if libs != [] {
      LibraryEntriesBound(mcPath, libs[..|libs| - 1], arch, existing);
    }
  }

  /** A library that is excluded or not found leaves the rest of the classpath as it was. */
  lemma UnresolvedLibraryOmitted(mcPath: string, a: seq<Library>, lib: Library, b: seq<Library>, arch: TargetArch, existing: set<string>)
    requires Resolve(mcPath, lib, arch, existing).None?
    ensures LibraryEntries(mcPath, a + [lib] + b, arch, existing) == LibraryEntries(mcPath, a + b, arch, existing)
  {
    LibraryEntriesAppend(mcPath, a + [lib], b, arch, existing);
    LibraryEntriesAppend(mcPath, a, [lib], arch, existing);
    LibraryEntriesAppend(mcPath, a, b, arch, existing);
    assert [lib][..0] == [];
  }

  /** A coordinate with fewer than three fields never contributes a path. */
  lemma ShortCoordinateOmitted(mcPath: string, lib: Library, arch: TargetArch, existing: set<string>)
    requires Count(lib.name, ':') < 2
    ensures Resolve(mcPath, lib, arch, existing).None?
  {
  }

  /** The same library listed twice is on the classpath twice. */
  lemma DuplicateLibraryKept(mcPath: string, lib: Library, arch: TargetArch, existing: set<string>, p: string)
    requires Resolve(mcPath, lib, arch, existing) == Some(p)
    ensures LibraryEntries(mcPath, [lib, lib], arch, existing) == [p, p]
  {
    LibraryEntriesAppend(mcPath, [lib], [lib], arch, existing);
    assert [lib][..0] == [];
    assert [lib] + [lib] == [lib, lib];
  }

  /** Splitting the classpath on ';' gives back its entries, when no entry holds a ';'. */
  lemma ClasspathRoundTrip(mcPath: string, v: VersionJson, arch: TargetArch, existing: set<string>)
    requires forall e :: e in ClasspathEntries(mcPath, v, arch, existing) ==> PathListSeparator !in e
    ensures Split(ClasspathString(mcPath, v, arch, existing), PathListSeparator)
         == ClasspathEntries(mcPath, v, arch, existing)
    ensures ClasspathEntries(mcPath, v, arch, existing)[0] == VersionJar(mcPath, v.id)
  {
    var entries := ClasspathEntries(mcPath, v, arch, existing);
    assert forall i :: 0 <= i < |entries| ==> PathListSeparator !in entries[i] by {
      forall i | 0 <= i < |entries| ensures PathListSeparator !in entries[i] {
        assert entries[i] in entries;
      }
    }
    SplitJoin(entries, PathListSeparator);
  }

  /**
   * A library without rules or natives whose plain jar exists is the only
   * entry after the version jar. For example, root `C:\mc`, id "1.20.1" and
   * "com.example:foolib:1.0" give
   * `C:\mc\versions\1.20.1\1.20.1.jar;C:\mc\libraries\com\example\foolib\1.0\foolib-1.0.jar`.
   */
  lemma SingleLibraryClasspath(mcPath: string, v: VersionJson, c: Coordinate, arch: TargetArch, existing: set<string>)
    requires ':' !in c.group && ':' !in c.artifact && ':' !in c.version
    requires v.libraries == [Library(CoordinateText(c), None, None)]
    requires PlainJar(mcPath, c) in existing
    ensures ClasspathString(mcPath, v, arch, existing) == VersionJar(mcPath, v.id) + ";" + PlainJar(mcPath, c)
  {
    assert CoordinateText(c) + "" == CoordinateText(c);
    ParseCoordinateIgnoresRest(c, "");
    var lib := v.libraries[0];
    assert Resolve(mcPath, lib, arch, existing) == Some(PlainJar(mcPath, c));
    assert v.libraries[..0] == [];
    assert LibraryEntries(mcPath, v.libraries, arch, existing) == [PlainJar(mcPath, c)];
    var entries := [VersionJar(mcPath, v.id), PlainJar(mcPath, c)];
    assert ClasspathEntries(mcPath, v, arch, existing) == entries;
    assert entries[1..] == [PlainJar(mcPath, c)];
    assert Join(entries[1..], [PathListSeparator]) == PlainJar(mcPath, c);
    assert Join(entries, [PathListSeparator]) == VersionJar(mcPath, v.id) + [PathListSeparator] + PlainJar(mcPath, c);
  }
}
