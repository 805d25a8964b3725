# WMML launch pipeline, modelled in Dafny

WMML is a small Minecraft launcher for Windows written in Rust. It turns a
decoded version manifest and a game root directory into three strings and
hands the last of them to `cmd /K`:

- the **classpath**: the version jar, then every library included by its
  platform rules and found on disk, in manifest order, joined with `;`;
- the **game arguments**: the legacy `minecraftArguments` string, then every
  plain entry of `arguments.game` preceded by a space, with nine `${...}`
  placeholders replaced in a fixed order and white space trimmed;
- the **JVM command line**: the Java path, the optional heap flags, 27 fixed
  and path-derived JVM flags, `-cp`, the classpath, the main class and the
  game arguments, laid out by the format `{} {} {} -cp {} {} {}`.

The model follows the source function by function and keeps its form: the three loops
that update a variable (`check_library_rules`, `build_libraries_path`,
`build_game_arguments`) are methods with loops, each proved equal to a
specification function; the expression-only parts (`get_library_path`,
`build_java_command`, `normalize_path`) are functions. Properties of the
specification functions are lemmas.

Modules:

- `Wrappers`: `Option` and `Result`.
- `Text`: the Rust string operations the launcher relies on: `split` (empty
  fields kept), `join`, `replace` (left to right, non-overlapping, replaced
  text not rescanned), `trim` (Unicode `White_Space`), and the decimal
  formatting of a `u32`, each with its own laws.
- `Manifest`: the manifest records (`VersionJson`, `Library`, `Rule`, `Os`,
  `GameArgument`), the launch options, the target architecture and the two
  error kinds of reading the manifest.
- `Paths`: path joining (`a\b`) and `normalize_path`.
- `Rules`: `check_library_rules`.
- `Libraries`: `get_library_path`.
- `Classpath`: `build_libraries_path`.
- `GameArguments`: `build_game_arguments`, plus a theory of templates (text
  and `${key}` pieces) that says what the replacement pass does.
- `JavaCommand`: `build_java_command`.

Conventions: a path join is the concatenation `base + "\" + component`;
whether a file exists is membership in a set `existing` of path strings; the
compile-time architecture test is a parameter `arch` (`X86_64` or
`OtherArch`, the latter behaving as 32-bit x86).

## Model

| member | source | states |
|---|---|---|
| Manifest.ReadVersionJson | src/main.rs:136-144 | a failed read is `NotFound`, a rejected decode is `InvalidData`, success exactly when both steps succeed, carrying the decoded manifest |
| Paths.NormalizePath | src/main.rs:126-134 | same length; every `/` becomes `\`, every other character is kept; no `/` remains |
| Paths.NormalizePathIdempotent | src/main.rs:126-134 | normalising twice is normalising once |
| Rules.ApplyRule | src/main.rs:184-209 | a decisive rule (any `allow`; a `disallow` without `os` or with os name `windows`) sets its verdict (allow: true without `os`, false for another os name, `arch == target` or true without arch); every other rule keeps the running value |
| Rules.CheckLibraryRules | src/main.rs:169-213 | the result is the left-to-right fold of the per-rule updates from `true`, and `true` for absent or empty rules |
| Rules.NoRulesInclude | src/main.rs:169-172 | absent or empty rules include the library on every architecture |
| Rules.FoldAppend | src/main.rs:183-210 | folding over `a + b` is folding over `b` from the result for `a`: no rule stops the loop early |
| Rules.FoldKeeps | src/main.rs:200-209 | a run of non-decisive rules leaves the decision unchanged |
| Rules.LastDecisiveRuleWins | src/main.rs:181-212 | the last decisive rule alone decides, whatever precedes it |
| Rules.WithoutDecisiveRuleIncluded | src/main.rs:181-212 | a non-empty list without decisive rules includes the library |
| Rules.AllowThenDisallowExcludes | src/main.rs:181-212 | `[allow (no os), disallow (os windows)]` excludes the library |
| Rules.LoneDisallowExcludes | src/main.rs:200-204 | a lone `disallow` without `os` excludes on every architecture |
| Libraries.ParseCoordinate | src/main.rs:216-223 | no coordinate exactly when the name has fewer than two `:`; otherwise three `:`-free fields that, rejoined with `:`, are a prefix of the name ending at its end or at a `:` |
| Libraries.SplitCoordinate | src/main.rs:216 | splitting `g:a:v` followed by nothing or `:...` gives at least three fields, the first three being `g`, `a`, `v` |
| Libraries.ParseCoordinateIgnoresRest | src/main.rs:216-223 | fields beyond the third are ignored: `g:a:v` and `g:a:v:x...` give the same coordinate |
| Libraries.GroupPath | src/main.rs:221 | every `.` of the group becomes `\`, every other character is kept, none is added or dropped |
| Libraries.NativeClassifier | src/main.rs:233-235 | a classifier exists exactly when the library has natives with a `windows` entry; a `windows` entry without `$` is used unchanged |
| Libraries.NativeClassifierArch | src/main.rs:233-235 | the `windows` classifier `before${arch}after` (no other `$`) becomes `before64after` or `before32after` by architecture |
| Libraries.GetLibraryPath | src/main.rs:215-251 | no path for a short coordinate; otherwise the existing native jar `<artifact>-<version>-<classifier>.jar`, else the existing plain jar `<artifact>-<version>.jar`, else none; a returned path exists and lies under `libraries\<group path>\<artifact>\<version>\` |
| Classpath.BuildLibrariesPath | src/main.rs:146-167 | the result is the version jar followed by the resolved libraries in manifest order, joined with `;` |
| Classpath.LibraryEntriesAppend | src/main.rs:152-160 | the entries of two manifest segments are the entries of one after the other |
| Classpath.LibraryEntryOrigin | src/main.rs:152-160 | every library entry is the resolved path of some library of the manifest |
| Classpath.LibraryEntryPresent | src/main.rs:152-160 | every library that is included and found contributes its path |
| Classpath.LibraryEntriesMembers | src/main.rs:152-160 | a path is a library entry if and only if some library resolves to it |
| Classpath.LibraryEntriesBound | src/main.rs:152-160 | at most one entry per library |
| Classpath.UnresolvedLibraryOmitted | src/main.rs:153-159 | an excluded or missing library leaves the other entries exactly as without it |
| Classpath.ShortCoordinateOmitted | src/main.rs:216-219 | a coordinate with fewer than three fields never contributes |
| Classpath.DuplicateLibraryKept | src/main.rs:152-160 | a library listed twice appears twice: no de-duplication |
| Classpath.ClasspathRoundTrip | src/main.rs:147-166 | the first entry is the version jar, unconditionally; splitting the classpath on `;` gives back all entries when none holds `;` |
| Classpath.SingleLibraryClasspath | src/main.rs:146-167 | one plain library whose jar exists gives `<version jar>;<library jar>` |
| GameArguments.AppendPlainEntries | src/main.rs:270-277 | the loop appends a space and the text of each plain entry, in order, and nothing for object entries |
| GameArguments.ApplyReplacements | src/main.rs:292-294 | the loop applies the replacements one after the other, each to the previous result |
| GameArguments.BuildGameArguments | src/main.rs:253-297 | the result is the trimmed outcome of the nine ordered replacements on the legacy string followed by the plain entries |
| GameArguments.StructuredTextAppend | src/main.rs:271-276 | the entries of two segments contribute one after the other |
| GameArguments.ConditionalEntryIgnored | src/main.rs:272-275 | an object entry contributes nothing, wherever it stands |
| GameArguments.StructuredTextIsSpaceJoined | src/main.rs:271-276 | the entries give a leading space and the plain texts joined by spaces, or nothing when there are none |
| GameArguments.ReplaceRender | src/main.rs:293 | for a well-formed template (literal text free of `$`, keys free of `$` and `}`) and a key free of `$` and `}`, one replacement replaces exactly the placeholders with its key and nothing else |
| GameArguments.OtherPlaceholderUntouched | src/main.rs:293 | for `k` different from `key`, both free of `$` and `}`, `${k}` is not an occurrence of `${key}`: replacing `${key}` in `${k}` followed by any text keeps `${k}` and replaces only in the text |
| GameArguments.ReplaceSeqAppend | src/main.rs:292-294 | running two lists of replacements in a row is running their concatenation |
| GameArguments.ReplaceSeqRender | src/main.rs:292-294 | on a well-formed template, with replacement keys free of `$` and `}` and `$`-free values, the ordered replacements turn each placeholder into the value of its first matching key |
| GameArguments.AllPlaceholdersReplaced | src/main.rs:280-294 | for a well-formed template (literal text free of `$`, keys free of `$` and `}`) and replacements with `$`-free values, when every placeholder has a replacement no `$` is left |
| GameArguments.UnknownPlaceholderKept | src/main.rs:292-294 | for any text `a` and `b` and any values, `${k}` with `k` free of `$` and `}` and matching no key of the list (keys free of `$` and `}`) comes through verbatim between the replaced `a` and the replaced `b` |
| GameArguments.UnknownGameArgumentKept | src/main.rs:280-296 | in the launcher's result, a placeholder `${k}` with `k` free of `$` and `}` that is not one of the nine stays verbatim between the replaced text before and after it, before trimming |
| GameArguments.Replacements | src/main.rs:280-290 | nine replacements; every key is free of `$` and `}`; the values are, in order, the player name, the version name, the game root, `<root>\assets` and the asset index, then four fixed values free of `$` |
| GameArguments.ReplacementValuesPlain | src/main.rs:282-289 | the values after the player name contain no `$` when the root, version name and asset index contain none |
| GameArguments.ReplacementsSafe | src/main.rs:280-290 | all nine replacements are safe when the caller's strings contain no `$` |
| GameArguments.GameArgumentsResolve | src/main.rs:253-297 | when the root, version name, player name and asset index hold no `$` and the manifest's arguments form a well-formed template (literal text free of `$`, keys free of `$` and `}`), the result is the trimmed template with every known placeholder resolved |
| GameArguments.DollarFreeUnchanged | src/main.rs:292-294 | text without `$` comes through any list of replacements unchanged |
| GameArguments.LiteralThenPlaceholder | src/main.rs:292-294 | with well-formed keys and `$`-free values, a `$`-free literal followed by one known placeholder becomes the literal followed by the value |
| GameArguments.UsernameArgument | src/main.rs:253-297 | for a player name that is non-empty, holds no `$` and does not end in white space, `--username ${auth_player_name}` becomes `--username <player name>`, whatever the root, version name and asset index hold |
| GameArguments.PlayerNameRescanned | src/main.rs:280-294 | for a version name that is non-empty, holds no `$` and does not end in white space, a player named `${version_name}` ends up as the version name, whatever the root and asset index hold: values are rescanned by later replacements |
| JavaCommand.MemorySettings | src/main.rs:307-312 | the heap field is empty exactly when system memory is used or no size is set, and otherwise ends with a space |
| JavaCommand.MemorySettingsRoundTrip | src/main.rs:308-309 | when system memory is not requested and a size N is set, the heap field splits into `-XmxNM`, `-XmsNM` and an empty tail, and the decimal digits read back as N |
| JavaCommand.MemorySettingsTokens | src/main.rs:307-312 | in every case the heap field splits into its flags and one empty token |
| JavaCommand.CommonArgs | src/main.rs:315-392 | 27 flags in source order: seven encoding and hardening flags, the two version-file flags, twelve collector and Forge flags, the four natives-directory flags, the two brand flags |
| JavaCommand.CommonArgsRoundTrip | src/main.rs:314-392 | there are 27 common flags, and their space-joined text splits back into them when the root and version name hold no space |
| JavaCommand.ClientJarOnClasspath | src/main.rs:332-340 | when the version name is the manifest id, the client-jar flag names the classpath's first entry |
| JavaCommand.BuildJavaCommand | src/main.rs:394-398 | the command is `java + " " + heap + " " + common + " -cp " + classpath + " " + main class + " " + game arguments`, empty fields not collapsed |
| JavaCommand.CommandTokens | src/main.rs:307-398 | when the Java path, root, version name, classpath and main class hold no space, the command split at spaces is the Java path, the heap flags, one empty token, the 27 flags, `-cp`, the classpath, the main class and the game arguments' own tokens |
| Text.Split | src/main.rs:216 | one more field than separators; no field holds the separator |
| Text.JoinSplit | src/main.rs:216 | joining the fields of a split with the separator rebuilds the string |
| Text.SplitJoin | src/main.rs:162-166 | splitting a join of one or more separator-free parts gives the parts back |
| Text.ReplaceAll | src/main.rs:293 | a string shorter than the pattern, or without the pattern's first character, is unchanged; a replacement as long as the pattern keeps the length |
| Text.ReplaceAllSplit | src/main.rs:293 | when the pattern's first character does not recur in it, a replacement of `a + t` with `t` starting at that character is the replacement of `a` followed by that of `t` |
| Text.ReplaceCharPointwise | src/main.rs:127 | replacing a one-character pattern by a one-character value maps each character independently |
| Text.Trim | src/main.rs:296 | the result is a slice of the input with only white space before and after it, and it is empty or starts and ends with non-white-space |
| Text.TrimNoop | src/main.rs:296 | a string that starts and ends with non-white-space is its own trim |
| Text.DecimalRoundTrip | src/main.rs:309 | the decimal digits of a number read back as that number |

Further facts about the code:

- The classpath is not de-duplicated: a library listed twice appears twice
  (`Classpath.DuplicateLibraryKept`).
- Replacement order matters once a value holds `$`, because later
  replacements rescan each value (`GameArguments.PlayerNameRescanned`);
  `GameArguments.ReplaceSeqRender` gives the condition under which it does
  not.
- Without heap flags the command line has two spaces after the Java path, so
  splitting it at spaces yields an empty token; with heap flags there are
  also two spaces, because the heap field ends with one
  (`JavaCommand.CommandTokens`).
- The classpath's version jar is named after the manifest's `id`, while the
  client-jar flag uses the requested version name; the two agree only when
  these are equal (`JavaCommand.ClientJarOnClasspath`).

## Left out

- `main` and `launch_minecraft`: fixed configuration, process spawning through `cmd /K` and console output are I/O; the three builders they chain are modelled one by one.
- `read_version_json`: reading the file and decoding the JSON are inputs of `Manifest.ReadVersionJson`; only the mapping to the two error kinds is modelled, and the diagnostics' message text is not.
- `Path::exists`: replaced by membership in the caller's set `existing`.
- `cfg!(target_arch)`: a parameter; every target other than x86_64 behaves as the source's 32-bit branch.
- `to_str().unwrap_or("")` and `to_string_lossy`: paths are plain strings, so non-UTF-8 paths are not modelled.
- `Path::join` of an absolute or drive-prefixed component, which replaces the base instead of appending to it: every component joined by the launcher is treated as relative.
- Paths.PathJoin: always inserts `\`, whereas `push` adds no separator after an empty base, a base ending in `\` or `/`, or a bare drive prefix such as `C:`. The model therefore puts a separator after an empty or bare-drive root (`C:\libraries` where the source has `C:libraries`), and doubles it after a root ending in a separator, after an empty coordinate field (`a::`) and after a group ending in `.`.
- Paths.PathJoin: a group starting with `.` becomes a root-relative component (`\x`) that in the source replaces the base except for its drive, so that library path does not lie under `libraries\...`; the model appends it under `libraries` like any other component.
- `println!` and `eprintln!` output.
- JSON values inside object-shaped game arguments are kept as an abstract tree whose numbers are their literal text; the launcher never looks inside them.
