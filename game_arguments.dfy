/**
 * `build_game_arguments`: the legacy argument string, then every plain
 * structured entry preceded by a space; nine placeholder replacements in a
 * fixed order; white space trimmed at both ends.
 */
module GameArguments {
  import opened Wrappers
  import opened Text
  import opened Manifest
  import opened Paths

  /** `${key}`. */
  function PlaceholderOf(key: string): (p: string)
    ensures |p| == |key| + 3 && p[0] == '$'
  {
    "${" + key + "}"
  }

  const PlaceholderUuid := "00000000-0000-0000-0000-000000000000"
  const PlaceholderAccessToken := "00000000000000000000000000000000"
  const UserType := "legacy"
  const VersionType := "WMML 0.1.26"

  /** The replacements as (placeholder key, value) pairs, in the order they run. */
  function Replacements(mcPath: string, versionName: string, playerName: string, assetsIndex: string)
    : (reps: seq<(string, string)>)
    ensures |reps| == 9
    ensures forall i :: 0 <= i < |reps| ==> WellFormedKey(reps[i].0)
    ensures forall i :: 5 <= i < |reps| ==> '$' !in reps[i].1
    ensures reps[0].1 == playerName && reps[1].1 == versionName && reps[2].1 == mcPath
    ensures reps[3].1 == PathJoin(mcPath, "assets") && reps[4].1 == assetsIndex
  {
    PlayerKeyTexts();
    AssetKeyTexts();
    AuthKeyTexts();
    TypeKeyTexts();
    UuidText();
    TokenText();
    TypeTexts();
    [ ("auth_player_name", playerName),
      ("version_name", versionName),
      ("game_directory", mcPath),
      ("assets_root", PathJoin(mcPath, "assets")),
      ("assets_index_name", assetsIndex),
      ("auth_uuid", PlaceholderUuid),
      ("auth_access_token", PlaceholderAccessToken),
      ("user_type", UserType),
      ("version_type", VersionType) ]
  }

  lemma PlayerKeyTexts()
    ensures WellFormedKey("auth_player_name") && WellFormedKey("version_name")
  {
  }

  lemma AssetKeyTexts()
    ensures WellFormedKey("game_directory") && WellFormedKey("assets_root") && WellFormedKey("assets_index_name")
  {
  }

  lemma AuthKeyTexts()
    ensures WellFormedKey("auth_uuid") && WellFormedKey("auth_access_token")
  {
  }

  lemma TypeKeyTexts()
    ensures WellFormedKey("user_type") && WellFormedKey("version_type")
  {
  }

  lemma UuidText()
    ensures '$' !in PlaceholderUuid
  {
  }

  lemma TokenText()
    ensures '$' !in PlaceholderAccessToken
  {
  }

  lemma TypeTexts()
    ensures '$' !in UserType && '$' !in VersionType
  {
  }

  /** The asset index name, empty when the manifest has none. */
  function AssetsIndex(v: VersionJson): string
  {
    if v.assets.Some? then v.assets.value else ""
  }

  /** What one structured entry contributes: a space and its text, or nothing. */
  function EntryText(arg: GameArgument): string
  {
    if arg.Plain? then [' '] + arg.text else ""
  }

  /** The contributions of the structured entries, in order. */
  function StructuredText(game: seq<GameArgument>): string
  {
    if game == [] then "" else StructuredText(game[..|game| - 1]) + EntryText(game[|game| - 1])
  }

  /** The argument text before any replacement. */
  function RawArguments(v: VersionJson): string
  {
    (if v.minecraftArguments.Some? then v.minecraftArguments.value else "")
    + (if v.arguments.Some? then StructuredText(v.arguments.value.game) else "")
  }

  /** The replacements applied one after the other, each to the previous result. */
  function ReplaceSeq(s: string, reps: seq<(string, string)>): string
  {
    if reps == [] then s
    else
      var last := reps[|reps| - 1];
      ReplaceAll(ReplaceSeq(s, reps[..|reps| - 1]), PlaceholderOf(last.0), last.1)
  }

  /** The string `build_game_arguments` returns. */
  function GameArgumentsText(mcPath: string, versionName: string, playerName: string, v: VersionJson): string
  {
    Trim(ReplaceSeq(RawArguments(v), Replacements(mcPath, versionName, playerName, AssetsIndex(v))))
  }

  /** `build_game_arguments`. */
  method BuildGameArguments(mcPath: string, versionName: string, playerName: string, v: VersionJson)
    returns (result: string)
    ensures result == GameArgumentsText(mcPath, versionName, playerName, v)
  {
    var assetsIndex := if v.assets.Some? then v.assets.value else "";
    var args := "";
    if v.minecraftArguments.Some? {
      args := args + v.minecraftArguments.value;
      AppendEmptyLeft(v.minecraftArguments.value);
    }
    ghost var legacy := args;
    if v.arguments.Some? {
      args := AppendPlainEntries(args, v.arguments.value.game);
    } else {
      AppendEmptyRight(legacy);
    }
    assert args == RawArguments(v);
    var replacements := Replacements(mcPath, versionName, playerName, assetsIndex);
    args := ApplyReplacements(args, replacements);
    result := Trim(args);
  }

  /** The loop over `arguments.game` of `build_game_arguments`: a space and the text of each plain entry. */
  method AppendPlainEntries(s: string, game: seq<GameArgument>) returns (args: string)
    ensures args == s + StructuredText(game)
  {
    args := s;
    for i := 0 to |game|
      invariant args == s + StructuredText(game[..i])
    {
      ghost var before := args;
      if game[i].Plain? {
        args := args + [' '];
        args := args + game[i].text;
        AppendAssoc(before, [' '], game[i].text);
      }
      PrefixSnoc(game, i);
      StructuredTextSnoc(game[..i], game[i]);
      AppendAssoc(s, StructuredText(game[..i]), EntryText(game[i]));
    }
    PrefixAll(game);
  }

  /** The replacement loop of `build_game_arguments`: `args = args.replace(placeholder, value)` per pair. */
  method ApplyReplacements(s: string, replacements: seq<(string, string)>) returns (args: string)
    ensures args == ReplaceSeq(s, replacements)
  {
    args := s;
    for j := 0 to |replacements|
      invariant args == ReplaceSeq(s, replacements[..j])
    {
      PrefixStep(replacements, j);
      var (placeholder, value) := replacements[j];
      args := ReplaceAll(args, PlaceholderOf(placeholder), value);
    }
    PrefixAll(replacements);
  }

  // ---------------------------------------------------------------------------
  // the structured entries

  lemma StructuredTextSnoc(game: seq<GameArgument>, arg: GameArgument)
    ensures StructuredText(game + [arg]) == StructuredText(game) + EntryText(arg)
  {
    assert (game + [arg])[..|game|] == game;
  }

  /** The structured text of two segments is the text of one after the other. */
  lemma {:induction false} StructuredTextAppend(a: seq<GameArgument>, b: seq<GameArgument>)
    ensures StructuredText(a + b) == StructuredText(a) + StructuredText(b)
  {
    if b == [] {
      assert a + b == a;
    } else {
      var init, last := b[..|b| - 1], b[|b| - 1];
      SplitLast(a, b);
      StructuredTextSnoc(a + init, last);
      StructuredTextSnoc(init, last);
      StructuredTextAppend(a, init);
      AppendAssoc(StructuredText(a), StructuredText(init), EntryText(last));
    }
  }

  /** A conditional entry contributes nothing, wherever it stands. */
  lemma ConditionalEntryIgnored(a: seq<GameArgument>, fields: map<string, JsonValue>, b: seq<GameArgument>)
    ensures StructuredText(a + [Conditional(fields)] + b) == StructuredText(a + b)
  {
    StructuredTextAppend(a + [Conditional(fields)], b);
    StructuredTextSnoc(a, Conditional(fields));
    StructuredTextAppend(a, b);
  }

  /** The texts of the plain entries, in order. */
  function PlainTexts(game: seq<GameArgument>): seq<string>
  {
    if game == [] then []
    else PlainTexts(game[..|game| - 1]) + (if game[|game| - 1].Plain? then [game[|game| - 1].text] else [])
  }

  /** The structured entries give their plain texts joined by spaces, after one leading space. */
  lemma {:induction false} StructuredTextIsSpaceJoined(game: seq<GameArgument>)
    ensures StructuredText(game) == if PlainTexts(game) == [] then "" else " " + Join(PlainTexts(game), " ")
  {
    if game != [] {
      var init := game[..|game| - 1];
      StructuredTextIsSpaceJoined(init);
      var last := game[|game| - 1];
      if last.Plain? {
        assert PlainTexts(game) == PlainTexts(init) + [last.text];
        if PlainTexts(init) != [] {
          JoinSnoc(PlainTexts(init), last.text, " ");
        }
      } else {
        assert PlainTexts(game) == PlainTexts(init);
      }
    }
  }

  // ---------------------------------------------------------------------------
  // templates: what the replacement pass does to a string built from plain text
  // and `${key}` placeholders

  /** A piece of an argument template. */
  datatype Piece = Literal(text: string) | Placeholder(key: string)

  function PieceText(p: Piece): string
  {
    match p
    case Literal(t) => t
    case Placeholder(k) => PlaceholderOf(k)
  }

  function Render(ps: seq<Piece>): string
  {
    if ps == [] then "" else PieceText(ps[0]) + Render(ps[1..])
  }

  /** A key that cannot run into a neighbouring placeholder. */
  predicate WellFormedKey(key: string)
  {
    '$' !in key && '}' !in key
  }

  /** Literal text holds no '$', so every '$' of the rendered string starts a placeholder. */
  predicate WellFormedPiece(p: Piece)
  {
    match p
    case Literal(t) => '$' !in t
    case Placeholder(k) => WellFormedKey(k)
  }

  predicate WellFormed(ps: seq<Piece>)
  {
    forall i :: 0 <= i < |ps| ==> WellFormedPiece(ps[i])
  }

  /** Replacement values that neither contain nor create a placeholder. */
  predicate SafeReplacements(reps: seq<(string, string)>)
  {
    forall i :: 0 <= i < |reps| ==> WellFormedKey(reps[i].0) && '$' !in reps[i].1
  }

  /** One pass of `key` over the pieces. */
  function Substitute(ps: seq<Piece>, key: string, value: string): seq<Piece>
  {
    seq(|ps|, i requires 0 <= i < |ps| => if ps[i] == Placeholder(key) then Literal(value) else ps[i])
  }

  /** The value of the first replacement for `key`. */
  function Lookup(reps: seq<(string, string)>, key: string): Option<string>
  {
    if reps == [] then None
    else if reps[0].0 == key then Some(reps[0].1)
    else Lookup(reps[1..], key)
  }

  /** A placeholder with a replacement becomes its value; everything else stays. */
  function ResolvePiece(p: Piece, reps: seq<(string, string)>): Piece
  {
    match p
    case Literal(_) => p
    case Placeholder(k) => if Lookup(reps, k).Some? then Literal(Lookup(reps, k).value) else p
  }

  function ResolveAll(ps: seq<Piece>, reps: seq<(string, string)>): seq<Piece>
  {
    seq(|ps|, i requires 0 <= i < |ps| => ResolvePiece(ps[i], reps))
  }

  /** `${k}` is '$' followed by `{k}`, which holds no '$'. */
  lemma PlaceholderShape(k: string, t: string)
    requires WellFormedKey(k)
    ensures (PlaceholderOf(k) + t)[0] == '$'
    ensures (PlaceholderOf(k) + t)[1..] == ("{" + k + "}") + t
    ensures '$' !in "{" + k + "}"
  {
    assert PlaceholderOf(k) == "$" + ("{" + k + "}");
  }

  /** Where the two differ in length, position `2 + min` tells them apart. */
  lemma PlaceholdersDiffer(k: string, key: string, t: string)
    requires k != key && WellFormedKey(k) && WellFormedKey(key)
    requires |PlaceholderOf(k) + t| >= |PlaceholderOf(key)|
    ensures (PlaceholderOf(k) + t)[..|PlaceholderOf(key)|] != PlaceholderOf(key)
  {
    var s, pat := PlaceholderOf(k) + t, PlaceholderOf(key);
    if |k| == |key| {
      var j :| 0 <= j < |k| && k[j] != key[j];
      assert s[2 + j] == k[j] && pat[2 + j] == key[j];
      assert s[..|pat|][2 + j] != pat[2 + j];
    } else if |k| < |key| {
      assert s[2 + |k|] == '}';
      assert pat[2 + |k|] == key[|k|];
      assert s[..|pat|][2 + |k|] != pat[2 + |k|];
    } else {
      assert pat[2 + |key|] == '}';
      assert s[2 + |key|] == k[|key|];
      assert s[..|pat|][2 + |key|] != pat[2 + |key|];
    }
  }

  /** A different placeholder is not an occurrence of `${key}`. */
  lemma OtherPlaceholderUntouched(k: string, key: string, t: string, v: string)
    requires k != key && WellFormedKey(k) && WellFormedKey(key)
    ensures ReplaceAll(PlaceholderOf(k) + t, PlaceholderOf(key), v) == PlaceholderOf(k) + ReplaceAll(t, PlaceholderOf(key), v)
  {
    var s, pat := PlaceholderOf(k) + t, PlaceholderOf(key);
    var tail := "{" + k + "}";
    if |s| >= |pat| {
      PlaceholdersDiffer(k, key, t);
      ReplaceAllMiss(s, pat, v);
      PlaceholderShape(k, t);
      ReplaceAllSkips(tail, t, pat, v);
      AppendAssoc("$", tail, ReplaceAll(t, pat, v));
      assert PlaceholderOf(k) == "$" + tail;
    }
  }

  /** One replacement on a rendered template replaces exactly the placeholders of its key. */
  lemma {:induction false} ReplaceRender(ps: seq<Piece>, key: string, value: string)
    requires WellFormed(ps) && WellFormedKey(key)
    ensures ReplaceAll(Render(ps), PlaceholderOf(key), value) == Render(Substitute(ps, key, value))
  {
    var pat := PlaceholderOf(key);
    var sub := Substitute(ps, key, value);
    if ps == [] {
      assert sub == [];
    } else {
      var rest := ps[1..];
      assert WellFormed(rest) by {
        forall i | 0 <= i < |rest| ensures WellFormedPiece(rest[i]) {
          assert rest[i] == ps[i + 1];
        }
      }
      ReplaceRender(rest, key, value);
      assert sub[1..] == Substitute(rest, key, value);
      assert WellFormedPiece(ps[0]);
      match ps[0]
      case Literal(t) =>
        ReplaceAllSkips(t, Render(rest), pat, value);
      case Placeholder(k) =>
        if k == key {
          ReplaceAllHit(pat, Render(rest), value);
        } else {
          OtherPlaceholderUntouched(k, key, Render(rest), value);
        }
    }
  }

  lemma {:induction false} LookupSnoc(reps: seq<(string, string)>, r: (string, string), key: string)
    ensures Lookup(reps + [r], key) ==
      if Lookup(reps, key).Some? then Lookup(reps, key)
      else if r.0 == key then Some(r.1)
      else None
  {
    if reps != [] {
      assert (reps + [r])[1..] == reps[1..] + [r];
      LookupSnoc(reps[1..], r, key);
    } else {
      assert (reps + [r])[1..] == [];
    }
  }

  lemma {:induction false} LookupFound(reps: seq<(string, string)>, key: string)
    requires Lookup(reps, key).Some?
    ensures (key, Lookup(reps, key).value) in reps
  {
    if reps[0].0 != key {
      LookupFound(reps[1..], key);
    }
  }

  /**
   * The sequence of replacements on a well-formed template resolves every
   * placeholder that has a replacement to the first value for its key, and
   * leaves every other piece as it is.
   */
  lemma {:induction false} ReplaceSeqRender(ps: seq<Piece>, reps: seq<(string, string)>)
    requires WellFormed(ps) && SafeReplacements(reps)
    ensures ReplaceSeq(Render(ps), reps) == Render(ResolveAll(ps, reps))
  {
    if reps == [] {
      assert ResolveAll(ps, reps) == ps;
    } else {
      var init, last := reps[..|reps| - 1], reps[|reps| - 1];
      assert reps == init + [last];
      assert SafeReplacements(init) by {
        forall i | 0 <= i < |init| ensures WellFormedKey(init[i].0) && '$' !in init[i].1 {
          assert init[i] == reps[i];
        }
      }
      ReplaceSeqRender(ps, init);
      var mid := ResolveAll(ps, init);
      assert WellFormed(mid) by {
        forall i | 0 <= i < |mid| ensures WellFormedPiece(mid[i]) {
          assert WellFormedPiece(ps[i]);
          if ps[i].Placeholder? && Lookup(init, ps[i].key).Some? {
            LookupFound(init, ps[i].key);
          }
        }
      }
      assert WellFormedKey(last.0);
      ReplaceRender(mid, last.0, last.1);
      var next := Substitute(mid, last.0, last.1);
      forall i | 0 <= i < |ps|
        ensures next[i] == ResolveAll(ps, reps)[i]
      {
        if ps[i].Placeholder? {
          LookupSnoc(init, last, ps[i].key);
        }
      }
      assert next == ResolveAll(ps, reps);
      assert ReplaceSeq(Render(ps), reps) == ReplaceAll(Render(mid), PlaceholderOf(last.0), last.1);
    }
  }

  lemma {:induction false} RenderAppend(a: seq<Piece>, b: seq<Piece>)
    ensures Render(a + b) == Render(a) + Render(b)
  {
    if a != [] {
      assert (a + b)[1..] == a[1..] + b;
      RenderAppend(a[1..], b);
    } else {
      assert a + b == b;
    }
  }

  lemma {:induction false} RenderWithoutPlaceholders(ps: seq<Piece>)
    requires forall i :: 0 <= i < |ps| ==> ps[i].Literal? && '$' !in ps[i].text
    ensures '$' !in Render(ps)
  {
    if ps != [] {
      RenderWithoutPlaceholders(ps[1..]);
    }
  }

  /** When every placeholder has a replacement, the result holds no '$' at all. */
  lemma AllPlaceholdersReplaced(ps: seq<Piece>, reps: seq<(string, string)>)
    requires WellFormed(ps) && SafeReplacements(reps)
    requires forall i :: 0 <= i < |ps| && ps[i].Placeholder? ==> Lookup(reps, ps[i].key).Some?
    ensures '$' !in ReplaceSeq(Render(ps), reps)
  {
    ReplaceSeqRender(ps, reps);
    var out := ResolveAll(ps, reps);
    forall i | 0 <= i < |out| ensures out[i].Literal? && '$' !in out[i].text {
      assert WellFormedPiece(ps[i]);
      if ps[i].Placeholder? {
        LookupFound(reps, ps[i].key);
      }
    }
    RenderWithoutPlaceholders(out);
  }

  lemma ResolveAllAppend(a: seq<Piece>, b: seq<Piece>, reps: seq<(string, string)>)
    ensures ResolveAll(a + b, reps) == ResolveAll(a, reps) + ResolveAll(b, reps)
  {
    var l, r := ResolveAll(a + b, reps), ResolveAll(a, reps) + ResolveAll(b, reps);
    forall i | 0 <= i < |l| ensures l[i] == r[i] {
      if i < |a| {
        assert (a + b)[i] == a[i];
      } else {
        assert (a + b)[i] == b[i - |a|];
      }
    }
  }

  /** A replacement for `${key}` passes over a different placeholder `${k}`, whatever surrounds it. */
  lemma OtherPlaceholderKept(a: string, k: string, b: string, key: string, v: string)
    requires k != key && WellFormedKey(k) && WellFormedKey(key)
    ensures ReplaceAll(a + (PlaceholderOf(k) + b), PlaceholderOf(key), v)
         == ReplaceAll(a, PlaceholderOf(key), v) + (PlaceholderOf(k) + ReplaceAll(b, PlaceholderOf(key), v))
  {
    PlaceholderShape(key, "");
    AppendEmptyRight(PlaceholderOf(key));
    PlaceholderShape(k, b);
    ReplaceAllSplit(a, PlaceholderOf(k) + b, PlaceholderOf(key), v);
    OtherPlaceholderUntouched(k, key, b, v);
  }

  /**
   * A placeholder `${k}` that no replacement names comes through verbatim, in
   * its place, whatever text and values surround it: the text before and after
   * it is replaced as if it stood alone.
   */
  lemma {:induction false} UnknownPlaceholderKept(a: string, k: string, b: string, reps: seq<(string, string)>)
    requires WellFormedKey(k)
    requires forall i :: 0 <= i < |reps| ==> WellFormedKey(reps[i].0) && reps[i].0 != k
    ensures ReplaceSeq(a + (PlaceholderOf(k) + b), reps) == ReplaceSeq(a, reps) + (PlaceholderOf(k) + ReplaceSeq(b, reps))
  {
    if reps != [] {
      var init, last := reps[..|reps| - 1], reps[|reps| - 1];
      forall i | 0 <= i < |init| ensures WellFormedKey(init[i].0) && init[i].0 != k {
        assert init[i] == reps[i];
      }
      UnknownPlaceholderKept(a, k, b, init);
      OtherPlaceholderKept(ReplaceSeq(a, init), k, ReplaceSeq(b, init), last.0, last.1);
    }
  }

  // ---------------------------------------------------------------------------
  // the launcher's own replacement list

  /** No value after the player name holds a '$' when the caller's strings hold none. */
  lemma ReplacementValuesPlain(mcPath: string, versionName: string, playerName: string, assetsIndex: string)
    requires '$' !in mcPath && '$' !in versionName && '$' !in assetsIndex
    ensures var reps := Replacements(mcPath, versionName, playerName, assetsIndex);
      forall i :: 1 <= i < |reps| ==> '$' !in reps[i].1
  {
    assert '$' !in PathJoin(mcPath, "assets");
  }

  /** The nine replacements are safe when the caller's strings hold no '$'. */
  lemma ReplacementsSafe(mcPath: string, versionName: string, playerName: string, assetsIndex: string)
    requires '$' !in mcPath && '$' !in versionName && '$' !in playerName && '$' !in assetsIndex
    ensures SafeReplacements(Replacements(mcPath, versionName, playerName, assetsIndex))
  {
    ReplacementValuesPlain(mcPath, versionName, playerName, assetsIndex);
  }

  /**
   * In the launcher's result, a placeholder `${k}` that is not one of the nine
   * stays verbatim between the replaced text before it and the replaced text
   * after it.
   */
  lemma UnknownGameArgumentKept(mcPath: string, versionName: string, playerName: string, v: VersionJson,
                                a: string, k: string, b: string)
    requires RawArguments(v) == a + (PlaceholderOf(k) + b) && WellFormedKey(k)
    requires forall i :: 0 <= i < 9 ==> Replacements(mcPath, versionName, playerName, AssetsIndex(v))[i].0 != k
    ensures var reps := Replacements(mcPath, versionName, playerName, AssetsIndex(v));
      GameArgumentsText(mcPath, versionName, playerName, v)
      == Trim(ReplaceSeq(a, reps) + (PlaceholderOf(k) + ReplaceSeq(b, reps)))
  {
    UnknownPlaceholderKept(a, k, b, Replacements(mcPath, versionName, playerName, AssetsIndex(v)));
  }

  lemma {:induction false} ReplaceSeqAppend(s: string, a: seq<(string, string)>, b: seq<(string, string)>)
    ensures ReplaceSeq(s, a + b) == ReplaceSeq(ReplaceSeq(s, a), b)
  {
    if b == [] {
      assert a + b == a;
    } else {
      assert (a + b)[..|a + b| - 1] == a + b[..|b| - 1];
      ReplaceSeqAppend(s, a, b[..|b| - 1]);
    }
  }

  /**
   * The launcher's result for a well-formed template: every placeholder among
   * the nine replaced by its value, every other piece kept, then trimmed.
   */
  lemma GameArgumentsResolve(mcPath: string, versionName: string, playerName: string, v: VersionJson, ps: seq<Piece>)
    requires RawArguments(v) == Render(ps) && WellFormed(ps)
    requires '$' !in mcPath && '$' !in versionName && '$' !in playerName && '$' !in AssetsIndex(v)
    ensures GameArgumentsText(mcPath, versionName, playerName, v)
         == Trim(Render(ResolveAll(ps, Replacements(mcPath, versionName, playerName, AssetsIndex(v)))))
  {
    ReplacementsSafe(mcPath, versionName, playerName, AssetsIndex(v));
    ReplaceSeqRender(ps, Replacements(mcPath, versionName, playerName, AssetsIndex(v)));
  }

  /** A literal followed by one placeholder that has a replacement becomes the literal and the value. */
  lemma LiteralThenPlaceholder(a: string, key: string, reps: seq<(string, string)>)
    requires '$' !in a && WellFormedKey(key) && SafeReplacements(reps) && Lookup(reps, key).Some?
    ensures ReplaceSeq(a + PlaceholderOf(key), reps) == a + Lookup(reps, key).value
  {
    var ps := [Literal(a), Placeholder(key)];
    assert Render(ps[1..]) == PlaceholderOf(key) by {
      assert ps[1..][1..] == [];
    }
    assert WellFormed(ps) by {
      assert WellFormedPiece(ps[0]) && WellFormedPiece(ps[1]);
    }
    ReplaceSeqRender(ps, reps);
    var out := ResolveAll(ps, reps);
    assert out == [Literal(a), Literal(Lookup(reps, key).value)];
    assert Render(out[1..]) == Lookup(reps, key).value by {
      assert out[1..][1..] == [];
    }
  }

  /** Text without `$` holds no placeholder, so no list of replacements changes it. */
  lemma {:induction false} DollarFreeUnchanged(s: string, reps: seq<(string, string)>)
    requires '$' !in s
    ensures ReplaceSeq(s, reps) == s
  {
    if reps != [] {
      DollarFreeUnchanged(s, reps[..|reps| - 1]);
    }
  }

  /** One replacement of `${key}` after a `$`-free prefix puts the value in its place. */
  lemma PlaceholderAfterPrefix(prefix: string, key: string, value: string)
    requires '$' !in prefix
    ensures ReplaceAll(prefix + PlaceholderOf(key), PlaceholderOf(key), value) == prefix + value
  {
    var pat := PlaceholderOf(key);
    ReplaceAllSkips(prefix, pat, pat, value);
    assert pat + [] == pat;
    ReplaceAllHit(pat, [], value);
  }

  /** The first of a list of replacements, then the rest. */
  lemma FirstReplacementThenRest(s: string, reps: seq<(string, string)>)
    requires reps != []
    ensures ReplaceSeq(s, reps) == ReplaceSeq(ReplaceAll(s, PlaceholderOf(reps[0].0), reps[0].1), reps[1..])
  {
    assert reps == reps[..1] + reps[1..];
    ReplaceSeqAppend(s, reps[..1], reps[1..]);
    assert reps[..1][..0] == [];
  }

  /**
   * `--username ${auth_player_name}` becomes `--username <player name>`,
   * whatever the root, version name and asset index hold.
   */
  lemma UsernameArgument(mcPath: string, versionName: string, playerName: string, v: VersionJson)
    requires v.minecraftArguments == Some("--username " + PlaceholderOf("auth_player_name")) && v.arguments.None?
    requires '$' !in playerName
    requires playerName != [] && !IsWhitespace(playerName[|playerName| - 1])
    ensures GameArgumentsText(mcPath, versionName, playerName, v) == "--username " + playerName
  {
    var reps := Replacements(mcPath, versionName, playerName, AssetsIndex(v));
    assert RawArguments(v) == "--username " + PlaceholderOf("auth_player_name");
    FirstReplacementThenRest(RawArguments(v), reps);
    PlaceholderAfterPrefix("--username ", "auth_player_name", playerName);
    var r := "--username " + playerName;
    DollarFreeUnchanged(r, reps[1..]);
    assert r[0] == '-' && r[|r| - 1] == playerName[|playerName| - 1];
    TrimNoop(r);
  }

  /**
   * The replacements run one after the other over the whole string, so a
   * value that itself spells a later placeholder is replaced again: a player
   * named `${version_name}` is launched under the version's name.
   */
  lemma PlayerNameRescanned(mcPath: string, versionName: string, v: VersionJson)
    requires v.minecraftArguments == Some("--username " + PlaceholderOf("auth_player_name")) && v.arguments.None?
    requires '$' !in versionName
    requires versionName != [] && !IsWhitespace(versionName[|versionName| - 1])
    ensures GameArgumentsText(mcPath, versionName, PlaceholderOf("version_name"), v) == "--username " + versionName
  {
    var playerName := PlaceholderOf("version_name");
    var reps := Replacements(mcPath, versionName, playerName, AssetsIndex(v));
    assert RawArguments(v) == "--username " + PlaceholderOf("auth_player_name");
    FirstReplacementThenRest(RawArguments(v), reps);
    PlaceholderAfterPrefix("--username ", "auth_player_name", playerName);
    var rest := reps[1..];
    FirstReplacementThenRest("--username " + playerName, rest);
    PlaceholderAfterPrefix("--username ", "version_name", versionName);
    var r := "--username " + versionName;
    DollarFreeUnchanged(r, rest[1..]);
    assert r[0] == '-' && r[|r| - 1] == versionName[|versionName| - 1];
    TrimNoop(r);
  }
}
