/** Windows paths as plain strings. */
module Paths {
  import opened Text

  /** `std::path::MAIN_SEPARATOR` on Windows. */
  const Separator: char := '\\'

  /** `Path::join` of a relative component, written as concatenation with the separator. */
  function PathJoin(base: string, component: string): string
  {
    base + [Separator] + component
  }

  /** `normalize_path`: every forward slash becomes a backslash. */
  function NormalizePath(path: string): (r: string)
    ensures |r| == |path|
    ensures forall i :: 0 <= i < |path| ==> r[i] == (if path[i] == '/' then '\\' else path[i])
    ensures '/' !in r
  {
    ReplaceCharPointwise(path, '/', '\\');
    ReplaceAll(path, "/", "\\")
  }

  /** Normalising a normalised path changes nothing. */
  lemma NormalizePathIdempotent(path: string)
    ensures NormalizePath(NormalizePath(path)) == NormalizePath(path)
  {
  }
}
