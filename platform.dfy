/**
 * The pieces of .NET that both programs call but that are not part of this model:
 * `System.Uri`, `System.Text.RegularExpressions.Regex` and `Process.Start`.
 * Each appears as a value the caller supplies.
 */
module Platform {
  import opened Wrappers

  /** C#'s `int`. */
  newtype int32 = x: int | -0x8000_0000 <= x < 0x8000_0000

  /** What the model reads of a parsed absolute `Uri`. */
  datatype Uri = Uri(scheme: string, host: string, absolutePath: string)

  /** `Uri.TryCreate(text, UriKind.Absolute, out uri)`: `None` when it returns false. */
  type UriParser = string -> Option<Uri>

  /** The outcome of a case-insensitive `Regex.IsMatch`: a match, no match, or an
    * `ArgumentException` because the pattern does not parse. */
  datatype RegexVerdict = Match | NoMatch | BadPattern

  /** `(pattern, input)` to the verdict of `Regex.IsMatch(input, pattern, RegexOptions.IgnoreCase)`. */
  type RegexEngine = (string, string) -> RegexVerdict
}
