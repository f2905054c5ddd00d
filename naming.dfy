/** The file names both hosts write: the extension chosen from the language
    tag, the general solution file `task.<ext>`, and the per-sample files
    `task_sample_<n>.<ext>` of the beta host. */
module Naming {

  /** Extension map of both hosts: python, c, js and nvcc are known, any
      other tag falls back to "txt". */
  function Extension(language: string): string {
    if language == "python" then "py"
    else if language == "c" then "c"
    else if language == "js" then "js"
    else if language == "nvcc" then "cu"
    else "txt"
  }

  predicate Known(language: string) {
    language in {"python", "c", "js", "nvcc"}
  }

  /** The extension is "txt" exactly for unknown tags, and the four known
      tags get four different extensions. */
  lemma ExtensionFallback(language: string, other: string)
    ensures Extension(language) == "txt" <==> !Known(language)
    ensures Known(language) && Known(other) && language != other ==> Extension(language) != Extension(other)
  {
  }

  /** The general solution file `task.<ext>`. */
  function TaskFile(ext: string): string {
    "task." + ext
  }

  function DigitChar(d: nat): char
    requires d < 10
  {
    "0123456789"[d]
  }

  function DigitValue(c: char): nat {
    if '0' <= c <= '9' then c as int - '0' as int else 0
  }

  /** Python `str(n)` for a natural number: its decimal digits, most significant first. */
  function Decimal(n: nat): (s: string)
    ensures s != []
    decreases n
  {
    if n < 10 then [DigitChar(n)] else Decimal(n / 10) + [DigitChar(n % 10)]
  }

  /** Reads a string of decimal digits back as a number. */
  function DecimalValue(s: string): nat
    decreases |s|
  {
    if s == [] then 0 else 10 * DecimalValue(s[..|s| - 1]) + DigitValue(s[|s| - 1])
  }

  /** Reading back the rendering of `n` gives `n`. */
  lemma {:induction false} DecimalRoundTrip(n: nat)
    ensures DecimalValue(Decimal(n)) == n
    decreases n
  {
    var s := Decimal(n);
    if n < 10 {
      assert s[..0] == [];
    } else {
      DecimalRoundTrip(n / 10);
      assert s[..|s| - 1] == Decimal(n / 10);
    }
  }

  /** The file for the sample at zero-based position `i`: `task_sample_<i+1>.<ext>`. */
  function SampleFile(ext: string, i: nat): string {
    "task_sample_" + Decimal(i + 1) + "." + ext
  }

  /** Every file the beta host may write for `n` samples. */
  function Artifacts(ext: string, n: nat): set<string> {
    {TaskFile(ext)} + set i | 0 <= i < n :: SampleFile(ext, i)
  }

  /** Different samples get different files, and no sample file is the general file. */
  lemma SampleFilesDistinct(ext: string, i: nat, j: nat)
    ensures SampleFile(ext, i) == SampleFile(ext, j) ==> i == j
    ensures SampleFile(ext, i) != TaskFile(ext)
  {
    var fi := SampleFile(ext, i);
    assert fi[4] == '_';
    assert TaskFile(ext)[4] == '.';
    if fi == SampleFile(ext, j) {
      assert fi == "task_sample_" + Decimal(i + 1) + ("." + ext);
      assert SampleFile(ext, j) == "task_sample_" + Decimal(j + 1) + ("." + ext);
      Middle("task_sample_", Decimal(i + 1), Decimal(j + 1), "." + ext);
      DecimalRoundTrip(i + 1);
      DecimalRoundTrip(j + 1);
    }
  }

  /** Strings that agree around their middle parts agree in the middle. */
  lemma Middle(pre: string, a: string, b: string, post: string)
    requires pre + a + post == pre + b + post
    ensures a == b
  {
    assert |a| == |b|;
    DigitsAt(pre, a, post);
    DigitsAt(pre, b, post);
  }

  lemma DigitsAt(pre: string, digits: string, post: string)
    ensures (pre + digits + post)[|pre|..|pre| + |digits|] == digits
  {
  }
}
