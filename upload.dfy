/**
 * The upload-extension check `allowed_file` (app.py:105-107) and the fixed
 * set of accepted extensions (app.py:22).
 */
module Upload {
  import opened Wrappers

  const AllowedExtensions: set<string> := {"pdf", "png", "jpg", "jpeg", "mp3"}

  /** Lower-cases an ASCII capital letter; every other character is kept. */
  function LowerChar(c: char): char {
    if 'A' <= c <= 'Z' then (c as int + 32) as char else c
  }

  /** `str.lower()` restricted to ASCII letters. */
  function Lower(s: string): (t: string)
    ensures |t| == |s|
    ensures forall i :: 0 <= i < |s| ==> t[i] == LowerChar(s[i])
  {
    if s == [] then [] else [LowerChar(s[0])] + Lower(s[1..])
  }

  /** `i` is the position of the last '.' in `s`. */
  predicate IsLastDot(s: string, i: nat) {
    i < |s| && s[i] == '.' && forall k :: i < k < |s| ==> s[k] != '.'
  }

  /** Position of the last '.', which is where `rsplit('.', 1)` cuts. */
  function LastDot(s: string): (r: Option<nat>)
    ensures r.None? <==> '.' !in s
    ensures r.Some? ==> IsLastDot(s, r.value)
  {
    if s == [] then None
    else if s[|s| - 1] == '.' then Some(|s| - 1)
    else
      assert s == s[..|s| - 1] + [s[|s| - 1]];
      LastDot(s[..|s| - 1])
  }

  /**
   * `filename.rsplit('.', 1)[1]`: the text after the last dot, which holds
   * no dot and ends the name right after a dot.
   */
  function Extension(filename: string): (ext: string)
    requires '.' in filename
    ensures '.' !in ext
    ensures |ext| < |filename| && filename[|filename| - |ext| - 1] == '.'
    ensures filename[|filename| - |ext|..] == ext
  {
    filename[LastDot(filename).value + 1..]
  }

  /**
   * True exactly when the name has a dot and the lower-cased text after its
   * last dot is an accepted extension; a name without a dot never passes.
   */
  function AllowedFile(filename: string): (ok: bool)
    ensures '.' !in filename ==> !ok
    ensures ok <==> exists i :: IsLastDot(filename, i) && Lower(filename[i + 1..]) in AllowedExtensions
  {
    '.' in filename && Lower(Extension(filename)) in AllowedExtensions
  }

  /** Case is ignored: an upper-case accepted extension passes. */
  lemma UpperCaseExtensionAccepted()
    ensures AllowedFile("Notes.PDF")
  {
    assert LastDot("Notes.PDF") == Some(5);
    assert Lower("PDF") == "pdf";
  }

  /** Only the last extension counts, and a bare extension without a dot is refused. */
  lemma OnlyLastExtensionCounts()
    ensures !AllowedFile("archive.pdf.gz")
    ensures !AllowedFile("pdf")
  {
    assert LastDot("archive.pdf.gz") == Some(11);
    assert Lower("gz") == "gz";
  }
}
