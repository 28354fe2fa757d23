/**
 * The output path: an explicit `--output-file` is used as given; otherwise
 * the input path is cut at its last '.' (Python `s[:s.rfind('.')]`) and
 * ".json" is appended.
 */
module OutputPath {
  import opened Wrappers

  /** Python `s.rfind(c)`: the index of the last occurrence of `c`, or -1. */
  function RFind(s: string, c: char): (r: int)
    ensures -1 <= r < |s|
    ensures r >= 0 ==> s[r] == c
    ensures forall j :: r < j < |s| ==> s[j] != c
  {
    if s == [] then -1
    else if s[|s| - 1] == c then |s| - 1
    else RFind(s[..|s| - 1], c)
  }

  /**
   * Python `s[:stop]`: a negative stop counts from the end, and the bound is
   * clamped to the string.
   */
  function SliceTo(s: string, stop: int): (r: string)
    ensures r <= s
    ensures |r| == if stop >= 0 then (if stop <= |s| then stop else |s|)
                   else (if |s| + stop >= 0 then |s| + stop else 0)
  {
    if stop >= 0 then (if stop <= |s| then s[..stop] else s)
    else (if |s| + stop >= 0 then s[..|s| + stop] else [])
  }

  /** The last occurrence of `c` is the one with no occurrence after it. */
  lemma RFindAt(s: string, c: char, k: nat)
    requires k < |s| && s[k] == c
    requires forall j :: k < j < |s| ==> s[j] != c
    ensures RFind(s, c) == k
  {
  }

  /** With no `c` from index `b` on, the last occurrence lies before `b`. */
  lemma RFindBefore(s: string, c: char, b: nat)
    requires b <= |s|
    requires forall j :: b <= j < |s| ==> s[j] != c
    ensures RFind(s, c) < b
  {
  }

  const JsonSuffix: string := ".json"

  /**
   * The default output path, as written: cut at the last '.' anywhere in the
   * path, then append ".json". The stem kept is a prefix of the input and,
   * for a non-empty input, always strictly shorter than it.
   */
  function DefaultOutputPath(input: string): (r: string)
    ensures |r| >= |JsonSuffix| && r[|r| - |JsonSuffix|..] == JsonSuffix
    ensures r[..|r| - |JsonSuffix|] <= input
    ensures input != [] ==> |r| - |JsonSuffix| < |input|
  {
    SliceTo(input, RFind(input, '.')) + JsonSuffix
  }

  /**
   * main: a non-empty `--output-file` is kept unchanged; a missing or empty
   * one (both are false in Python) is replaced by the default derivation.
   */
  function ResolveOutputPath(outputFile: Option<string>, input: string): (r: string)
    ensures outputFile.Some? && outputFile.value != [] ==> r == outputFile.value
    ensures outputFile.None? || outputFile.value == [] ==> r == DefaultOutputPath(input)
  {
    if outputFile.None? || outputFile.value == [] then DefaultOutputPath(input)
    else outputFile.value
  }

  /**
   * With a '.' in the path, the default is everything before the last '.',
   * followed by ".json"; that '.' may lie in a directory component.
   */
  lemma DefaultWithDot(input: string, k: nat)
    requires k < |input| && input[k] == '.'
    requires forall j :: k < j < |input| ==> input[j] != '.'
    ensures DefaultOutputPath(input) == input[..k] + JsonSuffix
  {
  }

  /**
   * With no '.' in the path, `rfind` gives -1 and the slice drops the last
   * character: the default is the input minus its final character, followed
   * by ".json" (just ".json" for an empty input).
   */
  lemma DefaultWithoutDot(input: string)
    requires forall j :: 0 <= j < |input| ==> input[j] != '.'
    ensures input != [] ==> DefaultOutputPath(input) == input[..|input| - 1] + JsonSuffix
    ensures input == [] ==> DefaultOutputPath(input) == JsonSuffix
  {
  }

  /**
   * The stem the evidently intended default keeps: the input without the
   * extension of its file name (the part after the last '/'), where a '.'
   * that starts the file name is not an extension; the whole input when the
   * file name has no extension.
   */
  function IntendedStem(input: string): (stem: string)
    ensures stem <= input
  {
    var start := RFind(input, '/') + 1;
    var dot := RFind(input[start..], '.');
    if dot <= 0 then input else input[..start + dot]
  }

  /** The evidently intended default: the intended stem followed by ".json". */
  function IntendedOutputPath(input: string): (r: string)
    ensures |r| >= |JsonSuffix| && r[|r| - |JsonSuffix|..] == JsonSuffix
    ensures r[..|r| - |JsonSuffix|] <= input
  {
    IntendedStem(input) + JsonSuffix
  }

  /** The intended default never cuts into a directory component. */
  lemma IntendedKeepsDirectories(input: string, k: nat)
    requires k < |input| && input[k] == '/'
    ensures input[..k + 1] <= IntendedOutputPath(input)
  {
  }

  /**
   * When the file name after the last '/' has no '.', the intended default
   * keeps the whole input, whatever dots the directories contain.
   */
  lemma IntendedNoExtensionInName(input: string, s: nat)
    requires s < |input| && input[s] == '/'
    requires forall j :: s < j < |input| ==> input[j] != '/' && input[j] != '.'
    ensures IntendedOutputPath(input) == input + JsonSuffix
  {
    assert RFind(input, '/') == s;
  }

  /** Without any '.' the intended default keeps the whole input. */
  lemma IntendedWithoutDot(input: string)
    requires forall j :: 0 <= j < |input| ==> input[j] != '.'
    ensures IntendedOutputPath(input) == input + JsonSuffix
  {
  }

  /**
   * Where the last '.' of the path is an extension of the file name, the
   * default as written and the intended default agree.
   */
  lemma DefaultAgreesOnExtensions(input: string, k: nat)
    requires 0 < k < |input| && input[k] == '.'
    requires forall j :: k < j < |input| ==> input[j] != '.'
    requires forall j :: k - 1 <= j < |input| ==> input[j] != '/'
    ensures DefaultOutputPath(input) == IntendedOutputPath(input) == input[..k] + JsonSuffix
  {
    DefaultWithDot(input, k);
    var start := RFind(input, '/') + 1;
    RFindBefore(input, '/', k - 1);
    var name := input[start..];
    forall j | k - start < j < |name|
      ensures name[j] != '.'
    {
      assert name[j] == input[start + j];
    }
    RFindAt(name, '.', k - start);
    assert IntendedStem(input) == input[..k];
  }

  /** Without a '.', the default as written loses the last character of the file name. */
  lemma NoDotDropsLastCharacter()
    ensures DefaultOutputPath("data/sample") == "data/sampl" + JsonSuffix
    ensures IntendedOutputPath("data/sample") == "data/sample" + JsonSuffix
  {
    var s := "data/sample";
    assert forall j :: 0 <= j < |s| ==> s[j] != '.';
    DefaultWithoutDot(s);
    assert s[..|s| - 1] == "data/sampl";
    IntendedWithoutDot(s);
  }

  /** A '.' in a directory component makes the default as written cut the directory. */
  lemma DirectoryDotCutsPath()
    ensures DefaultOutputPath("./hits") == ".json"
    ensures IntendedOutputPath("./hits") == "./hits" + JsonSuffix
  {
    DefaultWithDot("./hits", 0);
  }

  /** Example: "sample.hmmer.out" gives "sample.hmmer.json". */
  lemma SampleExample()
    ensures DefaultOutputPath("sample.hmmer.out") == "sample.hmmer" + JsonSuffix
  {
    DefaultWithDot("sample.hmmer.out", 12);
  }
}
