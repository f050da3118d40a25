/** POSIX path handling: `os.path.splitext` and the transcript's file name. */
module Paths {

  /** Index of the last `c` in `s`, or -1 (Python's `s.rfind(c)`). */
  function LastIndexOf(s: string, c: char): (r: int)
    ensures -1 <= r < |s|
    ensures r >= 0 ==> s[r] == c
    ensures forall k :: r < k < |s| ==> s[k] != c
  {
    if s == [] then -1
    else if s[|s| - 1] == c then |s| - 1
    else LastIndexOf(s[..|s| - 1], c)
  }

  /** The last `c` is at `i` when `s[i]` is `c` and nothing after it is. */
  lemma LastIndexOfAt(s: string, c: char, i: int)
    requires 0 <= i < |s| && s[i] == c
    requires forall k :: i < k < |s| ==> s[k] != c
    ensures LastIndexOf(s, c) == i
  {
  }

  lemma LastIndexOfAbsent(s: string, c: char)
    requires forall k :: 0 <= k < |s| ==> s[k] != c
    ensures LastIndexOf(s, c) == -1
  {
  }

  /** `os.path.splitext(p)` with `/` as the separator: the extension runs
      from the last dot of the last path component, unless every character
      before that dot in the component is a dot too (`.bashrc` has none). */
  function SplitExt(p: string): (parts: (string, string))
    ensures parts.0 + parts.1 == p
    ensures parts.1 == "" || parts.1[0] == '.'
    ensures forall k :: 0 < k < |parts.1| ==> parts.1[k] != '.' && parts.1[k] != '/'
    ensures parts.1 != "" ==> exists k :: LastIndexOf(p, '/') < k < |parts.0| && parts.0[k] != '.'
    ensures (exists k :: LastIndexOf(p, '/') < k < LastIndexOf(p, '.') && p[k] != '.') ==>
      parts == (p[..LastIndexOf(p, '.')], p[LastIndexOf(p, '.')..])
  {
    var sep := LastIndexOf(p, '/');
    var dot := LastIndexOf(p, '.');
    if dot > sep && exists k :: sep < k < dot && p[k] != '.' then
      assert p[..dot] + p[dot..] == p;
      (p[..dot], p[dot..])
    else
      (p, "")
  }

  const TranscriptSuffix: string := "_transcription.txt"

  /** The transcript path `main` derives from the audio path: the path
      without its extension, followed by `_transcription.txt`. */
  function OutputName(audioPath: string): (r: string)
    ensures |r| >= |TranscriptSuffix| && r[|r| - |TranscriptSuffix|..] == TranscriptSuffix
    ensures r[..|r| - |TranscriptSuffix|] + SplitExt(audioPath).1 == audioPath
  {
    SplitExt(audioPath).0 + TranscriptSuffix
  }

  /** The extension starts at `dot` when it is the last dot, it lies in
      the last component, and a non-dot character precedes it there. */
  lemma SplitExtAt(p: string, sep: int, dot: int, k: int)
    requires LastIndexOf(p, '/') == sep && LastIndexOf(p, '.') == dot
    requires sep < k < dot && p[k] != '.'
    ensures SplitExt(p) == (p[..dot], p[dot..])
  {
  }

  /** There is no extension when the last component's dots all lead it. */
  lemma SplitExtLeadingDots(p: string, sep: int, dot: int)
    requires LastIndexOf(p, '/') == sep && LastIndexOf(p, '.') == dot
    requires forall k :: sep < k < dot ==> p[k] == '.'
    ensures SplitExt(p) == (p, "")
  {
  }

  /** There is no extension when the last dot is in a directory name. */
  lemma SplitExtDotBeforeSep(p: string)
    requires LastIndexOf(p, '.') < LastIndexOf(p, '/')
    ensures SplitExt(p) == (p, "")
  {
  }

  /** The transcript path only depends on the root `splitext` gives. */
  lemma OutputNameFromRoot(p: string, root: string)
    requires SplitExt(p).0 == root
    ensures OutputName(p) == root + TranscriptSuffix
  {
  }

  /** The audio file name `main` is configured with. */
  lemma OutputNameOfDefault()
    ensures OutputName("audio1.mp3") == "audio1_transcription.txt"
  {
    var p := "audio1.mp3";
    assert p[..6] == "audio1";
    assert "audio1" + TranscriptSuffix == "audio1_transcription.txt";
    LastIndexOfAbsent(p, '/');
    LastIndexOfAt(p, '.', 6);
    SplitExtAt(p, -1, 6, 0);
    OutputNameFromRoot(p, "audio1");
  }

  /** Only the last extension is removed. */
  lemma OutputNameOfDoubleExtension()
    ensures OutputName("talk.tar.gz") == "talk.tar_transcription.txt"
  {
    var p := "talk.tar.gz";
    assert p[..8] == "talk.tar";
    assert "talk.tar" + TranscriptSuffix == "talk.tar_transcription.txt";
    LastIndexOfAbsent(p, '/');
    LastIndexOfAt(p, '.', 8);
    SplitExtAt(p, -1, 8, 0);
    OutputNameFromRoot(p, "talk.tar");
  }

  /** A dot in a directory name is not an extension. */
  lemma OutputNameOfDottedDirectory()
    ensures OutputName("rec.d/take") == "rec.d/take_transcription.txt"
  {
    var p := "rec.d/take";
    assert p + TranscriptSuffix == "rec.d/take_transcription.txt";
    LastIndexOfAt(p, '/', 5);
    LastIndexOfAt(p, '.', 3);
    SplitExtDotBeforeSep(p);
    OutputNameFromRoot(p, p);
  }

  /** A leading dot starts a hidden name, not an extension. */
  lemma OutputNameOfHiddenFile()
    ensures OutputName(".hidden") == ".hidden_transcription.txt"
  {
    var p := ".hidden";
    assert p + TranscriptSuffix == ".hidden_transcription.txt";
    LastIndexOfAbsent(p, '/');
    LastIndexOfAt(p, '.', 0);
    SplitExtLeadingDots(p, -1, 0);
    OutputNameFromRoot(p, p);
  }
}
